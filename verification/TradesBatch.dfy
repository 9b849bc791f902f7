/** Trades for many orders at once: what the cache has, then one direct query, then one library query
    per order if there is no direct fetcher or it fails. */
module TradesBatch {
  import opened Wrappers
  import opened AppCache

  const MAX_HASHES := 50

  /** The direct fetcher, if there is one, and the library query for a single order. */
  datatype Sources<!H, !E> = Sources(
    direct: Option<seq<H> -> Result<map<H, seq<E>>>>,
    library: H -> Result<seq<E>>)

  // ---------------------------------------------------------------- what is fetched for the misses

  /** What a direct answer means for an order: no group means no trades. */
  function Answer<H, E>(found: map<H, seq<E>>, h: H): seq<E> {
    if h in found then found[h] else []
  }

  function LibraryList<H, E>(sources: Sources<H, E>, h: H): seq<E> {
    if sources.library(h).Ok? then sources.library(h).value else []
  }

  predicate DirectAnswers<H, E>(sources: Sources<H, E>, misses: seq<H>) {
    sources.direct.Some? && sources.direct.value(misses).Ok?
  }

  /** The list served for a missing order. */
  function Fetched<H, E>(sources: Sources<H, E>, misses: seq<H>, h: H): seq<E> {
    if DirectAnswers(sources, misses) then Answer(sources.direct.value(misses).value, h) else LibraryList(sources, h)
  }

  function DirectInserts<H, E>(found: map<H, seq<E>>, misses: seq<H>): seq<(H, seq<E>)> {
    if misses == [] then []
    else
      var last := misses[|misses| - 1];
      DirectInserts(found, misses[..|misses| - 1]) + [(last, Answer(found, last))]
  }

  function LibraryInserts<H, E>(sources: Sources<H, E>, misses: seq<H>): seq<(H, seq<E>)> {
    if misses == [] then []
    else
      var last := misses[|misses| - 1];
      LibraryInserts(sources, misses[..|misses| - 1])
      + if sources.library(last).Ok? then [(last, sources.library(last).value)] else []
  }

  /** What is put into the cache for the misses: all of a direct answer, and of the library's answers
      those that did not fail. */
  function Inserts<H, E>(sources: Sources<H, E>, misses: seq<H>): seq<(H, seq<E>)> {
    if DirectAnswers(sources, misses) then DirectInserts(sources.direct.value(misses).value, misses)
    else LibraryInserts(sources, misses)
  }

  /** One entry per hash in request order. A miss is served what was fetched, anything else what was
      cached, and a repeated hash comes back empty. */
  ghost predicate Served<H, E>(sources: Sources<H, E>, hashes: seq<H>, before: map<H, seq<E>>, misses: seq<H>,
                               orders: seq<(H, seq<E>)>) {
    && |misses| <= |hashes| && (forall i :: 0 <= i < |misses| ==> misses[i] in hashes)
    && (forall i :: 0 <= i < |hashes| ==> hashes[i] in misses || hashes[i] in before)
    && |orders| == |hashes|
    && forall i :: 0 <= i < |hashes| ==>
         && orders[i].0 == hashes[i]
         && orders[i].1 == if hashes[i] in hashes[..i] then []
                           else if hashes[i] in misses then Fetched(sources, misses, hashes[i])
                           else before[hashes[i]]
  }

  /** An order is missing only if it was not cached or the cache forgot it while it was being looked up. */
  ghost predicate MissedOnly<H(!new), E>(misses: seq<H>, before: map<H, seq<E>>, forgets: nat -> set<H>, first: nat, end: nat) {
    forall h :: h in misses ==> h !in before || Forgot(forgets, first, end, h)
  }

  method LookUp<H(==, !new), E>(cache: AppCache<H, seq<E>>, hashes: seq<H>)
    returns (found: map<H, seq<E>>, misses: seq<H>)
    modifies cache`entries, cache`uses
    ensures cache.uses == old(cache.uses) + |hashes|
    ensures Within(cache.entries, old(cache.entries))
    ensures Remains(old(cache.entries), cache.entries, cache.forgets, old(cache.uses), cache.uses)
    ensures forall h :: h in hashes <==> h in found || h in misses
    ensures Within(found, old(cache.entries)) && |misses| <= |hashes|
    ensures MissedOnly(misses, old(cache.entries), cache.forgets, old(cache.uses), cache.uses)
    ensures forall h :: h in misses ==> h !in cache.entries
  {
    found, misses := map[], [];
    for i := 0 to |hashes|
      invariant |misses| <= i && cache.uses == old(cache.uses) + i
      invariant Within(cache.entries, old(cache.entries))
      invariant Remains(old(cache.entries), cache.entries, cache.forgets, old(cache.uses), cache.uses)
      invariant forall h :: h in hashes[..i] <==> h in found || h in misses
      invariant Within(found, old(cache.entries))
      invariant MissedOnly(misses, old(cache.entries), cache.forgets, old(cache.uses), cache.uses)
      invariant forall h :: h in misses ==> h !in cache.entries
    {
      ForgotLater(cache.forgets, old(cache.uses), cache.uses);
      var hit := cache.Get(hashes[i]);
      if hit.Some? {
        found := found[hashes[i] := hit.value];
      } else {
        misses := misses + [hashes[i]];
      }
    }
  }

  lemma ForgotLater<H(!new)>(forgets: nat -> set<H>, first: nat, end: nat)
    requires first <= end
    ensures forall h :: Forgot(forgets, first, end + 1, h) <==> Forgot(forgets, first, end, h) || h in forgets(end)
  {
    forall h ensures Forgot(forgets, first, end + 1, h) <==> Forgot(forgets, first, end, h) || h in forgets(end) {
      if Forgot(forgets, first, end, h) {
        var n: nat :| first <= n < end && h in forgets(n);
        assert first <= n < end + 1;
      }
    }
  }

  lemma InsertKeeps<H(!new), E>(full: map<H, seq<E>>, m: map<H, seq<E>>, h: H, list: seq<E>, forgets: nat -> set<H>, first: nat, end: nat)
    requires first <= end && Within(m, full) && Remains(full, m, forgets, first, end)
    ensures Within(m[h := list] - forgets(end), full[h := list])
    ensures Remains(full[h := list], m[h := list] - forgets(end), forgets, first, end + 1)
  {
    ForgotLater(forgets, first, end);
  }

  lemma NothingForgotten<H(!new), E>(m: map<H, seq<E>>, forgets: nat -> set<H>, first: nat)
    ensures Within(m, m) && Remains(m, m, forgets, first, first)
  {
  }

  method StoreDirect<H(==, !new), E>(cache: AppCache<H, seq<E>>, found: map<H, seq<E>>, misses: seq<H>,
                                     answer: map<H, seq<E>>) returns (all: map<H, seq<E>>)
    modifies cache
    ensures all.Keys == found.Keys + set h | h in misses
    ensures forall h :: h in all ==> all[h] == if h in misses then Answer(answer, h) else found[h]
    ensures cache.log == old(cache.log) + DirectInserts(answer, misses)
    ensures Within(cache.entries, Overlay(old(cache.entries), DirectInserts(answer, misses)))
    ensures cache.uses >= old(cache.uses)
    ensures Remains(Overlay(old(cache.entries), DirectInserts(answer, misses)), cache.entries, cache.forgets, old(cache.uses), cache.uses)
  {
    hide Overlay, DirectInserts, Answer, Within, Remains;
    all := found;
    NothingDirect(cache.entries, answer, misses);
    NothingForgotten(cache.entries, cache.forgets, cache.uses);
    for i := 0 to |misses|
      invariant all.Keys == found.Keys + set h | h in misses[..i]
      invariant forall h :: h in all ==> all[h] == if h in misses[..i] then Answer(answer, h) else found[h]
      invariant cache.log == old(cache.log) + DirectInserts(answer, misses[..i])
      invariant Within(cache.entries, Overlay(old(cache.entries), DirectInserts(answer, misses[..i])))
      invariant cache.uses >= old(cache.uses)
      invariant Remains(Overlay(old(cache.entries), DirectInserts(answer, misses[..i])), cache.entries, cache.forgets, old(cache.uses), cache.uses)
    {
      var trades := Answer(answer, misses[i]);
      InsertKeeps(Overlay(old(cache.entries), DirectInserts(answer, misses[..i])), cache.entries, misses[i], trades,
                  cache.forgets, old(cache.uses), cache.uses);
      cache.Insert(misses[i], trades);
      all := all[misses[i] := trades];
      OneMoreDirect(old(cache.entries), answer, misses, i);
    }
    assert misses[..|misses|] == misses;
  }

  lemma NothingDirect<H, E>(m: map<H, seq<E>>, answer: map<H, seq<E>>, misses: seq<H>)
    ensures DirectInserts(answer, misses[..0]) == [] && Overlay(m, []) == m
  {
  }

  lemma OneMoreDirect<H, E>(m: map<H, seq<E>>, answer: map<H, seq<E>>, misses: seq<H>, i: nat)
    requires i < |misses|
    ensures var inserts := DirectInserts(answer, misses[..i]);
            && DirectInserts(answer, misses[..i + 1]) == inserts + [(misses[i], Answer(answer, misses[i]))]
            && Overlay(m, DirectInserts(answer, misses[..i + 1])) == Overlay(m, inserts)[misses[i] := Answer(answer, misses[i])]
  {
    assert misses[..i + 1][..i] == misses[..i];
    OverlayOne(m, DirectInserts(answer, misses[..i]), misses[i], Answer(answer, misses[i]));
  }

  lemma OverlayOne<H, E>(m: map<H, seq<E>>, inserted: seq<(H, seq<E>)>, h: H, list: seq<E>)
    ensures Overlay(m, inserted + [(h, list)]) == Overlay(m, inserted)[h := list]
  {
    assert (inserted + [(h, list)])[..|inserted|] == inserted;
  }

  method StoreLibrary<H(==, !new), E>(cache: AppCache<H, seq<E>>, found: map<H, seq<E>>, misses: seq<H>,
                                      sources: Sources<H, E>) returns (all: map<H, seq<E>>)
    modifies cache
    ensures all.Keys == found.Keys + set h | h in misses
    ensures forall h :: h in all ==> all[h] == if h in misses then LibraryList(sources, h) else found[h]
    ensures cache.log == old(cache.log) + LibraryInserts(sources, misses)
    ensures Within(cache.entries, Overlay(old(cache.entries), LibraryInserts(sources, misses)))
    ensures cache.uses >= old(cache.uses)
    ensures Remains(Overlay(old(cache.entries), LibraryInserts(sources, misses)), cache.entries, cache.forgets, old(cache.uses), cache.uses)
  {
    hide Overlay, LibraryInserts, Within, Remains;
    all := found;
    NothingFromLibrary(cache.entries, sources, misses);
    NothingForgotten(cache.entries, cache.forgets, cache.uses);
    for i := 0 to |misses|
      invariant all.Keys == found.Keys + set h | h in misses[..i]
      invariant forall h :: h in all ==> all[h] == if h in misses[..i] then LibraryList(sources, h) else found[h]
      invariant cache.log == old(cache.log) + LibraryInserts(sources, misses[..i])
      invariant Within(cache.entries, Overlay(old(cache.entries), LibraryInserts(sources, misses[..i])))
      invariant cache.uses >= old(cache.uses)
      invariant Remains(Overlay(old(cache.entries), LibraryInserts(sources, misses[..i])), cache.entries, cache.forgets, old(cache.uses), cache.uses)
    {
      OneMoreFromLibrary(old(cache.entries), sources, misses, i);
      match sources.library(misses[i]) {
        case Ok(trades) =>
          InsertKeeps(Overlay(old(cache.entries), LibraryInserts(sources, misses[..i])), cache.entries, misses[i], trades,
                      cache.forgets, old(cache.uses), cache.uses);
          cache.Insert(misses[i], trades);
          all := all[misses[i] := trades];
        case Err =>
          all := all[misses[i] := []];
      }
    }
    assert misses[..|misses|] == misses;
  }

  lemma NothingFromLibrary<H, E>(m: map<H, seq<E>>, sources: Sources<H, E>, misses: seq<H>)
    ensures LibraryInserts(sources, misses[..0]) == [] && Overlay(m, []) == m
  {
  }

  lemma OneMoreFromLibrary<H, E>(m: map<H, seq<E>>, sources: Sources<H, E>, misses: seq<H>, i: nat)
    requires i < |misses|
    ensures var inserts, got := LibraryInserts(sources, misses[..i]), sources.library(misses[i]);
            && LibraryInserts(sources, misses[..i + 1]) == inserts + (if got.Ok? then [(misses[i], got.value)] else [])
            && Overlay(m, LibraryInserts(sources, misses[..i + 1]))
               == if got.Ok? then Overlay(m, inserts)[misses[i] := got.value] else Overlay(m, inserts)
  {
    assert misses[..i + 1][..i] == misses[..i];
    var inserts := LibraryInserts(sources, misses[..i]);
    if sources.library(misses[i]).Ok? {
      OverlayOne(m, inserts, misses[i], sources.library(misses[i]).value);
    } else {
      assert inserts + [] == inserts;
    }
  }

  /** One entry per hash of the request. Serving an entry uses it up, so a repeated hash comes back
      empty the second time. */
  method Collect<H(==), E>(all: map<H, seq<E>>, hashes: seq<H>) returns (orders: seq<(H, seq<E>)>)
    ensures |orders| == |hashes| && forall i :: 0 <= i < |hashes| ==> orders[i].0 == hashes[i]
    ensures forall i :: 0 <= i < |hashes| ==> orders[i].1 == if hashes[i] in hashes[..i] then [] else Answer(all, hashes[i])
  {
    var left := all;
    orders := [];
    for i := 0 to |hashes|
      invariant |orders| == i && forall j :: 0 <= j < i ==> orders[j].0 == hashes[j]
      invariant left == all - set h | h in hashes[..i]
      invariant forall j :: 0 <= j < i ==> orders[j].1 == if hashes[j] in hashes[..j] then [] else Answer(all, hashes[j])
    {
      orders := orders + [(hashes[i], Answer(left, hashes[i]))];
      left := left - {hashes[i]};
    }
  }

  /** The misses are fetched at one go by the direct fetcher, or one by one from the library. */
  method FetchMisses<H(==, !new), E>(cache: AppCache<H, seq<E>>, found: map<H, seq<E>>, misses: seq<H>,
                                     sources: Sources<H, E>) returns (all: map<H, seq<E>>)
    modifies cache
    ensures all.Keys == found.Keys + set h | h in misses
    ensures forall h :: h in all ==> all[h] == if h in misses then Fetched(sources, misses, h) else found[h]
    ensures cache.log == old(cache.log) + Inserts(sources, misses)
    ensures Within(cache.entries, Overlay(old(cache.entries), Inserts(sources, misses)))
    ensures cache.uses >= old(cache.uses)
    ensures Remains(Overlay(old(cache.entries), Inserts(sources, misses)), cache.entries, cache.forgets, old(cache.uses), cache.uses)
  {
    hide Overlay, DirectInserts, LibraryInserts, Answer, LibraryList, Within;
    if sources.direct.Some? {
      match sources.direct.value(misses) {
        case Ok(answer) => all := StoreDirect(cache, found, misses, answer);
        case Err => all := StoreLibrary(cache, found, misses, sources);
      }
    } else {
      all := StoreLibrary(cache, found, misses, sources);
    }
  }

  // ---------------------------------------------------------------- when what is served is true

  /** Every list in the map is one that is true of its order. Where rows tie, several may be. */
  ghost predicate Coherent<H(!new), E>(m: map<H, seq<E>>, truth: (H, seq<E>) -> bool) {
    forall h :: h in m ==> truth(h, m[h])
  }

  ghost predicate DirectIsTrue<H(!new), E>(sources: Sources<H, E>, truth: (H, seq<E>) -> bool) {
    forall hs, h :: h in hs && DirectAnswers(sources, hs) ==> truth(h, Answer(sources.direct.value(hs).value, h))
  }

  ghost predicate LibraryIsTrue<H(!new), E>(sources: Sources<H, E>, truth: (H, seq<E>) -> bool) {
    forall h :: sources.library(h).Ok? ==> truth(h, sources.library(h).value)
  }

  ghost predicate IsTrue<H(!new), E>(sources: Sources<H, E>, truth: (H, seq<E>) -> bool) {
    DirectIsTrue(sources, truth) && LibraryIsTrue(sources, truth)
  }

  /** The list is true, or it is empty because the library failed on the order. */
  ghost predicate TrueOrFailed<H, E>(list: seq<E>, h: H, sources: Sources<H, E>, truth: (H, seq<E>) -> bool) {
    truth(h, list) || (list == [] && sources.library(h).Err?)
  }

  ghost predicate FirstsAreTrue<H, E>(hashes: seq<H>, orders: seq<(H, seq<E>)>, sources: Sources<H, E>, truth: (H, seq<E>) -> bool) {
    |orders| == |hashes| && forall i :: 0 <= i < |hashes| && hashes[i] !in hashes[..i] ==>
      TrueOrFailed(orders[i].1, hashes[i], sources, truth)
  }

  ghost predicate DirectNeverFails<H(!new), E>(sources: Sources<H, E>) {
    forall hs :: DirectAnswers(sources, hs)
  }

  /** Which orders can have entered the cache: those asked for with a direct query that was answered, or
      for which the library did not fail. */
  ghost predicate OnlyFetched<H(!new), E>(now: map<H, seq<E>>, before: map<H, seq<E>>, hashes: seq<H>, sources: Sources<H, E>) {
    forall h :: h in now ==> h in before || (h in hashes && (AnsweredDirectly(sources, h) || sources.library(h).Ok?))
  }

  ghost predicate AnsweredDirectly<H(!new), E>(sources: Sources<H, E>, h: H) {
    exists hs :: h in hs && DirectAnswers(sources, hs)
  }

  /** The order was inserted with this list because it was missing and its fetch did not fail. */
  ghost predicate Earned<H(!new), E>(sources: Sources<H, E>, misses: seq<H>, inserted: (H, seq<E>)) {
    && inserted.0 in misses && inserted.1 == Fetched(sources, misses, inserted.0)
    && (DirectAnswers(sources, misses) || sources.library(inserted.0).Ok?)
  }

  lemma {:induction false} DirectInsertsEarned<H(!new), E>(sources: Sources<H, E>, misses: seq<H>, n: nat, i: nat)
    requires DirectAnswers(sources, misses) && n <= |misses|
    requires i < |DirectInserts(sources.direct.value(misses).value, misses[..n])|
    ensures Earned(sources, misses, DirectInserts(sources.direct.value(misses).value, misses[..n])[i])
  {
    assert misses[..n][..n - 1] == misses[..n - 1];
    if i < |DirectInserts(sources.direct.value(misses).value, misses[..n - 1])| {
      DirectInsertsEarned(sources, misses, n - 1, i);
    }
  }

  lemma {:induction false} LibraryInsertsEarned<H(!new), E>(sources: Sources<H, E>, misses: seq<H>, n: nat, i: nat)
    requires !DirectAnswers(sources, misses) && n <= |misses|
    requires i < |LibraryInserts(sources, misses[..n])|
    ensures Earned(sources, misses, LibraryInserts(sources, misses[..n])[i])
  {
    assert misses[..n][..n - 1] == misses[..n - 1];
    if i < |LibraryInserts(sources, misses[..n - 1])| {
      LibraryInsertsEarned(sources, misses, n - 1, i);
    }
  }

  lemma InsertsEarned<H(!new), E>(sources: Sources<H, E>, misses: seq<H>)
    ensures forall i :: 0 <= i < |Inserts(sources, misses)| ==> Earned(sources, misses, Inserts(sources, misses)[i])
  {
    assert misses[..|misses|] == misses;
    forall i | 0 <= i < |Inserts(sources, misses)| ensures Earned(sources, misses, Inserts(sources, misses)[i]) {
      if DirectAnswers(sources, misses) {
        DirectInsertsEarned(sources, misses, |misses|, i);
      } else {
        LibraryInsertsEarned(sources, misses, |misses|, i);
      }
    }
  }

  /** An entry is one that was there before, or one that was inserted. */
  lemma {:induction false} OverlayOrigin<H(!new), E>(m: map<H, seq<E>>, inserted: seq<(H, seq<E>)>, h: H)
    requires h in Overlay(m, inserted)
    ensures (h in m && Overlay(m, inserted)[h] == m[h])
         || exists i :: 0 <= i < |inserted| && inserted[i] == (h, Overlay(m, inserted)[h])
  {
    if inserted != [] {
      var last, rest := inserted[|inserted| - 1], inserted[..|inserted| - 1];
      if last.0 == h {
        assert inserted[|inserted| - 1] == (h, Overlay(m, inserted)[h]);
      } else {
        OverlayOrigin(m, rest, h);
        assert forall i :: 0 <= i < |rest| ==> rest[i] == inserted[i];
      }
    }
  }

  /** Whatever was fetched is true if the sources are, and a failed fetch is never cached. */
  lemma EarnedIsTrue<H(!new), E>(sources: Sources<H, E>, misses: seq<H>, inserted: (H, seq<E>), truth: (H, seq<E>) -> bool)
    requires Earned(sources, misses, inserted) && IsTrue(sources, truth)
    ensures truth(inserted.0, inserted.1)
  {
  }

  lemma CacheStaysTrue<H(!new), E>(sources: Sources<H, E>, hashes: seq<H>, misses: seq<H>, before: map<H, seq<E>>,
                                   now: map<H, seq<E>>, truth: (H, seq<E>) -> bool)
    requires Within(now, Overlay(before, Inserts(sources, misses)))
    requires forall i :: 0 <= i < |misses| ==> misses[i] in hashes
    ensures OnlyFetched(now, before, hashes, sources)
    ensures Coherent(before, truth) && IsTrue(sources, truth) ==> Coherent(now, truth)
  {
    hide Overlay, Inserts, IsTrue;
    var inserts := Inserts(sources, misses);
    InsertsEarned(sources, misses);
    forall h | h in now
      ensures h in before || (h in hashes && (AnsweredDirectly(sources, h) || sources.library(h).Ok?))
      ensures Coherent(before, truth) && IsTrue(sources, truth) ==> truth(h, now[h])
    {
      OverlayOrigin(before, inserts, h);
      if !(h in before && now[h] == before[h]) {
        var i: nat :| i < |inserts| && inserts[i] == (h, now[h]);
        assert Earned(sources, misses, inserts[i]);
        if IsTrue(sources, truth) {
          EarnedIsTrue(sources, misses, inserts[i], truth);
        }
      }
    }
  }

  lemma ServedIsTrue<H(!new), E>(sources: Sources<H, E>, hashes: seq<H>, before: map<H, seq<E>>, misses: seq<H>,
                                 orders: seq<(H, seq<E>)>, truth: (H, seq<E>) -> bool)
    requires Served(sources, hashes, before, misses, orders) && Coherent(before, truth) && IsTrue(sources, truth)
    ensures FirstsAreTrue(hashes, orders, sources, truth)
    ensures DirectNeverFails(sources) ==>
      forall i :: 0 <= i < |hashes| && hashes[i] !in hashes[..i] ==> truth(hashes[i], orders[i].1)
  {
    forall i | 0 <= i < |hashes| && hashes[i] !in hashes[..i]
      ensures TrueOrFailed(orders[i].1, hashes[i], sources, truth)
      ensures DirectAnswers(sources, misses) ==> truth(hashes[i], orders[i].1)
    {
    }
  }

  // ---------------------------------------------------------------- the endpoint

  /** `process_trades_batch`, whatever the cache forgets meanwhile and whichever source serves. With true
      sources a first occurrence is served a true list, or an empty one if the library failed on it. */
  method ProcessTradesBatch<H(==, !new), E>(cache: AppCache<H, seq<E>>, sources: Sources<H, E>, hashes: seq<H>,
                                            ghost truth: (H, seq<E>) -> bool)
    returns (orders: seq<(H, seq<E>)>, ghost misses: seq<H>)
    modifies cache
    ensures Served(sources, hashes, old(cache.entries), misses, orders)
    ensures cache.log == old(cache.log) + Inserts(sources, misses)
    ensures Within(cache.entries, Overlay(old(cache.entries), Inserts(sources, misses)))
    ensures Remains(Overlay(old(cache.entries), Inserts(sources, misses)), cache.entries, cache.forgets, old(cache.uses), cache.uses)
    ensures MissedOnly(misses, old(cache.entries), cache.forgets, old(cache.uses), cache.uses)
    ensures forall i :: 0 <= i < |hashes| && hashes[i] !in hashes[..i] && hashes[i] in old(cache.entries) ==>
      || Forgot(cache.forgets, old(cache.uses), cache.uses, hashes[i])
      || (hashes[i] !in misses && orders[i].1 == old(cache.entries)[hashes[i]])
    ensures OnlyFetched(cache.entries, old(cache.entries), hashes, sources)
    ensures Coherent(old(cache.entries), truth) && IsTrue(sources, truth) ==>
      FirstsAreTrue(hashes, orders, sources, truth) && Coherent(cache.entries, truth)
    ensures Coherent(old(cache.entries), truth) && IsTrue(sources, truth) && DirectNeverFails(sources) ==>
      forall i :: 0 <= i < |hashes| && hashes[i] !in hashes[..i] ==> truth(hashes[i], orders[i].1)
  {
    hide Overlay, Inserts, Fetched, OnlyFetched, IsTrue, FirstsAreTrue, DirectNeverFails, Coherent;
    var all, uncached := LookUp(cache, hashes);
    misses := uncached;
    ghost var lookedUp, uses := cache.entries, cache.uses;
    NoInserts(old(cache.entries), sources);
    NoInserts(lookedUp, sources);
    if uncached != [] {
      OverlayGrows(cache.entries, old(cache.entries), Inserts(sources, uncached));
      all := FetchMisses(cache, all, uncached, sources);
    }
    ForgottenSince(cache.forgets, old(cache.uses), uses, cache.uses);
    RemainsThrough(old(cache.entries), lookedUp, cache.entries, Inserts(sources, misses), cache.forgets,
                   old(cache.uses), uses, cache.uses);
    orders := Collect(all, hashes);
    assert Served(sources, hashes, old(cache.entries), misses, orders);
    CacheStaysTrue(sources, hashes, misses, old(cache.entries), cache.entries, truth);
    if Coherent(old(cache.entries), truth) && IsTrue(sources, truth) {
      ServedIsTrue(sources, hashes, old(cache.entries), misses, orders, truth);
    }
  }

  lemma ForgottenSince<H(!new)>(forgets: nat -> set<H>, first: nat, middle: nat, end: nat)
    requires first <= middle <= end
    ensures forall h :: Forgot(forgets, first, middle, h) || Forgot(forgets, middle, end, h) ==> Forgot(forgets, first, end, h)
  {
  }

  lemma RemainsThrough<H(!new), E>(before: map<H, seq<E>>, lookedUp: map<H, seq<E>>, now: map<H, seq<E>>,
                                   inserted: seq<(H, seq<E>)>, forgets: nat -> set<H>, first: nat, middle: nat, end: nat)
    requires first <= middle <= end && Remains(before, lookedUp, forgets, first, middle)
    requires Remains(Overlay(lookedUp, inserted), now, forgets, middle, end)
    ensures Remains(Overlay(before, inserted), now, forgets, first, end)
  {
    hide Overlay, Forgot;
    ForgottenSince(forgets, first, middle, end);
    forall h | h in Overlay(before, inserted) && !Forgot(forgets, first, end, h) ensures h in now {
      OverlayKeys(before, lookedUp, inserted, h);
    }
  }

  lemma {:induction false} OverlayKeys<H(!new), E>(m: map<H, seq<E>>, n: map<H, seq<E>>, inserted: seq<(H, seq<E>)>, h: H)
    requires h in Overlay(m, inserted) && (h in m ==> h in n)
    ensures h in Overlay(n, inserted)
  {
    if inserted != [] && inserted[|inserted| - 1].0 != h {
      OverlayKeys(m, n, inserted[..|inserted| - 1], h);
    }
  }

  lemma NoInserts<H, E>(m: map<H, seq<E>>, sources: Sources<H, E>)
    ensures Inserts(sources, []) == [] && Overlay(m, []) == m
  {
  }

  lemma {:induction false} OverlayGrows<H(!new), E>(m: map<H, seq<E>>, n: map<H, seq<E>>, inserted: seq<(H, seq<E>)>)
    requires Within(m, n)
    ensures Within(Overlay(m, inserted), Overlay(n, inserted))
  {
    if inserted != [] {
      OverlayGrows(m, n, inserted[..|inserted| - 1]);
    }
  }

  /** The handler: nothing asked, nothing done; more than fifty hashes are refused. */
  method PostTradesBatch<H(==, !new), E>(cache: AppCache<H, seq<E>>, sources: Sources<H, E>, hashes: seq<H>,
                                         ghost truth: (H, seq<E>) -> bool)
    returns (orders: Result<seq<(H, seq<E>)>>, ghost misses: seq<H>)
    modifies cache
    ensures orders.Ok? <==> |hashes| <= 50
    ensures orders.Err? || hashes == [] ==> cache.entries == old(cache.entries) && cache.log == old(cache.log)
    ensures orders.Ok? ==>
      && Served(sources, hashes, old(cache.entries), misses, orders.value)
      && cache.log == old(cache.log) + Inserts(sources, misses)
      && MissedOnly(misses, old(cache.entries), cache.forgets, old(cache.uses), cache.uses)
    ensures OnlyFetched(cache.entries, old(cache.entries), hashes, sources)
    ensures Coherent(old(cache.entries), truth) && IsTrue(sources, truth) ==>
      Coherent(cache.entries, truth) && (orders.Ok? ==> FirstsAreTrue(hashes, orders.value, sources, truth))
  {
    hide IsTrue;
    if hashes == [] {
      NoInserts(cache.entries, sources);
      return Ok([]), [];
    }
    if |hashes| > MAX_HASHES {
      return Err, [];
    }
    var entries, missing := ProcessTradesBatch(cache, sources, hashes, truth);
    return Ok(entries), missing;
  }

  // ---------------------------------------------------------------- the library query for one order

  /** The outcome of looking an order up in one orderbook. */
  datatype Lookup<O> = Found(order: O) | NotFound | Failed

  /** `find_order_by_hash` over the configured orderbooks, if they can be read at all: the first one
      that has the order decides, and an orderbook that fails is passed over like one without it. */
  method FindOrder<O>(lookups: Result<seq<Lookup<O>>>) returns (order: Result<Option<O>>)
    ensures order == FirstFound(lookups)
  {
    match lookups {
      case Err => return Err;
      case Ok(books) =>
        for i := 0 to |books|
          invariant FirstFound(lookups) == FirstFound(Ok(books[i..]))
        {
          match books[i] {
            case Found(o) => return Ok(Some(o));
            case _ => assert books[i..][1..] == books[i + 1..];
          }
        }
        return Ok(None);
    }
  }

  function FirstFound<O>(lookups: Result<seq<Lookup<O>>>): Result<Option<O>>
    decreases if lookups.Ok? then |lookups.value| else 0
  {
    match lookups
    case Err => Err
    case Ok(books) =>
      if books == [] then Ok(None)
      else if books[0].Found? then Ok(Some(books[0].order))
      else FirstFound(Ok(books[1..]))
  }

  /** The order found is that of the first orderbook that has one. */
  lemma {:induction false} FirstFoundMeans<O>(books: seq<Lookup<O>>)
    ensures FirstFound(Ok(books)).Ok?
    ensures FirstFound(Ok(books)) == Ok(None) <==> forall i :: 0 <= i < |books| ==> !books[i].Found?
    ensures forall i :: 0 <= i < |books| && books[i].Found? && (forall j :: 0 <= j < i ==> !books[j].Found?) ==>
      FirstFound(Ok(books)) == Ok(Some(books[i].order))
    decreases |books|
  {
    if books != [] && !books[0].Found? {
      var rest := books[1..];
      FirstFoundMeans(rest);
      forall i | 0 <= i < |books| && books[i].Found? && (forall j :: 0 <= j < i ==> !books[j].Found?)
        ensures FirstFound(Ok(books)) == Ok(Some(books[i].order))
      {
        assert rest[i - 1] == books[i] && forall j :: 0 <= j < i - 1 ==> rest[j] == books[j + 1];
      }
      assert forall i :: 0 <= i < |rest| ==> rest[i] == books[i + 1];
    }
  }

  /** `fetch_trades_for_hash`. */
  function TradesForHash<O, E>(lookups: Result<seq<Lookup<O>>>, tradesOf: O -> Result<seq<E>>): Result<seq<E>> {
    match FirstFound(lookups)
    case Err => Err
    case Ok(None) => Ok([])
    case Ok(Some(order)) => tradesOf(order)
  }

  /** Only the orderbook at `holder` has the order; another one may at most fail to say that it has not. */
  predicate Honest<O(==)>(books: seq<Lookup<O>>, holder: Option<nat>, order: O) {
    forall i :: 0 <= i < |books| ==>
      if holder == Some(i) then books[i] == Found(order) || books[i].Failed? else !books[i].Found?
  }

  lemma {:induction false} FindsHolder<O>(books: seq<Lookup<O>>, holder: Option<nat>, order: O)
    requires Honest(books, holder, order)
    ensures FirstFound(Ok(books))
         == Ok(if holder.Some? && holder.value < |books| && books[holder.value].Found? then Some(order) else None)
    decreases |books|
  {
    if books != [] && !books[0].Found? {
      var later := if holder.Some? && holder.value > 0 then Some(holder.value - 1) else None;
      assert forall i: nat :: holder == Some(i + 1) ==> later == Some(i);
      FindsHolder(books[1..], later, order);
    }
  }

  /** What the library sees of each order: its outcomes over the orderbooks, the one that holds it, the
      order there, and its trades. */
  datatype Market<!H, O> = Market(books: H -> seq<Lookup<O>>, holder: H -> Option<nat>, order: H -> O)

  /** The outcomes are honest, trades that can be read are true, and an order held nowhere has none. */
  ghost predicate Describes<H(!new), O, E>(market: Market<H, O>, tradesOf: O -> Result<seq<E>>, truth: (H, seq<E>) -> bool) {
    forall h ::
      && Honest(market.books(h), market.holder(h), market.order(h))
      && (market.holder(h).Some? ==> market.holder(h).value < |market.books(h)|)
      && (market.holder(h).None? ==> truth(h, []))
      && (tradesOf(market.order(h)).Ok? ==> truth(h, tradesOf(market.order(h)).value))
  }

  /** Looking the order up failed in the orderbook that holds it. */
  predicate HolderFailed<H, O(==)>(market: Market<H, O>, h: H) {
    market.holder(h).Some? && market.holder(h).value < |market.books(h)| && market.books(h)[market.holder(h).value].Failed?
  }

  /** The library query reports wrong trades as a success exactly when looking the order up failed in
      the orderbook that holds it and an empty list is not true of it. */
  lemma UntrueIff<H(!new), O, E>(market: Market<H, O>, tradesOf: O -> Result<seq<E>>, truth: (H, seq<E>) -> bool, h: H)
    requires Describes(market, tradesOf, truth)
    ensures var got := TradesForHash(Ok(market.books(h)), tradesOf);
            && (got.Ok? && !truth(h, got.value) <==> HolderFailed(market, h) && !truth(h, []))
            && (HolderFailed(market, h) || market.holder(h).None? ==> got == Ok([]))
            && (!HolderFailed(market, h) && market.holder(h).Some? ==> got == tradesOf(market.order(h)))
    ensures TradesForHash(Err, tradesOf) == Err
  {
    FindsHolder(market.books(h), market.holder(h), market.order(h));
  }

  /** So the library can be relied on exactly if every order whose lookup fails where it is held is one
      without trades. */
  lemma LibraryIsTrueIff<H(!new), O, E>(sources: Sources<H, E>, market: Market<H, O>, tradesOf: O -> Result<seq<E>>,
                                        truth: (H, seq<E>) -> bool)
    requires Describes(market, tradesOf, truth)
    requires forall h :: sources.library(h) == TradesForHash(Ok(market.books(h)), tradesOf)
    ensures LibraryIsTrue(sources, truth) <==> forall h :: HolderFailed(market, h) ==> truth(h, [])
  {
    hide Describes, TradesForHash, HolderFailed;
    forall h
      ensures sources.library(h).Ok? && !truth(h, sources.library(h).value) <==> HolderFailed(market, h) && !truth(h, [])
    {
      UntrueIff(market, tradesOf, truth, h);
    }
  }

  /** Without a direct fetcher, any request for an order that is not cached, and whose lookup fails where it
      is held, is answered with an empty list, and the empty list is put into the cache. */
  lemma FailedLookupIsCached<H(!new), O, E>(sources: Sources<H, E>, market: Market<H, O>, tradesOf: O -> Result<seq<E>>,
                                            truth: (H, seq<E>) -> bool, h: H, before: map<H, seq<E>>, misses: seq<H>,
                                            orders: seq<(H, seq<E>)>)
    requires Describes(market, tradesOf, truth) && HolderFailed(market, h)
    requires sources.direct.None? && sources.library(h) == TradesForHash(Ok(market.books(h)), tradesOf)
    requires h !in before && Served(sources, [h], before, misses, orders)
    ensures orders == [(h, [])] && Inserts(sources, misses) == [(h, [])]
  {
    UntrueIff(market, tradesOf, truth, h);
    assert [h][0] in misses;
    assert misses == [h] && misses[..0] == [];
    assert LibraryInserts(sources, misses[..0]) == [] && LibraryInserts(sources, misses) == [] + [(h, [])];
    assert [h][..0] == [] && orders[0] == (h, []);
  }
}
