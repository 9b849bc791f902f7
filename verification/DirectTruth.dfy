/** The direct fetcher as a source for the batch endpoint: when its answers are the true trades. The API
    serves every configured orderbook, but the fetcher is set up for the first one only. */
module DirectTruth {
  import opened Wrappers
  import opened OrderTables
  import opened TakeAttribution
  import opened TradeGrouping
  import opened BatchFetch
  import opened TradesBatch
  import C = ClearPairing

  /** A configured orderbook. */
  datatype Site = Site(chain: int, address: string)

  /** The tables, the configured orderbooks in their order, the one that holds each order, and how hashes
      are written. */
  datatype World<!F> = World(db: Tables, sites: seq<Site>, home: Word -> Option<nat>, lib: Library<F>, text: Word -> string)

  ghost predicate ReadsBack<F>(world: World<F>) {
    forall h: Word :: world.lib.hash(world.text(h)) == Some(h)
  }

  function QueryAt<F>(world: World<F>, i: nat, hashes: set<Word>): Query
    requires i < |world.sites|
  {
    Query(world.sites[i].chain, world.sites[i].address, set h | h in hashes :: world.text(h))
  }

  ghost predicate AddedAt(e: OrderEvent, site: Site, text: string) {
    e.kind == ADDED && e.chain == site.chain && e.book == site.address && e.hash == text
  }

  /** An order is added in its own orderbook and in no other. */
  ghost predicate AtHome<F>(world: World<F>) {
    && (forall h: Word :: world.home(h).Some? ==> world.home(h).value < |world.sites|)
    && forall h: Word, i: nat, e :: i < |world.sites| && e in world.db.events && AddedAt(e, world.sites[i], world.text(h)) ==>
         world.home(h) == Some(i)
  }

  /** A list that the query for this order alone, sent to orderbook `i`, can give. */
  ghost predicate ListAt<F>(world: World<F>, i: nat, h: Word, list: seq<Entry>)
    requires i < |world.sites|
  {
    exists rows :: Answers(world.db, QueryAt(world, i, {h}), rows) && list == EntriesOf(world.lib, Raws(rows), h)
  }

  /** The list is true of the order: the orderbook that holds it can give it. */
  ghost predicate TrueList<F>(world: World<F>, h: Word, list: seq<Entry>) {
    match world.home(h)
    case None => list == []
    case Some(i) => i < |world.sites| && ListAt(world, i, h, list)
  }

  /** The map holds the grouped rows of a possible answer of the first orderbook. */
  ghost predicate Grouped<F>(world: World<F>, hashes: set<Word>, found: map<Word, seq<Entry>>)
    requires world.sites != []
  {
    exists rows :: Answers(world.db, QueryAt(world, 0, hashes), rows) && Groups(world.lib, Raws(rows), found)
  }

  ghost predicate FetchesFirst<F>(world: World<F>, fetch: seq<Word> -> Result<map<Word, seq<Entry>>>)
    requires world.sites != []
  {
    forall hs :: fetch(hs).Ok? ==> Grouped(world, (set h | h in hs), fetch(hs).value)
  }

  /** No two orders of the first orderbook share owner and nonce at a take. */
  ghost predicate NoncesTellOrders<F>(world: World<F>)
    requires world.sites != []
  {
    forall hashes: set<Word>, i ::
      0 <= i < |world.db.takes| && InScope(world.db.takes[i], QueryAt(world, 0, hashes)) ==>
        HashDetermined(world.db.takes[i], world.db.events, QueryAt(world, 0, hashes))
  }

  // ---------------------------------------------------------------- orders of the first orderbook

  lemma GroupIsTrue<F>(world: World<F>, hashes: set<Word>, found: map<Word, seq<Entry>>, h: Word)
    requires world.sites != [] && DistinctAdds(world.db.events) && NoncesTellOrders(world) && ReadsBack(world)
    requires h in hashes && Grouped(world, hashes, found)
    ensures ListAt(world, 0, h, Answer(found, h))
  {
    hide Answers, HashDetermined, EntriesOf, NoTies, DistinctAdds;
    var q := QueryAt(world, 0, hashes);
    var rows :| Answers(world.db, q, rows) && Groups(world.lib, Raws(rows), found);
    assert QueryAt(world, 0, {h}) == Only(q, world.text(h));
    HeldList(world.lib, world.text, hashes, world.db, q, h, rows);
    assert Answer(found, h) == EntriesOf(world.lib, Raws(RowsFor(rows, world.text(h))), h);
  }

  lemma HeldList<F>(lib: Library<F>, text: Word -> string, hashes: set<Word>, db: Tables, q: Query, h: Word, rows: seq<Row>)
    requires Bound(lib, text, hashes, q) && h in hashes && DistinctAdds(db.events) && Answers(db, q, rows)
    requires forall i :: 0 <= i < |db.takes| && InScope(db.takes[i], q) ==> HashDetermined(db.takes[i], db.events, q)
    ensures Answers(db, Only(q, text(h)), RowsFor(rows, text(h)))
    ensures EntriesOf(lib, Raws(rows), h) == EntriesOf(lib, Raws(RowsFor(rows, text(h))), h)
  {
    hide Answers, RowsFor, TakeTrades, HashDetermined, EntriesOf, DistinctAdds, Bound;
    TextIn(lib, text, hashes, q, h);
    BatchIsExactIff(db.takes, db.events, q);
    assert SameTakes(db.takes, db.events, q, text(h));
    PossibleAnswerIff(db, q, text(h), rows);
    ListOf(lib, text, hashes, db, q, h, rows);
  }

  // ---------------------------------------------------------------- orders of other orderbooks

  ghost predicate HasRequest(events: seq<OrderEvent>, q: Query, hash: string) {
    exists e :: e in events && Requested(e, q) && e.hash == hash
  }

  lemma {:induction false} TakeRowHasAdd(t: Take, adds: seq<OrderEvent>, events: seq<OrderEvent>, q: Query, row: Row)
    requires row in RowsOf(t, adds, events, q) && forall e :: e in adds ==> e in events
    ensures HasRequest(events, q, row.hash)
  {
    var rest, e := adds[..|adds| - 1], adds[|adds| - 1];
    assert e in adds;
    if row in RowsOf(t, rest, events, q) {
      TakeRowHasAdd(t, rest, events, q, row);
    } else {
      assert Requested(e, q);
    }
  }

  lemma {:induction false} TakesHaveAdds(takes: seq<Take>, events: seq<OrderEvent>, q: Query, row: Row)
    requires row in TakeTrades(takes, events, q)
    ensures HasRequest(events, q, row.hash)
  {
    hide HasRequest;
    var t, rest := takes[|takes| - 1], takes[..|takes| - 1];
    if row in TakeTrades(rest, events, q) {
      TakesHaveAdds(rest, events, q, row);
    } else {
      TakeRowHasAdd(t, events, events, q, row);
    }
  }

  lemma ClearsHaveAdds(side: C.Side, db: Tables, q: Query, row: Row)
    requires row in C.ClearTrades(side, db, q)
    ensures HasRequest(db.events, q, row.hash)
  {
    hide C.ClearTrades, C.NextAfter, C.Wanted;
    var c, a := C.JoinedExplains(row, side, db, q);
    var e :| e in db.events && C.Eligible(e, c, side, q);
    assert Requested(e, q) && e.hash == row.hash;
  }

  /** Every row goes back to an addition in the orderbook asked. */
  lemma RowsHaveAdds(db: Tables, q: Query, rows: seq<Row>, row: Row)
    requires Answers(db, q, rows) && row in rows
    ensures HasRequest(db.events, q, row.hash)
  {
    hide TakeTrades, C.ClearTrades, HasRequest, Ordered;
    assert row in Union(db, q);
    if row in C.ClearTrades(C.Alice, db, q) {
      ClearsHaveAdds(C.Alice, db, q, row);
    } else if row in C.ClearTrades(C.Bob, db, q) {
      ClearsHaveAdds(C.Bob, db, q, row);
    } else {
      TakesHaveAdds(db.takes, db.events, q, row);
    }
  }

  lemma {:induction false} NoRowsNoEntries<F>(lib: Library<F>, rows: seq<Row>, h: Word)
    requires forall row :: row in rows ==> lib.hash(row.hash) != Some(h)
    ensures EntriesOf(lib, Raws(rows), h) == []
  {
    if rows != [] {
      var rest, last := rows[..|rows| - 1], rows[|rows| - 1];
      NoRowsNoEntries(lib, rest, h);
      assert rest + [last] == rows;
      OneMoreRow(lib, rest, last, h);
    }
  }

  /** An orderbook that does not hold the order has no trades for it. */
  lemma NothingElsewhere<F>(world: World<F>, i: nat, hashes: set<Word>, h: Word, rows: seq<Row>)
    requires i < |world.sites| && AtHome(world) && ReadsBack(world) && world.home(h) != Some(i)
    requires Answers(world.db, QueryAt(world, i, hashes), rows)
    ensures EntriesOf(world.lib, Raws(rows), h) == []
  {
    hide Answers, EntriesOf;
    var q := QueryAt(world, i, hashes);
    forall row | row in rows ensures world.lib.hash(row.hash) != Some(h) {
      RowsHaveAdds(world.db, q, rows, row);
      var e :| e in world.db.events && Requested(e, q) && e.hash == row.hash;
      var x: Word :| x in hashes && world.text(x) == e.hash;
      assert AddedAt(e, world.sites[i], world.text(x));
    }
    NoRowsNoEntries(world.lib, rows, h);
  }

  lemma MissedElsewhere<F>(world: World<F>, hashes: set<Word>, found: map<Word, seq<Entry>>, h: Word)
    requires world.sites != [] && AtHome(world) && ReadsBack(world) && world.home(h) != Some(0)
    requires Grouped(world, hashes, found)
    ensures Answer(found, h) == []
  {
    hide Answers, EntriesOf, AtHome, ReadsBack;
    var rows :| Answers(world.db, QueryAt(world, 0, hashes), rows) && Groups(world.lib, Raws(rows), found);
    NothingElsewhere(world, 0, hashes, h, rows);
  }

  // ---------------------------------------------------------------- when the direct fetcher can be relied on

  ghost predicate Tells<F>(world: World<F>, truth: (Word, seq<Entry>) -> bool) {
    forall h: Word, list :: truth(h, list) <==> TrueList(world, h, list)
  }

  /** The first orderbook holds the order, or the order has no trades anywhere. */
  ghost predicate Covered<F>(world: World<F>, h: Word) {
    world.home(h) == Some(0) || TrueList(world, h, [])
  }

  /** The direct fetcher is a true source for the batch endpoint if and only if every order that it answers
      for is held by the first orderbook or has no trades, given that owner and nonce tell the orders of
      that orderbook apart. */
  lemma DirectIsTrueIff<F>(world: World<F>, fetch: seq<Word> -> Result<map<Word, seq<Entry>>>,
                           library: Word -> Result<seq<Entry>>, truth: (Word, seq<Entry>) -> bool)
    requires world.sites != [] && DistinctAdds(world.db.events) && NoncesTellOrders(world)
    requires ReadsBack(world) && AtHome(world) && FetchesFirst(world, fetch) && Tells(world, truth)
    ensures DirectIsTrue(Sources(Some(fetch), library), truth)
       <==> forall hs, h :: h in hs && fetch(hs).Ok? ==> Covered(world, h)
  {
    hide DistinctAdds, NoncesTellOrders, ReadsBack, AtHome, Grouped, ListAt;
    var sources := Sources(Some(fetch), library);
    forall hs, h | h in hs && fetch(hs).Ok?
      ensures truth(h, Answer(fetch(hs).value, h)) <==> Covered(world, h)
    {
      if world.home(h) == Some(0) {
        GroupIsTrue(world, (set x | x in hs), fetch(hs).value, h);
        assert TrueList(world, h, Answer(fetch(hs).value, h));
      } else {
        MissedElsewhere(world, (set x | x in hs), fetch(hs).value, h);
      }
    }
    assert forall hs, h :: h in hs && DirectAnswers(sources, hs) ==> (truth(h, Answer(sources.direct.value(hs).value, h)) <==> Covered(world, h));
  }

  /** With the library as the second source, the batch endpoint has true sources exactly if in addition
      every order whose lookup fails where it is held has no trades. */
  lemma SourcesAreTrueIff<F, O>(world: World<F>, fetch: seq<Word> -> Result<map<Word, seq<Entry>>>,
                                library: Word -> Result<seq<Entry>>, truth: (Word, seq<Entry>) -> bool,
                                market: Market<Word, O>, tradesOf: O -> Result<seq<Entry>>)
    requires world.sites != [] && DistinctAdds(world.db.events) && NoncesTellOrders(world)
    requires ReadsBack(world) && AtHome(world) && FetchesFirst(world, fetch) && Tells(world, truth)
    requires Describes(market, tradesOf, truth)
    requires forall h :: library(h) == TradesForHash(Ok(market.books(h)), tradesOf)
    ensures IsTrue(Sources(Some(fetch), library), truth)
       <==> && (forall hs, h :: h in hs && fetch(hs).Ok? ==> Covered(world, h))
            && (forall h :: HolderFailed(market, h) ==> truth(h, []))
  {
    hide DirectIsTrue, LibraryIsTrue, Covered, HolderFailed, Tells, Describes, AtHome, FetchesFirst;
    DirectIsTrueIff(world, fetch, library, truth);
    LibraryIsTrueIff(Sources(Some(fetch), library), market, tradesOf, truth);
  }

  lemma UncoveredIsUntrue<F>(world: World<F>, truth: (Word, seq<Entry>) -> bool, h: Word)
    requires Tells(world, truth) && !Covered(world, h)
    ensures world.home(h) != Some(0) && !truth(h, [])
  {
  }

  /** Any request for an uncached order of another orderbook that has trades, answered by the direct
      fetcher, comes back with an empty list, which is not true and is put into the cache. */
  lemma OtherOrderbookIsMissed<F>(world: World<F>, fetch: seq<Word> -> Result<map<Word, seq<Entry>>>,
                                  library: Word -> Result<seq<Entry>>, truth: (Word, seq<Entry>) -> bool, h: Word,
                                  before: map<Word, seq<Entry>>, misses: seq<Word>, orders: seq<(Word, seq<Entry>)>)
    requires world.sites != [] && ReadsBack(world) && AtHome(world) && FetchesFirst(world, fetch) && Tells(world, truth)
    requires !Covered(world, h) && fetch([h]).Ok?
    requires h !in before && Served(Sources(Some(fetch), library), [h], before, misses, orders)
    ensures orders == [(h, [])] && Inserts(Sources(Some(fetch), library), misses) == [(h, [])] && !truth(h, [])
  {
    hide Tells, AtHome, ReadsBack, Grouped, Covered;
    var sources := Sources(Some(fetch), library);
    UncoveredIsUntrue(world, truth, h);
    assert [h][0] in misses;
    assert misses == [h] && misses[..0] == [] && [h][..0] == [];
    MissedElsewhere(world, (set x | x in [h]), fetch([h]).value, h);
    assert DirectInserts(fetch([h]).value, misses[..0]) == [];
    assert DirectInserts(fetch([h]).value, misses) == [] + [(h, [])];
    assert orders[0] == (h, []);
  }

  /** Two orderbooks, one order added and taken in the second. */
  function TwoOrderbooks<F>(e: OrderEvent, t: Take, h: Word, lib: Library<F>, text: Word -> string): World<F> {
    World(Tables([e], [t], [], []), [Site(e.chain + 1, e.book), Site(e.chain, e.book)],
          (x: Word) => if x == h then Some(1) else None, lib, text)
  }

  lemma OneTake(e: OrderEvent, t: Take, q: Query)
    requires Eligible(e, t, q) && InScope(t, q)
    ensures Union(Tables([e], [t], [], []), q) == multiset{TakeRow(t, e)}
  {
    assert [t][..0] == [] && [e][..0] == [];
    assert RowsOf(t, [e], [e], q) == [] + [TakeRow(t, e)];
    assert TakeTrades([t], [e], q) == [] + [TakeRow(t, e)];
  }

  lemma OneTakeIsListed<F>(e: OrderEvent, t: Take, q: Query, h: Word, lib: Library<F>, rows: seq<Row>)
    requires Eligible(e, t, q) && InScope(t, q) && Answers(Tables([e], [t], [], []), q, rows)
    requires lib.hash(e.hash) == Some(h) && Convert(lib, Raw(TakeRow(t, e))).Some?
    ensures EntriesOf(lib, Raws(rows), h) != []
  {
    hide Union, EntriesOf, Raws, Eligible, InScope;
    OneTake(e, t, q);
    assert |multiset(rows)| == |rows| && rows[0] in multiset(rows);
    assert rows == [] + [TakeRow(t, e)];
    OneMoreRow(lib, [], TakeRow(t, e), h);
  }

  /** There the second orderbook's order is not covered, although everything else is as it should be. */
  lemma SecondOrderbookIsNotCovered<F>(e: OrderEvent, t: Take, h: Word, lib: Library<F>, text: Word -> string)
    requires ReadsBack(TwoOrderbooks(e, t, h, lib, text)) && AddedAt(e, Site(e.chain, e.book), text(h))
    requires (t.chain, t.book, t.owner, t.nonce) == (e.chain, e.book, e.owner, e.nonce) && AtOrBefore(e.at, t.at)
    requires Convert(lib, Raw(TakeRow(t, e))).Some?
    ensures var world := TwoOrderbooks(e, t, h, lib, text);
            AtHome(world) && DistinctAdds(world.db.events) && NoncesTellOrders(world) && !Covered(world, h)
  {
    hide Answers, EntriesOf, Convert;
    var world := TwoOrderbooks(e, t, h, lib, text);
    var q := QueryAt(world, 1, {h});
    assert world.db == Tables([e], [t], [], []) && Eligible(e, t, q);
    forall rows | Answers(world.db, q, rows) ensures EntriesOf(lib, Raws(rows), h) != [] {
      OneTakeIsListed(e, t, q, h, lib, rows);
    }
  }
}
