/** What the batch trade query answers, and how the answer is grouped into one list per order. */
module TradeGrouping {
  import opened OrderTables
  import opened TakeAttribution
  import opened TradeId
  import C = ClearPairing

  // ---------------------------------------------------------------- the whole answer

  /** The text order of `ORDER BY order_hash`. */
  predicate TextLess(a: string, b: string) {
    if b == "" then false
    else if a == "" then true
    else a[0] < b[0] || (a[0] == b[0] && TextLess(a[1..], b[1..]))
  }

  predicate Newer(a: Row, b: Row) {
    a.timestamp > b.timestamp || (a.timestamp == b.timestamp && a.log > b.log)
  }

  predicate Before(a: Row, b: Row) {
    TextLess(a.hash, b.hash) || (a.hash == b.hash && Newer(a, b))
  }

  ghost predicate Ordered(rows: seq<Row>) {
    forall i, j :: 0 <= i < j < |rows| ==> !Before(rows[j], rows[i])
  }

  ghost predicate NewestFirst(rows: seq<Row>) {
    forall i, j :: 0 <= i < j < |rows| ==> !Newer(rows[j], rows[i])
  }

  function Union(db: Tables, q: Query): multiset<Row> {
    multiset(TakeTrades(db.takes, db.events, q)) + multiset(C.ClearTrades(C.Alice, db, q))
    + multiset(C.ClearTrades(C.Bob, db, q))
  }

  /** A possible answer: the three parts under `UNION ALL`, in the stated order. Rows that tie may come
      either way round. */
  ghost predicate Answers(db: Tables, q: Query, rows: seq<Row>) {
    multiset(rows) == Union(db, q) && Ordered(rows)
  }

  ghost predicate FromTake(r: Row, t: Take, e: OrderEvent, takes: seq<Take>, events: seq<OrderEvent>, q: Query) {
    t in takes && LatestClaim(e, t, events, q) && ReportsTake(r, t, e)
  }

  ghost predicate Claimed(t: Take, events: seq<OrderEvent>, q: Query) {
    exists e :: e in events && Claims(e, t, q)
  }

  lemma {:induction false} TakesMean(takes: seq<Take>, events: seq<OrderEvent>, q: Query, r: Row)
    requires DistinctAdds(events)
    ensures r in TakeTrades(takes, events, q)
       <==> exists t, e :: FromTake(r, t, e, takes, events, q)
  {
    hide LatestClaim, ReportsTake, RowsOfTake, DistinctAdds;
    if takes != [] {
      var rest, last := takes[..|takes| - 1], takes[|takes| - 1];
      TakesMean(rest, events, q, r);
      TakeRowMeans(last, events, q);
      assert forall t :: t in takes <==> t in rest || t == last;
      assert forall t, e :: FromTake(r, t, e, takes, events, q) <==>
        FromTake(r, t, e, rest, events, q) || (t == last && LatestClaim(e, t, events, q) && ReportsTake(r, t, e));
    }
  }

  lemma {:induction false} TakesCount(takes: seq<Take>, events: seq<OrderEvent>, q: Query)
    requires DistinctAdds(events)
    ensures |TakeTrades(takes, events, q)| == |set i | 0 <= i < |takes| && Claimed(takes[i], events, q)|
  {
    hide RowsOfTake, DistinctAdds, Claims;
    var claimed := set i | 0 <= i < |takes| && Claimed(takes[i], events, q);
    if takes != [] {
      var rest, n := takes[..|takes| - 1], |takes| - 1;
      TakesCount(rest, events, q);
      TakeRowMeans(takes[n], events, q);
      var before := set i | 0 <= i < |rest| && Claimed(rest[i], events, q);
      assert claimed == if Claimed(takes[n], events, q) then before + {n} else before;
    }
  }

  ghost function AliceRows(rows: seq<Row>, db: Tables, q: Query): set<Row> {
    set r | r in rows && exists c, a :: C.FromAlice(r, c, a, db, q)
  }

  ghost function BobRows(rows: seq<Row>, db: Tables, q: Query): set<Row> {
    set r | r in rows && exists c, a :: C.FromBob(r, c, a, db, q)
  }

  /** What an answer holds: a row for the latest claim on each take and for each claimed side of each clear
      with an after-clear event beyond it, and nothing else; one for every claimed take, and those of either
      clear part once each. */
  lemma AnswerMeans(db: Tables, q: Query, rows: seq<Row>)
    requires DistinctAdds(db.events) && Answers(db, q, rows)
    ensures forall r :: r in rows <==>
      || (exists t, e :: FromTake(r, t, e, db.takes, db.events, q))
      || (exists c, a :: C.FromAlice(r, c, a, db, q))
      || (exists c, a :: C.FromBob(r, c, a, db, q))
    ensures |rows| == |set i | 0 <= i < |db.takes| && Claimed(db.takes[i], db.events, q)|
                      + |AliceRows(rows, db, q)| + |BobRows(rows, db, q)|
  {
    hide TakeTrades, C.ClearTrades, C.FromAlice, C.FromBob, LatestClaim, ReportsTake, Ordered, Claimed, DistinctAdds;
    forall r
      ensures r in TakeTrades(db.takes, db.events, q) <==> exists t, e :: FromTake(r, t, e, db.takes, db.events, q)
      ensures r in C.ClearTrades(C.Alice, db, q) <==> exists c, a :: C.FromAlice(r, c, a, db, q)
      ensures r in C.ClearTrades(C.Bob, db, q) <==> exists c, a :: C.FromBob(r, c, a, db, q)
    {
      TakesMean(db.takes, db.events, q, r);
      C.ClearRowsMean(r, db, q);
    }
    assert forall r :: r in rows <==> r in multiset(rows);
    TakesCount(db.takes, db.events, q);
    assert AliceRows(rows, db, q) == C.ClearTrades(C.Alice, db, q);
    assert BobRows(rows, db, q) == C.ClearTrades(C.Bob, db, q);
    assert |multiset(rows)| == |rows|;
  }

  lemma {:induction false} CountFor(rows: seq<Row>, h: string, r: Row)
    ensures multiset(RowsFor(rows, h))[r] == if r.hash == h then multiset(rows)[r] else 0
  {
    if rows != [] {
      CountFor(rows[..|rows| - 1], h, r);
      assert rows == rows[..|rows| - 1] + [rows[|rows| - 1]];
    }
  }

  lemma ClearCount(side: C.Side, db: Tables, q: Query, h: string, r: Row)
    requires h in q.hashes && r.hash == h
    ensures multiset(C.ClearTrades(side, db, q))[r] == multiset(C.ClearTrades(side, db, Only(q, h)))[r]
  {
    hide C.ClearTrades;
    C.ClearsIgnoreOthers(side, db, q, h);
    var mine := set x | x in C.ClearTrades(side, db, q) && x.hash == h;
    assert r in mine <==> r in C.ClearTrades(side, db, q);
  }

  lemma {:induction false} OwnTakes(takes: seq<Take>, events: seq<OrderEvent>, q: Query, h: string, r: Row)
    requires r in TakeTrades(takes, events, Only(q, h))
    ensures r.hash == h
  {
    var t, rest := takes[|takes| - 1], takes[..|takes| - 1];
    if r in RowsOfTake(t, events, Only(q, h)) {
      OwnRows(t, events, events, q, h, r);
    } else {
      OwnTakes(rest, events, q, h, r);
    }
  }

  lemma {:induction false} OwnRows(t: Take, adds: seq<OrderEvent>, events: seq<OrderEvent>, q: Query, h: string, r: Row)
    requires r in RowsOf(t, adds, events, Only(q, h))
    ensures r.hash == h
  {
    var rest := RowsOf(t, adds[..|adds| - 1], events, Only(q, h));
    if r in rest {
      OwnRows(t, adds[..|adds| - 1], events, q, h, r);
    }
  }

  lemma OwnClears(side: C.Side, db: Tables, q: Query, h: string, r: Row)
    requires r in C.ClearTrades(side, db, Only(q, h))
    ensures r.hash == h
  {
    var c, a := C.JoinedExplains(r, side, db, Only(q, h));
  }

  /** How often a row occurs in the batch under its order, against the order's own query: only the take
      part can differ. */
  lemma CountsDiffer(db: Tables, q: Query, h: string, rows: seq<Row>, r: Row)
    requires h in q.hashes && multiset(rows) == Union(db, q)
    ensures Union(db, Only(q, h))[r] + multiset(RowsFor(TakeTrades(db.takes, db.events, q), h))[r]
         == multiset(RowsFor(rows, h))[r] + multiset(TakeTrades(db.takes, db.events, Only(q, h)))[r]
  {
    hide TakeTrades, C.ClearTrades, RowsFor;
    CountFor(rows, h, r);
    CountFor(TakeTrades(db.takes, db.events, q), h, r);
    if r.hash == h {
      ClearCount(C.Alice, db, q, h, r);
      ClearCount(C.Bob, db, q, h, r);
    } else {
      OwnAreOwn(db, q, h, r);
    }
  }

  lemma OwnAreOwn(db: Tables, q: Query, h: string, r: Row)
    requires r.hash != h
    ensures r !in Union(db, Only(q, h))
  {
    hide TakeTrades, C.ClearTrades;
    if r in TakeTrades(db.takes, db.events, Only(q, h)) {
      OwnTakes(db.takes, db.events, q, h, r);
    }
    if r in C.ClearTrades(C.Alice, db, Only(q, h)) {
      OwnClears(C.Alice, db, q, h, r);
    }
    if r in C.ClearTrades(C.Bob, db, Only(q, h)) {
      OwnClears(C.Bob, db, q, h, r);
    }
  }

  lemma UnionIffTakes(db: Tables, q: Query, h: string, rows: seq<Row>)
    requires h in q.hashes && multiset(rows) == Union(db, q)
    ensures multiset(RowsFor(rows, h)) <= Union(db, Only(q, h))
    ensures multiset(RowsFor(rows, h)) == Union(db, Only(q, h)) <==> SameTakes(db.takes, db.events, q, h)
  {
    hide TakeTrades, RowsFor, Union;
    var takes, ownTakes := RowsFor(TakeTrades(db.takes, db.events, q), h), TakeTrades(db.takes, db.events, Only(q, h));
    var mine, own := multiset(RowsFor(rows, h)), Union(db, Only(q, h));
    BatchContained(db.takes, db.events, q, h);
    forall r ensures own[r] + multiset(takes)[r] == mine[r] + multiset(ownTakes)[r] {
      CountsDiffer(db, q, h, rows, r);
    }
    assert mine == own ==> forall r :: multiset(ownTakes)[r] == multiset(takes)[r];
  }

  /** A batch gives an order the rows of the order's own query exactly if it gives it the take rows. */
  lemma SameAsOwnIff(db: Tables, q: Query, h: string, rows: seq<Row>, own: seq<Row>)
    requires h in q.hashes && Answers(db, q, rows) && Answers(db, Only(q, h), own)
    ensures multiset(RowsFor(rows, h)) <= multiset(own)
    ensures multiset(RowsFor(rows, h)) == multiset(own) <==> SameTakes(db.takes, db.events, q, h)
  {
    hide TakeTrades, RowsFor, Union, Ordered, SameTakes;
    UnionIffTakes(db, q, h, rows);
  }

  /** One query for many orders answers every one of them as its own query would if and only if no take
      of the orderbook could be claimed by additions of two different requested orders. */
  lemma BatchReplacesSinglesIff(db: Tables, q: Query, rows: seq<Row>, own: map<string, seq<Row>>)
    requires DistinctAdds(db.events) && Answers(db, q, rows)
    requires own.Keys == q.hashes && forall h :: h in q.hashes ==> Answers(db, Only(q, h), own[h])
    ensures (forall h :: h in q.hashes ==> multiset(RowsFor(rows, h)) == multiset(own[h]))
       <==> (forall i :: 0 <= i < |db.takes| && InScope(db.takes[i], q) ==> HashDetermined(db.takes[i], db.events, q))
  {
    hide Answers, RowsFor, TakeTrades, HashDetermined, InScope;
    forall h | h in q.hashes
      ensures multiset(RowsFor(rows, h)) == multiset(own[h]) <==> SameTakes(db.takes, db.events, q, h)
    {
      SameAsOwnIff(db, q, h, rows, own[h]);
    }
    BatchIsExactIff(db.takes, db.events, q);
  }

  // ---------------------------------------------------------------- the order within one list

  lemma {:induction false} RowsForMember(rows: seq<Row>, h: string, r: Row)
    requires r in RowsFor(rows, h)
    ensures r in rows && r.hash == h
  {
    if r in RowsFor(rows[..|rows| - 1], h) {
      RowsForMember(rows[..|rows| - 1], h, r);
    }
  }

  lemma {:induction false} ListsAreNewestFirst(rows: seq<Row>, h: string)
    requires Ordered(rows)
    ensures NewestFirst(RowsFor(rows, h))
  {
    if rows != [] {
      var rest, last := rows[..|rows| - 1], rows[|rows| - 1];
      ListsAreNewestFirst(rest, h);
      forall r | r in RowsFor(rest, h) && last.hash == h ensures !Newer(last, r) {
        RowsForMember(rest, h, r);
        var i: nat :| i < |rest| && rest[i] == r;
        assert !Before(rows[|rest|], rows[i]);
      }
    }
  }

  lemma {:induction false} NotLessThanItself(a: string)
    ensures !TextLess(a, a)
  {
    if a != "" {
      NotLessThanItself(a[1..]);
    }
  }

  lemma OneOrderInOrder(rows: seq<Row>, h: string)
    requires NewestFirst(rows) && forall r :: r in rows ==> r.hash == h
    ensures Ordered(rows)
  {
    NotLessThanItself(h);
    forall i, j | 0 <= i < j < |rows| ensures !Before(rows[j], rows[i]) {
      assert rows[i] in rows && rows[j] in rows;
    }
  }

  /** Within an order the rows come by timestamp, and at the same timestamp by log index, latest first. */
  lemma ListOrderMeans(rows: seq<Row>, h: string, i: nat, j: nat)
    requires Ordered(rows) && i < j < |RowsFor(rows, h)|
    ensures var earlier, later := RowsFor(rows, h)[i], RowsFor(rows, h)[j];
            earlier.timestamp > later.timestamp || (earlier.timestamp == later.timestamp && earlier.log >= later.log)
  {
    ListsAreNewestFirst(rows, h);
  }

  /** What a batch holds of an order is itself a possible answer to the order's own query exactly if it has
      the take rows; rows that tie may stand in either order in both. */
  lemma PossibleAnswerIff(db: Tables, q: Query, h: string, rows: seq<Row>)
    requires h in q.hashes && Answers(db, q, rows)
    ensures Answers(db, Only(q, h), RowsFor(rows, h)) <==> SameTakes(db.takes, db.events, q, h)
  {
    hide TakeTrades, RowsFor, Union, SameTakes, Newer;
    UnionIffTakes(db, q, h, rows);
    ListsAreNewestFirst(rows, h);
    forall r | r in RowsFor(rows, h) ensures r.hash == h {
      RowsForMember(rows, h, r);
    }
    OneOrderInOrder(RowsFor(rows, h), h);
  }

  /** No two rows of the list tie. */
  ghost predicate NoTies(rows: seq<Row>) {
    forall i, j :: 0 <= i < j < |rows| ==> Newer(rows[i], rows[j]) || Newer(rows[j], rows[i])
  }

  lemma FirstIsNewest(rows: seq<Row>, r: Row)
    requires NewestFirst(rows) && NoTies(rows) && r in rows
    ensures r == rows[0] || Newer(rows[0], r)
  {
  }

  lemma SameNewest(a: seq<Row>, b: seq<Row>)
    requires multiset(a) == multiset(b) && NewestFirst(a) && NewestFirst(b) && NoTies(a) && NoTies(b) && a != []
    ensures |a| == |b| && a[0] == b[0]
  {
    assert |multiset(a)| == |a| && |multiset(b)| == |b|;
    assert a[0] in multiset(b) && b[0] in multiset(a);
    FirstIsNewest(a, b[0]);
    FirstIsNewest(b, a[0]);
  }

  lemma RestIsOrdered(a: seq<Row>)
    requires NewestFirst(a) && NoTies(a) && a != []
    ensures NewestFirst(a[1..]) && NoTies(a[1..]) && multiset(a[1..]) == multiset(a) - multiset{a[0]}
  {
    hide Newer;
    assert a == [a[0]] + a[1..];
  }

  lemma {:induction false} OneOrder(a: seq<Row>, b: seq<Row>)
    requires multiset(a) == multiset(b) && NewestFirst(a) && NewestFirst(b) && NoTies(a) && NoTies(b)
    ensures a == b
  {
    hide NewestFirst, NoTies;
    if a == [] {
      assert |multiset(b)| == |b|;
    } else {
      SameNewest(a, b);
      RestIsOrdered(a);
      RestIsOrdered(b);
      OneOrder(a[1..], b[1..]);
      assert a == [a[0]] + a[1..] && b == [b[0]] + b[1..];
    }
  }

  lemma TiesAreShared(a: seq<Row>, b: seq<Row>)
    requires multiset(a) == multiset(b) && NoTies(a)
    ensures NoTies(b)
  {
    forall i, j | 0 <= i < j < |b| ensures Newer(b[i], b[j]) || Newer(b[j], b[i]) {
      assert b[i] in multiset(a) && b[j] in multiset(a);
      var k: nat :| k < |a| && a[k] == b[i];
      var l: nat :| l < |a| && a[l] == b[j];
      if k == l {
        TwiceInBoth(a, b, i, j);
      }
    }
  }

  lemma TwiceInBoth(a: seq<Row>, b: seq<Row>, i: nat, j: nat)
    requires multiset(a) == multiset(b) && NoTies(a) && i < j < |b|
    ensures b[i] != b[j]
  {
    if b[i] == b[j] {
      var r := b[i];
      assert b == b[..i] + [r] + b[i + 1..j] + [r] + b[j + 1..];
      assert multiset(b)[r] >= 2;
      AtMostOnce(a, r);
      assert false;
    }
  }

  lemma {:induction false} AtMostOnce(a: seq<Row>, r: Row)
    requires NoTies(a)
    ensures multiset(a)[r] <= 1
  {
    if a != [] {
      AtMostOnce(a[1..], r);
      assert a == [a[0]] + a[1..];
      assert a[0] !in a[1..];
    }
  }

  /** Without ties, the batch gives an order the very list its own query would give it. */
  lemma SameList(db: Tables, q: Query, h: string, rows: seq<Row>, own: seq<Row>)
    requires h in q.hashes && Answers(db, q, rows) && Answers(db, Only(q, h), own) && NoTies(own)
    requires SameTakes(db.takes, db.events, q, h)
    ensures RowsFor(rows, h) == own
  {
    SameAsOwnIff(db, q, h, rows, own);
    ListsAreNewestFirst(rows, h);
    TiesAreShared(own, RowsFor(rows, h));
    forall i, j | 0 <= i < j < |own| ensures !Newer(own[j], own[i]) {
      OwnHash(db, q, h, own, i);
      OwnHash(db, q, h, own, j);
      assert !Before(own[j], own[i]);
    }
    OneOrder(RowsFor(rows, h), own);
  }

  lemma OwnHash(db: Tables, q: Query, h: string, own: seq<Row>, i: nat)
    requires Answers(db, Only(q, h), own) && i < |own|
    ensures own[i].hash == h
  {
    assert own[i] in multiset(own);
    if own[i].hash != h {
      OwnAreOwn(db, q, h, own[i]);
    }
  }

  // ---------------------------------------------------------------- every query has an answer

  /** One text comes before another if it is a proper beginning of it, or has the lesser character where
      they first differ. */
  lemma {:induction false} TextLessMeans(a: string, b: string)
    ensures TextLess(a, b) <==> exists k: nat :: DiffersAt(a, b, k)
  {
    if a == "" || b == "" || a[0] != b[0] {
      assert b != "" && (a == "" || a[0] < b[0]) ==> DiffersAt(a, b, 0);
    } else {
      TextLessMeans(a[1..], b[1..]);
      if k: nat :| DiffersAt(a[1..], b[1..], k) {
        DiffersLater(a, b, k);
      }
      if k: nat :| DiffersAt(a, b, k) {
        DiffersLater(a, b, k - 1);
      }
    }
  }

  lemma DiffersLater(a: string, b: string, k: nat)
    requires a != "" && b != "" && a[0] == b[0]
    ensures DiffersAt(a[1..], b[1..], k) <==> DiffersAt(a, b, k + 1)
  {
    if k < |a| && k < |b| {
      assert a[..k + 1] == [a[0]] + a[1..][..k] && b[..k + 1] == [b[0]] + b[1..][..k];
      assert a[..k + 1][1..] == a[1..][..k] && b[..k + 1][1..] == b[1..][..k];
    }
  }

  predicate DiffersAt(a: string, b: string, k: nat) {
    k <= |a| && k < |b| && a[..k] == b[..k] && (k == |a| || a[k] < b[k])
  }

  lemma {:induction false} TextOrder(a: string, b: string, c: string)
    ensures TextLess(a, b) || TextLess(b, a) || a == b
    ensures !(TextLess(a, b) && TextLess(b, a))
    ensures TextLess(a, b) && TextLess(b, c) ==> TextLess(a, c)
  {
    if a != "" && b != "" {
      TextOrder(a[1..], b[1..], if c == "" then "" else c[1..]);
      assert a == [a[0]] + a[1..] && b == [b[0]] + b[1..];
    }
  }

  lemma NotBeforeIsTransitive(a: Row, b: Row, c: Row)
    requires !Before(b, a) && !Before(c, b)
    ensures !Before(c, a)
  {
    hide TextLess;
    TextOrder(a.hash, b.hash, c.hash);
    TextOrder(b.hash, c.hash, a.hash);
    TextOrder(c.hash, a.hash, b.hash);
  }

  lemma NotBothBefore(a: Row, b: Row)
    ensures !(Before(a, b) && Before(b, a))
  {
    hide TextLess;
    TextOrder(a.hash, b.hash, a.hash);
    NotLessThanItself(a.hash);
  }

  lemma {:induction false} InsertRow(rows: seq<Row>, r: Row) returns (longer: seq<Row>)
    requires Ordered(rows)
    ensures Ordered(longer) && multiset(longer) == multiset(rows) + multiset{r}
  {
    hide Before;
    if rows == [] {
      longer := [r];
    } else {
      var rest, last := rows[..|rows| - 1], rows[|rows| - 1];
      assert rows == rest + [last];
      if Before(r, last) {
        var front := InsertRow(rest, r);
        longer := front + [last];
        NotBothBefore(r, last);
        forall x | x in front ensures !Before(last, x) {
          assert x in multiset(front);
          assert x == r || x in rest;
        }
      } else {
        longer := rows + [r];
        forall i | 0 <= i < |rows| ensures !Before(r, rows[i]) {
          if i < |rest| {
            NotBeforeIsTransitive(rows[i], last, r);
          }
        }
      }
    }
  }

  lemma {:induction false} Arrange(m: multiset<Row>) returns (rows: seq<Row>)
    ensures multiset(rows) == m && Ordered(rows)
    decreases |m|
  {
    if m == multiset{} {
      rows := [];
    } else {
      var r :| r in m;
      var rest := Arrange(m - multiset{r});
      rows := InsertRow(rest, r);
    }
  }

  /** For all tables and requests there is a way to arrange the rows as the query demands. */
  lemma AnswerExists(db: Tables, q: Query)
    ensures exists rows :: Answers(db, q, rows)
  {
    var rows := Arrange(Union(db, q));
    assert Answers(db, q, rows);
  }
}
