/** The clear parts of the batch trade query: each side of a clear belongs to its own order, and the
    amounts come from the next after-clear event of the transaction. */
module ClearPairing {
  import opened OrderTables

  datatype Side = Alice | Bob

  function HashOn(c: Clear, side: Side): string {
    if side.Alice? then c.aliceHash else c.bobHash
  }

  function ClearRow(c: Clear, a: AfterClear, side: Side): Row {
    match side
    case Alice => Row(c.aliceHash, c.tx, c.at.log, c.timestamp, c.sender, a.aliceInput, a.aliceOutput)
    case Bob => Row(c.bobHash, c.tx, c.at.log, c.timestamp, c.sender, a.bobInput, a.bobOutput)
  }

  /** The conditions on the clear event itself. */
  predicate Wanted(c: Clear, side: Side, q: Query) {
    c.chain == q.chain && c.book == q.book && HashOn(c, side) in q.hashes
  }

  predicate Eligible(e: OrderEvent, c: Clear, side: Side, q: Query) {
    && Requested(e, q)
    && e.chain == c.chain && e.book == c.book && e.hash == HashOn(c, side)
    && AtOrBefore(e.at, c.at)
  }

  predicate Attributed(e: OrderEvent, c: Clear, side: Side, events: seq<OrderEvent>, q: Query) {
    && Eligible(e, c, side, q)
    && forall newer :: newer in events && Eligible(newer, c, side, q) ==> !Precedes(e.at, newer.at)
  }

  predicate SameTransaction(a: AfterClear, c: Clear) {
    a.chain == c.chain && a.book == c.book && a.tx == c.tx
  }

  /** `a.log_index` is the least log index of an after-clear event of the transaction beyond the clear. */
  predicate NextAfter(a: AfterClear, c: Clear, afters: seq<AfterClear>) {
    && SameTransaction(a, c) && c.at.log < a.log
    && forall other :: other in afters && SameTransaction(other, c) && c.at.log < other.log ==> a.log <= other.log
  }

  predicate Joined(c: Clear, e: OrderEvent, a: AfterClear, side: Side, db: Tables, q: Query) {
    Wanted(c, side, q) && Attributed(e, c, side, db.events, q) && NextAfter(a, c, db.afters)
  }

  /** `clear_alice` and `clear_bob`. `SELECT DISTINCT` makes each a set of rows. */
  function ClearTrades(side: Side, db: Tables, q: Query): set<Row> {
    set c, e, a | c in db.clears && e in db.events && a in db.afters && Joined(c, e, a, side, db, q)
      :: ClearRow(c, a, side)
  }

  // ---------------------------------------------------------------- which orders get a row

  /** The clear, the after-clear event and some earlier addition explain the row. */
  ghost predicate Explains(r: Row, c: Clear, a: AfterClear, side: Side, db: Tables, q: Query) {
    && c in db.clears && Wanted(c, side, q)
    && a in db.afters && NextAfter(a, c, db.afters)
    && (exists e :: e in db.events && Eligible(e, c, side, q))
    && r == ClearRow(c, a, side)
  }

  lemma JoinedExplains(r: Row, side: Side, db: Tables, q: Query) returns (c: Clear, a: AfterClear)
    requires r in ClearTrades(side, db, q)
    ensures Explains(r, c, a, side, db, q)
  {
    hide NextAfter, Wanted, ClearRow;
    var e: OrderEvent;
    c, e, a :| c in db.clears && e in db.events && a in db.afters && Joined(c, e, a, side, db, q)
      && r == ClearRow(c, a, side);
    assert e in db.events && Eligible(e, c, side, q);
  }

  lemma ExplainedJoins(r: Row, c: Clear, a: AfterClear, side: Side, db: Tables, q: Query)
    requires Explains(r, c, a, side, db, q)
    ensures r in ClearTrades(side, db, q)
  {
    hide NextAfter, Wanted, ClearRow, Eligible;
    var e :| e in db.events && Eligible(e, c, side, q);
    var i: nat :| i < |db.events| && db.events[i] == e;
    var k := LatestExists(db.events, event => Eligible(event, c, side, q), i);
    assert Joined(c, db.events[k], a, side, db, q);
  }

  /** For clears it does not matter which addition is the latest: a side has a row exactly if it was
      requested, its order was added at or before the clear, and an after-clear event follows. */
  lemma RowsExplained(r: Row, side: Side, db: Tables, q: Query)
    ensures r in ClearTrades(side, db, q) <==> exists c, a :: Explains(r, c, a, side, db, q)
  {
    hide ClearTrades, Explains;
    if r in ClearTrades(side, db, q) {
      var c, a := JoinedExplains(r, side, db, q);
    }
    if exists c, a :: Explains(r, c, a, side, db, q) {
      var c, a :| Explains(r, c, a, side, db, q);
      ExplainedJoins(r, c, a, side, db, q);
    }
  }

  /** The side of the clear was requested, and its order was added at or before the clear. */
  ghost predicate SideClaimed(c: Clear, hash: string, events: seq<OrderEvent>, q: Query) {
    && c.chain == q.chain && c.book == q.book && hash in q.hashes
    && exists e :: e in events && AddedBy(e, c, hash)
  }

  predicate AddedBy(e: OrderEvent, c: Clear, hash: string) {
    && e.kind == "AddOrderV3" && e.hash == hash && e.chain == c.chain && e.book == c.book
    && (e.at.block < c.at.block || (e.at.block == c.at.block && e.at.log <= c.at.log))
  }

  /** The first after-clear event of the clear's transaction beyond the clear. */
  ghost predicate FirstBeyond(a: AfterClear, c: Clear, afters: seq<AfterClear>) {
    && a in afters && a.chain == c.chain && a.book == c.book && a.tx == c.tx && a.log > c.at.log
    && forall other :: other in afters && other.chain == c.chain && other.book == c.book && other.tx == c.tx ==>
         !(c.at.log < other.log < a.log)
  }

  predicate InTransactionOf(r: Row, c: Clear) {
    r.tx == c.tx && r.log == c.at.log && r.timestamp == c.timestamp && r.sender == c.sender
  }

  /** Alice's row has her order and her amounts, and Bob's has his. */
  predicate ReportsAlice(r: Row, c: Clear, a: AfterClear) {
    InTransactionOf(r, c) && r.hash == c.aliceHash && r.inputDelta == a.aliceInput && r.outputDelta == a.aliceOutput
  }

  predicate ReportsBob(r: Row, c: Clear, a: AfterClear) {
    InTransactionOf(r, c) && r.hash == c.bobHash && r.inputDelta == a.bobInput && r.outputDelta == a.bobOutput
  }

  ghost predicate FromAlice(r: Row, c: Clear, a: AfterClear, db: Tables, q: Query) {
    c in db.clears && SideClaimed(c, c.aliceHash, db.events, q) && FirstBeyond(a, c, db.afters) && ReportsAlice(r, c, a)
  }

  ghost predicate FromBob(r: Row, c: Clear, a: AfterClear, db: Tables, q: Query) {
    c in db.clears && SideClaimed(c, c.bobHash, db.events, q) && FirstBeyond(a, c, db.afters) && ReportsBob(r, c, a)
  }

  lemma FirstIsNext(a: AfterClear, c: Clear, afters: seq<AfterClear>)
    ensures FirstBeyond(a, c, afters) <==> a in afters && NextAfter(a, c, afters)
  {
    if a in afters && NextAfter(a, c, afters) {
      forall other | other in afters && other.chain == c.chain && other.book == c.book && other.tx == c.tx
        ensures !(c.at.log < other.log < a.log)
      {
        assert SameTransaction(other, c);
      }
    }
  }

  lemma ClaimedIsEligible(c: Clear, side: Side, db: Tables, q: Query)
    ensures SideClaimed(c, HashOn(c, side), db.events, q)
       <==> Wanted(c, side, q) && exists e :: e in db.events && Eligible(e, c, side, q)
  {
    if Wanted(c, side, q) {
      forall e ensures Eligible(e, c, side, q) <==> AddedBy(e, c, HashOn(c, side)) {
      }
    }
  }

  lemma ExplainsMeans(r: Row, c: Clear, a: AfterClear, db: Tables, q: Query)
    ensures Explains(r, c, a, Alice, db, q) <==> FromAlice(r, c, a, db, q)
    ensures Explains(r, c, a, Bob, db, q) <==> FromBob(r, c, a, db, q)
  {
    hide SideClaimed, FirstBeyond, NextAfter, Wanted, Eligible;
    FirstIsNext(a, c, db.afters);
    ClaimedIsEligible(c, Alice, db, q);
    ClaimedIsEligible(c, Bob, db, q);
  }

  /** The rows of the two clear parts, event by event and amount by amount. */
  lemma ClearRowsMean(r: Row, db: Tables, q: Query)
    ensures r in ClearTrades(Alice, db, q) <==> exists c, a :: FromAlice(r, c, a, db, q)
    ensures r in ClearTrades(Bob, db, q) <==> exists c, a :: FromBob(r, c, a, db, q)
  {
    hide ClearTrades, Explains, FromAlice, FromBob;
    RowsExplained(r, Alice, db, q);
    RowsExplained(r, Bob, db, q);
    forall c, a ensures Explains(r, c, a, Alice, db, q) <==> FromAlice(r, c, a, db, q)
                ensures Explains(r, c, a, Bob, db, q) <==> FromBob(r, c, a, db, q) {
      ExplainsMeans(r, c, a, db, q);
    }
  }

  lemma NarrowingExplains(r: Row, c: Clear, a: AfterClear, side: Side, db: Tables, q: Query, h: string)
    requires h in q.hashes
    ensures Explains(r, c, a, side, db, Only(q, h)) <==> Explains(r, c, a, side, db, q) && r.hash == h
  {
    var only := Only(q, h);
    forall e | HashOn(c, side) == h ensures Eligible(e, c, side, only) <==> Eligible(e, c, side, q) {
    }
  }

  /** The clear rows a batch gives an order are exactly those of the order's own query, whatever other
      orders were asked for and whatever the tables hold. */
  lemma ClearsIgnoreOthers(side: Side, db: Tables, q: Query, h: string)
    requires h in q.hashes
    ensures (set r | r in ClearTrades(side, db, q) && r.hash == h) == ClearTrades(side, db, Only(q, h))
  {
    forall r ensures r in ClearTrades(side, db, q) && r.hash == h <==> r in ClearTrades(side, db, Only(q, h)) {
      RowsExplained(r, side, db, q);
      RowsExplained(r, side, db, Only(q, h));
      forall c, a {
        NarrowingExplains(r, c, a, side, db, q, h);
      }
    }
  }

  // ---------------------------------------------------------------- pairing by log index

  /** `a` is the least element of `logs` beyond `c`. */
  predicate IsNext(a: int, c: int, logs: set<int>) {
    a in logs && c < a && forall x :: x in logs && c < x ==> a <= x
  }

  lemma {:induction false} NextExists(c: int, logs: set<int>, x: int) returns (a: int)
    requires x in logs && c < x
    ensures IsNext(a, c, logs)
    decreases logs
  {
    if IsNext(x, c, logs) {
      a := x;
    } else {
      var y :| y in logs && c < y && y < x;
      a := NextExists(c, logs - {x}, y);
      forall z | z in logs && c < z ensures a <= z {
        assert z == x || z in logs - {x};
      }
    }
  }

  ghost predicate EveryClearPaired(clears: set<int>, afters: set<int>) {
    forall c :: c in clears ==> exists a :: IsNext(a, c, afters)
  }

  ghost predicate NoneShared(clears: set<int>, afters: set<int>) {
    forall c, d, a :: c in clears && d in clears && IsNext(a, c, afters) && IsNext(a, d, afters) ==> c == d
  }

  /** Some after-clear follows the clear before the next clear does. */
  ghost predicate AnsweredInTime(c: int, clears: set<int>, afters: set<int>) {
    exists a :: a in afters && c < a && forall d :: d in clears && c < d ==> a < d
  }

  /** Taking the least later log index pairs the clears of a transaction one to one exactly if each is
      answered before the next one. */
  lemma PairingIsSoundIff(clears: set<int>, afters: set<int>)
    requires clears !! afters
    ensures EveryClearPaired(clears, afters) && NoneShared(clears, afters)
       <==> forall c :: c in clears ==> AnsweredInTime(c, clears, afters)
  {
    if EveryClearPaired(clears, afters) && NoneShared(clears, afters) {
      forall c | c in clears ensures AnsweredInTime(c, clears, afters) {
        var a :| IsNext(a, c, afters);
        forall d | d in clears && c < d ensures a < d {
          assert d < a ==> IsNext(a, d, afters);
        }
      }
    }
    if forall c :: c in clears ==> AnsweredInTime(c, clears, afters) {
      forall c | c in clears ensures exists a :: IsNext(a, c, afters) {
        assert AnsweredInTime(c, clears, afters);
        var x :| x in afters && c < x;
        var a := NextExists(c, afters, x);
      }
      forall c, d, a | c in clears && d in clears && IsNext(a, c, afters) && IsNext(a, d, afters) ensures c == d {
        assert AnsweredInTime(c, clears, afters) && AnsweredInTime(d, clears, afters);
      }
    }
  }

  /** The events of a transaction alternate, beginning with a clear and ending with an after-clear. */
  ghost predicate Alternate(clearAt: seq<int>, afterAt: seq<int>) {
    && |clearAt| == |afterAt|
    && (forall k :: 0 <= k < |clearAt| ==> clearAt[k] < afterAt[k])
    && (forall k :: 0 < k < |clearAt| ==> afterAt[k - 1] < clearAt[k])
  }

  lemma {:induction false} LaterClears(clearAt: seq<int>, afterAt: seq<int>, i: nat, j: nat)
    requires Alternate(clearAt, afterAt) && i < j < |clearAt|
    ensures afterAt[i] < clearAt[j]
    decreases j
  {
    if i + 1 < j {
      LaterClears(clearAt, afterAt, i, j - 1);
    }
  }

  /** Then every clear is paired with its own after-clear. */
  lemma PairedWithOwn(clearAt: seq<int>, afterAt: seq<int>, k: nat)
    requires Alternate(clearAt, afterAt) && k < |clearAt|
    ensures IsNext(afterAt[k], clearAt[k], set a | a in afterAt)
  {
    forall x | x in afterAt && clearAt[k] < x ensures afterAt[k] <= x {
      var j: nat :| j < |afterAt| && afterAt[j] == x;
      if j < k {
        LaterClears(clearAt, afterAt, j, k);
      } else if k < j {
        LaterClears(clearAt, afterAt, k, j);
      }
    }
  }

  // ---------------------------------------------------------------- one row per side

  function ClearLogs(db: Tables, q: Query, tx: string): set<int> {
    set c | c in db.clears && c.chain == q.chain && c.book == q.book && c.tx == tx :: c.at.log
  }

  function AfterLogs(db: Tables, q: Query, tx: string): set<int> {
    set a | a in db.afters && a.chain == q.chain && a.book == q.book && a.tx == tx :: a.log
  }

  predicate SameLog(c: Clear, d: Clear) {
    c.chain == d.chain && c.book == d.book && c.tx == d.tx && c.at.log == d.at.log
  }

  predicate SameAfterLog(a: AfterClear, b: AfterClear) {
    a.chain == b.chain && a.book == b.book && a.tx == b.tx && a.log == b.log
  }

  /** Within a transaction no two clears share a log index, and no two after-clears do. */
  ghost predicate DistinctLogs(db: Tables) {
    && (forall c, d :: c in db.clears && d in db.clears && SameLog(c, d) ==> c == d)
    && (forall a, b :: a in db.afters && b in db.afters && SameAfterLog(a, b) ==> a == b)
  }

  lemma NextIsNext(a: AfterClear, c: Clear, db: Tables, q: Query)
    requires c.chain == q.chain && c.book == q.book && a in db.afters
    ensures NextAfter(a, c, db.afters) <==> SameTransaction(a, c) && IsNext(a.log, c.at.log, AfterLogs(db, q, c.tx))
  {
    assert forall other :: other in db.afters && SameTransaction(other, c) ==> other.log in AfterLogs(db, q, c.tx);
  }

  lemma OwnIsNext(db: Tables, q: Query, c: Clear, own: AfterClear, clearAt: seq<int>, afterAt: seq<int>, k: nat)
    requires DistinctLogs(db) && Alternate(clearAt, afterAt) && k < |clearAt|
    requires AfterLogs(db, q, c.tx) == set x | x in afterAt
    requires c.chain == q.chain && c.book == q.book && c.at.log == clearAt[k]
    requires own in db.afters && SameTransaction(own, c) && own.log == afterAt[k]
    ensures forall a :: a in db.afters ==> (NextAfter(a, c, db.afters) <==> a == own)
  {
    hide AfterLogs, Alternate, NextAfter;
    PairedWithOwn(clearAt, afterAt, k);
    forall a | a in db.afters ensures NextAfter(a, c, db.afters) <==> a == own {
      NextIsNext(a, c, db, q);
      if SameTransaction(a, c) && IsNext(a.log, c.at.log, AfterLogs(db, q, c.tx)) {
        assert SameAfterLog(a, own);
      }
    }
  }

  /** If the clears and after-clears of a transaction alternate, each requested side of each clear whose
      order was added by then gets exactly one row, with the amounts of the clear's own after-clear. */
  lemma OneRowPerSide(db: Tables, q: Query, c: Clear, own: AfterClear, side: Side,
                      clearAt: seq<int>, afterAt: seq<int>, k: nat)
    requires DistinctLogs(db) && Alternate(clearAt, afterAt) && k < |clearAt|
    requires ClearLogs(db, q, c.tx) == (set x | x in clearAt) && AfterLogs(db, q, c.tx) == (set x | x in afterAt)
    requires c in db.clears && Wanted(c, side, q) && c.at.log == clearAt[k]
    requires own in db.afters && SameTransaction(own, c) && own.log == afterAt[k]
    requires exists e :: e in db.events && Eligible(e, c, side, q)
    ensures (set r | r in ClearTrades(side, db, q) && r.tx == c.tx && r.log == c.at.log) == {ClearRow(c, own, side)}
    ensures if side.Alice? then ReportsAlice(ClearRow(c, own, side), c, own) else ReportsBob(ClearRow(c, own, side), c, own)
  {
    hide ClearTrades, NextAfter, Eligible, ClearLogs, AfterLogs, Alternate;
    OwnIsNext(db, q, c, own, clearAt, afterAt, k);
    RowsExplained(ClearRow(c, own, side), side, db, q);
    assert Explains(ClearRow(c, own, side), c, own, side, db, q);
    forall r | r in ClearTrades(side, db, q) && r.tx == c.tx && r.log == c.at.log ensures r == ClearRow(c, own, side) {
      RowsExplained(r, side, db, q);
      var d, a :| Explains(r, d, a, side, db, q);
      assert SameLog(d, c);
    }
  }
}
