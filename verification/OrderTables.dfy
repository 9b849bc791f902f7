/** The tables behind the batch trade query, and what the query asks of them. */
module OrderTables {
  /** Where an event sits on its chain. */
  datatype Position = Position(block: int, log: int)

  predicate Precedes(a: Position, b: Position) {
    a.block < b.block || (a.block == b.block && a.log < b.log)
  }

  predicate AtOrBefore(a: Position, b: Position) {
    a.block < b.block || (a.block == b.block && a.log <= b.log)
  }

  datatype OrderEvent = OrderEvent(
    chain: int, book: string, at: Position, owner: string, nonce: string, hash: string, kind: string)

  datatype Take = Take(
    chain: int, book: string, at: Position, tx: string, timestamp: int, sender: string,
    owner: string, nonce: string, takerInput: string, takerOutput: string)

  datatype Clear = Clear(
    chain: int, book: string, at: Position, tx: string, timestamp: int, sender: string,
    aliceHash: string, bobHash: string)

  datatype AfterClear = AfterClear(
    chain: int, book: string, tx: string, log: int,
    aliceInput: string, aliceOutput: string, bobInput: string, bobOutput: string)

  datatype Tables = Tables(events: seq<OrderEvent>, takes: seq<Take>, clears: seq<Clear>, afters: seq<AfterClear>)

  /** The parameters bound to the query: one orderbook on one chain, and the requested order hashes. */
  datatype Query = Query(chain: int, book: string, hashes: set<string>)

  function Only(q: Query, h: string): Query {
    q.(hashes := {h})
  }

  datatype Row = Row(
    hash: string, tx: string, log: int, timestamp: int, sender: string, inputDelta: string, outputDelta: string)

  const ADDED := "AddOrderV3"

  /** The rows of the `order_add_events` part: additions of requested orders. */
  predicate Requested(e: OrderEvent, q: Query) {
    e.chain == q.chain && e.book == q.book && e.hash in q.hashes && e.kind == ADDED
  }

  /** No two additions on a chain share a position. */
  ghost predicate DistinctAdds(events: seq<OrderEvent>) {
    forall i, j :: 0 <= i < j < |events| && events[i].chain == events[j].chain && events[i].kind == events[j].kind == ADDED ==>
      events[i].at != events[j].at
  }

  /** Among the additions that satisfy a join condition, one has no newer one beside it. */
  lemma {:induction false} LatestExists(events: seq<OrderEvent>, eligible: OrderEvent -> bool, i: nat) returns (k: nat)
    requires i < |events| && eligible(events[i])
    ensures k < |events| && eligible(events[k])
    ensures forall e :: e in events && eligible(e) ==> !Precedes(events[k].at, e.at)
    decreases |events|
  {
    var n := |events| - 1;
    var rest, last := events[..n], events[n];
    assert forall e :: e in events ==> e in rest || e == last;
    if forall e :: e in rest && eligible(e) ==> false {
      k := i;
    } else {
      var j: nat :| j < n && eligible(events[j]);
      assert rest[j] == events[j];
      k := LatestExists(rest, eligible, j);
      if eligible(last) && Precedes(events[k].at, last.at) {
        k := n;
      }
    }
  }

  /** The rows of one order, in order. */
  function RowsFor(rows: seq<Row>, h: string): seq<Row> {
    if rows == [] then []
    else
      var last := rows[|rows| - 1];
      RowsFor(rows[..|rows| - 1], h) + if last.hash == h then [last] else []
  }

  lemma {:induction false} RowsForConcat(a: seq<Row>, b: seq<Row>, h: string)
    ensures RowsFor(a + b, h) == RowsFor(a, h) + RowsFor(b, h)
    decreases |b|
  {
    if b == [] {
      assert a + b == a;
    } else {
      var last := b[|b| - 1];
      assert (a + b)[..|a + b| - 1] == a + b[..|b| - 1] && (a + b)[|a + b| - 1] == last;
      RowsForConcat(a, b[..|b| - 1], h);
    }
  }

  lemma RowsForOne(r: Row, h: string)
    ensures RowsFor([r], h) == if r.hash == h then [r] else []
  {
    assert [r][..0] == [];
  }
}
