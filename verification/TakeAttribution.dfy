/** The take part of the batch trade query: each take belongs to the latest addition, at or before it,
    of an order with its owner and nonce. */
module TakeAttribution {
  import opened OrderTables

  predicate InScope(t: Take, q: Query) {
    t.chain == q.chain && t.book == q.book
  }

  /** The join condition of `take_trades` without the `NOT EXISTS`. */
  predicate Eligible(e: OrderEvent, t: Take, q: Query) {
    && Requested(e, q)
    && e.chain == t.chain && e.book == t.book && e.owner == t.owner && e.nonce == t.nonce
    && AtOrBefore(e.at, t.at)
  }

  /** The whole join condition: no newer addition is eligible too. */
  predicate Attributed(e: OrderEvent, t: Take, events: seq<OrderEvent>, q: Query) {
    Eligible(e, t, q) && forall newer :: newer in events && Eligible(newer, t, q) ==> !Precedes(e.at, newer.at)
  }

  function TakeRow(t: Take, e: OrderEvent): Row {
    Row(e.hash, t.tx, t.at.log, t.timestamp, t.sender, t.takerOutput, t.takerInput)
  }

  /** The rows that the additions in `adds` contribute to one take. */
  function RowsOf(t: Take, adds: seq<OrderEvent>, events: seq<OrderEvent>, q: Query): seq<Row> {
    if adds == [] then []
    else
      var e := adds[|adds| - 1];
      RowsOf(t, adds[..|adds| - 1], events, q) + if Attributed(e, t, events, q) then [TakeRow(t, e)] else []
  }

  function RowsOfTake(t: Take, events: seq<OrderEvent>, q: Query): seq<Row> {
    if InScope(t, q) then RowsOf(t, events, events, q) else []
  }

  function TakeTrades(takes: seq<Take>, events: seq<OrderEvent>, q: Query): seq<Row> {
    if takes == [] then []
    else TakeTrades(takes[..|takes| - 1], events, q) + RowsOfTake(takes[|takes| - 1], events, q)
  }

  // ---------------------------------------------------------------- one row or none

  lemma AttributedOnce(t: Take, events: seq<OrderEvent>, q: Query, i: nat, k: nat)
    requires DistinctAdds(events) && i < |events| && k < |events| && Attributed(events[k], t, events, q)
    ensures Attributed(events[i], t, events, q) <==> i == k
  {
    if Attributed(events[i], t, events, q) {
      assert events[i] in events && events[k] in events;
      assert events[i].at == events[k].at;
    }
  }

  lemma {:induction false} RowsUpTo(t: Take, events: seq<OrderEvent>, n: nat, q: Query, k: nat)
    requires DistinctAdds(events) && n <= |events| && k < |events| && Attributed(events[k], t, events, q)
    ensures RowsOf(t, events[..n], events, q) == if k < n then [TakeRow(t, events[k])] else []
  {
    if n > 0 {
      RowsUpTo(t, events, n - 1, q, k);
      AttributedOnce(t, events, q, n - 1, k);
      assert events[..n][..n - 1] == events[..n - 1];
    }
  }

  lemma {:induction false} NoRows(t: Take, events: seq<OrderEvent>, n: nat, q: Query)
    requires n <= |events| && forall i :: 0 <= i < |events| ==> !Eligible(events[i], t, q)
    ensures RowsOf(t, events[..n], events, q) == []
  {
    if n > 0 {
      NoRows(t, events, n - 1, q);
      assert events[..n][..n - 1] == events[..n - 1];
    }
  }

  ghost predicate HasAdd(t: Take, events: seq<OrderEvent>, q: Query) {
    exists i: nat :: i < |events| && Eligible(events[i], t, q)
  }

  /** The addition a take is attributed to, if there is one. */
  lemma Attribution(t: Take, events: seq<OrderEvent>, q: Query) returns (k: nat)
    requires DistinctAdds(events) && InScope(t, q) && HasAdd(t, events, q)
    ensures k < |events| && Attributed(events[k], t, events, q)
    ensures RowsOfTake(t, events, q) == [TakeRow(t, events[k])]
  {
    var i: nat :| i < |events| && Eligible(events[i], t, q);
    k := LatestExists(events, e => Eligible(e, t, q), i);
    assert events[..|events|] == events;
    RowsUpTo(t, events, |events|, q, k);
  }

  lemma Unattributed(t: Take, events: seq<OrderEvent>, q: Query)
    requires !(InScope(t, q) && HasAdd(t, events, q))
    ensures RowsOfTake(t, events, q) == []
  {
    if InScope(t, q) {
      assert events[..|events|] == events;
      NoRows(t, events, |events|, q);
    }
  }

  /** The row has the order of the addition and the transaction of the take; what the taker got out is what
      went into the order, and the other way round. */
  predicate ReportsTake(r: Row, t: Take, e: OrderEvent) {
    && r.hash == e.hash
    && r.tx == t.tx && r.log == t.at.log && r.timestamp == t.timestamp && r.sender == t.sender
    && r.inputDelta == t.takerOutput && r.outputDelta == t.takerInput
  }

  /** A take of the orderbook yields one row if some requested addition with its owner and nonce is at
      or before it, and none otherwise; the row carries the hash of the latest such addition. */
  lemma OneRowPerTake(t: Take, events: seq<OrderEvent>, q: Query)
    requires DistinctAdds(events) && InScope(t, q)
    ensures |RowsOfTake(t, events, q)| == if HasAdd(t, events, q) then 1 else 0
    ensures forall i :: 0 <= i < |events| && Attributed(events[i], t, events, q) ==>
      RowsOfTake(t, events, q) == [TakeRow(t, events[i])] && ReportsTake(TakeRow(t, events[i]), t, events[i])
  {
    if HasAdd(t, events, q) {
      var k := Attribution(t, events, q);
      forall i | 0 <= i < |events| && Attributed(events[i], t, events, q)
        ensures RowsOfTake(t, events, q) == [TakeRow(t, events[i])] && ReportsTake(TakeRow(t, events[i]), t, events[i])
      {
        AttributedOnce(t, events, q, i, k);
      }
    } else {
      Unattributed(t, events, q);
    }
  }

  /** The addition was requested, is of the take's orderbook, owner and nonce, and is at or before it. */
  predicate Claims(e: OrderEvent, t: Take, q: Query) {
    && e.kind == "AddOrderV3" && e.hash in q.hashes
    && e.chain == q.chain && e.book == q.book && t.chain == q.chain && t.book == q.book
    && e.owner == t.owner && e.nonce == t.nonce
    && (e.at.block < t.at.block || (e.at.block == t.at.block && e.at.log <= t.at.log))
  }

  /** No other addition that claims the take is later. */
  ghost predicate LatestClaim(e: OrderEvent, t: Take, events: seq<OrderEvent>, q: Query) {
    && e in events && Claims(e, t, q)
    && forall other :: other in events && Claims(other, t, q) ==>
         other.at.block < e.at.block || (other.at.block == e.at.block && other.at.log <= e.at.log)
  }

  lemma ClaimIsEligible(e: OrderEvent, t: Take, events: seq<OrderEvent>, q: Query)
    ensures Claims(e, t, q) <==> InScope(t, q) && Eligible(e, t, q)
    ensures LatestClaim(e, t, events, q) <==> InScope(t, q) && e in events && Attributed(e, t, events, q)
  {
    if LatestClaim(e, t, events, q) {
      forall newer | newer in events && Eligible(newer, t, q) ensures !Precedes(e.at, newer.at) {
        assert Claims(newer, t, q);
      }
    }
    if InScope(t, q) && e in events && Attributed(e, t, events, q) {
      forall other | other in events && Claims(other, t, q)
        ensures other.at.block < e.at.block || (other.at.block == e.at.block && other.at.log <= e.at.log)
      {
        assert Eligible(other, t, q);
      }
    }
  }

  /** A take has a row exactly if an addition claims it, only one, and that row reports the take for the
      order of the latest claim. */
  lemma TakeRowMeans(t: Take, events: seq<OrderEvent>, q: Query)
    requires DistinctAdds(events)
    ensures |RowsOfTake(t, events, q)| == if exists e :: e in events && Claims(e, t, q) then 1 else 0
    ensures forall r :: r in RowsOfTake(t, events, q) <==> exists e :: LatestClaim(e, t, events, q) && ReportsTake(r, t, e)
  {
    hide RowsOfTake, Claims, LatestClaim, Attributed, DistinctAdds;
    forall e ensures Claims(e, t, q) <==> InScope(t, q) && Eligible(e, t, q)
             ensures LatestClaim(e, t, events, q) <==> InScope(t, q) && e in events && Attributed(e, t, events, q) {
      ClaimIsEligible(e, t, events, q);
    }
    if InScope(t, q) && HasAdd(t, events, q) {
      var k := Attribution(t, events, q);
      assert events[k] in events && LatestClaim(events[k], t, events, q) && Claims(events[k], t, q);
      forall e | LatestClaim(e, t, events, q) ensures e == events[k] {
        var i: nat :| i < |events| && events[i] == e;
        AttributedOnce(t, events, q, i, k);
      }
    } else {
      Unattributed(t, events, q);
      forall e ensures !(e in events && Claims(e, t, q)) && !LatestClaim(e, t, events, q) {
        if e in events && InScope(t, q) && (Eligible(e, t, q) || Attributed(e, t, events, q)) {
          NotEligible(t, events, q, e);
        }
      }
    }
  }

  lemma NotEligible(t: Take, events: seq<OrderEvent>, q: Query, e: OrderEvent)
    requires e in events && !HasAdd(t, events, q)
    ensures !Eligible(e, t, q) && !Attributed(e, t, events, q)
  {
    var i: nat :| i < |events| && events[i] == e;
  }

  // ---------------------------------------------------------------- many orders in one query

  lemma NarrowerKeeps(e: OrderEvent, t: Take, events: seq<OrderEvent>, q: Query)
    requires Attributed(e, t, events, q)
    ensures Attributed(e, t, events, Only(q, e.hash))
  {
    forall newer | newer in events && Eligible(newer, t, Only(q, e.hash)) ensures !Precedes(e.at, newer.at) {
      assert Eligible(newer, t, q);
    }
  }

  lemma {:induction false} RowsContained(t: Take, adds: seq<OrderEvent>, events: seq<OrderEvent>, q: Query, h: string)
    requires h in q.hashes
    ensures multiset(RowsFor(RowsOf(t, adds, events, q), h)) <= multiset(RowsOf(t, adds, events, Only(q, h)))
  {
    if adds != [] {
      var e, before := adds[|adds| - 1], RowsOf(t, adds[..|adds| - 1], events, q);
      RowsContained(t, adds[..|adds| - 1], events, q, h);
      assert before + [] == before && RowsFor(before, h) + [] == RowsFor(before, h);
      if Attributed(e, t, events, q) {
        RowsForConcat(before, [TakeRow(t, e)], h);
        RowsForOne(TakeRow(t, e), h);
        NarrowerKeeps(e, t, events, q);
      }
    }
  }

  /** Whatever the tables hold, a batch never gives an order a take row that its own query would not. */
  lemma {:induction false} BatchContained(takes: seq<Take>, events: seq<OrderEvent>, q: Query, h: string)
    requires h in q.hashes
    ensures multiset(RowsFor(TakeTrades(takes, events, q), h)) <= multiset(TakeTrades(takes, events, Only(q, h)))
  {
    if takes != [] {
      var t, rest := takes[|takes| - 1], takes[..|takes| - 1];
      BatchContained(rest, events, q, h);
      RowsContained(t, events, events, q, h);
      RowsForConcat(TakeTrades(rest, events, q), RowsOfTake(t, events, q), h);
    }
  }

  /** The requested additions that could claim this take all belong to one order. */
  ghost predicate HashDetermined(t: Take, events: seq<OrderEvent>, q: Query) {
    forall i, j :: 0 <= i < |events| && 0 <= j < |events| && Eligible(events[i], t, q) && Eligible(events[j], t, q) ==>
      events[i].hash == events[j].hash
  }

  lemma OnlyIsEligible(e: OrderEvent, t: Take, q: Query, h: string)
    requires h in q.hashes
    ensures Eligible(e, t, Only(q, h)) <==> Eligible(e, t, q) && e.hash == h
  {
  }

  /** For one take, the batch gives an order either what its own query gives it or nothing. */
  lemma AllOrNothing(t: Take, events: seq<OrderEvent>, q: Query, h: string)
    requires DistinctAdds(events) && h in q.hashes
    ensures var mine, own := RowsFor(RowsOfTake(t, events, q), h), RowsOfTake(t, events, Only(q, h));
            |own| <= 1 && (mine == own || mine == [])
  {
    if InScope(t, q) && HasAdd(t, events, q) {
      var k := Attribution(t, events, q);
      OneRowPerTake(t, events, Only(q, h));
      RowsForOne(TakeRow(t, events[k]), h);
      if events[k].hash == h {
        NarrowerKeeps(events[k], t, events, q);
      }
    } else {
      Unattributed(t, events, q);
      if InScope(t, q) {
        OneRowPerTake(t, events, Only(q, h));
      }
    }
  }

  lemma DeterminedGivesAll(t: Take, events: seq<OrderEvent>, q: Query, h: string)
    requires DistinctAdds(events) && h in q.hashes && InScope(t, q) && HashDetermined(t, events, q)
    ensures RowsFor(RowsOfTake(t, events, q), h) == RowsOfTake(t, events, Only(q, h))
  {
    forall e ensures Eligible(e, t, Only(q, h)) <==> Eligible(e, t, q) && e.hash == h {
      OnlyIsEligible(e, t, q, h);
    }
    if HasAdd(t, events, Only(q, h)) {
      var i: nat :| i < |events| && Eligible(events[i], t, Only(q, h));
      assert HasAdd(t, events, q);
      var k := Attribution(t, events, q);
      NarrowerKeeps(events[k], t, events, q);
      OneRowPerTake(t, events, Only(q, h));
      RowsForOne(TakeRow(t, events[k]), h);
    } else {
      Unattributed(t, events, Only(q, h));
      AllOrNothing(t, events, q, h);
    }
  }

  /** If every order keeps its rows of a take in the batch, no two orders can claim the take. */
  lemma AllForcesDetermined(t: Take, events: seq<OrderEvent>, q: Query)
    requires DistinctAdds(events) && InScope(t, q)
    requires forall h :: h in q.hashes ==>
               |RowsFor(RowsOfTake(t, events, q), h)| == |RowsOfTake(t, events, Only(q, h))|
    ensures HashDetermined(t, events, q)
  {
    forall i, j | 0 <= i < |events| && 0 <= j < |events| && Eligible(events[i], t, q) && Eligible(events[j], t, q)
      ensures events[i].hash == events[j].hash
    {
      var k := Attribution(t, events, q);
      KeepsOnlyLatest(t, events, q, i, k);
      KeepsOnlyLatest(t, events, q, j, k);
    }
  }

  lemma KeepsOnlyLatest(t: Take, events: seq<OrderEvent>, q: Query, i: nat, k: nat)
    requires DistinctAdds(events) && InScope(t, q)
    requires i < |events| && k < |events| && Eligible(events[i], t, q)
    requires RowsOfTake(t, events, q) == [TakeRow(t, events[k])]
    requires |RowsFor(RowsOfTake(t, events, q), events[i].hash)| == |RowsOfTake(t, events, Only(q, events[i].hash))|
    ensures events[i].hash == events[k].hash
  {
    var h := events[i].hash;
    OnlyIsEligible(events[i], t, q, h);
    assert HasAdd(t, events, Only(q, h));
    OneRowPerTake(t, events, Only(q, h));
    RowsForOne(TakeRow(t, events[k]), h);
  }

  lemma {:induction false} NeverMore(takes: seq<Take>, events: seq<OrderEvent>, q: Query, h: string)
    requires DistinctAdds(events) && h in q.hashes
    ensures |RowsFor(TakeTrades(takes, events, q), h)| <= |TakeTrades(takes, events, Only(q, h))|
  {
    if takes != [] {
      var t, rest := takes[|takes| - 1], takes[..|takes| - 1];
      NeverMore(rest, events, q, h);
      AllOrNothing(t, events, q, h);
      RowsForConcat(TakeTrades(rest, events, q), RowsOfTake(t, events, q), h);
    }
  }

  /** Equal totals leave no room for a take whose row was lost to another order. */
  lemma {:induction false} EqualTotals(takes: seq<Take>, events: seq<OrderEvent>, q: Query, h: string, i: nat)
    requires DistinctAdds(events) && h in q.hashes && i < |takes|
    requires |RowsFor(TakeTrades(takes, events, q), h)| == |TakeTrades(takes, events, Only(q, h))|
    ensures |RowsFor(RowsOfTake(takes[i], events, q), h)| == |RowsOfTake(takes[i], events, Only(q, h))|
  {
    var t, rest := takes[|takes| - 1], takes[..|takes| - 1];
    NeverMore(rest, events, q, h);
    AllOrNothing(t, events, q, h);
    RowsForConcat(TakeTrades(rest, events, q), RowsOfTake(t, events, q), h);
    if i < |rest| {
      EqualTotals(rest, events, q, h, i);
    }
  }

  lemma {:induction false} DeterminedAgrees(takes: seq<Take>, events: seq<OrderEvent>, q: Query, h: string)
    requires DistinctAdds(events) && h in q.hashes
    requires forall i :: 0 <= i < |takes| && InScope(takes[i], q) ==> HashDetermined(takes[i], events, q)
    ensures RowsFor(TakeTrades(takes, events, q), h) == TakeTrades(takes, events, Only(q, h))
  {
    if takes != [] {
      var t, rest := takes[|takes| - 1], takes[..|takes| - 1];
      assert forall i :: 0 <= i < |rest| ==> rest[i] == takes[i];
      DeterminedAgrees(rest, events, q, h);
      RowsForConcat(TakeTrades(rest, events, q), RowsOfTake(t, events, q), h);
      if InScope(t, q) {
        DeterminedGivesAll(t, events, q, h);
      }
    }
  }

  ghost predicate SameTakes(takes: seq<Take>, events: seq<OrderEvent>, q: Query, h: string) {
    multiset(RowsFor(TakeTrades(takes, events, q), h)) == multiset(TakeTrades(takes, events, Only(q, h)))
  }

  /** One batch gives every requested order exactly the take rows of its own query if and only if no
      take can be claimed by the additions of two requested orders. */
  lemma BatchIsExactIff(takes: seq<Take>, events: seq<OrderEvent>, q: Query)
    requires DistinctAdds(events)
    ensures (forall h :: h in q.hashes ==> SameTakes(takes, events, q, h))
       <==> (forall i :: 0 <= i < |takes| && InScope(takes[i], q) ==> HashDetermined(takes[i], events, q))
  {
    if forall h :: h in q.hashes ==> SameTakes(takes, events, q, h) {
      forall i | 0 <= i < |takes| && InScope(takes[i], q) ensures HashDetermined(takes[i], events, q) {
        forall h | h in q.hashes
          ensures |RowsFor(RowsOfTake(takes[i], events, q), h)| == |RowsOfTake(takes[i], events, Only(q, h))|
        {
          assert SameTakes(takes, events, q, h);
          SameSize(RowsFor(TakeTrades(takes, events, q), h), TakeTrades(takes, events, Only(q, h)));
          EqualTotals(takes, events, q, h, i);
        }
        AllForcesDetermined(takes[i], events, q);
      }
    }
    if forall i :: 0 <= i < |takes| && InScope(takes[i], q) ==> HashDetermined(takes[i], events, q) {
      forall h | h in q.hashes ensures SameTakes(takes, events, q, h) {
        DeterminedAgrees(takes, events, q, h);
      }
    }
  }

  /** Two orders that share owner and nonce: in a batch the later addition takes the row of the earlier
      order, which its own query does report. */
  lemma SharedNonceLosesRow(e: OrderEvent, t: Take)
    requires e.kind == ADDED && e.at == Position(1, 0) && e.hash == "first"
    requires t.chain == e.chain && t.book == e.book && t.owner == e.owner && t.nonce == e.nonce && t.at == Position(3, 0)
    ensures var events := [e, e.(at := Position(2, 0), hash := "second")];
            var q := Query(e.chain, e.book, {"first", "second"});
            && DistinctAdds(events)
            && RowsFor(TakeTrades([t], events, q), "first") == []
            && TakeTrades([t], events, Only(q, "first")) == [TakeRow(t, e)]
  {
    var events := [e, e.(at := Position(2, 0), hash := "second")];
    var q := Query(e.chain, e.book, {"first", "second"});
    assert Eligible(events[1], t, q) && Eligible(events[0], t, Only(q, "first"));
    assert !Eligible(events[1], t, Only(q, "first"));
    assert HasAdd(t, events, q) && HasAdd(t, events, Only(q, "first"));
    var k := Attribution(t, events, q);
    var l := Attribution(t, events, Only(q, "first"));
    assert events[1] in events && k == 1 && l == 0;
    assert [t][..0] == [];
    RowsForOne(TakeRow(t, events[1]), "first");
  }

  lemma SameSize(a: seq<Row>, b: seq<Row>)
    requires multiset(a) == multiset(b)
    ensures |a| == |b|
  {
    assert |multiset(a)| == |a| && |multiset(b)| == |b|;
  }
}
