/** The trades of one transaction and their totals, with amounts as exact rationals. */
module TradesByTx {
  import opened Multisets
  import opened Wrappers

  const TWO_TO_THE_64: nat := 0x1_0000_0000_0000_0000

  /** A trade: what the order took in, the (negative) change of its output vault, whether its order hash
      can be parsed, and the transaction it belongs to. */
  datatype Trade = Trade(input: real, outputChange: real, hash: Option<nat>, block: nat, timestamp: nat)

  datatype Entry = Entry(hash: nat, input: real, outputChange: real, ratio: real)

  datatype Totals = Totals(input: real, output: real, average: real)

  datatype Response = Response(block: nat, timestamp: nat, entries: seq<Entry>, totals: Totals)

  datatype IndexState = Indexed | NotYetIndexed

  datatype Outcome = Found(response: Response) | NotIndexedYet | NoTrades | Internal

  function PositiveOutput(outputChange: real): real {
    0.0 - outputChange
  }

  /** `compute_io_ratio` before formatting: no output counts as ratio zero. */
  function IoRatio(input: real, outputChange: real): real {
    if PositiveOutput(outputChange) == 0.0 then 0.0 else input / PositiveOutput(outputChange)
  }

  function Ratio(t: Trade): real {
    IoRatio(t.input, t.outputChange)
  }

  function SumInput(trades: seq<Trade>): real {
    if trades == [] then 0.0 else SumInput(trades[..|trades| - 1]) + trades[|trades| - 1].input
  }

  function SumOutput(trades: seq<Trade>): real {
    if trades == [] then 0.0 else SumOutput(trades[..|trades| - 1]) + PositiveOutput(trades[|trades| - 1].outputChange)
  }

  function Average(input: real, output: real): real {
    if output == 0.0 then 0.0 else input / output
  }

  function TotalsOf(trades: seq<Trade>): Totals {
    Totals(SumInput(trades), SumOutput(trades), Average(SumInput(trades), SumOutput(trades)))
  }

  /** What one orderbook says about the transaction. */
  datatype Sighting = Seen | Timeout | Broken

  /** `check_tx_index_state`: the first orderbook that does not time out decides; if all time out the
      transaction is not indexed yet, and with no orderbook at all it counts as indexed. */
  method CheckIndexState(sightings: seq<Sighting>) returns (r: Result<IndexState>)
    ensures r == Ok(NotYetIndexed) <==> sightings != [] && forall s :: s in sightings ==> s.Timeout?
    ensures r == Err <==> exists i :: 0 <= i < |sightings| && sightings[i].Broken? && forall j :: 0 <= j < i ==> sightings[j].Timeout?
  {
    var sawTimeout := false;
    for i := 0 to |sightings|
      invariant forall j :: 0 <= j < i ==> sightings[j].Timeout?
      invariant sawTimeout <==> i > 0
    {
      assert sightings[i] in sightings;
      match sightings[i] {
        case Seen => return Ok(Indexed);
        case Timeout => sawTimeout := true;
        case Broken => return Err;
      }
    }
    return Ok(if sawTimeout then NotYetIndexed else Indexed);
  }

  /** Which operations of the float library succeed; one that does is exact. */
  datatype Arithmetic = Arithmetic(
    negates: real -> bool,
    adds: (real, real) -> bool,
    divides: (real, real) -> bool,
    formats: real -> bool)

  /** Everything that is computed for trade `i` works. */
  predicate StepWorks(a: Arithmetic, trades: seq<Trade>, i: nat)
    requires i < |trades|
  {
    var t, output := trades[i], PositiveOutput(trades[i].outputChange);
    && a.negates(t.outputChange)
    && (output == 0.0 || (a.divides(t.input, output) && a.formats(Ratio(t))))
    && a.adds(SumInput(trades[..i]), t.input) && a.adds(SumOutput(trades[..i]), output)
  }

  predicate TotalsWork(a: Arithmetic, totals: Totals) {
    && (totals.output == 0.0 || a.divides(totals.input, totals.output))
    && a.formats(totals.input) && a.formats(totals.output) && a.formats(totals.average)
  }

  /** The conditions under which a transaction with trades is answered. */
  ghost predicate Answerable(a: Arithmetic, trades: seq<Trade>)
    requires trades != []
  {
    && (forall i :: 0 <= i < |trades| ==> trades[i].hash.Some? && StepWorks(a, trades, i))
    && TotalsWork(a, TotalsOf(trades))
    && trades[0].block < TWO_TO_THE_64 && trades[0].timestamp < TWO_TO_THE_64
  }

  /** The entry has the order and the amounts of the trade. Its ratio is what was taken in per unit put out,
      and zero if nothing was put out; what was put out is the negated change of the output vault. */
  predicate ReportsTrade(e: Entry, t: Trade) {
    && t.hash == Some(e.hash) && e.input == t.input && e.outputChange == t.outputChange
    && (t.outputChange == 0.0 ==> e.ratio == 0.0)
    && (t.outputChange != 0.0 ==> e.ratio * -t.outputChange == t.input)
  }

  /** The answer: block and timestamp of the first trade, an entry for each trade in order, and totals that
      add up all inputs and all outputs; the average is the total input per unit of total output. */
  ghost predicate Reports(trades: seq<Trade>, response: Response) {
    && trades != [] && response.block == trades[0].block && response.timestamp == trades[0].timestamp
    && |response.entries| == |trades|
    && (forall i :: 0 <= i < |trades| ==> trades[i].hash.Some? && response.entries[i] == EntryOf(trades[i]))
    && (forall i :: 0 <= i < |trades| ==> ReportsTrade(response.entries[i], trades[i]))
    && response.totals == TotalsOf(trades)
    && response.totals.input == SumInput(trades) && response.totals.output == SumOutput(trades)
    && (response.totals.output == 0.0 ==> response.totals.average == 0.0)
    && (response.totals.output != 0.0 ==> response.totals.average * response.totals.output == response.totals.input)
  }

  lemma EntryMeans(t: Trade)
    requires t.hash.Some?
    ensures ReportsTrade(EntryOf(t), t)
  {
    var output := PositiveOutput(t.outputChange);
    if output != 0.0 {
      assert t.input / output * output == t.input;
    }
  }

  lemma TotalsMean(trades: seq<Trade>)
    ensures var totals := TotalsOf(trades);
            && totals.input == SumInput(trades) && totals.output == SumOutput(trades)
            && (totals.output == 0.0 ==> totals.average == 0.0)
            && (totals.output != 0.0 ==> totals.average * totals.output == totals.input)
  {
    var input, output := SumInput(trades), SumOutput(trades);
    if output != 0.0 {
      assert input / output * output == input;
    }
  }

  /** What each part of an answer needs: every trade's change can be negated and added up, every ratio and
      every total can be divided where it is not zero and formatted, and the first trade's numbers fit. */
  lemma AnswerableMeans(a: Arithmetic, trades: seq<Trade>, i: nat)
    requires trades != [] && Answerable(a, trades) && i < |trades|
    ensures trades[i].hash.Some? && a.negates(trades[i].outputChange)
    ensures a.adds(SumInput(trades[..i]), trades[i].input) && a.adds(SumOutput(trades[..i]), -trades[i].outputChange)
    ensures trades[i].outputChange != 0.0 ==> a.divides(trades[i].input, -trades[i].outputChange) && a.formats(Ratio(trades[i]))
    ensures SumOutput(trades) != 0.0 ==> a.divides(SumInput(trades), SumOutput(trades))
    ensures a.formats(SumInput(trades)) && a.formats(SumOutput(trades)) && a.formats(TotalsOf(trades).average)
    ensures trades[0].block <= 0xFFFF_FFFF_FFFF_FFFF && trades[0].timestamp <= 0xFFFF_FFFF_FFFF_FFFF
  {
    hide SumInput, SumOutput, IoRatio, Average;
    assert StepWorks(a, trades, i);
    assert 0.0 - trades[i].outputChange == -trades[i].outputChange;
  }

  function EntryOf(t: Trade): Entry
    requires t.hash.Some?
  {
    Entry(t.hash.value, t.input, t.outputChange, Ratio(t))
  }

  lemma SumsOfNone(trades: seq<Trade>)
    ensures SumInput(trades[..0]) == 0.0 && SumOutput(trades[..0]) == 0.0
  {
  }

  lemma SumsOneMore(trades: seq<Trade>, i: nat)
    requires i < |trades|
    ensures SumInput(trades[..i + 1]) == SumInput(trades[..i]) + trades[i].input
    ensures SumOutput(trades[..i + 1]) == SumOutput(trades[..i]) + PositiveOutput(trades[i].outputChange)
  {
    assert trades[..i + 1][..i] == trades[..i];
  }

  /** `process_get_trades_by_tx`. */
  method ProcessTradesByTx(a: Arithmetic, found: Result<seq<Trade>>, index: Result<IndexState>) returns (r: Outcome)
    ensures found.Err? ==> r == Internal
    ensures found == Ok([]) ==>
      r == if index.Err? then Internal else if index.value.NotYetIndexed? then NotIndexedYet else NoTrades
    ensures found.Ok? && found.value != [] ==>
      if Answerable(a, found.value) then r.Found? && Reports(found.value, r.response) else r == Internal
  {
    hide SumInput, SumOutput, IoRatio, Average, ReportsTrade;
    if found.Err? {
      return Internal;
    }
    var trades := found.value;
    if trades == [] {
      return if index.Err? then Internal else if index.value.NotYetIndexed? then NotIndexedYet else NoTrades;
    }
    var input, output := 0.0, 0.0;
    SumsOfNone(trades);
    var entries: seq<Entry> := [];
    for i := 0 to |trades|
      invariant |entries| == i && forall j :: 0 <= j < i ==> trades[j].hash.Some? && StepWorks(a, trades, j)
      invariant input == SumInput(trades[..i]) && output == SumOutput(trades[..i])
      invariant forall j :: 0 <= j < i ==> entries[j] == EntryOf(trades[j]) && ReportsTrade(entries[j], trades[j])
    {
      var t := trades[i];
      SumsOneMore(trades, i);
      var positive := PositiveOutput(t.outputChange);
      if !a.negates(t.outputChange) {
        return Internal;
      }
      if positive != 0.0 && (!a.divides(t.input, positive) || !a.formats(Ratio(t))) {
        return Internal;
      }
      if t.hash.None? {
        return Internal;
      }
      if !a.adds(input, t.input) || !a.adds(output, positive) {
        return Internal;
      }
      input := input + t.input;
      output := output + positive;
      entries := entries + [EntryOf(t)];
      EntryMeans(t);
    }
    assert trades[..|trades|] == trades;
    var totals := Totals(input, output, Average(input, output));
    TotalsMean(trades);
    if !TotalsWork(a, totals) || trades[0].block >= TWO_TO_THE_64 || trades[0].timestamp >= TWO_TO_THE_64 {
      return Internal;
    }
    return Found(Response(trades[0].block, trades[0].timestamp, entries, totals));
  }

  // ---------------------------------------------------------------- the totals do not depend on order

  lemma {:induction false} SumsConcat(a: seq<Trade>, b: seq<Trade>)
    ensures SumInput(a + b) == SumInput(a) + SumInput(b) && SumOutput(a + b) == SumOutput(a) + SumOutput(b)
    decreases |b|
  {
    if b == [] {
      assert a + b == a;
    } else {
      SumsConcat(a, b[..|b| - 1]);
      assert (a + b)[..|a + b| - 1] == a + b[..|b| - 1];
    }
  }

  lemma SumsOfOne(t: Trade)
    ensures SumInput([t]) == t.input && SumOutput([t]) == PositiveOutput(t.outputChange)
  {
    assert [t][..0] == [];
  }

  lemma SumsAround(front: seq<Trade>, t: Trade, back: seq<Trade>)
    ensures SumInput(front + [t] + back) == SumInput(front + back) + t.input
    ensures SumOutput(front + [t] + back) == SumOutput(front + back) + PositiveOutput(t.outputChange)
  {
    hide SumInput, SumOutput, PositiveOutput;
    SumsConcat(front + [t], back);
    SumsConcat(front, [t]);
    SumsConcat(front, back);
    SumsOfOne(t);
  }

  lemma SumsFirst(t: Trade, rest: seq<Trade>)
    ensures SumInput([t] + rest) == SumInput(rest) + t.input
    ensures SumOutput([t] + rest) == SumOutput(rest) + PositiveOutput(t.outputChange)
  {
    hide SumInput, SumOutput, PositiveOutput;
    SumsAround([], t, rest);
    assert [] + [t] + rest == [t] + rest && [] + rest == rest;
  }

  /** The totals are the same whatever order the orderbooks report the trades in. */
  lemma {:induction false} TotalsIgnoreOrder(a: seq<Trade>, b: seq<Trade>)
    requires multiset(a) == multiset(b)
    ensures SumInput(a) == SumInput(b) && SumOutput(a) == SumOutput(b) && TotalsOf(a) == TotalsOf(b)
    decreases |a|
  {
    hide SumInput, SumOutput, PositiveOutput, Average;
    if a == [] {
      assert |multiset(b)| == |b|;
    } else {
      var t, rest := a[0], a[1..];
      assert a == [t] + rest;
      var front, back := TakeOut(t, rest, b);
      SumsFirst(t, rest);
      SumsAround(front, t, back);
      TotalsIgnoreOrder(rest, front + back);
    }
  }

  // ---------------------------------------------------------------- the average ratio

  ghost predicate AllPositive(trades: seq<Trade>) {
    forall t :: t in trades ==> PositiveOutput(t.outputChange) > 0.0
  }

  /** The trade has output, or nothing went in either. */
  predicate Harmless(t: Trade) {
    PositiveOutput(t.outputChange) > 0.0 || (PositiveOutput(t.outputChange) == 0.0 && t.input == 0.0)
  }

  ghost predicate AllHarmless(trades: seq<Trade>) {
    forall t :: t in trades ==> Harmless(t)
  }

  /** The average lies between the ratios of two of the trades. */
  ghost predicate Between(trades: seq<Trade>) {
    exists s, t :: s in trades && t in trades && Ratio(s) <= TotalsOf(trades).average <= Ratio(t)
  }

  lemma RatioTimesOutput(input: real, output: real, bound: real)
    requires output > 0.0
    ensures input / output <= bound <==> input <= bound * output
    ensures input / output >= bound <==> input >= bound * output
  {
    var x := input / output;
    assert x * output == input;
    if x <= bound {
      assert (bound - x) * output >= 0.0;
    } else {
      assert (x - bound) * output > 0.0;
    }
    if x >= bound {
      assert (x - bound) * output >= 0.0;
    }
  }

  lemma {:induction false} SumsBetween(trades: seq<Trade>, low: real, high: real)
    requires AllHarmless(trades)
    requires forall t :: t in trades ==> low <= Ratio(t) <= high
    ensures low * SumOutput(trades) <= SumInput(trades) <= high * SumOutput(trades)
    ensures SumOutput(trades) >= 0.0
  {
    if trades != [] {
      var rest, last := trades[..|trades| - 1], trades[|trades| - 1];
      var output := PositiveOutput(last.outputChange);
      SumsBetween(rest, low, high);
      assert Harmless(last) && low <= Ratio(last) <= high;
      OneBetween(last, low, high);
      assert low * (SumOutput(rest) + output) == low * SumOutput(rest) + low * output;
      assert high * (SumOutput(rest) + output) == high * SumOutput(rest) + high * output;
    }
  }

  lemma OneBetween(t: Trade, low: real, high: real)
    requires Harmless(t) && low <= Ratio(t) <= high
    ensures low * PositiveOutput(t.outputChange) <= t.input <= high * PositiveOutput(t.outputChange)
  {
    var output := PositiveOutput(t.outputChange);
    if output > 0.0 {
      RatioTimesOutput(t.input, output, low);
      RatioTimesOutput(t.input, output, high);
    } else {
      assert low * output == 0.0 && high * output == 0.0;
    }
  }

  lemma {:induction false} NoOutputNoInput(trades: seq<Trade>)
    requires AllHarmless(trades)
    ensures SumOutput(trades) >= 0.0
    ensures SumOutput(trades) == 0.0 ==> forall t :: t in trades ==> Ratio(t) == 0.0
  {
    if trades != [] {
      var rest, last := trades[..|trades| - 1], trades[|trades| - 1];
      NoOutputNoInput(rest);
      assert Harmless(last);
      assert forall t :: t in trades ==> t in rest || t == last;
    }
  }

  /** If no trade takes something in without any output, the average ratio lies between the ratios of two
      of the trades. */
  lemma AverageIsBetween(trades: seq<Trade>)
    requires trades != [] && AllHarmless(trades)
    ensures Between(trades)
  {
    var s, t := Extremes(trades);
    NoOutputNoInput(trades);
    if SumOutput(trades) > 0.0 {
      SumsBetween(trades, Ratio(s), Ratio(t));
      RatioTimesOutput(SumInput(trades), SumOutput(trades), Ratio(s));
      RatioTimesOutput(SumInput(trades), SumOutput(trades), Ratio(t));
    }
    assert Ratio(s) <= TotalsOf(trades).average <= Ratio(t);
  }

  lemma {:induction false} Extremes(trades: seq<Trade>) returns (s: Trade, t: Trade)
    requires trades != []
    ensures s in trades && t in trades && forall x :: x in trades ==> Ratio(s) <= Ratio(x) <= Ratio(t)
  {
    var n := |trades| - 1;
    s, t := trades[n], trades[n];
    if n > 0 {
      var low, high := Extremes(trades[..n]);
      if Ratio(low) < Ratio(s) {
        s := low;
      }
      if Ratio(high) > Ratio(t) {
        t := high;
      }
    }
  }

  /** A trade with no output is reported with ratio zero but its input still counts. So a trade leaves the
      bound intact in every company of trades with output if and only if it is harmless. */
  lemma HarmlessIff(t: Trade)
    requires PositiveOutput(t.outputChange) >= 0.0
    ensures Harmless(t) <==> forall rest :: AllPositive(rest) ==> Between([t] + rest)
  {
    if Harmless(t) {
      forall rest | AllPositive(rest) ensures Between([t] + rest) {
        AverageIsBetween([t] + rest);
      }
    } else {
      var other := Trade(0.0, -1.0, t.hash, t.block, t.timestamp);
      HarmBreaksBound(t, other);
      assert AllPositive([other]) && !Between([t] + [other]);
    }
  }

  lemma HarmBreaksBound(t: Trade, other: Trade)
    requires PositiveOutput(t.outputChange) == 0.0 && t.input != 0.0
    requires other.input == 0.0 && other.outputChange == -1.0
    ensures TotalsOf([t] + [other]).average == t.input && !Between([t] + [other])
  {
    SumsConcat([t], [other]);
    SumsOfOne(t);
    SumsOfOne(other);
    assert Ratio(t) == 0.0 && Ratio(other) == 0.0;
  }

  /** A trade without output can push the average above every ratio reported. */
  lemma NoOutputBreaksBound()
    ensures var trades := [Trade(5.0, 0.0, Some(1), 1, 1)] + [Trade(1.0, -1.0, Some(2), 1, 1)];
            TotalsOf(trades).average == 6.0 && forall t :: t in trades ==> Ratio(t) <= 1.0
  {
    var a, b := Trade(5.0, 0.0, Some(1), 1, 1), Trade(1.0, -1.0, Some(2), 1, 1);
    SumsConcat([a], [b]);
    SumsOfOne(a);
    SumsOfOne(b);
  }
}
