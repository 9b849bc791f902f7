/** Listing orders with their ratios: quote only what is worth quoting, put each ratio back at its
    order, and summarise. */
module OrderQuotes {
  import opened Wrappers
  import TradePages
  import opened QuoteBatch

  const DEFAULT_PAGE_SIZE: nat := 20
  const MAX_PAGE_SIZE: nat := 50

  const NO_RATIO := "-"

  /** The quotes of an order; a quote without data is `None`, otherwise it is the formatted ratio. */
  type Quotes = seq<Option<string>>

  /** Whether the vaults of an order can be resolved, and whether its output balance is positive. */
  datatype Vaults<!O> = Vaults(resolved: O -> bool, funded: O -> bool)

  predicate HasBalance<O>(vaults: Vaults<O>, order: O) {
    vaults.resolved(order) && vaults.funded(order)
  }

  function RatioOf(answer: Result<Quotes>): string {
    if answer.Ok? && answer.value != [] && answer.value[0].Some? then answer.value[0].value else NO_RATIO
  }

  datatype Kind = Success | Empty | Error

  function KindOf(answer: Result<Quotes>): Kind {
    if answer.Err? then Error else if answer.value != [] && answer.value[0].Some? then Success else Empty
  }

  /** The formatted ratio of the first quote, if there is one and it has data; a dash otherwise. */
  lemma RatioMeans(answer: Result<Quotes>)
    ensures forall quote, more :: answer == Ok([Some(quote)] + more) ==> RatioOf(answer) == quote && KindOf(answer) == Success
    ensures forall more :: answer == Ok([None] + more) ==> RatioOf(answer) == "-" && KindOf(answer) == Empty
    ensures answer == Ok([]) ==> RatioOf(answer) == "-" && KindOf(answer) == Empty
    ensures answer == Err ==> RatioOf(answer) == "-" && KindOf(answer) == Error
  {
  }

  function Count(answers: seq<Result<Quotes>>, kind: Kind): nat {
    if answers == [] then 0
    else Count(answers[..|answers| - 1], kind) + if KindOf(answers[|answers| - 1]) == kind then 1 else 0
  }

  /** The count of an outcome is the number of orders that had it. */
  lemma {:induction false} CountMeans(answers: seq<Result<Quotes>>, kind: Kind)
    ensures Count(answers, kind) == |set k | 0 <= k < |answers| && KindOf(answers[k]) == kind|
  {
    hide KindOf;
    var those := set k | 0 <= k < |answers| && KindOf(answers[k]) == kind;
    if answers != [] {
      var n := |answers| - 1;
      CountMeans(answers[..n], kind);
      var before := set k | 0 <= k < n && KindOf(answers[..n][k]) == kind;
      assert those == if KindOf(answers[n]) == kind then before + {n} else before;
    }
  }

  /** Every quotable order is counted once, under what became of it. */
  lemma {:induction false} CountsAddUp(answers: seq<Result<Quotes>>)
    ensures Count(answers, Success) + Count(answers, Empty) + Count(answers, Error) == |answers|
  {
    if answers != [] {
      CountsAddUp(answers[..|answers| - 1]);
    }
  }

  /** The quotable orders and their places. */
  ghost predicate Selects<O>(vaults: Vaults<O>, orders: seq<O>, places: seq<nat>, quotable: seq<O>) {
    && Ascending(places) && Below(places, |orders|) && |quotable| == |places|
    && (forall k :: 0 <= k < |places| ==> quotable[k] == orders[places[k]])
    && forall i: nat :: i < |orders| ==> (i in places <==> vaults.resolved(orders[i]) && vaults.funded(orders[i]))
  }

  lemma PlacesFit<O>(vaults: Vaults<O>, orders: seq<O>, places: seq<nat>, quotable: seq<O>)
    requires Selects(vaults, orders, places, quotable)
    ensures Ascending(places) && Below(places, |orders|) && |quotable| == |places|
  {
  }

  method SelectQuotable<O>(vaults: Vaults<O>, orders: seq<O>) returns (places: seq<nat>, quotable: seq<O>)
    ensures Selects(vaults, orders, places, quotable)
  {
    places, quotable := [], [];
    for i := 0 to |orders|
      invariant Selects(vaults, orders[..i], places, quotable)
    {
      if HasBalance(vaults, orders[i]) {
        places := places + [i];
        quotable := quotable + [orders[i]];
      }
    }
    assert orders[..|orders|] == orders;
  }

  /** Puts the ratios back and counts what became of each quotable order. */
  method PlaceRatios(n: nat, places: seq<nat>, answers: seq<Result<Quotes>>)
    returns (ratios: array<string>, success: nat, empty: nat, error: nat)
    requires Ascending(places) && Below(places, n) && |answers| == |places|
    ensures fresh(ratios) && ratios.Length == n
    ensures forall k :: 0 <= k < |places| ==> places[k] < n && ratios[places[k]] == RatioOf(answers[k])
    ensures forall i: nat :: i < n && i !in places ==> ratios[i] == NO_RATIO
    ensures success == Count(answers, Success) && empty == Count(answers, Empty) && error == Count(answers, Error)
    ensures success + empty + error == |answers|
  {
    ratios := new string[n](_ => NO_RATIO);
    success, empty, error := 0, 0, 0;
    for k := 0 to |places|
      invariant forall l :: 0 <= l < k ==> ratios[places[l]] == RatioOf(answers[l])
      invariant forall i: nat :: i < n && i !in places ==> ratios[i] == NO_RATIO
      invariant success == Count(answers[..k], Success) && empty == Count(answers[..k], Empty) && error == Count(answers[..k], Error)
    {
      assert answers[..k + 1][..k] == answers[..k];
      match answers[k] {
        case Ok(quotes) =>
          if quotes != [] && quotes[0].Some? {
            success := success + 1;
            ratios[places[k]] := quotes[0].value;
          } else {
            empty := empty + 1;
            ratios[places[k]] := NO_RATIO;
          }
        case Err =>
          error := error + 1;
          ratios[places[k]] := NO_RATIO;
      }
    }
    assert answers[..|answers|] == answers;
    CountsAddUp(answers);
  }

  datatype Summary<O> = Summary(order: O, ratio: string)

  datatype Listing<O> = Listing(orders: seq<Summary<O>>, page: nat, size: nat, total: nat, pages: nat, hasMore: bool)

  function EffectiveSize(size: Option<nat>): nat {
    var asked := if size.Some? then size.value else DEFAULT_PAGE_SIZE;
    if asked < MAX_PAGE_SIZE then asked else MAX_PAGE_SIZE
  }

  /** The ratio an order is listed with: its own first quote if it has balance and the library quotes it. */
  function ListedRatio<O>(vaults: Vaults<O>, quoter: Quoter<O, Quotes>, order: O): string {
    if HasBalance(vaults, order) then RatioOf(quoter.single(order)) else NO_RATIO
  }

  /** The ratios come from the answers for the quotable orders, each at its order, and are a dash elsewhere. */
  ghost predicate Rated<O>(vaults: Vaults<O>, quoter: Quoter<O, Quotes>, orders: seq<O>, places: seq<nat>,
                           quotable: seq<O>, listed: seq<Summary<O>>) {
    && Selects(vaults, orders, places, quotable) && |listed| == |orders|
    && (forall k :: 0 <= k < |places| ==> listed[places[k]].ratio == RatioOf(Slot(quoter, quotable, k)))
    && (forall i: nat :: i < |orders| && i !in places ==> listed[i].ratio == NO_RATIO)
  }

  /** `process_get_orders_by_token` and `process_get_orders_by_owner`, for the filter that was built. One
      order whose vaults cannot be resolved fails the whole request. */
  method ProcessOrders<O(!new)>(list: (nat, nat) -> Result<(seq<O>, nat)>, vaults: Vaults<O>, quoter: Quoter<O, Quotes>,
                                page: Option<nat>, size: Option<nat>) returns (r: Result<Listing<O>>)
    ensures var number, effective := if page.Some? then page.value else 1, EffectiveSize(size);
      var got := list(number, effective);
      && (r.Ok? <==> got.Ok? && forall o :: o in got.value.0 ==> vaults.resolved(o))
      && (r.Ok? ==>
        && r.value.page == number && r.value.size == effective && r.value.total == got.value.1
        && effective <= 50 && (size.None? ==> effective == 20) && (size.Some? && size.value <= 50 ==> effective == size.value)
        && (size.Some? && size.value > 50 ==> effective == 50)
        && r.value.pages == TradePages.PageCount(got.value.1, effective) && r.value.hasMore == (number < r.value.pages)
        && |r.value.orders| == |got.value.0|
        && (forall i :: 0 <= i < |got.value.0| ==> r.value.orders[i].order == got.value.0[i])
        && exists places, quotable :: Rated(vaults, quoter, got.value.0, places, quotable, r.value.orders))
  {
    hide Slot, Selects;
    var number, effective := if page.Some? then page.value else 1, EffectiveSize(size);
    var got := list(number, effective);
    if got.Err? {
      return Err;
    }
    var (orders, total) := got.value;
    var places, quotable := SelectQuotable(vaults, orders);
    PlacesFit(vaults, orders, places, quotable);
    var answers := GetOrderQuotesBatch(quoter, quotable);
    var ratios, success, empty, error := PlaceRatios(|orders|, places, answers);
    var summaries := Summarise(vaults, orders, ratios);
    if summaries.Err? {
      return Err;
    }
    var pages := TradePages.PageCount(total, effective);
    r := Ok(Listing(summaries.value, number, effective, total, pages, number < pages));
    assert Rated(vaults, quoter, orders, places, quotable, r.value.orders);
  }

  method Summarise<O>(vaults: Vaults<O>, orders: seq<O>, ratios: array<string>) returns (r: Result<seq<Summary<O>>>)
    requires ratios.Length == |orders|
    ensures r.Ok? <==> forall o :: o in orders ==> vaults.resolved(o)
    ensures r.Ok? ==> |r.value| == |orders| && forall i :: 0 <= i < |orders| ==> r.value[i] == Summary(orders[i], ratios[i])
  {
    var summaries: seq<Summary<O>> := [];
    for i := 0 to |orders|
      invariant |summaries| == i && forall j :: 0 <= j < i ==> summaries[j] == Summary(orders[j], ratios[j])
      invariant forall o :: o in orders[..i] ==> vaults.resolved(o)
    {
      assert orders[i] in orders;
      if !vaults.resolved(orders[i]) {
        return Err;
      }
      summaries := summaries + [Summary(orders[i], ratios[i])];
    }
    return Ok(summaries);
  }

  /** If the library's batches are true, each listed ratio is that of the order on its own, wherever the
      order stands and whatever is listed beside it. */
  lemma RatiosAreOwn<O(!new)>(vaults: Vaults<O>, quoter: Quoter<O, Quotes>, orders: seq<O>, places: seq<nat>,
                              quotable: seq<O>, listed: seq<Summary<O>>, i: nat)
    requires BatchIsTrue(quoter) && Rated(vaults, quoter, orders, places, quotable, listed) && i < |orders|
    ensures listed[i].ratio == ListedRatio(vaults, quoter, orders[i])
  {
    if i in places {
      var k: nat :| k < |places| && places[k] == i;
      RefinesPlain(quoter, quotable, k);
    }
  }
}
