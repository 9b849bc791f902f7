/** The trades of one owner: scan the orders, load their trades, sort, and cut a page. */
module TradesByAddress {
  import opened Wrappers
  import opened OrderScan
  import opened TradePages

  /** A trade as the library returns it, with 256-bit numbers. */
  datatype RawTrade = RawTrade(timestamp: nat, block: nat, rest: nat)

  predicate FitsU64(n: nat) {
    n < TWO_TO_THE_64
  }

  predicate Representable(t: RawTrade) {
    FitsU64(t.timestamp) && FitsU64(t.block)
  }

  function Reported(t: RawTrade): Trade {
    Trade(t.timestamp, t.block, t.rest)
  }

  function AllReported(ts: seq<RawTrade>): seq<Trade> {
    seq(|ts|, i requires 0 <= i < |ts| => Reported(ts[i]))
  }

  /** The trades of all orders, order after order. */
  function TradesOfAll<O>(orders: seq<O>, tradesOf: O -> Result<seq<RawTrade>>): seq<RawTrade> {
    if orders == [] then []
    else
      var last := tradesOf(orders[|orders| - 1]);
      TradesOfAll(orders[..|orders| - 1], tradesOf) + if last.Ok? then last.value else []
  }

  /** Order after order, and those of one order as the library returns them. */
  lemma {:induction false} TradesInOrder<O>(a: seq<O>, b: seq<O>, o: O, tradesOf: O -> Result<seq<RawTrade>>)
    ensures TradesOfAll(a + b, tradesOf) == TradesOfAll(a, tradesOf) + TradesOfAll(b, tradesOf)
    ensures TradesOfAll([o], tradesOf) == if tradesOf(o).Ok? then tradesOf(o).value else []
    decreases |b|
  {
    assert [o][..0] == [];
    if b == [] {
      assert a + b == a;
    } else {
      assert (a + b)[..|a + b| - 1] == a + b[..|b| - 1];
      TradesInOrder(a, b[..|b| - 1], o, tradesOf);
    }
  }

  /** `load_trades_with_owners`: one failing order fails the whole load. */
  method LoadTrades<O>(orders: seq<O>, tradesOf: O -> Result<seq<RawTrade>>) returns (r: Result<seq<RawTrade>>)
    ensures r.Ok? <==> forall o :: o in orders ==> tradesOf(o).Ok?
    ensures r.Ok? ==> r.value == TradesOfAll(orders, tradesOf)
  {
    var all: seq<RawTrade> := [];
    for i := 0 to |orders|
      invariant forall o :: o in orders[..i] ==> tradesOf(o).Ok?
      invariant all == TradesOfAll(orders[..i], tradesOf)
    {
      assert orders[..i + 1][..i] == orders[..i];
      match tradesOf(orders[i]) {
        case Err => return Err;
        case Ok(trades) => all := all + trades;
      }
    }
    assert orders[..|orders|] == orders;
    return Ok(all);
  }

  method Report(raws: seq<RawTrade>) returns (r: Result<seq<Trade>>)
    ensures r.Ok? <==> forall t :: t in raws ==> Representable(t)
    ensures r.Ok? ==> r.value == AllReported(raws) && |r.value| == |raws|
    ensures r.Ok? ==> forall i :: 0 <= i < |raws| ==>
      r.value[i].timestamp == raws[i].timestamp && r.value[i].block == raws[i].block && r.value[i].rest == raws[i].rest
  {
    var trades: seq<Trade> := [];
    for i := 0 to |raws|
      invariant |trades| == i
      invariant forall t :: t in raws[..i] ==> Representable(t)
      invariant forall j :: 0 <= j < i ==> trades[j] == Reported(raws[j])
    {
      assert raws[i] in raws;
      if !FitsU64(raws[i].timestamp) {
        return Err;
      }
      if !FitsU64(raws[i].block) {
        return Err;
      }
      trades := trades + [Reported(raws[i])];
    }
    assert trades == AllReported(raws);
    return Ok(trades);
  }

  /** Everything that can go wrong before a page is cut. */
  ghost predicate Loads<O>(orders: seq<O>, tradesOf: O -> Result<seq<RawTrade>>) {
    && (forall o :: o in orders ==> tradesOf(o).Ok?)
    && forall t :: t in TradesOfAll(orders, tradesOf) ==> Representable(t)
  }

  /** The listing is the requested page of the stable newest-first sort of all trades of the orders. */
  ghost predicate Lists<O>(orders: seq<O>, tradesOf: O -> Result<seq<RawTrade>>, listing: Listing<Trade>, page: U32, size: U32) {
    exists sorted :: IsStableSort(AllReported(TradesOfAll(orders, tradesOf)), sorted) && listing == ListPage(sorted, page, size)
  }

  function OrElse(n: Option<U32>, default: U32): U32 {
    if n.Some? then n.value else default
  }

  /** What a request comes to if the scan reads up to page `last`. */
  ghost predicate Outcome<O>(fetch: nat -> Result<Page<O>>, tradesOf: O -> Result<seq<RawTrade>>, last: nat,
                             page: U32, size: U32, r: Result<Listing<Trade>>) {
    && StopsAt(fetch, last)
    && (r.Ok? <==> fetch(last).Ok? && Loads(Gathered(fetch, last), tradesOf))
    && (r.Ok? ==> Lists(Gathered(fetch, last), tradesOf, r.value, page, size))
  }

  /** `process_get_trades_by_address`, by default for page 1 and 20 trades. */
  method ProcessTradesByAddress<O(!new)>(fetch: nat -> Result<Page<O>>, tradesOf: O -> Result<seq<RawTrade>>,
                                         page: Option<U32>, size: Option<U32>) returns (r: Result<Listing<Trade>>)
    ensures exists last :: Outcome(fetch, tradesOf, last, OrElse(page, 1), OrElse(size, 20), r)
    ensures r.Ok? ==> r.value.page == (if page.Some? then page.value else 1)
    ensures r.Ok? ==> r.value.size == (if size.Some? then size.value else 20)
  {
    var number, count := OrElse(page, 1), OrElse(size, 20);
    var orders := FetchAllOrders(fetch);
    ghost var last :| StopsAt(fetch, last) && orders == ScannedTo(fetch, last);
    r := Err;
    if orders.Ok? {
      var raws := LoadTrades(orders.value, tradesOf);
      if raws.Ok? {
        var trades := Report(raws.value);
        if trades.Ok? {
          var sorted := SortNewestFirst(trades.value);
          r := Ok(ListPage(sorted, number, count));
          assert Lists(orders.value, tradesOf, r.value, number, count);
        }
      }
    }
    assert Outcome(fetch, tradesOf, last, number, count, r);
  }

  /** Two requests against unchanged data cut their pages from the same list. */
  lemma RequestsShareOneList(trades: seq<Trade>, a: seq<Trade>, b: seq<Trade>)
    requires IsStableSort(trades, a) && IsStableSort(trades, b)
    ensures a == b
  {
    forall k ensures TiesWith(a, k) == TiesWith(b, k) {
      assert TiesWith(a, k) == TiesWith(trades, k);
    }
    StableSortIsUnique(a, b);
  }
}
