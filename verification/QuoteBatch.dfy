/** Quotes for many orders: one library call per chain, falling back to one call per order, with every
    answer put back at the place of its order. */
module QuoteBatch {
  import opened Wrappers

  /** The library: quotes for all orders of a chain at once, or for a single order. A batch may answer
      with fewer or more quotes than it was asked for. */
  datatype Quoter<!O, Q> = Quoter(
    chainOf: O -> nat,
    batch: seq<O> -> Result<seq<Q>>,
    single: O -> Result<Q>)

  /** The places of the orders on one chain, in order. */
  function PlacesOn<O, Q>(quoter: Quoter<O, Q>, orders: seq<O>, chain: nat): seq<nat> {
    if orders == [] then []
    else
      var n := |orders| - 1;
      PlacesOn(quoter, orders[..n], chain) + if quoter.chainOf(orders[n]) == chain then [n] else []
  }

  function OrdersOn<O, Q>(quoter: Quoter<O, Q>, orders: seq<O>, chain: nat): seq<O> {
    if orders == [] then []
    else
      var n := |orders| - 1;
      OrdersOn(quoter, orders[..n], chain) + if quoter.chainOf(orders[n]) == chain then [orders[n]] else []
  }

  /** How many orders on the chain of order `i` come before it. */
  function Rank<O, Q>(quoter: Quoter<O, Q>, orders: seq<O>, i: nat): nat
    requires i < |orders|
  {
    |PlacesOn(quoter, orders[..i], quoter.chainOf(orders[i]))|
  }

  /** What is written at the place of order `i`, if anything is. */
  function Written<O, Q>(quoter: Quoter<O, Q>, orders: seq<O>, i: nat): Option<Result<Q>>
    requires i < |orders|
  {
    match quoter.batch(OrdersOn(quoter, orders, quoter.chainOf(orders[i])))
    case Ok(quotes) =>
      var rank := Rank(quoter, orders, i);
      if rank < |quotes| then Some(Ok(quotes[rank])) else None
    case Err => Some(quoter.single(orders[i]))
  }

  /** What the caller gets for order `i`. */
  function Slot<O, Q>(quoter: Quoter<O, Q>, orders: seq<O>, i: nat): Result<Q>
    requires i < |orders|
  {
    var w := Written(quoter, orders, i);
    if w.Some? then w.value else Err
  }

  // ---------------------------------------------------------------- the grouping is a partition

  predicate Ascending(places: seq<nat>) {
    forall k, l :: 0 <= k < l < |places| ==> places[k] < places[l]
  }

  predicate Below(places: seq<nat>, n: nat) {
    forall k :: 0 <= k < |places| ==> places[k] < n
  }

  lemma {:induction false} PlacesAscend<O, Q>(quoter: Quoter<O, Q>, orders: seq<O>, chain: nat)
    ensures Ascending(PlacesOn(quoter, orders, chain))
    ensures Below(PlacesOn(quoter, orders, chain), |orders|)
    ensures forall p: nat :: p in PlacesOn(quoter, orders, chain) <==> p < |orders| && quoter.chainOf(orders[p]) == chain
  {
    if orders != [] {
      PlacesAscend(quoter, orders[..|orders| - 1], chain);
    }
  }

  lemma {:induction false} PlacesAndOrders<O, Q>(quoter: Quoter<O, Q>, orders: seq<O>, chain: nat, k: nat)
    requires k < |PlacesOn(quoter, orders, chain)|
    ensures |OrdersOn(quoter, orders, chain)| == |PlacesOn(quoter, orders, chain)|
    ensures PlacesOn(quoter, orders, chain)[k] < |orders|
    ensures OrdersOn(quoter, orders, chain)[k] == orders[PlacesOn(quoter, orders, chain)[k]]
  {
    var n := |orders| - 1;
    SameCount(quoter, orders[..n], chain);
    if k < |PlacesOn(quoter, orders[..n], chain)| {
      PlacesAndOrders(quoter, orders[..n], chain, k);
    }
  }

  lemma {:induction false} SameCount<O, Q>(quoter: Quoter<O, Q>, orders: seq<O>, chain: nat)
    ensures |OrdersOn(quoter, orders, chain)| == |PlacesOn(quoter, orders, chain)|
  {
    if orders != [] {
      SameCount(quoter, orders[..|orders| - 1], chain);
    }
  }

  /** The order at a place of its group is found at its rank. */
  lemma {:induction false} PlaceAtRank<O, Q>(quoter: Quoter<O, Q>, orders: seq<O>, i: nat)
    requires i < |orders|
    ensures var places := PlacesOn(quoter, orders, quoter.chainOf(orders[i]));
            Rank(quoter, orders, i) < |places| && places[Rank(quoter, orders, i)] == i
  {
    var n := |orders| - 1;
    if i < n {
      assert orders[..n][..i] == orders[..i];
      PlaceAtRank(quoter, orders[..n], i);
    }
  }

  lemma RankAtPlace<O, Q>(quoter: Quoter<O, Q>, orders: seq<O>, chain: nat, k: nat)
    requires k < |PlacesOn(quoter, orders, chain)|
    ensures var p := PlacesOn(quoter, orders, chain)[k];
            p < |orders| && quoter.chainOf(orders[p]) == chain && Rank(quoter, orders, p) == k
  {
    PlacesAscend(quoter, orders, chain);
    var p := PlacesOn(quoter, orders, chain)[k];
    assert p in PlacesOn(quoter, orders, chain);
    PlaceAtRank(quoter, orders, p);
  }

  method GroupByChain<O, Q>(quoter: Quoter<O, Q>, orders: seq<O>) returns (groups: map<nat, seq<nat>>)
    ensures forall c :: c in groups <==> PlacesOn(quoter, orders, c) != []
    ensures forall c :: c in groups ==> groups[c] == PlacesOn(quoter, orders, c)
  {
    groups := map[];
    for i := 0 to |orders|
      invariant forall c :: c in groups <==> PlacesOn(quoter, orders[..i], c) != []
      invariant forall c :: c in groups ==> groups[c] == PlacesOn(quoter, orders[..i], c)
    {
      assert orders[..i + 1][..i] == orders[..i];
      var chain := quoter.chainOf(orders[i]);
      var group := if chain in groups then groups[chain] else [];
      groups := groups[chain := group + [i]];
    }
    assert orders[..|orders|] == orders;
  }

  // ---------------------------------------------------------------- scattering the answers

  /** `zip`: stops at the shorter of the two. */
  method Scatter<Q>(slots: array<Option<Result<Q>>>, places: seq<nat>, answers: seq<Result<Q>>)
    requires Ascending(places) && Below(places, slots.Length)
    modifies slots
    ensures forall k :: 0 <= k < |places| && k < |answers| ==> slots[places[k]] == Some(answers[k])
    ensures forall k :: |answers| <= k < |places| ==> slots[places[k]] == old(slots[places[k]])
    ensures forall p :: 0 <= p < slots.Length && p !in places ==> slots[p] == old(slots[p])
  {
    var k := 0;
    while k < |places| && k < |answers|
      invariant 0 <= k <= |places| && k <= |answers|
      invariant forall l :: 0 <= l < k ==> slots[places[l]] == Some(answers[l])
      invariant forall l :: k <= l < |places| ==> slots[places[l]] == old(slots[places[l]])
      invariant forall p :: 0 <= p < slots.Length && p !in places ==> slots[p] == old(slots[p])
    {
      slots[places[k]] := Some(answers[k]);
      k := k + 1;
    }
  }

  function Wrapped<Q>(quotes: seq<Q>): seq<Result<Q>> {
    seq(|quotes|, k requires 0 <= k < |quotes| => Ok(quotes[k]))
  }

  function Singles<O, Q>(quoter: Quoter<O, Q>, orders: seq<O>): seq<Result<Q>> {
    seq(|orders|, k requires 0 <= k < |orders| => quoter.single(orders[k]))
  }

  /** The answers for one group, in the order of the group. */
  function GroupAnswers<O, Q>(quoter: Quoter<O, Q>, orders: seq<O>): seq<Result<Q>> {
    match quoter.batch(orders)
    case Ok(quotes) => Wrapped(quotes)
    case Err => Singles(quoter, orders)
  }

  lemma AnswerIsWritten<O, Q>(quoter: Quoter<O, Q>, orders: seq<O>, chain: nat, k: nat)
    requires k < |PlacesOn(quoter, orders, chain)|
    ensures var p, answers := PlacesOn(quoter, orders, chain)[k], GroupAnswers(quoter, OrdersOn(quoter, orders, chain));
            p < |orders| && Written(quoter, orders, p) == if k < |answers| then Some(answers[k]) else None
  {
    hide PlacesOn, OrdersOn, Rank;
    RankAtPlace(quoter, orders, chain, k);
    PlacesAndOrders(quoter, orders, chain, k);
  }

  method FillGroup<O, Q>(quoter: Quoter<O, Q>, orders: seq<O>, chain: nat, places: seq<nat>, slots: array<Option<Result<Q>>>)
    requires slots.Length == |orders| && places == PlacesOn(quoter, orders, chain)
    requires forall i :: 0 <= i < |orders| && quoter.chainOf(orders[i]) == chain ==> slots[i] == None
    modifies slots
    ensures forall i :: 0 <= i < |orders| ==>
      slots[i] == if quoter.chainOf(orders[i]) == chain then Written(quoter, orders, i) else old(slots[i])
  {
    hide PlacesOn, OrdersOn, Rank, Written, GroupAnswers;
    PlacesAscend(quoter, orders, chain);
    ghost var answers := GroupAnswers(quoter, OrdersOn(quoter, orders, chain));
    var group := Pick(quoter, orders, chain, places);
    var got := AnswerGroup(quoter, group);
    Scatter(slots, places, got);
    forall i | 0 <= i < |orders| && quoter.chainOf(orders[i]) == chain ensures slots[i] == Written(quoter, orders, i) {
      assert i in places;
      var k: nat :| k < |places| && places[k] == i;
      AnswerIsWritten(quoter, orders, chain, k);
    }
  }

  method Pick<O, Q>(quoter: Quoter<O, Q>, orders: seq<O>, chain: nat, places: seq<nat>) returns (group: seq<O>)
    requires places == PlacesOn(quoter, orders, chain)
    ensures group == OrdersOn(quoter, orders, chain)
  {
    hide PlacesOn, OrdersOn;
    group := [];
    SameCount(quoter, orders, chain);
    for k := 0 to |places|
      invariant |group| == k && forall l :: 0 <= l < k ==> group[l] == OrdersOn(quoter, orders, chain)[l]
    {
      PlacesAndOrders(quoter, orders, chain, k);
      group := group + [orders[places[k]]];
    }
  }

  method AnswerGroup<O, Q>(quoter: Quoter<O, Q>, group: seq<O>) returns (answers: seq<Result<Q>>)
    ensures answers == GroupAnswers(quoter, group)
  {
    match quoter.batch(group) {
      case Ok(quotes) => answers := Wrapped(quotes);
      case Err => answers := Singles(quoter, group);
    }
  }

  /** `get_order_quotes_batch`. The groups may be visited in any order. */
  method GetOrderQuotesBatch<O, Q>(quoter: Quoter<O, Q>, orders: seq<O>) returns (results: seq<Result<Q>>)
    ensures |results| == |orders|
    ensures forall i :: 0 <= i < |orders| ==> results[i] == Slot(quoter, orders, i)
  {
    hide PlacesOn, OrdersOn, Rank, Written;
    if orders == [] {
      return [];
    }
    var groups := GroupByChain(quoter, orders);
    var slots := new Option<Result<Q>>[|orders|](_ => None);
    var left := groups.Keys;
    forall i | 0 <= i < |orders| ensures quoter.chainOf(orders[i]) in groups {
      PlacesAscend(quoter, orders, quoter.chainOf(orders[i]));
      assert i in PlacesOn(quoter, orders, quoter.chainOf(orders[i]));
    }
    while left != {}
      invariant left <= groups.Keys
      invariant forall i :: 0 <= i < |orders| ==>
        slots[i] == if quoter.chainOf(orders[i]) in left then None else Written(quoter, orders, i)
      decreases left
    {
      var chain :| chain in left;
      FillGroup(quoter, orders, chain, groups[chain], slots);
      left := left - {chain};
    }
    results := seq(|orders|, i requires 0 <= i < |orders| reads slots => if slots[i].Some? then slots[i].value else Err);
  }

  /** Chain by chain, whatever the library answers: if the batch for the chain's orders answers, its quotes go
      to these orders one by one, and orders it does not reach have an error; if it fails, each of them has
      what the library says about it alone. */
  lemma SlotMeans<O, Q>(quoter: Quoter<O, Q>, orders: seq<O>, chain: nat, k: nat)
    requires k < |PlacesOn(quoter, orders, chain)|
    ensures var p, answer := PlacesOn(quoter, orders, chain)[k], quoter.batch(OrdersOn(quoter, orders, chain));
            && p < |orders| && quoter.chainOf(orders[p]) == chain
            && (answer.Ok? && k < |answer.value| ==> Slot(quoter, orders, p) == Ok(answer.value[k]))
            && (answer.Ok? && k >= |answer.value| ==> Slot(quoter, orders, p) == Err)
            && (answer.Err? ==> Slot(quoter, orders, p) == quoter.single(orders[p]))
  {
    hide PlacesOn, OrdersOn, Rank;
    RankAtPlace(quoter, orders, chain, k);
  }

  // ---------------------------------------------------------------- against one call per order

  /** A batch that answers gives every order the quotes that asking for it alone would have given. */
  ghost predicate BatchIsTrue<O(!new), Q>(quoter: Quoter<O, Q>) {
    forall os: seq<O> :: quoter.batch(os).Ok? ==> Wrapped(quoter.batch(os).value) == Singles(quoter, os)
  }

  /** Then the batch refines the plain method, order by order. */
  lemma RefinesPlain<O(!new), Q>(quoter: Quoter<O, Q>, orders: seq<O>, i: nat)
    requires BatchIsTrue(quoter) && i < |orders|
    ensures Slot(quoter, orders, i) == quoter.single(orders[i])
  {
    hide PlacesOn, OrdersOn;
    var chain := quoter.chainOf(orders[i]);
    PlaceAtRank(quoter, orders, i);
    PlacesAndOrders(quoter, orders, chain, Rank(quoter, orders, i));
    var group := OrdersOn(quoter, orders, chain);
    if quoter.batch(group).Ok? {
      assert Wrapped(quoter.batch(group).value)[Rank(quoter, orders, i)] == Singles(quoter, group)[Rank(quoter, orders, i)];
    }
  }

  /** Whatever the library answers, the orders left without an answer of their own are exactly those at
      the end of a chain's group that its batch, having come back too short, does not reach. */
  lemma UnansweredIff<O, Q>(quoter: Quoter<O, Q>, orders: seq<O>, chain: nat)
    ensures var places, answer := PlacesOn(quoter, orders, chain), quoter.batch(OrdersOn(quoter, orders, chain));
            forall k :: 0 <= k < |places| ==>
              && places[k] < |orders|
              && (Written(quoter, orders, places[k]) == None <==> answer.Ok? && |answer.value| <= k)
  {
    hide PlacesOn, OrdersOn, Rank;
    PlacesAscend(quoter, orders, chain);
    forall k | 0 <= k < |PlacesOn(quoter, orders, chain)|
      ensures Rank(quoter, orders, PlacesOn(quoter, orders, chain)[k]) == k
           && quoter.chainOf(orders[PlacesOn(quoter, orders, chain)[k]]) == chain
    {
      RankAtPlace(quoter, orders, chain, k);
    }
  }
}
