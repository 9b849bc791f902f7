/** Reading every order of a paged source: fifty at a time, until as many have come as the source says
    there are. */
module OrderScan {
  import opened Wrappers

  const PAGE_SIZE: nat := 50
  const LAST_PAGE: nat := 65535

  /** One page of orders, and how many orders the source says there are. */
  datatype Page<O> = Page(orders: seq<O>, total: nat)

  /** The orders on the first `n` pages. */
  function Gathered<O>(page: nat -> Result<Page<O>>, n: nat): seq<O> {
    if n == 0 then [] else Gathered(page, n - 1) + if page(n).Ok? then page(n).value.orders else []
  }

  /** Page `n` was read and there is nothing more to read after it. */
  predicate Complete<O>(page: nat -> Result<Page<O>>, n: nat) {
    page(n).Ok? && |Gathered(page, n)| >= page(n).value.total
  }

  /** Reading stops at page `n`: the first one that fails or completes the list, or the last that can be
      asked for. */
  ghost predicate StopsAt<O>(page: nat -> Result<Page<O>>, n: nat) {
    && 1 <= n < LAST_PAGE
    && (forall k :: 1 <= k < n ==> page(k).Ok? && !Complete(page, k))
    && (page(n).Err? || Complete(page, n) || n == LAST_PAGE - 1)
  }

  /** The outcome of reading the pages up to `n`. */
  function ScannedTo<O>(page: nat -> Result<Page<O>>, n: nat): Result<seq<O>> {
    if page(n).Ok? then Ok(Gathered(page, n)) else Err
  }

  /** There is only one such page. */
  lemma StopsOnce<O>(page: nat -> Result<Page<O>>, m: nat, n: nat)
    requires StopsAt(page, m) && StopsAt(page, n)
    ensures m == n
  {
  }

  /** `page.saturating_add(1)` on 16 bits. */
  function NextPage(n: nat): nat {
    if n < LAST_PAGE then n + 1 else LAST_PAGE
  }

  // ---------------------------------------------------------------- a source that pages a list

  function Least(a: nat, b: nat): nat {
    if a <= b then a else b
  }

  function Slice<O>(list: seq<O>, n: nat): seq<O>
    requires n > 0
  {
    list[Least((n - 1) * PAGE_SIZE, |list|)..Least(n * PAGE_SIZE, |list|)]
  }

  /** The source pages `list` faithfully. */
  ghost predicate Pages<O>(page: nat -> Result<Page<O>>, list: seq<O>) {
    forall n :: 1 <= n < LAST_PAGE ==> page(n) == Ok(Page(Slice(list, n), |list|))
  }

  lemma {:induction false} GatheredIsPrefix<O>(page: nat -> Result<Page<O>>, list: seq<O>, n: nat)
    requires Pages(page, list) && n < LAST_PAGE
    ensures Gathered(page, n) == list[..Least(n * PAGE_SIZE, |list|)]
  {
    if n > 0 {
      GatheredIsPrefix(page, list, n - 1);
      assert page(n) == Ok(Page(Slice(list, n), |list|));
    }
  }

  /** From such a source the scan reads the whole list, up to the 65534 pages it can ask for, and no page
      more than it takes. */
  lemma ScanReadsList<O>(page: nat -> Result<Page<O>>, list: seq<O>, last: nat)
    requires Pages(page, list) && StopsAt(page, last)
    ensures page(last).Ok? && Gathered(page, last) == list[..Least(|list|, (LAST_PAGE - 1) * PAGE_SIZE)]
    ensures last > 1 ==> (last - 1) * PAGE_SIZE < |list|
  {
    GatheredIsPrefix(page, list, last);
    assert page(last) == Ok(Page(Slice(list, last), |list|));
    if last > 1 {
      GatheredIsPrefix(page, list, last - 1);
      assert page(last - 1) == Ok(Page(Slice(list, last - 1), |list|)) && !Complete(page, last - 1);
    }
  }

  // ---------------------------------------------------------------- the scan

  /** `fetch_all_orders`. Whatever the source answers, it reads up to the page where reading stops and
      returns all orders read, or an error if that page failed. From a source that pages a list, it
      returns the list, up to the 65534 pages it can ask for. */
  method FetchAllOrders<O(!new)>(page: nat -> Result<Page<O>>) returns (r: Result<seq<O>>)
    ensures exists last :: StopsAt(page, last) && r == ScannedTo(page, last)
    ensures forall list :: Pages(page, list) ==> r == Ok(list[..Least(|list|, 65534 * 50)])
  {
    var all: seq<O> := [];
    var n: nat := 1;
    ghost var last: nat;
    while true
      invariant 1 <= n < LAST_PAGE
      invariant all == Gathered(page, n - 1)
      invariant forall k :: 1 <= k < n ==> page(k).Ok? && !Complete(page, k)
      decreases LAST_PAGE - n
    {
      match page(n) {
        case Err =>
          r, last := Err, n;
          break;
        case Ok(got) =>
          all := all + got.orders;
          if |all| >= got.total {
            r, last := Ok(all), n;
            break;
          }
          if got.total == 0 {
            r, last := Ok(all), n;
            break;
          }
      }
      n := NextPage(n);
      if n == LAST_PAGE {
        r, last := Ok(all), n - 1;
        break;
      }
    }
    assert StopsAt(page, last) && r == ScannedTo(page, last);
    forall list | Pages(page, list) ensures r == Ok(list[..Least(|list|, (LAST_PAGE - 1) * PAGE_SIZE)]) {
      assert page(last) == Ok(Page(Slice(list, last), |list|));
      ScanReadsList(page, list, last);
    }
  }
}
