/** Trades of an owner: everything is loaded, sorted newest first, and one page is cut out. */
module TradePages {
  import opened Wrappers
  import opened OrderScan

  const TWO_TO_THE_32: nat := 0x1_0000_0000
  const TWO_TO_THE_64: nat := 0x1_0000_0000_0000_0000

  type U32 = n: nat | n < TWO_TO_THE_32

  /** A trade as it is reported; `rest` stands for everything that does not affect its place. */
  datatype Trade = Trade(timestamp: nat, block: nat, rest: nat)

  // ---------------------------------------------------------------- the stable sort

  predicate Newer(a: Trade, b: Trade) {
    a.timestamp > b.timestamp || (a.timestamp == b.timestamp && a.block > b.block)
  }

  predicate SameKey(a: Trade, b: Trade) {
    a.timestamp == b.timestamp && a.block == b.block
  }

  ghost predicate NewestFirst(s: seq<Trade>) {
    forall i, j :: 0 <= i < j < |s| ==> !Newer(s[j], s[i])
  }

  /** The trades that tie with `k`, in order. */
  function TiesWith(s: seq<Trade>, k: Trade): seq<Trade> {
    if s == [] then [] else (if SameKey(s[0], k) then [s[0]] else []) + TiesWith(s[1..], k)
  }

  /** Newest first, and trades that tie keep their order. */
  ghost predicate IsStableSort(s: seq<Trade>, r: seq<Trade>) {
    NewestFirst(r) && forall k :: TiesWith(r, k) == TiesWith(s, k)
  }

  lemma {:induction false} TiesConcat(a: seq<Trade>, b: seq<Trade>, k: Trade)
    ensures TiesWith(a + b, k) == TiesWith(a, k) + TiesWith(b, k)
  {
    if a == [] {
      assert a + b == b;
    } else {
      TiesConcat(a[1..], b, k);
      assert (a + b)[1..] == a[1..] + b && (a + b)[0] == a[0];
    }
  }

  lemma {:induction false} NoTiesWith(s: seq<Trade>, k: Trade)
    requires forall t :: t in s ==> !SameKey(t, k)
    ensures TiesWith(s, k) == []
  {
    if s != [] {
      NoTiesWith(s[1..], k);
    }
  }

  lemma {:induction false} TieIsElement(s: seq<Trade>, k: Trade)
    requires TiesWith(s, k) != []
    ensures exists i: nat :: i < |s| && SameKey(s[i], k)
  {
    if !SameKey(s[0], k) {
      TieIsElement(s[1..], k);
      var i: nat :| i < |s[1..]| && SameKey(s[1..][i], k);
      assert SameKey(s[i + 1], k);
    }
  }

  lemma HeadIsNotNewer(a: seq<Trade>, b: seq<Trade>)
    requires NewestFirst(a) && b != [] && TiesWith(a, b[0]) == TiesWith(b, b[0])
    ensures a != [] && !Newer(b[0], a[0])
  {
    assert TiesWith(b, b[0])[0] == b[0];
    TieIsElement(a, b[0]);
    var j: nat :| j < |a| && SameKey(a[j], b[0]);
    assert j > 0 ==> !Newer(a[j], a[0]);
  }

  lemma SameHead(a: seq<Trade>, b: seq<Trade>)
    requires NewestFirst(a) && NewestFirst(b) && a != [] && forall k :: TiesWith(a, k) == TiesWith(b, k)
    ensures b != [] && a[0] == b[0]
  {
    HeadIsNotNewer(b, a);
    HeadIsNotNewer(a, b);
    assert TiesWith(a, a[0])[0] == a[0] && TiesWith(b, a[0])[0] == b[0];
  }

  lemma OwnTies(s: seq<Trade>)
    ensures s == [] || TiesWith(s, s[0]) != []
  {
  }

  /** There is only one stable sort of a list. */
  lemma {:induction false} StableSortIsUnique(a: seq<Trade>, b: seq<Trade>)
    requires NewestFirst(a) && NewestFirst(b) && forall k :: TiesWith(a, k) == TiesWith(b, k)
    ensures a == b
  {
    if a == [] {
      OwnTies(b);
    } else {
      SameHead(a, b);
      forall k ensures TiesWith(a[1..], k) == TiesWith(b[1..], k) {
        assert TiesWith(a, k) == TiesWith(b, k);
        var head := if SameKey(a[0], k) then [a[0]] else [];
        assert TiesWith(a, k)[|head|..] == TiesWith(a[1..], k) && TiesWith(b, k)[|head|..] == TiesWith(b[1..], k);
      }
      StableSortIsUnique(a[1..], b[1..]);
      assert a == [a[0]] + a[1..] && b == [b[0]] + b[1..];
    }
  }

  /** The order in full: by timestamp, then by block number, the latest first. */
  lemma SortedMeans(s: seq<Trade>, r: seq<Trade>, i: nat, j: nat)
    requires IsStableSort(s, r) && i < j < |r|
    ensures r[i].timestamp > r[j].timestamp || (r[i].timestamp == r[j].timestamp && r[i].block >= r[j].block)
  {
  }

  lemma {:induction false} TiesCount(s: seq<Trade>, t: Trade)
    ensures multiset(TiesWith(s, t))[t] == multiset(s)[t]
  {
    if s != [] {
      TiesCount(s[1..], t);
      assert s == [s[0]] + s[1..];
    }
  }

  /** Sorting loses no trade and adds none. */
  lemma SortKeepsTrades(s: seq<Trade>, r: seq<Trade>)
    requires IsStableSort(s, r)
    ensures multiset(r) == multiset(s)
  {
    forall t ensures multiset(r)[t] == multiset(s)[t] {
      TiesCount(s, t);
      TiesCount(r, t);
      assert TiesWith(r, t) == TiesWith(s, t);
    }
  }

  /** Puts a trade behind everything that is not older. */
  method Place(sorted: seq<Trade>, t: Trade) returns (r: seq<Trade>)
    requires NewestFirst(sorted)
    ensures IsStableSort(sorted + [t], r)
  {
    var i := |sorted|;
    while i > 0 && Newer(t, sorted[i - 1])
      invariant 0 <= i <= |sorted|
      invariant forall j :: i <= j < |sorted| ==> Newer(t, sorted[j])
    {
      i := i - 1;
    }
    r := sorted[..i] + [t] + sorted[i..];
    PlacedInOrder(sorted, t, i);
    forall k ensures TiesWith(r, k) == TiesWith(sorted + [t], k) {
      PlacedBehindTies(sorted[..i], sorted[i..], t, k);
      assert sorted[..i] + sorted[i..] == sorted;
    }
  }

  lemma PlacedInOrder(sorted: seq<Trade>, t: Trade, i: nat)
    requires NewestFirst(sorted) && i <= |sorted|
    requires i > 0 ==> !Newer(t, sorted[i - 1])
    requires forall j :: i <= j < |sorted| ==> Newer(t, sorted[j])
    ensures NewestFirst(sorted[..i] + [t] + sorted[i..])
  {
    forall j | 0 <= j < i ensures !Newer(t, sorted[j]) {
      assert j < i - 1 ==> !Newer(sorted[i - 1], sorted[j]);
    }
  }

  lemma PlacedBehindTies(front: seq<Trade>, back: seq<Trade>, t: Trade, k: Trade)
    requires forall x :: x in back ==> Newer(t, x)
    ensures TiesWith(front + [t] + back, k) == TiesWith(front + back + [t], k)
  {
    TiesConcat(front + [t], back, k);
    TiesConcat(front, [t], k);
    TiesConcat(front + back, [t], k);
    TiesConcat(front, back, k);
    if SameKey(t, k) {
      NoTiesWith(back, k);
    }
  }

  /** `sort_by_key` with both keys reversed. */
  method SortNewestFirst(s: seq<Trade>) returns (r: seq<Trade>)
    ensures IsStableSort(s, r)
  {
    r := [];
    for i := 0 to |s|
      invariant IsStableSort(s[..i], r)
    {
      var longer := Place(r, s[i]);
      forall k ensures TiesWith(longer, k) == TiesWith(s[..i + 1], k) {
        TiesConcat(r, [s[i]], k);
        TiesConcat(s[..i], [s[i]], k);
        assert s[..i] + [s[i]] == s[..i + 1];
      }
      r := longer;
    }
    assert s[..|s|] == s;
  }

  // ---------------------------------------------------------------- one page

  datatype Listing<T> = Listing(items: seq<T>, page: U32, size: U32, total: nat, pages: nat, hasMore: bool)

  function PageCount(total: nat, size: nat): nat {
    if size == 0 then 0 else (total + size - 1) / size
  }

  /** Page 0 reads from where page 1 does. */
  function Offset(page: U32, size: U32): nat {
    (if page == 0 then 0 else page - 1) * size
  }

  function ListPage<T>(s: seq<T>, page: U32, size: U32): Listing<T> {
    var offset := Offset(page, size);
    var items := if offset >= |s| then [] else s[offset..Least(offset + size, |s|)];
    Listing(items, page, size, |s|, PageCount(|s|, size), page < PageCount(|s|, size))
  }

  lemma MulMono(a: nat, b: nat, c: nat, d: nat)
    requires a <= c && b <= d
    ensures a * b <= c * d
  {
    assert a * b <= c * b && c * b <= c * d;
  }

  /** Neither the offset nor the end of a page overflows 64 bits, whatever page is asked for. */
  lemma OffsetFits(page: U32, size: U32)
    ensures Offset(page, size) + size < TWO_TO_THE_64
  {
    MulMono(if page == 0 then 0 else page - 1, size, TWO_TO_THE_32 - 2, TWO_TO_THE_32 - 1);
  }

  lemma CeilBounds(total: nat, size: nat)
    requires size > 0
    ensures var n := PageCount(total, size);
            total <= n * size && n * size < total + size && (n == 0 <==> total == 0)
  {
    var x := total + size - 1;
    assert x == x / size * size + x % size;
  }

  /** Where a page starts: page 1, and page 0 too, at the beginning. */
  function StartOf(page: U32, size: U32): nat {
    if page <= 1 then 0 else page * size - size
  }

  /** The fields of a listing. The pages are as many as it takes, there are more if the pages up to this one
      do not reach the end, and the items are those from the start of the page on, as many as fit. */
  lemma ListingMeans<T>(s: seq<T>, page: U32, size: U32)
    ensures var l, start := ListPage(s, page, size), StartOf(page, size);
            && l.page == page && l.size == size && l.total == |s|
            && (l.hasMore <==> size > 0 && page * size < |s|)
            && (size == 0 || s == [] ==> l.pages == 0)
            && (size > 0 && s != [] ==> l.pages > 0 && l.pages * size - size < |s| <= l.pages * size)
            && (if |s| <= start then l.items == []
                else |l.items| == Least(size, |s| - start) && forall k :: 0 <= k < |l.items| ==> l.items[k] == s[start + k])
  {
    assert Offset(page, size) == StartOf(page, size) by {
      if page > 1 {
        assert (page - 1) * size == page * size - size;
      }
    }
    if size > 0 {
      CeilBounds(|s|, size);
      MoreIff(page, size, |s|, PageCount(|s|, size));
    }
  }

  lemma MoreIff(page: nat, size: nat, total: nat, pages: nat)
    requires size > 0 && total <= pages * size && pages * size < total + size
    ensures page < pages <==> page * size < total
  {
    if page < pages {
      MulMono(page + 1, size, pages, size);
      assert (page + 1) * size == page * size + size;
    } else {
      MulMono(pages, size, page, size);
    }
  }

  /** The items of the pages from `page` on, read one after the other while there are more. */
  function Follow<T>(s: seq<T>, page: U32, size: U32): (seq<T>, nat)
    requires PageCount(|s|, size) < TWO_TO_THE_32
    decreases PageCount(|s|, size) - page
  {
    var listing := ListPage(s, page, size);
    if listing.hasMore then
      var (items, count) := Follow(s, page + 1, size);
      (listing.items + items, count + 1)
    else
      (listing.items, 1)
  }

  lemma PageIsSlice<T>(s: seq<T>, page: U32, size: U32)
    requires size > 0 && 1 <= page
    ensures page < PageCount(|s|, size) ==>
      page * size < |s| && ListPage(s, page, size).items == s[(page - 1) * size..page * size]
    ensures page == PageCount(|s|, size) ==>
      (page - 1) * size < |s| && ListPage(s, page, size).items == s[(page - 1) * size..]
  {
    var n := PageCount(|s|, size);
    CeilBounds(|s|, size);
    assert (n - 1) * size == n * size - size && page * size == (page - 1) * size + size;
    if page < n {
      MulMono(page, size, n - 1, size);
    }
  }

  lemma {:induction false} FollowFrom<T>(s: seq<T>, page: U32, size: U32)
    requires size > 0 && 1 <= page <= PageCount(|s|, size) < TWO_TO_THE_32
    ensures (page - 1) * size <= |s|
    ensures Follow(s, page, size) == (s[(page - 1) * size..], PageCount(|s|, size) - page + 1)
    decreases PageCount(|s|, size) - page
  {
    PageIsSlice(s, page, size);
    if page < PageCount(|s|, size) {
      FollowFrom(s, page + 1, size);
      assert s[(page - 1) * size..page * size] + s[page * size..] == s[(page - 1) * size..];
    }
  }

  /** Following the pages from the first while there are more yields the whole list, each item once, and
      takes exactly as many requests as there are pages; an empty list takes one. */
  lemma FollowingReadsAll<T>(s: seq<T>, size: U32)
    requires size > 0 && PageCount(|s|, size) < TWO_TO_THE_32
    ensures Follow(s, 1, size) == (s, if s == [] then 1 else PageCount(|s|, size))
  {
    CeilBounds(|s|, size);
    if s != [] {
      FollowFrom(s, 1, size);
    }
  }

  /** Page 0 is page 1 under another number, and claims more pages even when there is only one. */
  lemma PageZeroRepeats<T>(s: seq<T>, size: U32)
    requires size > 0
    ensures ListPage(s, 0, size).items == ListPage(s, 1, size).items
    ensures ListPage(s, 0, size).hasMore <==> s != []
  {
    CeilBounds(|s|, size);
  }
}
