/** `createPageRequest` and the page window Spring Data cuts out of an ordered
    query result. */
module Paging {
  import opened Common
  import opened Seqs

  /** Controller defaults: `from` is 0 everywhere; the server pages by 20
      items, the gateway by 10. */
  const DefaultFrom: int := 0
  const ServerDefaultSize: int := 20
  const GatewayDefaultSize: int := 10

  /** Spring's `PageRequest`: a zero-based page index and a page length. */
  datatype PageRequest = PageRequest(page: nat, size: nat)

  /** Java's `/` on `int`, which truncates toward zero. */
  function JavaDiv(a: int, b: int): (q: int)
    requires b != 0
    ensures a >= 0 && b > 0 ==> q == a / b
    ensures a < 0 && b > 0 ==> q == -((-a) / b)
  {
    var n := if a < 0 then -a else a;
    var d := if b < 0 then -b else b;
    if (a < 0) == (b < 0) then n / d else -(n / d)
  }

  lemma NegativeQuotient(from: int, size: int)
    ensures from < 0 && size > 0 ==> (JavaDiv(from, size) < 0 <==> from <= -size)
  {
    if from < 0 && size > 0 {
      var n, d := -from, size;
      var q, m := n / d, n % d;
      assert n == d * q + m && 0 <= m < d;
      if q >= 1 {
        assert d * q >= d * 1;
      } else {
        assert d * q <= 0;
      }
    }
  }

  /** `page = from == 0 ? 0 : from / size`, then `PageRequest.of(page, size)`,
      which refuses a negative page and a size below one. */
  function CreatePageRequest(from: int, size: int): (r: Result<PageRequest>)
    ensures r.Ok? <==> size >= 1 && from > -size
    ensures r.Ok? ==> r.value.size == size
    ensures r.Ok? && from == 0 ==> r.value.page == 0
    ensures r.Ok? && from >= 0 ==> r.value.page * size <= from < r.value.page * size + size
    ensures r.Ok? && from >= 0 && from % size == 0 ==> r.value.page * size == from
    ensures size == 0 && from != 0 ==> r == Err(DivisionByZero)
    ensures r.Err? && !(size == 0 && from != 0) ==> r == Err(InvalidPageRequest)
  {
    if from == 0 then
      if size < 1 then Err(InvalidPageRequest) else Ok(PageRequest(0, size))
    else if size == 0 then Err(DivisionByZero)
    else
      var p := JavaDiv(from, size);
      NegativeQuotient(from, size);
      if p < 0 || size < 1 then Err(InvalidPageRequest)
      else
        assert from >= 0 ==> from == size * p + from % size;
        Ok(PageRequest(p, size))
  }

  function Min(a: int, b: int): int { if a <= b then a else b }

  /** The window `[page * size, page * size + size)` of `s`, cut at its end. */
  function Page<T>(s: seq<T>, pr: PageRequest): (r: seq<T>)
    ensures |r| <= pr.size
    ensures |r| == Min(pr.size, |s| - Min(pr.page * pr.size, |s|))
    ensures forall i :: 0 <= i < |r| ==> pr.page * pr.size + i < |s| && r[i] == s[pr.page * pr.size + i]
  {
    var lo := Min(pr.page * pr.size, |s|);
    s[lo..Min(lo + pr.size, |s|)]
  }

  /** A page holds only elements of the sequence it is cut from. */
  lemma PageMembers<T>(s: seq<T>, pr: PageRequest)
    ensures forall x :: x in Page(s, pr) ==> x in s
  {
    var r := Page(s, pr);
    forall x | x in r ensures x in s {
      var k :| 0 <= k < |r| && r[k] == x;
      assert s[pr.page * pr.size + k] == x;
    }
  }

  /** A page of a descending sequence is descending. */
  lemma PageOfSorted<T>(s: seq<T>, key: T -> int, pr: PageRequest)
    requires SortedDesc(s, key)
    ensures SortedDesc(Page(s, pr), key)
  {
    var r := Page(s, pr);
    forall i, j | 0 <= i < j < |r| ensures key(r[i]) >= key(r[j]) {
      assert r[i] == s[pr.page * pr.size + i] && r[j] == s[pr.page * pr.size + j];
    }
  }

  /** When `from` is a multiple of `size` the page is exactly the `size`
      elements that start at offset `from`. */
  lemma AlignedPageStartsAtFrom<T>(s: seq<T>, from: int, size: int)
    requires from >= 0 && size >= 1 && from % size == 0
    ensures CreatePageRequest(from, size).Ok?
    ensures Page(s, CreatePageRequest(from, size).value) == s[Min(from, |s|)..Min(from + size, |s|)]
  {
  }

  /** With from = 3 and size = 2 the page index is 1, so the window starts at
      offset 2, not 3: the documented quirk of the page arithmetic. */
  lemma MisalignedPageStartsBeforeFrom()
    ensures CreatePageRequest(3, 2) == Ok(PageRequest(1, 2))
    ensures Page([10, 11, 12, 13, 14], PageRequest(1, 2)) == [12, 13]
  {
    assert JavaDiv(3, 2) == 1;
  }

  /** Two consecutive pages of the same length tile the ordered result. */
  lemma {:induction false} ConsecutivePagesTile<T>(s: seq<T>, p: nat, n: nat)
    requires n >= 1
    ensures Page(s, PageRequest(p, n)) + Page(s, PageRequest(p + 1, n))
         == s[Min(p * n, |s|)..Min(p * n + 2 * n, |s|)]
  {
    var a := Min(p * n, |s|);
    var b := Min(p * n + n, |s|);
    var c := Min(p * n + 2 * n, |s|);
    assert (p + 1) * n == p * n + n;
    assert Page(s, PageRequest(p, n)) == s[a..b];
    assert Page(s, PageRequest(p + 1, n)) == s[b..c];
    assert s[a..c] == s[a..b] + s[b..c];
  }

  /** Paging over three results with size 2: the first page holds two, the
      page asked for with from = 2 holds one. */
  lemma ThreeResultsInPagesOfTwo<T>(s: seq<T>)
    requires |s| == 3
    ensures |Page(s, CreatePageRequest(0, 2).value)| == 2
    ensures |Page(s, CreatePageRequest(2, 2).value)| == 1
  {
    assert JavaDiv(2, 2) == 1;
  }
}
