/**
 * The gallery's pure bookkeeping over the fetched list of descriptions:
 * the access gate, the `share` filter and the client-side pagination.
 */
module GalleryView {
  import opened Wrappers
  import opened Numbers

  /** Records per page for the admin's paged view. */
  const PageSize: nat := 4

  /** A fetched `descriptions` row with its `image_urls` (a missing list is empty). */
  datatype Record = Record(id: nat, details: string, imageUrls: seq<string>)

  /** Page numbers are 1-based; the page state starts at 1 and is only set to `i + 1`. */
  type PageNumber = p: nat | p >= 1 witness 1

  function Min(a: int, b: int): int {
    if a <= b then a else b
  }

  /**
   * The restricted notice replaces the gallery once the auth check is over,
   * for a visitor who is not an admin and came without a share id.
   */
  predicate AccessRestricted(checkingAuth: bool, isAdmin: bool, sharedId: Option<string>) {
    !checkingAuth && !isAdmin && sharedId == None
  }

  predicate Matches(r: Record, shared: string) {
    DecimalString(r.id) == shared
  }

  /** `data.filter(item => item.id.toString() === shared)`. */
  function FilterById(data: seq<Record>, shared: string): (r: seq<Record>)
    ensures |r| <= |data|
    ensures forall x :: x in r <==> x in data && Matches(x, shared)
  {
    if data == [] then []
    else (if Matches(data[0], shared) then [data[0]] else []) + FilterById(data[1..], shared)
  }

  /** Filtering a concatenation filters each part and keeps them in order. */
  lemma {:induction false} FilterByIdDistributes(a: seq<Record>, b: seq<Record>, shared: string)
    ensures FilterById(a + b, shared) == FilterById(a, shared) + FilterById(b, shared)
  {
    if a != [] {
      assert (a + b)[1..] == a[1..] + b;
      FilterByIdDistributes(a[1..], b, shared);
    } else {
      assert a + b == b;
    }
  }

  /** `filteredData`: the whole list without a share id, otherwise the matching records. */
  function FilteredData(data: seq<Record>, sharedId: Option<string>): (r: seq<Record>)
    ensures sharedId == None ==> r == data
    ensures sharedId.Some? ==> forall x :: x in r <==> x in data && Matches(x, sharedId.value)
    ensures |r| <= |data|
  {
    match sharedId
    case None => data
    case Some(s) => FilterById(data, s)
  }

  predicate UniqueIds(data: seq<Record>) {
    forall i, j :: 0 <= i < j < |data| ==> data[i].id != data[j].id
  }

  /** With distinct ids, the share id of a listed record narrows the list to that record. */
  lemma {:induction false} SharedIdSelectsRecord(data: seq<Record>, r: Record)
    requires UniqueIds(data) && r in data
    ensures FilteredData(data, Some(DecimalString(r.id))) == [r]
  {
    var s := DecimalString(r.id);
    if data[0] == r {
      assert forall x :: x in data[1..] ==> !Matches(x, s) by {
        forall x | x in data[1..] ensures !Matches(x, s) {
          var j :| 0 <= j < |data[1..]| && data[1..][j] == x;
          assert data[j + 1] == x;
          DecimalStringInjective(x.id, r.id);
        }
      }
      SharedIdWithoutMatch(data[1..], s);
    } else {
      assert r in data[1..];
      assert !Matches(data[0], s) by {
        DecimalStringInjective(data[0].id, r.id);
        var k :| 0 <= k < |data| && data[k] == r;
        assert k != 0;
      }
      SharedIdSelectsRecord(data[1..], r);
    }
  }

  /** A share id that names no record gives the empty list, never an error. */
  lemma {:induction false} SharedIdWithoutMatch(data: seq<Record>, s: string)
    requires forall x :: x in data ==> DecimalString(x.id) != s
    ensures FilteredData(data, Some(s)) == []
  {
    if data != [] {
      assert data[0] in data;
      SharedIdWithoutMatch(data[1..], s);
    }
  }

  /** `Math.ceil(n / PAGE_SIZE)`. */
  function TotalPages(n: nat): (t: nat)
    ensures n <= t * PageSize
    ensures t > 0 ==> (t - 1) * PageSize < n
  {
    (n + PageSize - 1) / PageSize
  }

  /** `s.slice(start, end)` for non-negative bounds: clamped to the list, empty when crossed. */
  function Slice<T>(s: seq<T>, start: nat, end: nat): (r: seq<T>)
    ensures |r| == if start < end && start < |s| then Min(end, |s|) - start else 0
    ensures forall k :: 0 <= k < |r| ==> r[k] == s[start + k]
  {
    if start < end && start < |s| then s[start..Min(end, |s|)] else []
  }

  /** The records of page `p`. */
  function PageOf<T>(s: seq<T>, p: PageNumber): seq<T> {
    Slice(s, (p - 1) * PageSize, p * PageSize)
  }

  /** `paginatedData`: only the admin's unshared view is sliced. */
  function PaginatedData(filtered: seq<Record>, sharedId: Option<string>, isAdmin: bool, page: PageNumber): (r: seq<Record>)
    ensures sharedId.Some? || !isAdmin ==> r == filtered
    ensures sharedId == None && isAdmin ==> |r| <= PageSize
    ensures forall k :: 0 <= k < |r| ==> r[k] in filtered
  {
    if sharedId.Some? || !isAdmin then filtered else PageOf(filtered, page)
  }

  /** Pages 1 to `k`, one after the other. */
  function PagesThrough<T>(s: seq<T>, k: nat): seq<T> {
    if k == 0 then [] else PagesThrough(s, k - 1) + PageOf(s, k)
  }

  lemma {:induction false} PagesThroughIsPrefix<T>(s: seq<T>, k: nat)
    ensures PagesThrough(s, k) == s[..Min(k * PageSize, |s|)]
  {
    if k > 0 {
      PagesThroughIsPrefix(s, k - 1);
      var lo, hi := Min((k - 1) * PageSize, |s|), Min(k * PageSize, |s|);
      assert PageOf(s, k) == s[lo..hi];
      assert s[..lo] + s[lo..hi] == s[..hi];
    }
  }

  /**
   * The pages partition the list: read one after the other they give the
   * list back, and each of them holds between one and `PageSize` records.
   */
  lemma PagesPartition<T>(s: seq<T>)
    ensures PagesThrough(s, TotalPages(|s|)) == s
    ensures forall p: PageNumber :: p <= TotalPages(|s|) ==> 1 <= |PageOf(s, p)| <= PageSize
  {
    PagesThroughIsPrefix(s, TotalPages(|s|));
    assert s[..|s|] == s;
  }

  /** A page number past the last page shows nothing. */
  lemma PageAfterLastIsEmpty<T>(s: seq<T>, p: PageNumber)
    requires p > TotalPages(|s|)
    ensures PageOf(s, p) == []
  {
  }

  /** The pager appears only for the admin's unshared view with more than one page. */
  predicate PagerShown(isAdmin: bool, sharedId: Option<string>, totalPages: nat) {
    isAdmin && sharedId == None && totalPages > 1
  }

  /** The pager's buttons: pages 1 to `totalPages`, in order. */
  function PageButtons(totalPages: nat): (b: seq<PageNumber>)
    ensures |b| == totalPages
    ensures forall i :: 0 <= i < |b| ==> b[i] == i + 1
  {
    seq(totalPages, i => i + 1)
  }

  /** Every pager button leads to a page that shows at least one record. */
  lemma PageButtonsLeadToRecords<T>(s: seq<T>, p: PageNumber)
    requires p in PageButtons(TotalPages(|s|))
    ensures PageOf(s, p) != []
  {
    PagesPartition(s);
  }
}
