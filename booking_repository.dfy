/** The JPQL queries of `BookingRepository` as filters over the booking table
    (a sequence in insertion order), with `current_timestamp` passed in as
    `now`. Both versions share the `where` clauses; the server version cuts a
    page out of the result sorted by start descending, the older version
    returns the whole result in that order. */
module BookingRepository {
  import opened Common
  import opened Entities
  import opened Seqs
  import opened Paging
  import SortTypes

  /** Whose bookings a listing is about: the booker's own, or those of the
      items a user owns. */
  datatype Party = Booker | Owner

  /** The `where` clause beyond the party: none, one of the three time
      buckets, or a status. */
  datatype Bucket = All | Past | Current | Future | WithStatus(status: BookingStatus)

  predicate IsPast(b: Booking, now: int) { b.end < now }

  predicate IsCurrent(b: Booking, now: int) { b.start < now && b.end > now }

  predicate IsFuture(b: Booking, now: int) { b.start > now }

  predicate OfParty(b: Booking, party: Party, userId: int)
  {
    match party
    case Booker => b.booker.id == userId
    case Owner => b.item.ownerId == userId
  }

  predicate InBucket(b: Booking, bucket: Bucket, now: int)
  {
    match bucket
    case All => true
    case Past => IsPast(b, now)
    case Current => IsCurrent(b, now)
    case Future => IsFuture(b, now)
    case WithStatus(st) => b.status == st
  }

  predicate Matches(b: Booking, party: Party, userId: int, bucket: Bucket, now: int)
  {
    OfParty(b, party, userId) && InBucket(b, bucket, now)
  }

  function StartOf(b: Booking): int { b.start }

  /** `BookingStatus.valueOf`: the status spelled exactly. */
  function StatusValueOf(s: string): (r: Option<BookingStatus>)
    ensures s == "WAITING" <==> r == Some(BookingStatus.WAITING)
    ensures s == "APPROVED" <==> r == Some(BookingStatus.APPROVED)
    ensures s == "REJECTED" <==> r == Some(BookingStatus.REJECTED)
  {
    if s == "WAITING" then Some(BookingStatus.WAITING)
    else if s == "APPROVED" then Some(BookingStatus.APPROVED)
    else if s == "REJECTED" then Some(BookingStatus.REJECTED)
    else None
  }

  /** The repository method each state token dispatches to. The WAITING and
      REJECTED tokens share the status query, with `BookingStatus.valueOf`
      of the token's own text. */
  function BucketOf(t: SortTypes.SortType): Bucket
  {
    match t
    case ALL => All
    case PAST => Past
    case CURRENT => Current
    case FUTURE => Future
    case WAITING => WithStatus(StatusValueOf(SortTypes.Name(t)).value)
    case REJECTED => WithStatus(StatusValueOf(SortTypes.Name(t)).value)
  }

  /** The two status tokens select the status of the same name; the other four
      select no status at all. */
  lemma StatusTokensSelectTheirStatus(t: SortTypes.SortType)
    ensures BucketOf(t).WithStatus? <==> t == SortTypes.WAITING || t == SortTypes.REJECTED
    ensures t == SortTypes.WAITING ==> BucketOf(t) == WithStatus(BookingStatus.WAITING)
    ensures t == SortTypes.REJECTED ==> BucketOf(t) == WithStatus(BookingStatus.REJECTED)
  {
  }

  /** The `where` clause, in table order. */
  function Select(bs: seq<Booking>, party: Party, userId: int, bucket: Bucket, now: int): (r: seq<Booking>)
    ensures forall b :: b in r <==> b in bs && Matches(b, party, userId, bucket, now)
    ensures multiset(r) <= multiset(bs)
  {
    Filter(bs, b => Matches(b, party, userId, bucket, now))
  }

  /** The older repository: the whole result, `order by b.start desc`. */
  function FindOrdered(bs: seq<Booking>, party: Party, userId: int, bucket: Bucket, now: int): (r: seq<Booking>)
    ensures SortedDesc(r, StartOf)
    ensures multiset(r) == multiset(Select(bs, party, userId, bucket, now))
    ensures forall b :: b in r <==> b in bs && Matches(b, party, userId, bucket, now)
  {
    var r := SortDesc(Select(bs, party, userId, bucket, now), StartOf);
    SortDescMembers(Select(bs, party, userId, bucket, now), StartOf);
    r
  }

  /** The server repository: the page `pr` of the result sorted by start
      descending (`Sort.by(DESC, "start")` in the page request). */
  function FindPage(bs: seq<Booking>, party: Party, userId: int, bucket: Bucket, now: int,
                    pr: PageRequest): (r: seq<Booking>)
    ensures |r| <= pr.size
    ensures forall b :: b in r ==> b in bs && Matches(b, party, userId, bucket, now)
    ensures SortedDesc(r, StartOf)
  {
    var all := FindOrdered(bs, party, userId, bucket, now);
    PageOfSortedIsSorted(all, pr);
    Page(all, pr)
  }

  /** The page is the window `Page` of the ordered selection that the page
      request names, so `Page`'s contract says which entries it holds. */
  lemma FindPageIsWindow(bs: seq<Booking>, party: Party, userId: int, bucket: Bucket, now: int, pr: PageRequest)
    ensures FindPage(bs, party, userId, bucket, now, pr) == Page(FindOrdered(bs, party, userId, bucket, now), pr)
  {
  }

  /** A window of a sorted sequence is sorted. */
  lemma PageOfSortedIsSorted(all: seq<Booking>, pr: PageRequest)
    requires SortedDesc(all, StartOf)
    ensures SortedDesc(Page(all, pr), StartOf)
    ensures forall b :: b in Page(all, pr) ==> b in all
  {
    var r := Page(all, pr);
    forall b | b in r ensures b in all {
      var k :| 0 <= k < |r| && r[k] == b;
      assert all[pr.page * pr.size + k] == b;
    }
    forall i, j | 0 <= i < j < |r| ensures StartOf(r[i]) >= StartOf(r[j]) {
      assert r[i] == all[pr.page * pr.size + i] && r[j] == all[pr.page * pr.size + j];
    }
  }

  /** A first page at least as long as the whole result is the older
      version's unpaged listing. */
  lemma FirstPageIsWholeListing(bs: seq<Booking>, party: Party, userId: int, bucket: Bucket, now: int, size: nat)
    requires size >= |bs|
    ensures FindPage(bs, party, userId, bucket, now, PageRequest(0, size)) == FindOrdered(bs, party, userId, bucket, now)
  {
    var all := FindOrdered(bs, party, userId, bucket, now);
    assert |all| == |Select(bs, party, userId, bucket, now)| <= |bs| by {
      assert |multiset(all)| == |multiset(Select(bs, party, userId, bucket, now))|;
      assert multiset(Select(bs, party, userId, bucket, now)) <= multiset(bs);
    }
    assert Page(all, PageRequest(0, size)) == all[0..|all|];
  }

  /** A booking whose start is before its end is in at most one of the three
      time buckets at any instant. */
  lemma TimeBucketsDisjoint(b: Booking, now: int)
    requires b.start < b.end
    ensures !(IsPast(b, now) && IsCurrent(b, now))
    ensures !(IsPast(b, now) && IsFuture(b, now))
    ensures !(IsCurrent(b, now) && IsFuture(b, now))
  {
  }

  /** The comparisons are strict: such a booking falls in no time bucket
      exactly at its start and at its end, and in one at every other instant. */
  lemma TimeBucketsMissOnlyEndpoints(b: Booking, now: int)
    requires b.start < b.end
    ensures !IsPast(b, now) && !IsCurrent(b, now) && !IsFuture(b, now) <==> now == b.start || now == b.end
  {
  }

  /** The status queries have no time condition: the clock does not change them. */
  lemma {:induction false} StatusQueryIgnoresClock(bs: seq<Booking>, party: Party, userId: int,
                                                  st: BookingStatus, now: int, now': int)
    ensures Select(bs, party, userId, WithStatus(st), now) == Select(bs, party, userId, WithStatus(st), now')
  {
    FilterCongruent(bs, b => Matches(b, party, userId, WithStatus(st), now),
                        b => Matches(b, party, userId, WithStatus(st), now'));
  }

  /** `findAllItemBookingsByItemId`: the bookings of one item with one status,
      projected to `BookingInItemDto`; no party or time condition. */
  function ToBookingInItem(b: Booking): BookingInItem
  {
    BookingInItem(b.id, b.start, b.end, b.status, b.booker.id)
  }

  function FindAllItemBookingsByItemId(bs: seq<Booking>, itemId: int, status: BookingStatus): (r: seq<BookingInItem>)
    ensures forall i :: 0 <= i < |r| ==> r[i].status == status
    ensures forall b :: b in bs && b.item.id == itemId && b.status == status ==> ToBookingInItem(b) in r
    ensures forall x :: x in r ==> exists b :: b in bs && b.item.id == itemId && x == ToBookingInItem(b)
  {
    var sel := Filter(bs, (b: Booking) => b.item.id == itemId && b.status == status);
    var r := MapSeq(sel, ToBookingInItem);
    assert forall b :: b in sel ==> ToBookingInItem(b) in r by {
      forall b | b in sel ensures ToBookingInItem(b) in r {
        var k :| 0 <= k < |sel| && sel[k] == b;
        assert r[k] == ToBookingInItem(b);
      }
    }
    forall x | x in r ensures exists b :: b in bs && b.item.id == itemId && x == ToBookingInItem(b) {
      var k :| 0 <= k < |r| && r[k] == x;
      assert sel[k] in sel;
    }
    r
  }

  /** The comment-eligibility query: bookings of that item, by that booker,
      with that status, that have already ended. */
  predicate CommentEligible(b: Booking, itemId: int, userId: int, status: BookingStatus, now: int)
  {
    b.item.id == itemId && b.booker.id == userId && b.status == status && b.end < now
  }

  function FindEligibleForComment(bs: seq<Booking>, itemId: int, userId: int, status: BookingStatus, now: int): (r: seq<Booking>)
    ensures forall b :: b in r <==> b in bs && CommentEligible(b, itemId, userId, status, now)
  {
    Filter(bs, b => CommentEligible(b, itemId, userId, status, now))
  }

  /** An eligible booking is one of the booker's past bookings of that status. */
  lemma EligibleIsPastOfBooker(b: Booking, itemId: int, userId: int, status: BookingStatus, now: int)
    requires CommentEligible(b, itemId, userId, status, now)
    ensures Matches(b, Booker, userId, Past, now) && Matches(b, Booker, userId, WithStatus(status), now)
  {
  }
}
