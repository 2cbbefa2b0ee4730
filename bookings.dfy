/** The bookings page (`src/pages/Bookings.tsx`): two stateful lists, upcoming and past.
    Cancelling moves a booking from the upcoming list to the end of the past list with
    status `'cancelled'`. Buttons shown per booking, the re-book notice and the status
    badge class are pure rules. */
module Bookings {
  import opened Common
  import opened Catalog

  datatype Status = Confirmed | Pending | Completed | Cancelled

  datatype Booking = Booking(
    id: string,
    artisanId: Option<string>,
    artisanName: string,
    service: string,
    date: string,
    time: string,
    location: string,
    status: Status)

  /** The page state: `upcomingBookingsData` and `pastBookingsData`. */
  datatype BookingLists = BookingLists(upcoming: seq<Booking>, past: seq<Booking>)

  function HasBookingId(id: string): Booking -> bool
  {
    (b: Booking) => b.id == id
  }

  function OtherThan(id: string): Booking -> bool
  {
    (b: Booking) => b.id != id
  }

  /** `handleCancelBooking`: drop every upcoming booking with that id; if one was found,
      append a copy of the first one, marked cancelled, to the past list. */
  function Cancel(s: BookingLists, id: string): BookingLists
  {
    var remaining := Filter(s.upcoming, OtherThan(id));
    match Find(s.upcoming, HasBookingId(id))
    case Some(b) => BookingLists(remaining, s.past + [b.(status := Cancelled)])
    case None => BookingLists(remaining, s.past)
  }

  ghost predicate UniqueIds(bookings: seq<Booking>)
  {
    forall i, j :: 0 <= i < j < |bookings| ==> bookings[i].id != bookings[j].id
  }

  /** Cancelling removes every upcoming booking with that id and keeps the others, in order. */
  lemma CancelRemoves(s: BookingLists, id: string, x: Booking)
    ensures forall b :: b in Cancel(s, id).upcoming ==> b.id != id
    ensures multiset(Cancel(s, id).upcoming)[x] == if x.id != id then multiset(s.upcoming)[x] else 0
    ensures IsSubsequence(Cancel(s, id).upcoming, s.upcoming)
  {
    FilterCount(s.upcoming, OtherThan(id), x);
    FilterIsSubsequence(s.upcoming, OtherThan(id));
  }

  /** A booking that was upcoming is archived exactly once, at the end of the past list:
      a copy of the first match with only its status changed to cancelled. */
  lemma CancelArchives(s: BookingLists, id: string)
    requires exists k :: 0 <= k < |s.upcoming| && s.upcoming[k].id == id
    ensures var past' := Cancel(s, id).past;
            && |past'| == |s.past| + 1
            && past'[..|s.past|] == s.past
            && exists k :: 0 <= k < |s.upcoming| && s.upcoming[k].id == id
                           && (forall j :: 0 <= j < k ==> s.upcoming[j].id != id)
                           && past'[|s.past|] == s.upcoming[k].(status := Cancelled)
  {
    var k := FindIndex(s.upcoming, HasBookingId(id));
    assert k < |s.upcoming|;
    var past' := Cancel(s, id).past;
    assert past' == s.past + [s.upcoming[k].(status := Cancelled)];
    assert past'[..|s.past|] == s.past;
  }

  /** Cancelling an id that is not upcoming changes nothing. */
  lemma CancelAbsent(s: BookingLists, id: string)
    requires forall k :: 0 <= k < |s.upcoming| ==> s.upcoming[k].id != id
    ensures Cancel(s, id) == s
  {
    FilterKeepsAll(s.upcoming, OtherThan(id));
  }

  lemma {:induction false} FilterDropsOne(s: seq<Booking>, id: string)
    requires UniqueIds(s)
    requires exists k :: 0 <= k < |s| && s[k].id == id
    ensures |Filter(s, OtherThan(id))| == |s| - 1
  {
    if s[0].id == id {
      assert forall k :: 0 <= k < |s[1..]| ==> s[1..][k].id != id by {
        forall k | 0 <= k < |s[1..]| ensures s[1..][k].id != id {
          assert s[1..][k] == s[k + 1];
        }
      }
      FilterKeepsAll(s[1..], OtherThan(id));
    } else {
      var k :| 0 <= k < |s| && s[k].id == id;
      assert s[1..][k - 1].id == id;
      FilterDropsOne(s[1..], id);
    }
  }

  /** With unique upcoming ids, a cancel neither creates nor loses a booking. */
  lemma CancelPreservesTotal(s: BookingLists, id: string)
    requires UniqueIds(s.upcoming)
    ensures |Cancel(s, id).upcoming| + |Cancel(s, id).past| == |s.upcoming| + |s.past|
  {
    if exists k :: 0 <= k < |s.upcoming| && s.upcoming[k].id == id {
      FilterDropsOne(s.upcoming, id);
      CancelArchives(s, id);
    } else {
      CancelAbsent(s, id);
    }
  }

  /** The Cancel button: upcoming bookings that are not already cancelled. */
  predicate OffersCancel(b: Booking, isUpcoming: bool)
  {
    isUpcoming && b.status != Cancelled
  }

  /** The Review and Re-book buttons: completed past bookings. */
  predicate OffersReviewAndRebook(b: Booking, isUpcoming: bool)
  {
    !isUpcoming && b.status == Completed
  }

  /** No card offers both kinds of action, and a booking archived by a cancel offers none. */
  lemma ActionsExclusive(s: BookingLists, id: string, b: Booking, isUpcoming: bool)
    ensures !(OffersCancel(b, isUpcoming) && OffersReviewAndRebook(b, isUpcoming))
    ensures var past' := Cancel(s, id).past;
            |past'| > |s.past| ==> !OffersCancel(past'[|s.past|], false)
                                   && !OffersReviewAndRebook(past'[|s.past|], false)
  {
  }

  datatype Toast = Toast(title: string, description: string, destructive: bool)

  /** `handleRebook`: a redirect notice when the booking carries an artisan id, a
      destructive error notice otherwise. */
  function Rebook(bookingId: string, artisanId: Option<string>): (t: Toast)
    ensures t.title == "Re-book Service"
    ensures t.destructive <==> !IsTruthy(artisanId)
    ensures !t.destructive ==> t.description == "Redirecting to artisan " + artisanId.value
                                              + "'s profile for re-booking... (Not implemented)"
  {
    if IsTruthy(artisanId) then
      Toast("Re-book Service",
            "Redirecting to artisan " + artisanId.value + "'s profile for re-booking... (Not implemented)",
            false)
    else
      Toast("Re-book Service",
            "Artisan ID not found for this booking. Cannot re-book directly. (Not implemented)",
            true)
  }

  /** `getStatusBadgeClass`. */
  function StatusBadgeClass(status: Status): string
  {
    match status
    case Confirmed => "bg-blue-100 text-blue-700"
    case Pending => "bg-yellow-100 text-yellow-700"
    case Completed => "bg-green-100 text-green-700"
    case Cancelled => "bg-red-100 text-red-700"
  }

  /** Each status gets its own badge class. */
  lemma BadgeClassesDistinct(s: Status, t: Status)
    requires s != t
    ensures StatusBadgeClass(s) != StatusBadgeClass(t)
  {
    assert |StatusBadgeClass(s)| != |StatusBadgeClass(t)|;
  }

  const SeedUpcoming: seq<Booking> := [
    Booking("book1", Some("art1"), "John Carpenter", "Furniture Repair", "15 May 2025", "10:00 AM",
            "Sandton, Johannesburg", Confirmed),
    Booking("book2", Some("art2"), "Mary Plumber", "Pipe Repair", "18 May 2025", "2:30 PM",
            "Rosebank, Johannesburg", Pending)
  ]

  const SeedPast: seq<Booking> := [
    Booking("book3", Some("art3"), "David Electrician", "Light Installation", "5 May 2025", "11:00 AM",
            "Braamfontein, Johannesburg", Completed)
  ]

  /** The page's stateful lists, with `handleCancelBooking` as the one transition. */
  class BookingsPage {
    var upcoming: seq<Booking>
    var past: seq<Booking>

    function State(): BookingLists
      reads this
    {
      BookingLists(upcoming, past)
    }

    /** The initial mock data. */
    constructor ()
      ensures upcoming == SeedUpcoming && past == SeedPast
    {
      upcoming := SeedUpcoming;
      past := SeedPast;
    }

    /** `handleCancelBooking(bookingId)`: the toast and console output are left out. */
    method CancelBooking(bookingId: string)
      modifies this
      ensures State() == Cancel(old(State()), bookingId)
    {
      var cancelled := Find(upcoming, HasBookingId(bookingId));
      upcoming := Filter(upcoming, OtherThan(bookingId));
      if cancelled.Some? {
        past := past + [cancelled.value.(status := Cancelled)];
      }
    }
  }
}
