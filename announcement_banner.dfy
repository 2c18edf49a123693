/**
 * The banner of unread announcements on the student pages: a carousel over
 * the unread list whose position wraps around at both ends, marking the shown
 * announcement as read, and dismissing the banner.
 */
module AnnouncementBanner {
  import opened Wrappers
  import Seqs

  datatype BannerAnnouncement = BannerAnnouncement(id: string, title: string, isRead: bool)

  function Id(a: BannerAnnouncement): string { a.id }

  predicate IsUnread(a: BannerAnnouncement) { !a.isRead }

  function WithoutId(id: string): BannerAnnouncement -> bool {
    (a: BannerAnnouncement) => a.id != id
  }

  function WithId(id: string): BannerAnnouncement -> bool {
    (a: BannerAnnouncement) => a.id == id
  }

  /** What the banner keeps of a fetched list: the unread announcements, in order. */
  function UnreadOnly(data: seq<BannerAnnouncement>): (r: seq<BannerAnnouncement>)
    ensures Seqs.IsSubsequence(r, data)
    ensures forall k :: 0 <= k < |r| ==> !r[k].isRead
    ensures forall k :: 0 <= k < |data| && !data[k].isRead ==> data[k] in r
  {
    Seqs.Filter(data, IsUnread)
  }

  /** `handleNext`: one further, back to the first after the last. */
  function NextIndex(i: int, n: int): int {
    if i < n - 1 then i + 1 else 0
  }

  /** `handlePrev`: one back, round to the last from the first. */
  function PrevIndex(i: int, n: int): int {
    if i > 0 then i - 1 else n - 1
  }

  /** On a non-empty list both moves stay in range and each undoes the other. */
  lemma CarouselMoves(i: int, n: int)
    requires 0 <= i < n
    ensures 0 <= NextIndex(i, n) < n && 0 <= PrevIndex(i, n) < n
    ensures PrevIndex(NextIndex(i, n), n) == i
    ensures NextIndex(PrevIndex(i, n), n) == i
  {
  }

  /** The position after marking as read: at or past the old last position it steps back, but not below 0. */
  function IndexAfterRemoval(i: int, oldLength: int): (j: int)
    ensures i >= oldLength - 1 ==> j == (if i - 1 > 0 then i - 1 else 0)
    ensures i < oldLength - 1 ==> j == i
  {
    if i >= oldLength - 1 then (if 0 > i - 1 then 0 else i - 1) else i
  }

  /** With unique ids at most one announcement carries a given id. */
  lemma {:induction false} AtMostOneWithId(s: seq<BannerAnnouncement>, id: string)
    requires Seqs.DistinctKeys(s, Id)
    ensures |Seqs.Filter(s, WithId(id))| <= 1
  {
    if s != [] {
      assert Seqs.DistinctKeys(s[1..], Id);
      AtMostOneWithId(s[1..], id);
      if s[0].id == id {
        forall k | 0 <= k < |s[1..]| ensures s[1..][k].id != id {
          assert s[1..][k] == s[k + 1];
        }
        assert Seqs.Filter(s[1..], WithId(id)) == [];
      }
    }
  }

  /** Removing one id shortens a list of unique ids by at most one. */
  lemma RemovalShortensByAtMostOne(s: seq<BannerAnnouncement>, id: string)
    requires Seqs.DistinctKeys(s, Id)
    ensures |Seqs.Filter(s, WithoutId(id))| >= |s| - 1
  {
    AtMostOneWithId(s, id);
    Seqs.FilterPartition(s, WithId(id), WithoutId(id));
  }

  /** The banner's state, and the read requests it has sent. */
  class Banner {
    var announcements: seq<BannerAnnouncement>
    var currentIndex: int
    var isLoading: bool
    var isDismissed: bool
    var readRequests: seq<string>

    /** The position points into the list whenever there is one, and ids are unique. */
    ghost predicate Valid()
      reads this
    {
      0 <= currentIndex && (announcements != [] ==> currentIndex < |announcements|)
      && Seqs.DistinctKeys(announcements, Id)
    }

    constructor ()
      ensures Valid()
      ensures announcements == [] && currentIndex == 0 && isLoading && !isDismissed && readRequests == []
    {
      announcements := [];
      currentIndex := 0;
      isLoading := true;
      isDismissed := false;
      readRequests := [];
    }

    /** The announcement on show, or nothing while loading, after dismissal or with an empty list. */
    function Shown(): (r: Option<BannerAnnouncement>)
      requires Valid()
      reads this
      ensures r.None? <==> isLoading || isDismissed || announcements == []
      ensures r.Some? ==> r.value == announcements[currentIndex]
    {
      if isLoading || isDismissed || announcements == [] then None else Some(announcements[currentIndex])
    }

    /**
     * `fetchAnnouncements`, run once when the banner mounts (position 0):
     * keeps the unread announcements, or nothing when the request failed.
     */
    method FetchAnnouncements(data: Option<seq<BannerAnnouncement>>)
      requires Valid() && currentIndex == 0
      requires data.Some? ==> Seqs.DistinctKeys(data.value, Id)
      modifies this
      ensures Valid() && !isLoading
      ensures announcements == (if data.Some? then UnreadOnly(data.value) else old(announcements))
      ensures currentIndex == 0 && isDismissed == old(isDismissed) && readRequests == old(readRequests)
    {
      isLoading := true;
      if data.Some? {
        Seqs.FilterDistinct(data.value, IsUnread, Id);
        announcements := UnreadOnly(data.value);
      }
      isLoading := false;
    }

    /**
     * `handleMarkAsRead`: after the server accepts the read, every entry with
     * that id leaves the list and the position is pulled back if it was at
     * the end, so it still points into a non-empty list.
     */
    method HandleMarkAsRead(id: string, postSucceeds: bool)
      requires Valid()
      modifies this
      ensures Valid()
      ensures readRequests == old(readRequests) + [id]
      ensures isLoading == old(isLoading) && isDismissed == old(isDismissed)
      ensures !postSucceeds ==> announcements == old(announcements) && currentIndex == old(currentIndex)
      ensures postSucceeds ==>
        && announcements == Seqs.Filter(old(announcements), WithoutId(id))
        && (forall k :: 0 <= k < |announcements| ==> announcements[k].id != id)
        && currentIndex == IndexAfterRemoval(old(currentIndex), |old(announcements)|)
    {
      readRequests := readRequests + [id];
      if postSucceeds {
        var oldLength := |announcements|;
        RemovalShortensByAtMostOne(announcements, id);
        Seqs.FilterDistinct(announcements, WithoutId(id), Id);
        announcements := Seqs.Filter(announcements, WithoutId(id));
        if currentIndex >= oldLength - 1 {
          currentIndex := if 0 > currentIndex - 1 then 0 else currentIndex - 1;
        }
      }
    }

    /** `handleDismiss`: the banner is hidden for good. */
    method HandleDismiss()
      requires Valid()
      modifies this
      ensures Valid() && isDismissed && Shown().None?
      ensures announcements == old(announcements) && currentIndex == old(currentIndex) && isLoading == old(isLoading)
      ensures readRequests == old(readRequests)
    {
      isDismissed := true;
    }

    /** `handlePrev`, offered only while the list is not empty. */
    method HandlePrev()
      requires Valid() && announcements != []
      modifies this
      ensures Valid() && currentIndex == PrevIndex(old(currentIndex), |announcements|)
      ensures announcements == old(announcements) && isLoading == old(isLoading) && isDismissed == old(isDismissed)
      ensures readRequests == old(readRequests)
    {
      currentIndex := if currentIndex > 0 then currentIndex - 1 else |announcements| - 1;
    }

    /** `handleNext`, offered only while the list is not empty. */
    method HandleNext()
      requires Valid() && announcements != []
      modifies this
      ensures Valid() && currentIndex == NextIndex(old(currentIndex), |announcements|)
      ensures announcements == old(announcements) && isLoading == old(isLoading) && isDismissed == old(isDismissed)
      ensures readRequests == old(readRequests)
    {
      currentIndex := if currentIndex < |announcements| - 1 then currentIndex + 1 else 0;
    }
  }
}
