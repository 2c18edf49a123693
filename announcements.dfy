/**
 * Announcements with per-student read tracking: the `announcements` and
 * `announcement_reads` tables, the notification log the fan-out appends to,
 * the teacher and student views, and the unread counter.
 */
module Announcements {
  import opened Wrappers
  import opened Backend
  import Sorting
  import Seqs

  datatype Announcement = Announcement(id: string, teacherId: string, title: string, content: string,
                                       isActive: bool, createdAt: int, updatedAt: int)

  datatype AnnouncementRead = AnnouncementRead(id: string, announcementId: string, studentId: string, readAt: int)

  /** One row appended to `notifications`. */
  datatype Notice = Notice(userId: string, kind: NotificationType, title: string, message: string)

  function AnnouncementId(a: Announcement): string { a.id }
  function CreatedAt(a: Announcement): int { a.createdAt }
  function ReadId(r: AnnouncementRead): string { r.id }
  function ReadPair(r: AnnouncementRead): (string, string) { (r.announcementId, r.studentId) }
  function ReadAnnouncement(r: AnnouncementRead): string { r.announcementId }
  function ReadAt(r: AnnouncementRead): int { r.readAt }

  // ---------------------------------------------------------------------------
  // Queries the handlers share
  // ---------------------------------------------------------------------------

  /** A read row exists for the pair. */
  predicate HasRead(readRows: seq<AnnouncementRead>, announcementId: string, studentId: string) {
    exists k :: 0 <= k < |readRows| && readRows[k].announcementId == announcementId && readRows[k].studentId == studentId
  }

  function OfTeacher(teacherId: string): Announcement -> bool {
    (a: Announcement) => a.teacherId == teacherId
  }

  function ActiveOfTeacher(teacherId: string): Announcement -> bool {
    (a: Announcement) => a.teacherId == teacherId && a.isActive
  }

  function OfAnnouncement(announcementId: string): AnnouncementRead -> bool {
    (r: AnnouncementRead) => r.announcementId == announcementId
  }

  function OfPair(announcementId: string, studentId: string): AnnouncementRead -> bool {
    (r: AnnouncementRead) => r.announcementId == announcementId && r.studentId == studentId
  }

  /** `announcement_reads` of one announcement, i.e. `_count.announcement_reads`. */
  function ReadsOf(readRows: seq<AnnouncementRead>, announcementId: string): seq<AnnouncementRead> {
    Seqs.Filter(readRows, OfAnnouncement(announcementId))
  }

  /** `announcements.findFirst({ where: { id, teacher_id } })`, as an index. */
  function FindOwned(anns: seq<Announcement>, id: string, teacherId: string): (r: Option<nat>)
    ensures r.Some? ==> r.value < |anns| && anns[r.value].id == id && anns[r.value].teacherId == teacherId
    ensures r.None? ==> forall k :: 0 <= k < |anns| ==> !(anns[k].id == id && anns[k].teacherId == teacherId)
  {
    if anns == [] then None
    else if anns[0].id == id && anns[0].teacherId == teacherId then Some(0)
    else match FindOwned(anns[1..], id, teacherId)
      case None => None
      case Some(k) => Some(k + 1)
  }

  /** `announcements.findFirst({ where: { id, teacher_id, is_active: true } })` */
  function FindActive(anns: seq<Announcement>, id: string, teacherId: string): (r: Option<Announcement>)
    ensures r.Some? ==> r.value in anns && r.value.id == id && r.value.teacherId == teacherId && r.value.isActive
    ensures r.None? ==> forall k :: 0 <= k < |anns| ==> !(anns[k].id == id && anns[k].teacherId == teacherId && anns[k].isActive)
  {
    if anns == [] then None
    else if anns[0].id == id && anns[0].teacherId == teacherId && anns[0].isActive then Some(anns[0])
    else FindActive(anns[1..], id, teacherId)
  }

  /** The first row of `rs` by the student (`Array.prototype.find`). */
  function FindReadBy(rs: seq<AnnouncementRead>, studentId: string): (r: Option<AnnouncementRead>)
    ensures r.Some? ==> r.value in rs && r.value.studentId == studentId
    ensures r.None? ==> forall k :: 0 <= k < |rs| ==> rs[k].studentId != studentId
    ensures r.Some? ==> exists k :: IsFirstReadBy(rs, studentId, k) && rs[k] == r.value
  {
    if rs == [] then None
    else if rs[0].studentId == studentId then
      assert IsFirstReadBy(rs, studentId, 0);
      Some(rs[0])
    else
      var rest := FindReadBy(rs[1..], studentId);
      assert rest.Some? ==> exists k :: IsFirstReadBy(rs, studentId, k) && rs[k] == rest.value by {
        if rest.Some? {
          var k :| IsFirstReadBy(rs[1..], studentId, k) && rs[1..][k] == rest.value;
          assert IsFirstReadBy(rs, studentId, k + 1) && rs[k + 1] == rest.value;
        }
      }
      rest
  }

  /** Row `k` is the first row of `rs` by the student. */
  predicate IsFirstReadBy(rs: seq<AnnouncementRead>, studentId: string, k: int) {
    0 <= k < |rs| && rs[k].studentId == studentId && forall j :: 0 <= j < k ==> rs[j].studentId != studentId
  }

  /** No read row of the pair is later than `t`. */
  predicate NoLaterRead(readRows: seq<AnnouncementRead>, announcementId: string, studentId: string, t: int) {
    forall j :: 0 <= j < |readRows| && readRows[j].announcementId == announcementId && readRows[j].studentId == studentId
                ==> readRows[j].readAt <= t
  }

  /** Sorting keeps exactly the elements it was given. */
  lemma SortedMembers<T>(s: seq<T>, key: T -> int)
    ensures forall i :: 0 <= i < |Sorting.SortDesc(s, key)| ==> Sorting.SortDesc(s, key)[i] in s
    ensures forall k :: 0 <= k < |s| ==> s[k] in Sorting.SortDesc(s, key)
  {
    var r := Sorting.SortDesc(s, key);
    forall i | 0 <= i < |r| ensures r[i] in s {
      assert r[i] in multiset(r);
    }
    forall k | 0 <= k < |s| ensures s[k] in r {
      assert s[k] in multiset(s);
    }
  }

  // ---------------------------------------------------------------------------
  // getAnnouncements
  // ---------------------------------------------------------------------------

  /** One entry of the teacher's list: the row with `read_count` and `total_students`. */
  datatype AnnouncementSummary = AnnouncementSummary(announcement: Announcement, readCount: nat, totalStudents: nat)

  /** The rows of `anns` that satisfy `p`, newest first. */
  function NewestFirst(anns: seq<Announcement>, p: Announcement -> bool): (r: seq<Announcement>)
    ensures forall k :: 0 <= k < |r| ==> r[k] in anns && p(r[k])
    ensures forall k :: 0 <= k < |anns| && p(anns[k]) ==> anns[k] in r
    ensures forall i, j :: 0 <= i < j < |r| ==> r[i].createdAt >= r[j].createdAt
    ensures multiset(r) == multiset(Seqs.Filter(anns, p))
  {
    var chosen := Seqs.Filter(anns, p);
    var r := Sorting.SortDesc(chosen, CreatedAt);
    SortedMembers(chosen, CreatedAt);
    assert forall i, j :: 0 <= i < j < |r| ==> CreatedAt(r[i]) >= CreatedAt(r[j]);
    r
  }

  /** `_count.announcement_reads`: the number of read rows of one announcement. */
  function ReadCount(readRows: seq<AnnouncementRead>, announcementId: string): nat {
    if readRows == [] then 0
    else (if readRows[0].announcementId == announcementId then 1 else 0) + ReadCount(readRows[1..], announcementId)
  }

  /** The read count is the number of the announcement's read rows. */
  lemma {:induction false} ReadCountIsReadsOf(readRows: seq<AnnouncementRead>, announcementId: string)
    ensures ReadCount(readRows, announcementId) == |ReadsOf(readRows, announcementId)|
  {
    if readRows != [] {
      ReadCountIsReadsOf(readRows[1..], announcementId);
    }
  }

  /** `announcements.map(...)` adding `read_count` and `total_students`. */
  function Summaries(own: seq<Announcement>, readRows: seq<AnnouncementRead>, total: nat)
    : (r: seq<AnnouncementSummary>)
    ensures |r| == |own|
    ensures forall i :: 0 <= i < |r| ==> r[i].announcement == own[i] && r[i].totalStudents == total
                                         && r[i].readCount == ReadCount(readRows, own[i].id)
  {
    seq(|own|, i requires 0 <= i < |own| => AnnouncementSummary(own[i], ReadCount(readRows, own[i].id), total))
  }

  function SummaryAnnouncement(x: AnnouncementSummary): Announcement { x.announcement }

  /** `GET /announcements`: the caller's announcements, newest first, with read statistics. */
  function GetAnnouncements(anns: seq<Announcement>, readRows: seq<AnnouncementRead>, profiles: seq<StudentProfile>,
                            caller: Option<User>): (r: Result<seq<AnnouncementSummary>>)
    ensures r.Err? <==> RequireRole(caller, Teacher).Err?
    ensures r.Err? ==> r.error == RequireRole(caller, Teacher).error
    ensures r.Ok? ==> forall k :: 0 <= k < |r.value| ==>
      && r.value[k].announcement in anns
      && r.value[k].announcement.teacherId == caller.value.userId
      && r.value[k].readCount == ReadCount(readRows, r.value[k].announcement.id)
      && r.value[k].totalStudents == |ActiveProfiles(profiles, caller.value.userId)|
    ensures r.Ok? ==> forall i, j :: 0 <= i < j < |r.value| ==>
      r.value[i].announcement.createdAt >= r.value[j].announcement.createdAt
    ensures r.Ok? ==> forall k :: 0 <= k < |anns| && anns[k].teacherId == caller.value.userId ==>
      exists i :: 0 <= i < |r.value| && r.value[i].announcement == anns[k]
    ensures r.Ok? ==>
      multiset(Seqs.Map(r.value, SummaryAnnouncement)) == multiset(Seqs.Filter(anns, OfTeacher(caller.value.userId)))
  {
    match RequireRole(caller, Teacher)
    case Err(e) => Err(e)
    case Ok(u) =>
      var total := |ActiveProfiles(profiles, u.userId)|;
      var own := NewestFirst(anns, OfTeacher(u.userId));
      var result := Summaries(own, readRows, total);
      assert Seqs.Map(result, SummaryAnnouncement) == own;
      assert forall k :: 0 <= k < |anns| && anns[k].teacherId == u.userId ==>
        exists i :: 0 <= i < |result| && result[i].announcement == anns[k]
      by {
        forall k | 0 <= k < |anns| && anns[k].teacherId == u.userId
          ensures exists i :: 0 <= i < |result| && result[i].announcement == anns[k]
        {
          assert OfTeacher(u.userId)(anns[k]);
          var i :| 0 <= i < |own| && own[i] == anns[k];
          assert result[i].announcement == anns[k];
        }
      }
      Ok(result)
  }

  // ---------------------------------------------------------------------------
  // getAnnouncement
  // ---------------------------------------------------------------------------

  /** One active student of the teacher and whether (and when) they read the announcement. */
  datatype StudentReadStatus = StudentReadStatus(studentId: string, hasRead: bool, readAt: Option<int>)

  datatype AnnouncementDetail = AnnouncementDetail(announcement: Announcement, readRows: seq<AnnouncementRead>,
                                                   students: seq<StudentReadStatus>, readCount: nat,
                                                   totalStudents: nat)

  /** `announcement_reads` of one announcement ordered by `read_at` desc. */
  function ReadsNewestFirst(readRows: seq<AnnouncementRead>, announcementId: string): (r: seq<AnnouncementRead>)
    ensures forall i :: 0 <= i < |r| ==> r[i] in readRows && r[i].announcementId == announcementId
    ensures forall j :: 0 <= j < |readRows| && readRows[j].announcementId == announcementId ==> readRows[j] in r
    ensures Sorting.SortedDesc(r, ReadAt)
    ensures multiset(r) == multiset(ReadsOf(readRows, announcementId))
    ensures |r| == ReadCount(readRows, announcementId)
  {
    var mine := ReadsOf(readRows, announcementId);
    SortedMembers(mine, ReadAt);
    ReadCountIsReadsOf(readRows, announcementId);
    Sorting.SortDesc(mine, ReadAt)
  }

  /** The entry of `students` for one profile: `has_read` and the `read_at` of the first matching row. */
  function StatusOf(sortedReads: seq<AnnouncementRead>, p: StudentProfile): (r: StudentReadStatus)
    ensures r.studentId == p.userId
    ensures r.hasRead <==> exists j :: 0 <= j < |sortedReads| && sortedReads[j].studentId == p.userId
    ensures r.readAt.Some? <==> r.hasRead
    ensures r.readAt.Some? ==> exists j :: 0 <= j < |sortedReads| && sortedReads[j].studentId == p.userId
                                           && sortedReads[j].readAt == r.readAt.value
    ensures Sorting.SortedDesc(sortedReads, ReadAt) && r.readAt.Some? ==>
      forall j :: 0 <= j < |sortedReads| && sortedReads[j].studentId == p.userId ==> sortedReads[j].readAt <= r.readAt.value
  {
    var found := FindReadBy(sortedReads, p.userId);
    assert found.Some? && Sorting.SortedDesc(sortedReads, ReadAt) ==>
      forall j :: 0 <= j < |sortedReads| && sortedReads[j].studentId == p.userId ==> sortedReads[j].readAt <= found.value.readAt
    by {
      if found.Some? && Sorting.SortedDesc(sortedReads, ReadAt) {
        var k :| IsFirstReadBy(sortedReads, p.userId, k) && sortedReads[k] == found.value;
        assert forall j :: 0 <= j < |sortedReads| && sortedReads[j].studentId == p.userId ==>
          ReadAt(sortedReads[j]) <= ReadAt(sortedReads[k]);
      }
    }
    StudentReadStatus(p.userId, found.Some?, if found.Some? then Some(found.value.readAt) else None)
  }

  /** A student's entry reports a read exactly when the table holds a read row for the pair. */
  lemma StatusMatchesTable(readRows: seq<AnnouncementRead>, announcementId: string, p: StudentProfile)
    ensures StatusOf(ReadsNewestFirst(readRows, announcementId), p).hasRead <==> HasRead(readRows, announcementId, p.userId)
    ensures StatusOf(ReadsNewestFirst(readRows, announcementId), p).readAt.Some? ==>
      exists j :: 0 <= j < |readRows| && readRows[j].announcementId == announcementId && readRows[j].studentId == p.userId
                  && readRows[j].readAt == StatusOf(ReadsNewestFirst(readRows, announcementId), p).readAt.value
    ensures StatusOf(ReadsNewestFirst(readRows, announcementId), p).readAt.Some? ==>
      NoLaterRead(readRows, announcementId, p.userId, StatusOf(ReadsNewestFirst(readRows, announcementId), p).readAt.value)
  {
    var sorted := ReadsNewestFirst(readRows, announcementId);
    StatusFromRows(readRows, announcementId, sorted, p);
  }

  lemma StatusFromRows(readRows: seq<AnnouncementRead>, announcementId: string, sorted: seq<AnnouncementRead>,
                       p: StudentProfile)
    requires forall i :: 0 <= i < |sorted| ==> sorted[i] in readRows && sorted[i].announcementId == announcementId
    requires forall j :: 0 <= j < |readRows| && readRows[j].announcementId == announcementId ==> readRows[j] in sorted
    requires Sorting.SortedDesc(sorted, ReadAt)
    ensures StatusOf(sorted, p).hasRead <==> HasRead(readRows, announcementId, p.userId)
    ensures StatusOf(sorted, p).readAt.Some? ==>
      exists j :: 0 <= j < |readRows| && readRows[j].announcementId == announcementId && readRows[j].studentId == p.userId
                  && readRows[j].readAt == StatusOf(sorted, p).readAt.value
    ensures StatusOf(sorted, p).readAt.Some? ==> NoLaterRead(readRows, announcementId, p.userId, StatusOf(sorted, p).readAt.value)
  {
    var st := StatusOf(sorted, p);
    if st.readAt.Some? {
      var i :| 0 <= i < |sorted| && sorted[i].studentId == p.userId && sorted[i].readAt == st.readAt.value;
      var j :| 0 <= j < |readRows| && readRows[j] == sorted[i];
      forall j | 0 <= j < |readRows| && readRows[j].announcementId == announcementId && readRows[j].studentId == p.userId
        ensures readRows[j].readAt <= st.readAt.value
      {
        var i :| 0 <= i < |sorted| && sorted[i] == readRows[j];
      }
    }
    if HasRead(readRows, announcementId, p.userId) {
      var j :| 0 <= j < |readRows| && readRows[j].announcementId == announcementId && readRows[j].studentId == p.userId;
      var i :| 0 <= i < |sorted| && sorted[i] == readRows[j];
    }
  }

  function Statuses(sortedReads: seq<AnnouncementRead>, active: seq<StudentProfile>): (r: seq<StudentReadStatus>)
    ensures |r| == |active|
    ensures forall k :: 0 <= k < |r| ==> r[k] == StatusOf(sortedReads, active[k])
  {
    seq(|active|, k requires 0 <= k < |active| => StatusOf(sortedReads, active[k]))
  }

  /** `GET /announcements/:id`: 404 unless the caller owns it; one entry per active student. */
  function GetAnnouncement(anns: seq<Announcement>, readRows: seq<AnnouncementRead>, profiles: seq<StudentProfile>,
                           caller: Option<User>, id: string): (r: Result<AnnouncementDetail>)
    ensures RequireRole(caller, Teacher).Err? ==> r == Err(RequireRole(caller, Teacher).error)
    ensures RequireRole(caller, Teacher).Ok? ==> (r.Err? <==> FindOwned(anns, id, caller.value.userId).None?)
    ensures r.Err? ==> r.error in {Unauthorized, Forbidden, NotFound}
    ensures r.Ok? ==> r.value.announcement in anns && r.value.announcement.id == id
                      && r.value.announcement.teacherId == caller.value.userId
    ensures r.Ok? ==> r.value.readCount == ReadCount(readRows, id) == |r.value.readRows|
    ensures r.Ok? ==> multiset(r.value.readRows) == multiset(ReadsOf(readRows, id))
                      && Sorting.SortedDesc(r.value.readRows, ReadAt)
    ensures r.Ok? ==>
      var active := ActiveProfiles(profiles, caller.value.userId);
      && r.value.totalStudents == |active| == |r.value.students|
      && forall k :: 0 <= k < |active| ==>
           && r.value.students[k].studentId == active[k].userId
           && (r.value.students[k].hasRead <==> HasRead(readRows, id, active[k].userId))
           && (r.value.students[k].readAt.Some? <==> r.value.students[k].hasRead)
    ensures r.Ok? ==> forall k :: 0 <= k < |r.value.students| && r.value.students[k].readAt.Some? ==>
      exists j :: (0 <= j < |readRows| && readRows[j].announcementId == id
                   && readRows[j].studentId == r.value.students[k].studentId
                   && readRows[j].readAt == r.value.students[k].readAt.value)
    ensures r.Ok? ==> forall k :: 0 <= k < |r.value.students| && r.value.students[k].readAt.Some? ==>
      NoLaterRead(readRows, id, r.value.students[k].studentId, r.value.students[k].readAt.value)
  {
    match RequireRole(caller, Teacher)
    case Err(e) => Err(e)
    case Ok(u) =>
      match FindOwned(anns, id, u.userId)
      case None => Err(NotFound)
      case Some(i) =>
        var sorted := ReadsNewestFirst(readRows, id);
        var active := ActiveProfiles(profiles, u.userId);
        var students := Statuses(sorted, active);
        forall k | 0 <= k < |active| ensures StatusOf(sorted, active[k]) == students[k] {
          StatusMatchesTable(readRows, id, active[k]);
        }
        Ok(AnnouncementDetail(anns[i], sorted, students, |sorted|, |active|))
  }

  // ---------------------------------------------------------------------------
  // createAnnouncement
  // ---------------------------------------------------------------------------

  /** The notification each active student receives, on the feedback channel. */
  function AnnouncementNotice(userId: string, title: string): Notice {
    Notice(userId, FeedbackReceived, "새 공지사항",
           "선생님이 새 공지사항을 등록했습니다: " + title)
  }

  /** The fan-out: one notice per student, in the order the students were listed. */
  function Fanout(students: seq<StudentProfile>, title: string): (r: seq<Notice>)
    ensures |r| == |students|
    ensures forall k :: 0 <= k < |r| ==> r[k].userId == students[k].userId && r[k].kind == FeedbackReceived
                                         && r[k].kind.Name() == "feedback_received"
    ensures forall k :: 0 <= k < |r| ==> r[k].title == "새 공지사항"
                                         && r[k].message == "선생님이 새 공지사항을 등록했습니다: " + title
  {
    seq(|students|, k requires 0 <= k < |students| => AnnouncementNotice(students[k].userId, title))
  }

  /** The gates of `createAnnouncement` and the row it inserts (`is_active` defaults to true). */
  function CreateOutcome(caller: Option<User>, title: Field, content: Field, id: string, now: int)
    : (r: Result<Announcement>)
    ensures RequireRole(caller, Teacher).Err? ==> r == Err(RequireRole(caller, Teacher).error)
    ensures RequireRole(caller, Teacher).Ok? ==> (r.Ok? <==> title.Truthy() && content.Truthy())
    ensures r.Err? ==> r.error in {Unauthorized, Forbidden, BadRequest}
    ensures r.Ok? ==> && r.value.id == id && r.value.teacherId == caller.value.userId
                      && r.value.title == title.text && r.value.content == content.text
                      && r.value.isActive && r.value.createdAt == now && r.value.updatedAt == now
  {
    match RequireRole(caller, Teacher)
    case Err(e) => Err(e)
    case Ok(u) =>
      if !title.Truthy() || !content.Truthy() then Err(BadRequest)
      else Ok(Announcement(id, u.userId, title.text, content.text, true, now, now))
  }

  // ---------------------------------------------------------------------------
  // updateAnnouncement / deleteAnnouncement
  // ---------------------------------------------------------------------------

  /** The gates of `updateAnnouncement` and the row after the update. */
  function UpdateOutcome(anns: seq<Announcement>, caller: Option<User>, id: string, title: Field, content: Field,
                         isActive: Option<bool>, now: int): (r: Result<Announcement>)
    ensures RequireRole(caller, Teacher).Err? ==> r == Err(RequireRole(caller, Teacher).error)
    ensures RequireRole(caller, Teacher).Ok? ==> (r.Err? <==> FindOwned(anns, id, caller.value.userId).None?)
    ensures r.Err? ==> r.error in {Unauthorized, Forbidden, NotFound}
    ensures r.Ok? ==>
      var prev := anns[FindOwned(anns, id, caller.value.userId).value];
      && r.value.id == prev.id && r.value.teacherId == prev.teacherId && r.value.createdAt == prev.createdAt
      && r.value.title == (if title.Truthy() then title.text else prev.title)
      && r.value.content == (if content.Truthy() then content.text else prev.content)
      && r.value.isActive == isActive.GetOr(prev.isActive)
      && r.value.updatedAt == now
  {
    match RequireRole(caller, Teacher)
    case Err(e) => Err(e)
    case Ok(u) =>
      match FindOwned(anns, id, u.userId)
      case None => Err(NotFound)
      case Some(i) =>
        var prev := anns[i];
        Ok(prev.(title := if title.Truthy() then title.text else prev.title,
                 content := if content.Truthy() then content.text else prev.content,
                 isActive := isActive.GetOr(prev.isActive),
                 updatedAt := now))
  }

  /** The gates of `deleteAnnouncement`: the index of the row to remove. */
  function DeleteTarget(anns: seq<Announcement>, caller: Option<User>, id: string): (r: Result<nat>)
    ensures RequireRole(caller, Teacher).Err? ==> r == Err(RequireRole(caller, Teacher).error)
    ensures RequireRole(caller, Teacher).Ok? ==> (r.Err? <==> FindOwned(anns, id, caller.value.userId).None?)
    ensures r.Err? ==> r.error in {Unauthorized, Forbidden, NotFound}
    ensures r.Ok? ==> r.value < |anns| && anns[r.value].id == id && anns[r.value].teacherId == caller.value.userId
  {
    match RequireRole(caller, Teacher)
    case Err(e) => Err(e)
    case Ok(u) =>
      match FindOwned(anns, id, u.userId)
      case None => Err(NotFound)
      case Some(i) => Ok(i)
  }

  // ---------------------------------------------------------------------------
  // Student side: getStudentAnnouncements, getUnreadCount, markAsRead
  // ---------------------------------------------------------------------------

  /** The active profile of a student caller; 404 when there is none. */
  function StudentTeacher(profiles: seq<StudentProfile>, caller: Option<User>): (r: Result<string>)
    ensures RequireRole(caller, Student).Err? ==> r == Err(RequireRole(caller, Student).error)
    ensures RequireRole(caller, Student).Ok? ==>
      (r.Err? <==> ActiveProfileOf(profiles, caller.value.userId).None?)
    ensures r.Err? ==> r.error in {Unauthorized, Forbidden, NotFound}
    ensures r.Ok? ==> r.value == ActiveProfileOf(profiles, caller.value.userId).value.teacherId
  {
    match RequireRole(caller, Student)
    case Err(e) => Err(e)
    case Ok(u) =>
      match ActiveProfileOf(profiles, u.userId)
      case None => Err(NotFound)
      case Some(p) => Ok(p.teacherId)
  }

  /** One entry of the student's list. */
  datatype StudentAnnouncement = StudentAnnouncement(announcement: Announcement, isRead: bool, readAt: Option<int>)

  /** Row `k` is the first read row of the pair in table order. */
  predicate IsFirstReadIndex(readRows: seq<AnnouncementRead>, announcementId: string, studentId: string, k: int) {
    && 0 <= k < |readRows|
    && readRows[k].announcementId == announcementId && readRows[k].studentId == studentId
    && forall j :: 0 <= j < k ==> !(readRows[j].announcementId == announcementId && readRows[j].studentId == studentId)
  }

  /** The first read row of the pair in table order (`announcement_reads[0]` under the student filter). */
  function FirstReadOf(readRows: seq<AnnouncementRead>, announcementId: string, studentId: string)
    : (r: Option<AnnouncementRead>)
    ensures r.Some? <==> HasRead(readRows, announcementId, studentId)
    ensures r.Some? ==> r.value in readRows && r.value.announcementId == announcementId && r.value.studentId == studentId
    ensures r.Some? ==> exists k :: IsFirstReadIndex(readRows, announcementId, studentId, k) && readRows[k] == r.value
  {
    if readRows == [] then None
    else if readRows[0].announcementId == announcementId && readRows[0].studentId == studentId then Some(readRows[0])
    else
      var rest := FirstReadOf(readRows[1..], announcementId, studentId);
      assert HasRead(readRows, announcementId, studentId) ==> HasRead(readRows[1..], announcementId, studentId) by {
        if HasRead(readRows, announcementId, studentId) {
          var j :| 0 <= j < |readRows| && readRows[j].announcementId == announcementId && readRows[j].studentId == studentId;
          assert readRows[1..][j - 1] == readRows[j];
        }
      }
      assert HasRead(readRows[1..], announcementId, studentId) ==> HasRead(readRows, announcementId, studentId) by {
        if HasRead(readRows[1..], announcementId, studentId) {
          var j :| 0 <= j < |readRows[1..]| && readRows[1..][j].announcementId == announcementId && readRows[1..][j].studentId == studentId;
          assert readRows[j + 1] == readRows[1..][j];
        }
      }
      assert rest.Some? ==>
        exists k :: IsFirstReadIndex(readRows, announcementId, studentId, k) && readRows[k] == rest.value by {
        if rest.Some? {
          var k :| IsFirstReadIndex(readRows[1..], announcementId, studentId, k) && readRows[1..][k] == rest.value;
          assert IsFirstReadIndex(readRows, announcementId, studentId, k + 1) && readRows[k + 1] == rest.value;
        }
      }
      rest
  }

  /** The entry for one announcement: `is_read` when the student has a read row, `read_at` of the first. */
  function StudentEntry(readRows: seq<AnnouncementRead>, studentId: string, a: Announcement): (r: StudentAnnouncement)
    ensures r.announcement == a
    ensures r.isRead <==> HasRead(readRows, a.id, studentId)
    ensures r.readAt.Some? <==> r.isRead
    ensures r.readAt.Some? ==>
      exists k :: IsFirstReadIndex(readRows, a.id, studentId, k) && readRows[k].readAt == r.readAt.value
  {
    var first := FirstReadOf(readRows, a.id, studentId);
    StudentAnnouncement(a, first.Some?, if first.Some? then Some(first.value.readAt) else None)
  }

  function StudentEntries(readRows: seq<AnnouncementRead>, studentId: string, own: seq<Announcement>)
    : (r: seq<StudentAnnouncement>)
    ensures |r| == |own|
    ensures forall i :: 0 <= i < |r| ==> r[i] == StudentEntry(readRows, studentId, own[i])
  {
    seq(|own|, i requires 0 <= i < |own| => StudentEntry(readRows, studentId, own[i]))
  }

  function EntryAnnouncement(x: StudentAnnouncement): Announcement { x.announcement }

  /** `GET /student/announcements`: the active announcements of the student's teacher, newest first. */
  function GetStudentAnnouncements(anns: seq<Announcement>, readRows: seq<AnnouncementRead>,
                                   profiles: seq<StudentProfile>, caller: Option<User>)
    : (r: Result<seq<StudentAnnouncement>>)
    ensures r.Err? <==> StudentTeacher(profiles, caller).Err?
    ensures r.Err? ==> r.error == StudentTeacher(profiles, caller).error
    ensures r.Ok? ==>
      var teacherId := StudentTeacher(profiles, caller).value;
      forall k :: 0 <= k < |r.value| ==>
        && r.value[k].announcement in anns
        && r.value[k].announcement.teacherId == teacherId && r.value[k].announcement.isActive
        && (r.value[k].isRead <==> HasRead(readRows, r.value[k].announcement.id, caller.value.userId))
        && (r.value[k].readAt.Some? <==> r.value[k].isRead)
        && (r.value[k].readAt.Some? ==>
              exists j :: IsFirstReadIndex(readRows, r.value[k].announcement.id, caller.value.userId, j)
                          && readRows[j].readAt == r.value[k].readAt.value)
    ensures r.Ok? ==> forall k :: 0 <= k < |anns| && ActiveOfTeacher(StudentTeacher(profiles, caller).value)(anns[k])
                        ==> exists i :: 0 <= i < |r.value| && r.value[i].announcement == anns[k]
    ensures r.Ok? ==> forall i, j :: 0 <= i < j < |r.value| ==>
      r.value[i].announcement.createdAt >= r.value[j].announcement.createdAt
    ensures r.Ok? ==>
      multiset(Seqs.Map(r.value, EntryAnnouncement))
        == multiset(Seqs.Filter(anns, ActiveOfTeacher(StudentTeacher(profiles, caller).value)))
  {
    match StudentTeacher(profiles, caller)
    case Err(e) => Err(e)
    case Ok(teacherId) =>
      var own := NewestFirst(anns, ActiveOfTeacher(teacherId));
      var result := StudentEntries(readRows, caller.value.userId, own);
      assert Seqs.Map(result, EntryAnnouncement) == own;
      Ok(result)
  }

  /** The announcement id is that of an active announcement of the teacher. */
  predicate IsActiveAnnouncementOf(anns: seq<Announcement>, announcementId: string, teacherId: string) {
    exists k :: 0 <= k < |anns| && anns[k].id == announcementId && anns[k].teacherId == teacherId && anns[k].isActive
  }

  function CountedBy(anns: seq<Announcement>, studentId: string, teacherId: string): AnnouncementRead -> bool {
    (r: AnnouncementRead) => r.studentId == studentId && IsActiveAnnouncementOf(anns, r.announcementId, teacherId)
  }

  /** The student's read rows whose announcement is an active one of the teacher. */
  function CountedReads(anns: seq<Announcement>, readRows: seq<AnnouncementRead>, studentId: string, teacherId: string)
    : seq<AnnouncementRead>
  {
    Seqs.Filter(readRows, CountedBy(anns, studentId, teacherId))
  }

  function ActiveAnnouncements(anns: seq<Announcement>, teacherId: string): seq<Announcement> {
    Seqs.Filter(anns, ActiveOfTeacher(teacherId))
  }

  /** `GET /student/announcements/unread-count`. */
  function UnreadCount(anns: seq<Announcement>, readRows: seq<AnnouncementRead>, profiles: seq<StudentProfile>,
                       caller: Option<User>): (r: Result<int>)
    ensures RequireRole(caller, Student).Err? ==> r == Err(RequireRole(caller, Student).error)
    ensures RequireRole(caller, Student).Ok? && ActiveProfileOf(profiles, caller.value.userId).None? ==> r == Ok(0)
    ensures RequireRole(caller, Student).Ok? && ActiveProfileOf(profiles, caller.value.userId).Some? ==>
      var teacherId := ActiveProfileOf(profiles, caller.value.userId).value.teacherId;
      r == Ok(|ActiveAnnouncements(anns, teacherId)| - |CountedReads(anns, readRows, caller.value.userId, teacherId)|)
  {
    match RequireRole(caller, Student)
    case Err(e) => Err(e)
    case Ok(u) =>
      match ActiveProfileOf(profiles, u.userId)
      case None => Ok(0)
      case Some(p) => Ok(|ActiveAnnouncements(anns, p.teacherId)| - |CountedReads(anns, readRows, u.userId, p.teacherId)|)
  }

  function ReadBy(readRows: seq<AnnouncementRead>, studentId: string): Announcement -> bool {
    (a: Announcement) => HasRead(readRows, a.id, studentId)
  }

  function UnreadBy(readRows: seq<AnnouncementRead>, studentId: string): Announcement -> bool {
    (a: Announcement) => !HasRead(readRows, a.id, studentId)
  }

  /** The counted read rows point at distinct announcements. */
  lemma CountedReadsDistinct(anns: seq<Announcement>, readRows: seq<AnnouncementRead>, studentId: string,
                             teacherId: string)
    requires Seqs.DistinctKeys(readRows, ReadPair)
    ensures Seqs.DistinctKeys(CountedReads(anns, readRows, studentId, teacherId), ReadAnnouncement)
  {
    var counted := CountedReads(anns, readRows, studentId, teacherId);
    Seqs.FilterDistinct(readRows, CountedBy(anns, studentId, teacherId), ReadPair);
    forall i, j | 0 <= i < j < |counted| ensures ReadAnnouncement(counted[i]) != ReadAnnouncement(counted[j]) {
      assert counted[i].studentId == studentId == counted[j].studentId;
      assert ReadPair(counted[i]) != ReadPair(counted[j]);
    }
  }

  /** A member of a filtered list carries its key into the list's key set. */
  lemma KeyInKeySet<T, K>(s: seq<T>, x: T, key: T -> K)
    requires x in s
    ensures key(x) in Seqs.KeySet(s, key)
  {
    var i :| 0 <= i < |s| && s[i] == x;
    assert key(s[i]) in Seqs.KeySet(s, key);
  }

  /** The announcement of one counted read row is an active announcement the student has read. */
  lemma CountedRowIsReadActive(anns: seq<Announcement>, readRows: seq<AnnouncementRead>, studentId: string,
                               teacherId: string, row: AnnouncementRead)
    requires row in CountedReads(anns, readRows, studentId, teacherId)
    ensures row.announcementId
            in Seqs.KeySet(Seqs.Filter(ActiveAnnouncements(anns, teacherId), ReadBy(readRows, studentId)), AnnouncementId)
  {
    var y := row.announcementId;
    assert row in readRows && CountedBy(anns, studentId, teacherId)(row);
    var j :| 0 <= j < |anns| && anns[j].id == y && anns[j].teacherId == teacherId && anns[j].isActive;
    var active := ActiveAnnouncements(anns, teacherId);
    assert anns[j] in active;
    var rj :| 0 <= rj < |readRows| && readRows[rj] == row;
    assert HasRead(readRows, anns[j].id, studentId);
    KeyInKeySet(Seqs.Filter(active, ReadBy(readRows, studentId)), anns[j], AnnouncementId);
  }

  /** Every counted read row names an active announcement the student has read. */
  lemma CountedIdsAreReadActive(anns: seq<Announcement>, readRows: seq<AnnouncementRead>, studentId: string,
                                teacherId: string)
    ensures Seqs.KeySet(CountedReads(anns, readRows, studentId, teacherId), ReadAnnouncement)
            <= Seqs.KeySet(Seqs.Filter(ActiveAnnouncements(anns, teacherId), ReadBy(readRows, studentId)), AnnouncementId)
  {
    var counted := CountedReads(anns, readRows, studentId, teacherId);
    forall y | y in Seqs.KeySet(counted, ReadAnnouncement)
      ensures y in Seqs.KeySet(Seqs.Filter(ActiveAnnouncements(anns, teacherId), ReadBy(readRows, studentId)), AnnouncementId)
    {
      var k :| 0 <= k < |counted| && counted[k].announcementId == y;
      CountedRowIsReadActive(anns, readRows, studentId, teacherId, counted[k]);
    }
  }

  /** An active announcement the student has read is named by some counted read row. */
  lemma ReadActiveIsCounted(anns: seq<Announcement>, readRows: seq<AnnouncementRead>, studentId: string,
                            teacherId: string, a: Announcement)
    requires a in Seqs.Filter(ActiveAnnouncements(anns, teacherId), ReadBy(readRows, studentId))
    ensures a.id in Seqs.KeySet(CountedReads(anns, readRows, studentId, teacherId), ReadAnnouncement)
  {
    var active := ActiveAnnouncements(anns, teacherId);
    assert a in active && HasRead(readRows, a.id, studentId);
    assert a in anns && a.teacherId == teacherId && a.isActive;
    var j :| 0 <= j < |anns| && anns[j] == a;
    assert IsActiveAnnouncementOf(anns, a.id, teacherId);
    var rj :| 0 <= rj < |readRows| && readRows[rj].announcementId == a.id && readRows[rj].studentId == studentId;
    assert CountedBy(anns, studentId, teacherId)(readRows[rj]);
    KeyInKeySet(CountedReads(anns, readRows, studentId, teacherId), readRows[rj], ReadAnnouncement);
  }

  /** Every active announcement the student has read is named by a counted read row. */
  lemma ReadActiveIdsAreCounted(anns: seq<Announcement>, readRows: seq<AnnouncementRead>, studentId: string,
                                teacherId: string)
    ensures Seqs.KeySet(Seqs.Filter(ActiveAnnouncements(anns, teacherId), ReadBy(readRows, studentId)), AnnouncementId)
            <= Seqs.KeySet(CountedReads(anns, readRows, studentId, teacherId), ReadAnnouncement)
  {
    var readActive := Seqs.Filter(ActiveAnnouncements(anns, teacherId), ReadBy(readRows, studentId));
    forall y | y in Seqs.KeySet(readActive, AnnouncementId)
      ensures y in Seqs.KeySet(CountedReads(anns, readRows, studentId, teacherId), ReadAnnouncement)
    {
      var k :| 0 <= k < |readActive| && readActive[k].id == y;
      ReadActiveIsCounted(anns, readRows, studentId, teacherId, readActive[k]);
    }
  }

  /**
   * With unique announcement ids and at most one read row per pair, the
   * subtraction counts exactly the active announcements the student has not
   * read, so it is never negative.
   */
  lemma UnreadCountIsUnreadAnnouncements(anns: seq<Announcement>, readRows: seq<AnnouncementRead>, studentId: string,
                                         teacherId: string)
    requires Seqs.DistinctKeys(anns, AnnouncementId)
    requires Seqs.DistinctKeys(readRows, ReadPair)
    ensures |ActiveAnnouncements(anns, teacherId)| - |CountedReads(anns, readRows, studentId, teacherId)|
            == |Seqs.Filter(ActiveAnnouncements(anns, teacherId), UnreadBy(readRows, studentId))|
    ensures |CountedReads(anns, readRows, studentId, teacherId)| <= |ActiveAnnouncements(anns, teacherId)|
  {
    var active := ActiveAnnouncements(anns, teacherId);
    var counted := CountedReads(anns, readRows, studentId, teacherId);
    var readActive := Seqs.Filter(active, ReadBy(readRows, studentId));
    Seqs.FilterPartition(active, ReadBy(readRows, studentId), UnreadBy(readRows, studentId));
    CountedIsReadActive(anns, readRows, studentId, teacherId);
  }

  /** As many rows are counted as there are read active announcements. */
  lemma CountedIsReadActive(anns: seq<Announcement>, readRows: seq<AnnouncementRead>, studentId: string,
                            teacherId: string)
    requires Seqs.DistinctKeys(anns, AnnouncementId)
    requires Seqs.DistinctKeys(readRows, ReadPair)
    ensures |CountedReads(anns, readRows, studentId, teacherId)|
            == |Seqs.Filter(ActiveAnnouncements(anns, teacherId), ReadBy(readRows, studentId))|
  {
    var active := ActiveAnnouncements(anns, teacherId);
    var counted := CountedReads(anns, readRows, studentId, teacherId);
    var readActive := Seqs.Filter(active, ReadBy(readRows, studentId));
    CountedReadsDistinct(anns, readRows, studentId, teacherId);
    Seqs.DistinctKeysCard(counted, ReadAnnouncement);
    ReadActiveDistinct(anns, readRows, studentId, teacherId);
    Seqs.DistinctKeysCard(readActive, AnnouncementId);
    CountedIdsAreReadActive(anns, readRows, studentId, teacherId);
    ReadActiveIdsAreCounted(anns, readRows, studentId, teacherId);
    assert Seqs.KeySet(counted, ReadAnnouncement) == Seqs.KeySet(readActive, AnnouncementId);
  }

  lemma ReadActiveDistinct(anns: seq<Announcement>, readRows: seq<AnnouncementRead>, studentId: string,
                           teacherId: string)
    requires Seqs.DistinctKeys(anns, AnnouncementId)
    ensures Seqs.DistinctKeys(Seqs.Filter(ActiveAnnouncements(anns, teacherId), ReadBy(readRows, studentId)), AnnouncementId)
  {
    Seqs.FilterDistinct(anns, ActiveOfTeacher(teacherId), AnnouncementId);
    Seqs.FilterDistinct(ActiveAnnouncements(anns, teacherId), ReadBy(readRows, studentId), AnnouncementId);
  }

  /** The gates of `markAsRead`: the announcement the read row will point at. */
  function MarkAsReadTarget(anns: seq<Announcement>, profiles: seq<StudentProfile>, caller: Option<User>, id: string)
    : (r: Result<Announcement>)
    ensures StudentTeacher(profiles, caller).Err? ==> r == Err(StudentTeacher(profiles, caller).error)
    ensures StudentTeacher(profiles, caller).Ok? ==>
      (r.Err? <==> FindActive(anns, id, StudentTeacher(profiles, caller).value).None?)
    ensures r.Err? ==> r.error in {Unauthorized, Forbidden, NotFound}
    ensures r.Ok? ==> r.value in anns && r.value.id == id && r.value.isActive
                      && r.value.teacherId == StudentTeacher(profiles, caller).value
  {
    match StudentTeacher(profiles, caller)
    case Err(e) => Err(e)
    case Ok(teacherId) =>
      match FindActive(anns, id, teacherId)
      case None => Err(NotFound)
      case Some(a) => Ok(a)
  }

  /** With at most one row per pair, a pair that has been read has exactly one row. */
  lemma ExactlyOneReadRow(readRows: seq<AnnouncementRead>, announcementId: string, studentId: string)
    requires Seqs.DistinctKeys(readRows, ReadPair)
    requires HasRead(readRows, announcementId, studentId)
    ensures |Seqs.Filter(readRows, OfPair(announcementId, studentId))| == 1
  {
    var rows := Seqs.Filter(readRows, OfPair(announcementId, studentId));
    Seqs.FilterDistinct(readRows, OfPair(announcementId, studentId), ReadPair);
    Seqs.DistinctKeysCard(rows, ReadPair);
    var j :| 0 <= j < |readRows| && readRows[j].announcementId == announcementId && readRows[j].studentId == studentId;
    assert readRows[j] in rows;
    assert Seqs.KeySet(rows, ReadPair) == {(announcementId, studentId)};
  }

  function RemoveAt(anns: seq<Announcement>, i: nat): (r: seq<Announcement>)
    requires i < |anns|
    ensures |r| == |anns| - 1
    ensures forall k :: 0 <= k < |r| ==> r[k] == (if k < i then anns[k] else anns[k + 1])
  {
    anns[..i] + anns[i + 1..]
  }

  /** The two tables and the notification log. */
  class AnnouncementBoard {
    var announcements: seq<Announcement>
    var readRows: seq<AnnouncementRead>
    var notifications: seq<Notice>

    /** Unique announcement ids, unique read ids, at most one read row per (announcement, student). */
    ghost predicate Valid()
      reads this
    {
      && Seqs.DistinctKeys(announcements, AnnouncementId)
      && Seqs.DistinctKeys(readRows, ReadId)
      && Seqs.DistinctKeys(readRows, ReadPair)
    }

    constructor ()
      ensures Valid()
      ensures announcements == [] && readRows == [] && notifications == []
    {
      announcements := [];
      readRows := [];
      notifications := [];
    }

    /** `POST /announcements`: one row, then one notice per active student of the teacher. */
    method CreateAnnouncement(profiles: seq<StudentProfile>, caller: Option<User>, title: Field, content: Field,
                              id: string, now: int) returns (r: Result<Announcement>)
      requires Valid()
      requires forall k :: 0 <= k < |announcements| ==> announcements[k].id != id
      modifies this
      ensures Valid()
      ensures r == CreateOutcome(caller, title, content, id, now)
      ensures readRows == old(readRows)
      ensures r.Ok? ==> announcements == old(announcements) + [r.value]
      ensures r.Ok? ==> notifications == old(notifications) + Fanout(ActiveProfiles(profiles, r.value.teacherId), r.value.title)
      ensures r.Err? ==> announcements == old(announcements) && notifications == old(notifications)
    {
      r := CreateOutcome(caller, title, content, id, now);
      if r.Err? {
        return;
      }
      announcements := announcements + [r.value];
      var students := ActiveProfiles(profiles, r.value.teacherId);
      var i := 0;
      while i < |students|
        invariant 0 <= i <= |students|
        invariant announcements == old(announcements) + [r.value] && readRows == old(readRows)
        invariant notifications == old(notifications) + Fanout(students[..i], r.value.title)
      {
        notifications := notifications + [AnnouncementNotice(students[i].userId, r.value.title)];
        assert Fanout(students[..i + 1], r.value.title) == Fanout(students[..i], r.value.title)
                                                           + [AnnouncementNotice(students[i].userId, r.value.title)];
        i := i + 1;
      }
      assert students[..i] == students;
    }

    /** `PUT /announcements/:id`: replaces the caller's row; nothing else changes. */
    method UpdateAnnouncement(caller: Option<User>, id: string, title: Field, content: Field, isActive: Option<bool>,
                              now: int) returns (r: Result<Announcement>)
      requires Valid()
      modifies this
      ensures Valid()
      ensures r == UpdateOutcome(old(announcements), caller, id, title, content, isActive, now)
      ensures readRows == old(readRows) && notifications == old(notifications)
      ensures r.Ok? ==> announcements
                        == old(announcements)[FindOwned(old(announcements), id, caller.value.userId).value := r.value]
      ensures r.Err? ==> announcements == old(announcements)
    {
      r := UpdateOutcome(announcements, caller, id, title, content, isActive, now);
      if r.Ok? {
        var i := FindOwned(announcements, id, caller.value.userId).value;
        announcements := announcements[i := r.value];
      }
    }

    /** `DELETE /announcements/:id`: removes the caller's row; read rows are left as they are. */
    method DeleteAnnouncement(caller: Option<User>, id: string) returns (r: Result<nat>)
      requires Valid()
      modifies this
      ensures Valid()
      ensures r == DeleteTarget(old(announcements), caller, id)
      ensures readRows == old(readRows) && notifications == old(notifications)
      ensures r.Ok? ==> announcements == RemoveAt(old(announcements), r.value)
      ensures r.Ok? ==> forall k :: 0 <= k < |announcements| ==> announcements[k].id != id
      ensures r.Err? ==> announcements == old(announcements)
    {
      r := DeleteTarget(announcements, caller, id);
      if r.Ok? {
        ghost var before := announcements;
        announcements := RemoveAt(announcements, r.value);
        forall k | 0 <= k < |announcements| ensures announcements[k].id != id {
          if k < r.value {
            assert AnnouncementId(before[k]) != AnnouncementId(before[r.value]);
          } else {
            assert AnnouncementId(before[r.value]) != AnnouncementId(before[k + 1]);
          }
        }
      }
    }

    /** `POST /student/announcements/:id/read`: adds a read row only when the pair has none. */
    method MarkAsRead(profiles: seq<StudentProfile>, caller: Option<User>, id: string, readId: string, now: int)
      returns (r: Result<Announcement>)
      requires Valid()
      requires forall k :: 0 <= k < |readRows| ==> readRows[k].id != readId
      modifies this
      ensures Valid()
      ensures r == MarkAsReadTarget(old(announcements), profiles, caller, id)
      ensures announcements == old(announcements) && notifications == old(notifications)
      ensures r.Err? ==> readRows == old(readRows)
      ensures r.Ok? && HasRead(old(readRows), id, caller.value.userId) ==> readRows == old(readRows)
      ensures r.Ok? && !HasRead(old(readRows), id, caller.value.userId) ==>
        readRows == old(readRows) + [AnnouncementRead(readId, id, caller.value.userId, now)]
      ensures r.Ok? ==> |Seqs.Filter(readRows, OfPair(id, caller.value.userId))| == 1
    {
      r := MarkAsReadTarget(announcements, profiles, caller, id);
      if r.Err? {
        return;
      }
      var studentId := caller.value.userId;
      var existing := Seqs.Filter(readRows, OfPair(id, studentId));
      if existing == [] {
        assert forall j :: 0 <= j < |readRows| ==> !OfPair(id, studentId)(readRows[j]);
        var row := AnnouncementRead(readId, id, studentId, now);
        ghost var before := readRows;
        readRows := readRows + [row];
        forall i, j | 0 <= i < j < |readRows| ensures ReadPair(readRows[i]) != ReadPair(readRows[j]) && ReadId(readRows[i]) != ReadId(readRows[j]) {
          if j < |before| {
            assert readRows[i] == before[i] && readRows[j] == before[j];
          } else {
            assert readRows[i] == before[i];
          }
        }
      } else {
        assert existing[0] in readRows;
        var j :| 0 <= j < |readRows| && readRows[j] == existing[0];
        assert HasRead(readRows, id, studentId);
      }
      assert HasRead(readRows, id, studentId) by {
        var last := |readRows| - 1;
        if existing == [] { assert readRows[last].announcementId == id && readRows[last].studentId == studentId; }
      }
      ExactlyOneReadRow(readRows, id, studentId);
    }
  }
}
