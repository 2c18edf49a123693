/**
 * The sticker handlers over an in-memory `stickers` table: issue, list, stats,
 * update and delete, each with its role, validation and ownership gates.
 */
module StickerStore {
  import opened Wrappers
  import opened Backend
  import opened StickerLevels
  import Sorting
  import Seqs

  datatype Sticker = Sticker(id: string, teacherId: string, studentId: string, level: Level,
                             comment: Option<string>, lessonId: Option<string>, createdAt: int)

  function CreatedAt(s: Sticker): int { s.createdAt }

  /** Some profile, active or not, links the student to the teacher. */
  predicate IsOwnStudent(profiles: seq<StudentProfile>, teacherId: string, studentId: string) {
    exists k :: 0 <= k < |profiles| && profiles[k].userId == studentId && profiles[k].teacherId == teacherId
  }

  // ---------------------------------------------------------------------------
  // createSticker
  // ---------------------------------------------------------------------------

  /** The gates of `createSticker`, in the handler's order, and the row it inserts. */
  function CreateOutcome(profiles: seq<StudentProfile>, caller: Option<User>, studentId: Field, level: Field,
                         comment: Field, lessonId: Field, id: string, now: int): (r: Result<Sticker>)
    ensures caller.None? ==> r == Err(Unauthorized)
    ensures caller.Some? && caller.value.role != Teacher ==> r == Err(Forbidden)
    ensures caller.Some? && caller.value.role == Teacher && !(studentId.Truthy() && level.Truthy())
            ==> r == Err(BadRequest)
    ensures (caller.Some? && caller.value.role == Teacher && studentId.Truthy() && level.Truthy()
             && Lookup(level.text).None?) ==> r == Err(BadRequest)
    ensures r.Ok? <==> caller.Some? && caller.value.role == Teacher && studentId.Truthy() && level.Truthy()
                       && Lookup(level.text).Some? && IsOwnStudent(profiles, caller.value.userId, studentId.text)
    ensures r.Ok? ==> r.value.teacherId == caller.value.userId && r.value.studentId == studentId.text
                      && Key(r.value.level) == level.text && r.value.comment == comment.OrNull()
                      && r.value.lessonId == lessonId.OrNull() && r.value.id == id && r.value.createdAt == now
    ensures (r.Err? && caller.Some? && caller.value.role == Teacher && studentId.Truthy() && level.Truthy()
             && Lookup(level.text).Some?) ==> r == Err(NotFound)
  {
    match RequireRole(caller, Teacher)
    case Err(e) => Err(e)
    case Ok(u) =>
      if !studentId.Truthy() || !level.Truthy() then Err(BadRequest)
      else match Lookup(level.text)
        case None => Err(BadRequest)
        case Some(meta) =>
          if !IsOwnStudent(profiles, u.userId, studentId.text) then Err(NotFound)
          else Ok(Sticker(id, u.userId, studentId.text, meta.level, comment.OrNull(), lessonId.OrNull(), now))
  }

  // ---------------------------------------------------------------------------
  // getStickers
  // ---------------------------------------------------------------------------

  /** Query string of `GET /stickers`; `limit` and `offset` already parsed as numbers. */
  datatype ListQuery = ListQuery(studentId: Field, lessonId: Field, limit: Option<nat>, offset: Option<nat>)

  const DefaultLimit: nat := 50

  /** The `where` filter `getStickers` builds for the caller. */
  predicate Visible(s: Sticker, u: User, q: ListQuery) {
    (if u.role == Teacher
     then s.teacherId == u.userId && (q.studentId.Truthy() ==> s.studentId == q.studentId.text)
     else s.studentId == u.userId)
    && (q.lessonId.Truthy() ==> s.lessonId == Some(q.lessonId.text))
  }

  function Matching(rows: seq<Sticker>, u: User, q: ListQuery): seq<Sticker> {
    Seqs.Filter(rows, (s: Sticker) => Visible(s, u, q))
  }

  /** `getStickers`: the caller's rows, newest first, `offset` skipped, at most `limit` (default 50). */
  function ListStickers(rows: seq<Sticker>, caller: Option<User>, q: ListQuery): (r: Result<seq<Sticker>>)
    ensures r.Err? <==> caller.None?
    ensures r.Err? ==> r.error == Unauthorized
    ensures r.Ok? ==> forall k :: 0 <= k < |r.value| ==> r.value[k] in rows && Visible(r.value[k], caller.value, q)
    ensures r.Ok? ==> Sorting.SortedDesc(r.value, CreatedAt)
    ensures r.Ok? ==> |r.value| <= q.limit.GetOr(DefaultLimit)
    ensures r.Ok? ==>
      |r.value| == PageLength(|Matching(rows, caller.value, q)|, q.offset.GetOr(0), q.limit.GetOr(DefaultLimit))
    ensures r.Ok? ==>
      exists s :: Sorting.SortedDesc(s, CreatedAt) && multiset(s) == multiset(Matching(rows, caller.value, q))
                  && r.value == Sorting.Window(s, q.offset.GetOr(0), q.limit.GetOr(DefaultLimit))
  {
    match caller
    case None => Err(Unauthorized)
    case Some(u) =>
      var sorted := Sorting.SortDesc(Matching(rows, u, q), CreatedAt);
      var page := Sorting.Window(sorted, q.offset.GetOr(0), q.limit.GetOr(DefaultLimit));
      forall k | 0 <= k < |page| ensures page[k] in rows && Visible(page[k], u, q) {
        assert page[k] in multiset(sorted);
      }
      Ok(page)
  }

  /** How many of `n` rows a page shows after skipping `skip` and taking at most `take`. */
  function PageLength(n: nat, skip: nat, take: nat): nat {
    if skip >= n then 0 else if n - skip < take then n - skip else take
  }

  /**
   * Any page holds visible rows only, each at most as often as the table has
   * it, and every visible row it leaves out was either skipped (no older than
   * the first row shown) or lies beyond the page (no newer than the last row
   * shown); with no offset, every row left out lies beyond the page.
   */
  lemma ListStickersPage(rows: seq<Sticker>, u: User, q: ListQuery)
    ensures multiset(ListStickers(rows, Some(u), q).value) <= multiset(Matching(rows, u, q))
    ensures forall x :: x in Matching(rows, u, q) && x !in ListStickers(rows, Some(u), q).value
                        && |ListStickers(rows, Some(u), q).value| > 0 ==>
              var r := ListStickers(rows, Some(u), q).value;
              x.createdAt >= r[0].createdAt || x.createdAt <= r[|r| - 1].createdAt
    ensures forall x :: x in Matching(rows, u, q) && x !in ListStickers(rows, Some(u), q).value
                        && |ListStickers(rows, Some(u), q).value| > 0 && q.offset.GetOr(0) == 0 ==>
              var r := ListStickers(rows, Some(u), q).value;
              x.createdAt <= r[|r| - 1].createdAt
  {
    var m := Matching(rows, u, q);
    var sorted := Sorting.SortDesc(m, CreatedAt);
    var skip, take := q.offset.GetOr(0), q.limit.GetOr(DefaultLimit);
    var r := ListStickers(rows, Some(u), q).value;
    assert r == Sorting.Window(sorted, skip, take);
    PageOfSorted(m, sorted, skip, take, r);
  }

  /** The facts of `ListStickersPage` for a window `r` of the sorted rows `sorted` of `m`. */
  lemma PageOfSorted(m: seq<Sticker>, sorted: seq<Sticker>, skip: nat, take: nat, r: seq<Sticker>)
    requires Sorting.SortedDesc(sorted, CreatedAt) && multiset(sorted) == multiset(m)
    requires r == Sorting.Window(sorted, skip, take)
    ensures multiset(r) <= multiset(m)
    ensures forall x :: x in m && x !in r && |r| > 0 ==>
              (x.createdAt >= r[0].createdAt || x.createdAt <= r[|r| - 1].createdAt)
              && (skip == 0 ==> x.createdAt <= r[|r| - 1].createdAt)
  {
    Sorting.WindowMultiset(sorted, skip, take);
    forall x | x in m && x !in r && |r| > 0
      ensures (x.createdAt >= r[0].createdAt || x.createdAt <= r[|r| - 1].createdAt)
              && (skip == 0 ==> x.createdAt <= r[|r| - 1].createdAt)
    {
      assert x in multiset(m);
      LeftOutOfPage(sorted, skip, take, x);
    }
  }

  /** One row of a sorted list that a window leaves out lies before or after it. */
  lemma LeftOutOfPage(sorted: seq<Sticker>, skip: nat, take: nat, x: Sticker)
    requires Sorting.SortedDesc(sorted, CreatedAt)
    requires x in sorted && x !in Sorting.Window(sorted, skip, take) && |Sorting.Window(sorted, skip, take)| > 0
    ensures var r := Sorting.Window(sorted, skip, take);
            (x.createdAt >= r[0].createdAt || x.createdAt <= r[|r| - 1].createdAt)
            && (skip == 0 ==> x.createdAt <= r[|r| - 1].createdAt)
  {
    var r := Sorting.Window(sorted, skip, take);
    var i :| 0 <= i < |sorted| && sorted[i] == x;
    if i < skip {
      assert CreatedAt(sorted[i]) >= CreatedAt(sorted[skip]);
    } else if i < skip + |r| {
      assert false;
    } else {
      assert CreatedAt(sorted[skip + |r| - 1]) >= CreatedAt(sorted[i]);
    }
  }

  /** Without paging effects, the listing holds every visible row, each exactly once. */
  lemma ListStickersComplete(rows: seq<Sticker>, u: User, q: ListQuery)
    requires q.offset.GetOr(0) == 0 && |Matching(rows, u, q)| <= q.limit.GetOr(DefaultLimit)
    ensures ListStickers(rows, Some(u), q).Ok?
    ensures multiset(ListStickers(rows, Some(u), q).value) == multiset(Matching(rows, u, q))
  {
    var sorted := Sorting.SortDesc(Matching(rows, u, q), CreatedAt);
    assert Sorting.Window(sorted, 0, q.limit.GetOr(DefaultLimit)) == sorted;
  }

  // ---------------------------------------------------------------------------
  // getStickerStats
  // ---------------------------------------------------------------------------

  datatype LevelCount = LevelCount(meta: StickerMeta, count: nat)

  datatype Stats = Stats(totalCount: nat, totalPoints: int, levelCounts: seq<LevelCount>, latest: Option<Sticker>)

  /** Number of the student's stickers at a level. */
  function CountAt(rows: seq<Sticker>, studentId: string, l: Level): nat {
    if rows == [] then 0
    else (if rows[0].studentId == studentId && rows[0].level == l then 1 else 0) + CountAt(rows[1..], studentId, l)
  }

  /** Number of the student's stickers. */
  function CountOfStudent(rows: seq<Sticker>, studentId: string): nat {
    if rows == [] then 0
    else (if rows[0].studentId == studentId then 1 else 0) + CountOfStudent(rows[1..], studentId)
  }

  /** Every sticker has exactly one level, so the per-level counts add up to the student's total. */
  lemma {:induction false} LevelCountsSum(rows: seq<Sticker>, studentId: string)
    ensures CountAt(rows, studentId, Seed) + CountAt(rows, studentId, Bloom) + CountAt(rows, studentId, ShootingStar)
            + CountAt(rows, studentId, Rocket) + CountAt(rows, studentId, Satellite)
            + CountAt(rows, studentId, Aurora) + CountAt(rows, studentId, ToTheMoon)
            == CountOfStudent(rows, studentId)
  {
    if rows != [] {
      LevelCountsSum(rows[1..], studentId);
    }
  }

  /** Each level of the table with the student's count at it, in table order. */
  function AllCounts(rows: seq<Sticker>, studentId: string): seq<(Level, nat)> {
    [(Seed, CountAt(rows, studentId, Seed)), (Bloom, CountAt(rows, studentId, Bloom)),
     (ShootingStar, CountAt(rows, studentId, ShootingStar)), (Rocket, CountAt(rows, studentId, Rocket)),
     (Satellite, CountAt(rows, studentId, Satellite)), (Aurora, CountAt(rows, studentId, Aurora)),
     (ToTheMoon, CountAt(rows, studentId, ToTheMoon))]
  }

  /** `stickers.groupBy({ by: ['level'], where: { student_id } })`: the levels seen, with their counts. */
  function GroupByLevel(rows: seq<Sticker>, studentId: string): (g: seq<(Level, nat)>)
    ensures forall k :: 0 <= k < |g| ==> g[k].1 == CountAt(rows, studentId, g[k].0) && g[k].1 > 0
    ensures forall l: Level :: CountAt(rows, studentId, l) > 0 ==> exists k :: 0 <= k < |g| && g[k].0 == l
  {
    var all := AllCounts(rows, studentId);
    var g := Seqs.Filter(all, (p: (Level, nat)) => p.1 > 0);
    forall l: Level | CountAt(rows, studentId, l) > 0 ensures exists k :: 0 <= k < |g| && g[k].0 == l {
      var i := DeclaredIndex(l);
      assert all[i] == (l, CountAt(rows, studentId, l));
      assert all[i] in g;
    }
    g
  }

  function SumCounts(g: seq<(Level, nat)>): nat {
    if g == [] then 0 else g[0].1 + SumCounts(g[1..])
  }

  /** The student's level -> count record; levels never seen are absent. */
  function CountsRecord(rows: seq<Sticker>, studentId: string): map<Level, nat> {
    map l: Level | CountAt(rows, studentId, l) > 0 :: CountAt(rows, studentId, l)
  }

  /** The most recent sticker of the student (`findFirst` ordered by `created_at` desc). */
  function Latest(rows: seq<Sticker>, studentId: string): (r: Option<Sticker>)
    ensures r.Some? <==> exists k :: 0 <= k < |rows| && rows[k].studentId == studentId
    ensures r.Some? ==> r.value in rows && r.value.studentId == studentId
    ensures r.Some? ==> forall k :: 0 <= k < |rows| && rows[k].studentId == studentId
                                    ==> rows[k].createdAt <= r.value.createdAt
  {
    var own := Seqs.Filter(rows, (s: Sticker) => s.studentId == studentId);
    var sorted := Sorting.SortDesc(own, CreatedAt);
    if sorted == [] then
      assert own == [] by { assert |own| == |sorted|; }
      assert forall k :: 0 <= k < |rows| ==> rows[k].studentId != studentId;
      None
    else
      assert sorted[0] in multiset(own);
      forall k | 0 <= k < |rows| && rows[k].studentId == studentId ensures rows[k].createdAt <= sorted[0].createdAt {
        assert rows[k] in multiset(sorted);
        var j :| 0 <= j < |sorted| && sorted[j] == rows[k];
        if j > 0 { assert CreatedAt(sorted[0]) >= CreatedAt(sorted[j]); }
      }
      Some(sorted[0])
  }

  /** Who the stats are about: a student always themselves, a teacher the `student_id` query. */
  function StatsSubject(u: User, queryStudentId: Field): string {
    if u.role == Student then u.userId
    else if queryStudentId.Given? then queryStudentId.text
    else ""
  }

  /** Table-order list of all seven levels with the record's counts, 0 where absent. */
  function LevelCountsList(record: map<Level, nat>): (r: seq<LevelCount>)
    ensures |r| == 7
    ensures forall i :: 0 <= i < 7 ==> r[i].meta == Meta(Declared[i]) && r[i].count == CountOf(record, Declared[i])
  {
    seq(7, i requires 0 <= i < 7 => LevelCount(Meta(Declared[i]), CountOf(record, Declared[i])))
  }

  // ---------------------------------------------------------------------------
  // updateSticker / deleteSticker
  // ---------------------------------------------------------------------------

  function IndexOfId(rows: seq<Sticker>, id: string): (r: Option<nat>)
    ensures r.Some? ==> r.value < |rows| && rows[r.value].id == id
    ensures r.None? ==> forall k :: 0 <= k < |rows| ==> rows[k].id != id
  {
    if rows == [] then None
    else if rows[0].id == id then Some(0)
    else match IndexOfId(rows[1..], id)
      case None => None
      case Some(k) => Some(k + 1)
  }

  /** The lookup and ownership gates shared by update and delete. */
  function OwnedIndex(rows: seq<Sticker>, caller: Option<User>, id: string): (r: Result<nat>)
    ensures r.Ok? <==> caller.Some? && caller.value.role == Teacher && IndexOfId(rows, id).Some?
                       && rows[IndexOfId(rows, id).value].teacherId == caller.value.userId
    ensures r.Ok? ==> r.value == IndexOfId(rows, id).value
    ensures caller.None? ==> r == Err(Unauthorized)
    ensures caller.Some? && caller.value.role != Teacher ==> r == Err(Forbidden)
    ensures caller.Some? && caller.value.role == Teacher && IndexOfId(rows, id).None? ==> r == Err(NotFound)
    ensures (caller.Some? && caller.value.role == Teacher && IndexOfId(rows, id).Some?
             && rows[IndexOfId(rows, id).value].teacherId != caller.value.userId) ==> r == Err(Forbidden)
  {
    match RequireRole(caller, Teacher)
    case Err(e) => Err(e)
    case Ok(u) =>
      match IndexOfId(rows, id)
      case None => Err(NotFound)
      case Some(i) => if rows[i].teacherId != u.userId then Err(Forbidden) else Ok(i)
  }

  /** `updateSticker`: the new row; only `level` (when given and valid) and `comment` (when defined) change. */
  function UpdateOutcome(rows: seq<Sticker>, caller: Option<User>, id: string, level: Field, comment: Field)
    : (r: Result<Sticker>)
    ensures OwnedIndex(rows, caller, id).Err? ==> r == Err(OwnedIndex(rows, caller, id).error)
    ensures OwnedIndex(rows, caller, id).Ok? && level.Truthy() && Lookup(level.text).None? ==> r == Err(BadRequest)
    ensures r.Ok? <==> OwnedIndex(rows, caller, id).Ok? && (level.Truthy() ==> Lookup(level.text).Some?)
    ensures r.Ok? ==>
      var prev := rows[OwnedIndex(rows, caller, id).value];
      && r.value.id == prev.id && r.value.teacherId == prev.teacherId && r.value.studentId == prev.studentId
      && r.value.lessonId == prev.lessonId && r.value.createdAt == prev.createdAt
      && (if level.Truthy() then Key(r.value.level) == level.text else r.value.level == prev.level)
      && r.value.comment == (if comment.Undefined? then prev.comment else comment.OrNull())
  {
    match OwnedIndex(rows, caller, id)
    case Err(e) => Err(e)
    case Ok(i) =>
      if level.Truthy() && Lookup(level.text).None? then Err(BadRequest)
      else
        var s := rows[i];
        var newLevel := if level.Truthy() then Lookup(level.text).value.level else s.level;
        var newComment := if comment.Undefined? then s.comment else comment.OrNull();
        Ok(s.(level := newLevel, comment := newComment))
  }

  function RemoveAt(rows: seq<Sticker>, i: nat): (r: seq<Sticker>)
    requires i < |rows|
    ensures |r| == |rows| - 1
    ensures multiset(r) + multiset{rows[i]} == multiset(rows)
  {
    assert rows == rows[..i] + [rows[i]] + rows[i + 1..];
    rows[..i] + rows[i + 1..]
  }

  /** The `stickers` table. */
  class StickerTable {
    var rows: seq<Sticker>

    /** Sticker ids are unique. */
    ghost predicate Valid()
      reads this
    {
      forall i, j :: 0 <= i < j < |rows| ==> rows[i].id != rows[j].id
    }

    constructor ()
      ensures Valid() && rows == []
    {
      rows := [];
    }

    /** `POST /stickers`: inserts exactly one row when every gate passes, nothing otherwise. */
    method CreateSticker(profiles: seq<StudentProfile>, caller: Option<User>, studentId: Field, level: Field,
                         comment: Field, lessonId: Field, id: string, now: int)
      returns (r: Result<Sticker>)
      requires Valid()
      requires forall k :: 0 <= k < |rows| ==> rows[k].id != id
      modifies this
      ensures Valid()
      ensures r == CreateOutcome(profiles, caller, studentId, level, comment, lessonId, id, now)
      ensures rows == if r.Ok? then old(rows) + [r.value] else old(rows)
    {
      r := CreateOutcome(profiles, caller, studentId, level, comment, lessonId, id, now);
      if r.Ok? {
        rows := rows + [r.value];
      }
    }

    /** `GET /stickers/stats`: per-level counts by a pass over the grouped counts. */
    method GetStickerStats(caller: Option<User>, queryStudentId: Field) returns (r: Result<Stats>)
      ensures caller.None? ==> r == Err(Unauthorized)
      ensures caller.Some? ==> (r.Err? <==> StatsSubject(caller.value, queryStudentId) == "")
      ensures r.Err? ==> r.error == Unauthorized || r.error == BadRequest
      ensures caller.Some? && r.Err? ==> r.error == BadRequest
      ensures r.Ok? ==>
        var s := StatsSubject(caller.value, queryStudentId);
        && r.value.totalCount == CountOfStudent(rows, s)
        && r.value.levelCounts == LevelCountsList(CountsRecord(rows, s))
        && r.value.totalPoints == CalcTotalPoints(Entries(CountsRecord(rows, s)))
        && r.value.totalPoints == PointsOf(CountsRecord(rows, s))
        && r.value.latest == Latest(rows, s)
    {
      if caller.None? {
        return Err(Unauthorized);
      }
      var studentId := StatsSubject(caller.value, queryStudentId);
      if studentId == "" {
        return Err(BadRequest);
      }
      var counts := GroupByLevel(rows, studentId);
      var levelCounts, totalCount := TallyGroups(rows, studentId, counts);
      TallyIsRecord(rows, studentId, counts, levelCounts);
      GroupSumIsTotal(rows, studentId);
      var totalPoints := CalcTotalPoints(Entries(levelCounts));
      CalcTotalPointsOfRecord(levelCounts);
      r := Ok(Stats(totalCount, totalPoints, LevelCountsList(levelCounts), Latest(rows, studentId)));
    }

    /** `PATCH /stickers/:id`: replaces exactly the addressed row. */
    method UpdateSticker(caller: Option<User>, id: string, level: Field, comment: Field) returns (r: Result<Sticker>)
      requires Valid()
      modifies this
      ensures Valid()
      ensures r == UpdateOutcome(old(rows), caller, id, level, comment)
      ensures r.Ok? ==> |rows| == |old(rows)| && rows == old(rows)[IndexOfId(old(rows), id).value := r.value]
      ensures r.Err? ==> rows == old(rows)
    {
      r := UpdateOutcome(rows, caller, id, level, comment);
      if r.Ok? {
        var i := IndexOfId(rows, id).value;
        rows := rows[i := r.value];
      }
    }

    /** `DELETE /stickers/:id`: removes exactly the addressed row. */
    method DeleteSticker(caller: Option<User>, id: string) returns (r: Result<nat>)
      requires Valid()
      modifies this
      ensures Valid()
      ensures r == OwnedIndex(old(rows), caller, id)
      ensures r.Ok? ==> rows == RemoveAt(old(rows), r.value)
      ensures r.Ok? ==> forall k :: 0 <= k < |rows| ==> rows[k].id != id
      ensures r.Err? ==> rows == old(rows)
    {
      r := OwnedIndex(rows, caller, id);
      if r.Ok? {
        var i := r.value;
        ghost var before := rows;
        rows := RemoveAt(rows, i);
        forall k | 0 <= k < |rows| ensures rows[k].id != id {
          if k < i { assert rows[k] == before[k]; } else { assert rows[k] == before[k + 1]; }
        }
      }
    }

    /** `GET /stickers/levels`: the whole table, in level order. */
    method GetStickerLevels() returns (r: seq<StickerMeta>)
      ensures |r| == 7
      ensures forall i :: 0 <= i < 7 ==> r[i].order == i + 1 && r[i] == Meta(Declared[i])
      ensures r == LevelsList()
    {
      LevelsListShape();
      LevelsListOrders();
      r := LevelsList();
    }
  }

  /** The `forEach` over the grouped rows: a level -> count record and the running total. */
  method TallyGroups(rows: seq<Sticker>, studentId: string, counts: seq<(Level, nat)>)
    returns (record: map<Level, nat>, total: nat)
    requires forall k :: 0 <= k < |counts| ==> counts[k].1 == CountAt(rows, studentId, counts[k].0)
    ensures forall l: Level :: l in record <==> exists k :: 0 <= k < |counts| && counts[k].0 == l
    ensures forall l: Level :: l in record ==> record[l] == CountAt(rows, studentId, l)
    ensures total == SumCounts(counts)
  {
    record := map[];
    total := 0;
    var i := 0;
    while i < |counts|
      invariant 0 <= i <= |counts|
      invariant forall l: Level :: l in record <==> exists k :: 0 <= k < i && counts[k].0 == l
      invariant forall l: Level :: l in record ==> record[l] == CountAt(rows, studentId, l)
      invariant total == SumCounts(counts[..i])
    {
      record := record[counts[i].0 := counts[i].1];
      total := total + counts[i].1;
      assert counts[..i + 1] == counts[..i] + [counts[i]];
      SumCountsSnoc(counts[..i], counts[i]);
      i := i + 1;
    }
    assert counts[..i] == counts;
  }

  /** Tallying the grouped rows rebuilds the student's record. */
  lemma TallyIsRecord(rows: seq<Sticker>, studentId: string, counts: seq<(Level, nat)>, record: map<Level, nat>)
    requires counts == GroupByLevel(rows, studentId)
    requires forall l: Level :: l in record <==> exists k :: 0 <= k < |counts| && counts[k].0 == l
    requires forall l: Level :: l in record ==> record[l] == CountAt(rows, studentId, l)
    ensures record == CountsRecord(rows, studentId)
  {
    assert record.Keys == CountsRecord(rows, studentId).Keys;
  }

  /** The grouped counts add up to the number of the student's stickers. */
  lemma GroupSumIsTotal(rows: seq<Sticker>, studentId: string)
    ensures SumCounts(GroupByLevel(rows, studentId)) == CountOfStudent(rows, studentId)
  {
    var all := AllCounts(rows, studentId);
    SumCountsDropsZeros(all);
    LevelCountsSum(rows, studentId);
    SumCountsSeven(all[0], all[1], all[2], all[3], all[4], all[5], all[6]);
  }

  lemma SumCountsSeven(a: (Level, nat), b: (Level, nat), c: (Level, nat), d: (Level, nat),
                       e: (Level, nat), f: (Level, nat), g: (Level, nat))
    ensures SumCounts([a, b, c, d, e, f, g]) == a.1 + b.1 + c.1 + d.1 + e.1 + f.1 + g.1
  {
    assert [g][1..] == [];
    assert SumCounts([g]) == g.1;
    assert [f, g][1..] == [g];
    assert SumCounts([f, g]) == f.1 + g.1;
    assert [e, f, g][1..] == [f, g];
    assert SumCounts([e, f, g]) == e.1 + f.1 + g.1;
    assert [d, e, f, g][1..] == [e, f, g];
    assert SumCounts([d, e, f, g]) == d.1 + e.1 + f.1 + g.1;
    assert [c, d, e, f, g][1..] == [d, e, f, g];
    assert SumCounts([c, d, e, f, g]) == c.1 + d.1 + e.1 + f.1 + g.1;
    assert [b, c, d, e, f, g][1..] == [c, d, e, f, g];
    assert SumCounts([b, c, d, e, f, g]) == b.1 + c.1 + d.1 + e.1 + f.1 + g.1;
    assert [a, b, c, d, e, f, g][1..] == [b, c, d, e, f, g];
  }

  /** Leaving out zero counts does not change the sum. */
  lemma {:induction false} SumCountsDropsZeros(g: seq<(Level, nat)>)
    ensures SumCounts(Seqs.Filter(g, (p: (Level, nat)) => p.1 > 0)) == SumCounts(g)
  {
    if g != [] {
      SumCountsDropsZeros(g[1..]);
      if g[0].1 > 0 {
        var rest := Seqs.Filter(g[1..], (p: (Level, nat)) => p.1 > 0);
        assert ([g[0]] + rest)[1..] == rest;
      }
    }
  }

  /** Adding one group at the end adds its count, the step the stats loop takes. */
  lemma {:induction false} SumCountsSnoc(g: seq<(Level, nat)>, x: (Level, nat))
    ensures SumCounts(g + [x]) == SumCounts(g) + x.1
  {
    if g == [] {
      assert ([] + [x])[1..] == [];
    } else {
      assert (g + [x])[1..] == g[1..] + [x];
      SumCountsSnoc(g[1..], x);
    }
  }
}
