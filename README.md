# To the Moon: a verified model of the lesson, sticker and announcement rules

To the Moon is a web application for vocal lessons.
Teachers schedule lessons, write feedback and award stickers.
Students react to feedback and read their teacher's announcements.
An administrator assigns students to teachers and manages lessons.

This project models the parts of the application that are rules rather than plumbing:

- the sticker reward table and its point arithmetic;
- the sticker handlers over a `stickers` table;
- the announcement handlers over the `announcements` and `announcement_reads` tables, with the notification fan-out;
- the client-side rules of nine pages and components:
  - the new-lesson time picker;
  - the teacher dashboard's pending-feedback count, recent reactions and calendar;
  - the teacher's, the student's and the administrator's lesson lists;
  - the administrator's student list;
  - the student announcement banner;
  - the notification bell;
  - the student feedback page with its YouTube links and reaction form.

Database tables are sequences.
A table the handlers change in place is a field of a class (`StickerTable`, `AnnouncementBoard`), and each handler is a method whose `ensures` gives the new table.
Read-only handlers are functions returning a `Result` with an `HttpError` (400, 401, 403 or 404).
React pages that keep state (`NewLessonForm`, `Dashboard`, `LessonsPage`, `AdminLessonsPage`, `Banner`, `Bell`, `FeedbackPage`) are classes whose fields are the state variables.
Their handlers are methods.
The outcome of each request they send (success or failure, or the data fetched) is a parameter.
Pure derivations (filters, partitions, labels, time buckets) are functions, with lemmas stating what the page promises about them.

Timestamps are integer milliseconds.
The current time is always a parameter, and so is the local calendar day of a time (`dayOf`).
Fresh ids (`randomUUID()`) are parameters too.

Files:

| file | module | models |
|---|---|---|
| wrappers.dfy | Wrappers | `Option` |
| seqs.dfy | Seqs | `Array.prototype.filter` and its properties |
| sorting.dfy | Sorting | a stable sort, newest first (`orderBy: { created_at: 'desc' }`, `Array.prototype.sort`), and `skip`/`take` |
| text.dfy | Text | decimal rendering, `includes`, `split`, `trim`, `toLowerCase`, UTF-16 length |
| backend.dfy | Backend | callers, role gates, HTTP errors, JSON fields with JavaScript truthiness, `student_profiles` |
| sticker_levels.dfy | StickerLevels | `STICKER_LEVELS`, `STICKER_LEVELS_LIST`, `calcTotalPoints` |
| sticker_store.dfy | StickerStore | the handlers of `stickerController.ts` |
| announcements.dfy | Announcements | the handlers of `announcementController.ts` |
| frontend.dfy | Frontend | the lesson record shared by the pages, and `formatRelativeTime` |
| new_lesson.dfy | NewLesson | the new-lesson form |
| teacher_dashboard.dfy | TeacherDashboard | the teacher dashboard |
| teacher_lessons.dfy | TeacherLessons | the teacher's lesson list |
| student_lessons.dfy | StudentLessons | the student's lesson list |
| admin_lessons.dfy | AdminLessons | the administrator's lesson list |
| admin_students.dfy | AdminStudents | the administrator's student list |
| announcement_banner.dfy | AnnouncementBanner | the student announcement banner |
| notification_bell.dfy | NotificationBell | the notification bell |
| student_feedback.dfy | StudentFeedback | the student feedback page |

## Model

| member | source | states |
|---|---|---|
| StickerLevels.Meta | to_the_moon_backend/src/constants/sticker.ts:11-61 | Each level's entry names that level, has an order in 1..7 and carries that level's points. |
| StickerLevels.Lookup | to_the_moon_backend/src/constants/sticker.ts:69 | A key finds an entry exactly when it is one of the seven level names, and then finds that level's own entry. |
| StickerLevels.LookupKey | to_the_moon_backend/src/constants/sticker.ts:11-61 | Every level's own name finds that level's entry. |
| StickerLevels.TableValues | to_the_moon_backend/src/constants/sticker.ts:11-61 | `Object.values` of the table gives its seven entries in declaration order. |
| StickerLevels.LevelsList | to_the_moon_backend/src/constants/sticker.ts:63-65 | The list is sorted ascending by `order` and is a permutation of the table's values. |
| StickerLevels.LevelsListShape | to_the_moon_backend/src/constants/sticker.ts:63-65 | Sorting leaves the table as declared: the list is the table's 7 entries, entry i being that of the i-th level. |
| StickerLevels.LevelsListOrders | to_the_moon_backend/src/constants/sticker.ts:63-65 | Entry i of the list has order i + 1 and is the i-th declared level. |
| StickerLevels.LevelsListPoints | to_the_moon_backend/src/constants/sticker.ts:11-61 | The points column, in order, is 10, 20, 30, 50, 70, 85, 100. |
| StickerLevels.PointsIncreaseWithOrder | to_the_moon_backend/src/constants/sticker.ts:11-61 | A level of higher order is worth strictly more points. |
| StickerLevels.EntryOfTotal | to_the_moon_backend/src/constants/sticker.ts:69-70 | One known level with count c contributes points × c. |
| StickerLevels.CalcTotalPointsAppend | to_the_moon_backend/src/constants/sticker.ts:67-72 | The total of two entry lists joined is the sum of their totals. |
| StickerLevels.CalcTotalPointsPermutation | to_the_moon_backend/src/constants/sticker.ts:67-72 | The total does not depend on the order of the entries. |
| StickerLevels.CalcTotalPointsIsWeightedSum | to_the_moon_backend/src/constants/sticker.ts:67-72 | The total is the sum of points × count over the seven levels; unknown keys and missing counts add 0. |
| StickerLevels.CalcTotalPointsNonNegative | to_the_moon_backend/src/constants/sticker.ts:67-72 | With non-negative counts the total is non-negative. |
| StickerLevels.CalcTotalPointsMonotone | to_the_moon_backend/src/constants/sticker.ts:67-72 | Raising counts entry by entry, with the same keys, never lowers the total. |
| StickerLevels.SeedRocketExample | to_the_moon_backend/src/constants/sticker.ts:67-72 | `{seed: 2, rocket: 1}` is worth 70, and the empty record is worth 0. |
| StickerLevels.CalcTotalPointsOfRecord | to_the_moon_backend/src/constants/sticker.ts:67-72 | The total of a level → count record is the sum of points × count over its levels. |
| StickerLevels.CalcTotalPointsAdditive | to_the_moon_backend/src/constants/sticker.ts:67-72 | The total of the level-wise sum of two records is the sum of their totals. |
| Backend.RequireRole | to_the_moon_backend/src/controllers/announcementController.ts:15-23 | A missing user gets 401 and a user of another role gets 403; otherwise the caller passes. |
| Backend.Field.OrNull | to_the_moon_backend/src/controllers/stickerController.ts:61-62 | `field \|\| null` is the text exactly when the field is a non-empty string. |
| Backend.ActiveProfiles | to_the_moon_backend/src/controllers/announcementController.ts:28-33 | Exactly the teacher's active profiles. |
| Backend.ActiveProfileOf | to_the_moon_backend/src/controllers/announcementController.ts:342-347 | Some active profile of the user when one exists, none otherwise. |
| StickerStore.CreateOutcome | to_the_moon_backend/src/controllers/stickerController.ts:16-63 | The gates are checked in order: 401, 403, 400 for a missing student or level, 400 for an unknown level, 404 unless some profile (active or not) links the student to the caller. On success the row belongs to the caller, and an empty comment or lesson id is stored as null. |
| StickerStore.StickerTable.CreateSticker | to_the_moon_backend/src/controllers/stickerController.ts:55-63 | Exactly one row is appended on success; the table is unchanged otherwise; ids stay unique. |
| StickerStore.ListStickers | to_the_moon_backend/src/controllers/stickerController.ts:92-133 | 401 without a user. Otherwise every row is visible to the caller: a teacher sees their own rows, narrowed to the student if given; anyone else sees rows of which they are the student; rows are narrowed by lesson if given. Rows come newest first. The page holds exactly as many rows as remain after skipping `offset` of the visible rows, capped at `limit` (default 50). The page is the window from position `offset` of a newest-first ordering of exactly the visible rows. |
| StickerStore.ListStickersPage | to_the_moon_backend/src/controllers/stickerController.ts:101-133 | For any offset and limit, the page holds visible rows only, none more often than the table does. Every visible row it leaves out is no older than the first row shown (it was skipped) or no newer than the last row shown. With no offset, every row left out is no newer than the last row shown. |
| StickerStore.ListStickersComplete | to_the_moon_backend/src/controllers/stickerController.ts:101-133 | Without offset, and within the limit, the listing holds every visible row exactly once. |
| StickerStore.GroupByLevel | to_the_moon_backend/src/controllers/stickerController.ts:172-176 | Each group is a level the student has, with its count, and every level the student has appears. |
| StickerStore.LevelCountsSum | to_the_moon_backend/src/controllers/stickerController.ts:179-184 | The per-level counts add up to the student's number of stickers. |
| StickerStore.TallyGroups | to_the_moon_backend/src/controllers/stickerController.ts:179-184 | The loop builds a record holding exactly the grouped levels with their counts, and the total is the sum of the counts. |
| StickerStore.TallyIsRecord | to_the_moon_backend/src/controllers/stickerController.ts:179-184 | The tallied record is the student's level → count record. |
| StickerStore.GroupSumIsTotal | to_the_moon_backend/src/controllers/stickerController.ts:179-184 | The grouped counts add up to the number of the student's stickers. |
| StickerStore.Latest | to_the_moon_backend/src/controllers/stickerController.ts:190-198 | Some sticker of the student with the greatest creation time, or none exactly when the student has no sticker. |
| StickerStore.LevelCountsList | to_the_moon_backend/src/controllers/stickerController.ts:203-206 | All seven levels in table order, each with its count, 0 where the level is absent. |
| StickerStore.StickerTable.GetStickerStats | to_the_moon_backend/src/controllers/stickerController.ts:157-210 | 401 without a user. A student always gets their own stats. A teacher without a student id gets 400. The total is the student's sticker count, the points are `calcTotalPoints` of the counts (and equal the weighted sum), all seven levels are listed, and the latest sticker is given. |
| StickerStore.IndexOfId | to_the_moon_backend/src/controllers/stickerController.ts:239-241 | The position of the row with that id, or none exactly when no row has it. |
| StickerStore.OwnedIndex | to_the_moon_backend/src/controllers/stickerController.ts:226-251 | 401, then 403 for a non-teacher, 404 for an absent id, 403 for another teacher's row; otherwise the row's position. |
| StickerStore.UpdateOutcome | to_the_moon_backend/src/controllers/stickerController.ts:253-263 | After the ownership gates, an unknown level gives 400. Otherwise only the level (when given) and the comment (when defined, empty stored as null) change; every other field is kept. |
| StickerStore.StickerTable.UpdateSticker | to_the_moon_backend/src/controllers/stickerController.ts:258-269 | Only the addressed row is replaced; on an error the table is unchanged. |
| StickerStore.StickerTable.DeleteSticker | to_the_moon_backend/src/controllers/stickerController.ts:301-315 | Exactly the addressed row is removed and no row with that id remains; on an error the table is unchanged. |
| StickerStore.StickerTable.GetStickerLevels | to_the_moon_backend/src/controllers/stickerController.ts:328-333 | The seven table entries in level order. |
| Announcements.FindOwned | to_the_moon_backend/src/controllers/announcementController.ts:246-251 | The position of the announcement with that id and teacher, or none exactly when there is none. |
| Announcements.FindActive | to_the_moon_backend/src/controllers/announcementController.ts:489-495 | An active announcement with that id and teacher, or none exactly when there is none. |
| Announcements.FindReadBy | to_the_moon_backend/src/controllers/announcementController.ts:141-143 | The first read row of the student, or none when the student has none. No earlier row is the student's. |
| Announcements.NewestFirst | to_the_moon_backend/src/controllers/announcementController.ts:35-49 | The selected announcements, newest first, as a permutation of the selected rows (each row exactly as often as the table has it). |
| Announcements.ReadCountIsReadsOf | to_the_moon_backend/src/controllers/announcementController.ts:39-45 | `_count.announcement_reads` is the number of read rows of the announcement. |
| Announcements.Summaries | to_the_moon_backend/src/controllers/announcementController.ts:51-56 | Each announcement is paired with its read count and the number of active students. |
| Announcements.GetAnnouncements | to_the_moon_backend/src/controllers/announcementController.ts:14-58 | The role gate, then the caller's announcements, newest first, each exactly once, with its read count and the number of the caller's active students. The listed announcements are a permutation of the caller's rows. |
| Announcements.ReadsNewestFirst | to_the_moon_backend/src/controllers/announcementController.ts:93-106 | Exactly the announcement's read rows, newest read first. |
| Announcements.StatusOf | to_the_moon_backend/src/controllers/announcementController.ts:136-144 | `has_read` holds exactly when the student has a read row, and then `read_at` is that row's time. Over reads sorted newest first, that time is at least every read time of the student, so it is the newest read. |
| Announcements.StatusMatchesTable | to_the_moon_backend/src/controllers/announcementController.ts:132-144 | A student's entry reports a read exactly when the table holds a read row for the pair. The reported `read_at` is the time of one of the pair's rows, and no row of the pair is later. |
| Announcements.GetAnnouncement | to_the_moon_backend/src/controllers/announcementController.ts:73-151 | The role gate, then 404 unless the caller owns the id. The detail lists the read rows newest first, and has one entry per active student with `has_read` exactly when that student has a read row. Each reported `read_at` is the time of one of the student's read rows, and no read row of the pair is later. |
| Announcements.Fanout | to_the_moon_backend/src/controllers/announcementController.ts:196-214 | One `feedback_received` notice per active student, in order, titled "새 공지사항", with a message that ends in the announcement's title. |
| Announcements.CreateOutcome | to_the_moon_backend/src/controllers/announcementController.ts:166-193 | The role gate, then 400 unless the title and content are non-empty; the new row is the caller's, active, created and updated now. The handler sets neither `is_active` nor `created_at`; the model takes them from the table's defaults (true and the insertion time). |
| Announcements.AnnouncementBoard.CreateAnnouncement | to_the_moon_backend/src/controllers/announcementController.ts:185-214 | On success one row is appended and the notification log grows by exactly the fan-out; on an error neither changes; read rows never change. |
| Announcements.UpdateOutcome | to_the_moon_backend/src/controllers/announcementController.ts:231-266 | The role gate, then 404 unless the caller owns the id. Title and content change only when non-empty, `is_active` only when given, and `updated_at` is now; nothing else changes. |
| Announcements.AnnouncementBoard.UpdateAnnouncement | to_the_moon_backend/src/controllers/announcementController.ts:258-266 | Only the addressed row is replaced. |
| Announcements.DeleteTarget | to_the_moon_backend/src/controllers/announcementController.ts:283-311 | The role gate, then 404 unless the caller owns the id; otherwise the row's position. |
| Announcements.AnnouncementBoard.DeleteAnnouncement | to_the_moon_backend/src/controllers/announcementController.ts:309-311 | Exactly the addressed row is removed and no row with that id remains. |
| Announcements.StudentTeacher | to_the_moon_backend/src/controllers/announcementController.ts:328-352 | The student role gate, then 404 without an active profile; otherwise the profile's teacher. |
| Announcements.FirstReadOf | to_the_moon_backend/src/controllers/announcementController.ts:366-384 | A read row of the pair exists exactly when one is returned, and the returned row is the first row of the pair in table order. |
| Announcements.StudentEntry | to_the_moon_backend/src/controllers/announcementController.ts:377-385 | `is_read` holds exactly when the student has a read row. `read_at` is present exactly then, and it is the time of the first read row of the pair. |
| Announcements.GetStudentAnnouncements | to_the_moon_backend/src/controllers/announcementController.ts:328-387 | The active announcements of the student's teacher, newest first, as a permutation of those rows. Each has `is_read` exactly when the student has a read row, and `read_at` is the time of the first such row. |
| Announcements.UnreadCount | to_the_moon_backend/src/controllers/announcementController.ts:402-446 | The student role gate. Without an active profile the count is 0. Otherwise it is the number of the teacher's active announcements minus the student's read rows of them. |
| Announcements.CountedIsReadActive | to_the_moon_backend/src/controllers/announcementController.ts:436-444 | With unique ids and one row per pair, the read rows counted are as many as the active announcements the student has read. |
| Announcements.UnreadCountIsUnreadAnnouncements | to_the_moon_backend/src/controllers/announcementController.ts:428-446 | With unique ids and one row per pair, the count is the number of active announcements the student has not read, so it is never negative. |
| Announcements.MarkAsReadTarget | to_the_moon_backend/src/controllers/announcementController.ts:461-500 | The student role gate, 404 without an active profile, and 404 unless the id is an active announcement of the student's teacher. |
| Announcements.ExactlyOneReadRow | to_the_moon_backend/src/controllers/announcementController.ts:502-518 | With one row per pair, a pair that has been read has exactly one row. |
| Announcements.AnnouncementBoard.MarkAsRead | to_the_moon_backend/src/controllers/announcementController.ts:502-518 | A row is added only when the pair has none, so afterwards the pair has exactly one row (idempotent); announcements and notifications are unchanged. |
| Frontend.ParseStatus | to_the_moon_frontend/app/admin/lessons/page.tsx:105-116 | A status string reads back as itself, and is unknown exactly when it is none of the three. |
| Frontend.ParseStatusName | to_the_moon_frontend/app/admin/lessons/page.tsx:105-116 | A status received from the server parses back to the same status. |
| Frontend.FormatRelativeTime | to_the_moon_frontend/app/teacher/dashboard/page.tsx:81-94 | Each bucket holds exactly for its range of elapsed milliseconds: under a minute (future times included) "방금 전", then minutes, hours, exactly one day "어제", 2 to 6 days, then a date. The number shown is the floor of the elapsed time. The teacher lessons page has the same function at to_the_moon_frontend/app/teacher/lessons/page.tsx:43-56. |
| NewLesson.PickerOf | to_the_moon_frontend/app/teacher/lessons/new/page.tsx:145-150 | The picker position (AM or PM, 1..12) that shows a 24-hour clock hour. |
| NewLesson.Hour24RoundTrip | to_the_moon_frontend/app/teacher/lessons/new/page.tsx:145-150 | Each picker position maps into 0..23, PM exactly onto 12..23, and back to itself. |
| NewLesson.PickerOfRoundTrip | to_the_moon_frontend/app/teacher/lessons/new/page.tsx:145-150 | Every hour of the day is reached from its picker position. |
| NewLesson.Hour24Injective | to_the_moon_frontend/app/teacher/lessons/new/page.tsx:145-150 | Different picker positions never give the same hour. |
| NewLesson.PaddedHour | to_the_moon_frontend/app/teacher/lessons/new/page.tsx:151 | A padded hour is its two decimal digits. |
| NewLesson.TimeStrShape | to_the_moon_frontend/app/teacher/lessons/new/page.tsx:151 | `timeStr` is five characters: two digits reading back as the hour, a colon, and the chosen minute. |
| NewLesson.ScheduledAtWellFormed | to_the_moon_frontend/app/teacher/lessons/new/page.tsx:151-154 | Any picked hour and minute give a `scheduled_at` made of the date, `T`, two digits reading back as the hour, a colon, the minute and `:00+09:00`. |
| NewLesson.ScheduledAtShape | to_the_moon_frontend/app/teacher/lessons/new/page.tsx:154 | `scheduled_at` is the date, `T`, the time, then `:00+09:00`. |
| NewLesson.NewLessonForm.HandleSubmit | to_the_moon_frontend/app/teacher/lessons/new/page.tsx:115-176 | Without a student or a date nothing is sent. Otherwise exactly one payload is sent: the student, the title, the scheduled time from the picker, the duration, and location and notes ("" when missing). The sent `scheduled_at` is well formed: its two hour digits read back as the picked hour on the 24-hour clock. On success the page moves to the lesson list. Loading ends either way. |
| TeacherDashboard.EligibleLessons | to_the_moon_frontend/app/teacher/dashboard/page.tsx:157-160 | Exactly the completed lessons and the scheduled lessons that have started; never a cancelled one. |
| TeacherDashboard.PendingFeedbackCount | to_the_moon_frontend/app/teacher/dashboard/page.tsx:161-168 | pending ≤ eligible ≤ all lessons. |
| TeacherDashboard.PendingCountIsFilter | to_the_moon_frontend/app/teacher/dashboard/page.tsx:157-168 | The count is the number of eligible lessons whose feedback is missing, an empty array or an empty object. |
| TeacherDashboard.PendingIgnoresCancelledAndFuture | to_the_moon_frontend/app/teacher/dashboard/page.tsx:157-168 | Adding a cancelled lesson, or a scheduled lesson that has not started, leaves the count unchanged. |
| TeacherDashboard.PendingCountsNewEligible | to_the_moon_frontend/app/teacher/dashboard/page.tsx:157-168 | Adding an eligible lesson without feedback raises the count by one. |
| TeacherDashboard.ReactedNewestFirst | to_the_moon_frontend/app/teacher/dashboard/page.tsx:146-152 | The feedbacks with a reaction, a permutation sorted by reaction time descending, with a missing time treated as 0. |
| TeacherDashboard.RecentReactions | to_the_moon_frontend/app/teacher/dashboard/page.tsx:146-153 | Feedbacks with a reaction, newest first: all of them when there are fewer than five, otherwise exactly five. |
| TeacherDashboard.RecentReactionsAreNewest | to_the_moon_frontend/app/teacher/dashboard/page.tsx:146-153 | No omitted reaction is newer than a shown one, and with at most five reactions every one is shown. |
| TeacherDashboard.UpcomingLessons | to_the_moon_frontend/app/teacher/dashboard/page.tsx:194 | Exactly the scheduled lessons, in order. |
| TeacherDashboard.SelectedDateLessons | to_the_moon_frontend/app/teacher/dashboard/page.tsx:217-226 | Nothing without a selected day; otherwise exactly the scheduled lessons on that local day. |
| TeacherDashboard.EventOf | to_the_moon_frontend/app/teacher/dashboard/page.tsx:197-214 | An event runs from the lesson's start for duration × 60000 ms. |
| TeacherDashboard.Dashboard.FetchDashboardData | to_the_moon_frontend/app/teacher/dashboard/page.tsx:127-177 | On success the lessons, the recent reactions and the pending count come from the fetched data; on failure they are kept; loading ends either way. |
| TeacherDashboard.Dashboard.ViewReaction | to_the_moon_frontend/app/teacher/dashboard/page.tsx:340-350 | Only an unviewed reaction whose request succeeds is marked viewed now, and only entries with that id change. |
| TeacherLessons.FilteredLessons | to_the_moon_frontend/app/teacher/lessons/page.tsx:142-144 | No filter keeps every lesson; a filter keeps exactly that student's lessons, in order. |
| TeacherLessons.UpcomingLessons | to_the_moon_frontend/app/teacher/lessons/page.tsx:146 | Exactly the scheduled lessons, in order. |
| TeacherLessons.PastLessons | to_the_moon_frontend/app/teacher/lessons/page.tsx:147 | Exactly the completed and cancelled lessons, in order. |
| TeacherLessons.TabsPartition | to_the_moon_frontend/app/teacher/lessons/page.tsx:146-147 | The tabs are disjoint and, when every status is one of the three, together hold every lesson. |
| TeacherLessons.FeedbackButton | to_the_moon_frontend/app/teacher/lessons/page.tsx:311-317 | Shown exactly for completed lessons: "피드백 수정" when any feedback value is attached, "피드백 작성" otherwise. |
| TeacherLessons.RestoreButton | to_the_moon_frontend/app/teacher/lessons/page.tsx:318-328 | Shown exactly for cancelled lessons, and disabled exactly while that lesson is being restored. |
| TeacherLessons.ButtonsExclusive | to_the_moon_frontend/app/teacher/lessons/page.tsx:311-328 | No lesson shows both buttons. |
| TeacherLessons.EmptyFeedbackLabelledAsWritten | to_the_moon_frontend/app/teacher/lessons/page.tsx:312-314 | A completed lesson whose feedback is an empty array or object is pending on the dashboard, yet this page labels it "피드백 수정". |
| TeacherLessons.LessonsPage.HandleRestoreLesson | to_the_moon_frontend/app/teacher/lessons/page.tsx:103-124 | The restore request is sent, the list is replaced by the reload when it succeeds, and `restoringId` ends cleared whatever happens. |
| StudentLessons.TabLessons | to_the_moon_frontend/app/student/lessons/page.tsx:85-87 | Exactly the lessons of one status, in fetched order. |
| StudentLessons.TabsDisjoint | to_the_moon_frontend/app/student/lessons/page.tsx:85-87 | Tabs of different statuses share no lesson. |
| StudentLessons.TabsCoverAll | to_the_moon_frontend/app/student/lessons/page.tsx:85-87 | With the three-valued status, the tab sizes add up to the number of lessons. |
| StudentLessons.TotalHeadingCount | to_the_moon_frontend/app/student/lessons/page.tsx:151 | The heading's number reads back as the number of lessons. |
| StudentLessons.TabLabelCount | to_the_moon_frontend/app/student/lessons/page.tsx:157-165 | Each tab label's number reads back as the size of its list. |
| AdminLessons.ShowsControls | to_the_moon_frontend/app/admin/lessons/page.tsx:230 | Edit and cancel are shown exactly for scheduled lessons strictly in the future. |
| AdminLessons.UpcomingComplementsEligible | to_the_moon_frontend/app/admin/lessons/page.tsx:118-120 | For a scheduled lesson, this page's "upcoming" (strict) is exactly the negation of the dashboard's "feedback-eligible" (not strict). |
| AdminLessons.ControlsOnlyWhileScheduled | to_the_moon_frontend/app/admin/lessons/page.tsx:118-120 | A finished, cancelled or started lesson offers no controls. |
| AdminLessons.StatusParam | to_the_moon_frontend/app/admin/lessons/page.tsx:67 | "upcoming" and "past" map to their query strings; any other tab maps to "". |
| AdminLessons.StatusBadge | to_the_moon_frontend/app/admin/lessons/page.tsx:105-116 | 예정, 완료 and 취소 for the three statuses, and the raw text otherwise. |
| AdminLessons.BadgesDistinct | to_the_moon_frontend/app/admin/lessons/page.tsx:105-116 | The three known statuses get different badges. |
| AdminLessons.UnknownBadgeIsRaw | to_the_moon_frontend/app/admin/lessons/page.tsx:113-114 | An unknown status string is shown as it came. |
| AdminLessons.AdminLessonsPage.CancelLesson | to_the_moon_frontend/app/admin/lessons/page.tsx:82-103 | Declining the confirmation changes nothing. Otherwise the request is sent, a reload follows success, and `cancelling` ends cleared. |
| AdminStudents.FilteredStudents | to_the_moon_frontend/app/admin/students/page.tsx:77-80 | Exactly the students whose lower-cased name or teacher name contains the lower-cased query, in order. |
| AdminStudents.EmptyQueryKeepsAll | to_the_moon_frontend/app/admin/students/page.tsx:77-80 | An empty query keeps every student, in order. |
| AdminStudents.AssignedStudents | to_the_moon_frontend/app/admin/students/page.tsx:82 | Exactly the students with an active profile, in order. |
| AdminStudents.UnassignedStudents | to_the_moon_frontend/app/admin/students/page.tsx:83 | Exactly the students without a profile, in order. |
| AdminStudents.SplitAccountsForAll | to_the_moon_frontend/app/admin/students/page.tsx:82-83 | The lists are disjoint, a student with an inactive profile is in neither, and the lists plus those students account for every match. |
| AdminStudents.HeadingCounts | to_the_moon_frontend/app/admin/students/page.tsx:109-143 | The number in each heading reads back as the size of its list. |
| AdminStudents.ShowsUnassignedCard | to_the_moon_frontend/app/admin/students/page.tsx:106 | The unassigned card is shown exactly when some matching student has no profile. |
| AnnouncementBanner.UnreadOnly | to_the_moon_frontend/components/student/announcement-banner.tsx:36 | Exactly the unread announcements, in order. |
| AnnouncementBanner.CarouselMoves | to_the_moon_frontend/components/student/announcement-banner.tsx:61-67 | On a non-empty list, next and prev stay in range and each undoes the other. |
| AnnouncementBanner.IndexAfterRemoval | to_the_moon_frontend/components/student/announcement-banner.tsx:49-51 | At or past the old last position the index steps back, not below 0; otherwise it stays. |
| AnnouncementBanner.RemovalShortensByAtMostOne | to_the_moon_frontend/components/student/announcement-banner.tsx:48 | With unique ids, removing one id shortens the list by at most one. |
| AnnouncementBanner.Banner.Shown | to_the_moon_frontend/components/student/announcement-banner.tsx:69-73 | Nothing is shown while loading, after dismissal or with an empty list; otherwise the current announcement is shown. |
| AnnouncementBanner.Banner.FetchAnnouncements | to_the_moon_frontend/components/student/announcement-banner.tsx:31-43 | The list becomes the unread announcements fetched, or is kept when the request fails; loading ends. |
| AnnouncementBanner.Banner.HandleMarkAsRead | to_the_moon_frontend/components/student/announcement-banner.tsx:45-55 | After the server accepts the read, exactly the entries with that id leave the list and the index is adjusted; the index stays valid. On failure nothing changes. |
| AnnouncementBanner.Banner.HandleDismiss | to_the_moon_frontend/components/student/announcement-banner.tsx:57-59 | The banner is hidden, and nothing else changes. |
| AnnouncementBanner.Banner.HandlePrev | to_the_moon_frontend/components/student/announcement-banner.tsx:61-63 | The index moves back, wrapping to the last; it stays in range. |
| AnnouncementBanner.Banner.HandleNext | to_the_moon_frontend/components/student/announcement-banner.tsx:65-67 | The index moves on, wrapping to 0; it stays in range. |
| NotificationBell.IconOf | to_the_moon_frontend/components/notifications/notification-bell.tsx:108-117 | A cross exactly for cancellations, a person exactly for teacher changes, a calendar otherwise. |
| NotificationBell.BadgeText | to_the_moon_frontend/components/notifications/notification-bell.tsx:139-142 | No badge exactly when the count is at most 0, "9+" above 9, otherwise one digit reading back as the count. |
| NotificationBell.FormatTime | to_the_moon_frontend/components/notifications/notification-bell.tsx:119-132 | There is never a "어제" bucket. |
| NotificationBell.FormatTimeMatchesRelativeTime | to_the_moon_frontend/components/notifications/notification-bell.tsx:119-132 | Taking hours from whole minutes and days from whole hours gives the dashboard's buckets, except that one day reads "1일 전". |
| NotificationBell.Bell.FetchUnreadCount | to_the_moon_frontend/components/notifications/notification-bell.tsx:52-59 | The count becomes the server's, or is kept when the request fails. |
| NotificationBell.Bell.FetchNotifications | to_the_moon_frontend/components/notifications/notification-bell.tsx:61-71 | The list becomes the server's, or is kept when the request fails. |
| NotificationBell.Bell.MarkAsRead | to_the_moon_frontend/components/notifications/notification-bell.tsx:73-83 | On success exactly the notifications with that id become read and the count becomes max(0, count − 1); on failure nothing changes. |
| NotificationBell.Bell.MarkAllAsRead | to_the_moon_frontend/components/notifications/notification-bell.tsx:85-93 | On success every notification is read and the count is 0; on failure nothing changes. |
| NotificationBell.Bell.HandleNotificationClick | to_the_moon_frontend/components/notifications/notification-bell.tsx:95-106 | Only an unread notification is marked read. The popover closes. A notification with a lesson id opens `/teacher` or `/student` + `/lessons/` + that id, by the caller's role. |
| StudentFeedback.IdRun | to_the_moon_frontend/app/student/feedback/page.tsx:47-48 | The longest run of characters other than `&`, line feed, `?` and `#` at a position. |
| StudentFeedback.MatchingAlt | to_the_moon_frontend/app/student/feedback/page.tsx:47 | The first alternative that matches at a position, followed by at least one id character. |
| StudentFeedback.MatchPosition | to_the_moon_frontend/app/student/feedback/page.tsx:51 | The leftmost position where some alternative matches. |
| StudentFeedback.MatchId | to_the_moon_frontend/app/student/feedback/page.tsx:51-52 | A match exists exactly when there is a matching position; the id is the non-empty run after the leftmost match. |
| StudentFeedback.GetYoutubeVideoId | to_the_moon_frontend/app/student/feedback/page.tsx:45-55 | The id from the first pattern that matches anywhere, with every earlier pattern not matching; none when no pattern matches. |
| StudentFeedback.AlternativesNameYoutube | to_the_moon_frontend/app/student/feedback/page.tsx:46-49 | Every alternative begins with "youtube.com" or "youtu.be". |
| StudentFeedback.MatchImpliesYoutubeUrl | to_the_moon_frontend/app/student/feedback/page.tsx:58-60 | A link in which any pattern finds a video is a YouTube link. |
| StudentFeedback.EmbeddedVideoId | to_the_moon_frontend/app/student/feedback/page.tsx:373 | The `isYoutubeUrl` guard never hides a video: the embedded id is exactly the extractor's answer. |
| StudentFeedback.ReferenceLinks | to_the_moon_frontend/app/student/feedback/page.tsx:372 | Exactly the non-blank lines of the reference links, in order. |
| StudentFeedback.FeedbackPage.HandleEmojiSelect | to_the_moon_frontend/app/student/feedback/page.tsx:78-89 | Only that feedback's form changes: the emoji is set, the input opens, and any typed message is kept. |
| StudentFeedback.FeedbackPage.HandleMessageChange | to_the_moon_frontend/app/student/feedback/page.tsx:92-102 | A text longer than 100 UTF-16 code units is ignored; otherwise it becomes that feedback's message, and nothing else changes. A form's message has a type bounded at 100 code units, so no stored message exceeds the limit. |
| StudentFeedback.FeedbackPage.SubmitReaction | to_the_moon_frontend/app/student/feedback/page.tsx:105-158 | Nothing happens without an emoji. On success only that feedback gets the reaction, the message (none when empty) and the time, and its form is reset. On failure the list is unchanged and the form stops submitting. |

## Left out

- Database access, Express plumbing and HTTP status emission are not modelled. Handlers return a `Result` whose error carries the status code.
- The 500 answers of every handler's `catch` are left out, since the database is not modelled.
- `createNotification` (in `notificationController.ts`) is not part of this model. The fan-out is an appended log, and a failing notification is not modelled.
- Announcements.AnnouncementBoard.MarkAsRead: two concurrent calls can both pass the find-then-create check and insert two rows. The model runs handlers one at a time, so the race is not modelled.
- Announcements.AnnouncementBoard.DeleteAnnouncement: whether the database cascades to `announcement_reads` is not visible in the handler. The read rows are left in place.
- Announcements.UnreadCount: the result is an `int`. It is shown non-negative only under unique announcement ids and at most one read row per pair (Announcements.UnreadCountIsUnreadAnnouncements).
- StickerStore.ListStickers: `limit` and `offset` arrive already parsed as non-negative numbers. `parseInt` of text that is not a number is not modelled.
- StickerStore.ListStickers: each listed row also carries `meta`, its level's entry of the sticker table. The model returns the rows without it. The entry is what `StickerLevels.Meta` gives for the row's level.
- StickerStore.ListStickers: SQL leaves the order of equal `created_at` values open; the model's stable sort keeps table order.
- StickerStore.Latest and Announcements.NewestFirst: ties in time are broken by table order in the same way.
- Announcements.ReadsNewestFirst: reads with equal `read_at` keep table order, where SQL leaves their order open.
- Announcements.FirstReadOf: the `announcement_reads` include has no `orderBy`, so `announcement_reads[0]` is taken to be the pair's first row in table order.
- Announcements.CreateOutcome: `is_active` (true) and `created_at` (now) are schema defaults, not set by the handler. The table's schema is not part of this model.
- StickerLevels.Lookup: only the seven level names are keys. Inherited object properties such as `constructor` are not modelled.
- The lesson, feedback, notification, auth and admin controllers are not part of this model. Their status transitions and uniqueness rules are unknown here; only the client-side gates are modelled.
- Locale formatting is not modelled. `toLocaleDateString` appears as the `OnDate` bucket, and the calendar event title (`toLocaleTimeString`) is left out.
- `Date` parsing is not modelled: times are integer milliseconds.
- TeacherDashboard.SelectedDateLessons: the local calendar day of a time is the parameter `dayOf`.
- AdminStudents.FilteredStudents: `toLowerCase` is modelled for ASCII letters only; other case mappings are not.
- StudentFeedback.IdRun: `\n` in the character class is the line feed only.
- StudentFeedback.GetYoutubeVideoId: the regular expressions are modelled as a leftmost scan that tries the alternatives in order at each position, not as a general regex engine.
- StudentFeedback.FeedbackPage.HandleMessageChange: `message.length` counts UTF-16 code units, modelled by `Utf16Length`. Text input events are not modelled.
- NotificationBell.Bell.HandleNotificationClick: the page does not await `markAsRead`. The model completes the request before the popover closes.
- NotificationBell.Bell.HandleNotificationClick: any caller that is not a teacher, or no caller at all, goes under `/student`.
- NotificationBell.Bell.FetchUnreadCount: the 30-second polling interval is not modelled; each poll is one call.
- AnnouncementBanner.Banner.FetchAnnouncements: it runs once, at mount, while the index is still 0. Its precondition says so.
- AnnouncementBanner.Banner.HandlePrev and AnnouncementBanner.Banner.HandleNext require a non-empty list. The page shows these buttons only for more than one announcement.
- AdminLessons.AdminLessonsPage.CancelLesson: declining the confirmation returns before the `try`, so `cancelling` keeps its value. The reload after success is counted, not performed.
- TeacherLessons.LessonsPage.HandleRestoreLesson: the restore request and the reload are one outcome (`refetched`, none when either fails).
- TeacherDashboard.Dashboard.FetchDashboardData: the four requests are one outcome. The student list it also stores is not modelled. The page shows only the student count and the first three names from it, which are display only.
- NewLesson.NewLessonForm.HandleSubmit: `FormData` values arrive as optional strings, and the request outcome is a parameter. Toasts are not modelled.
- Toasts, navigation menus, layout, and the pages outside the nine modelled ones are left out, along with the student dashboard (floating-point progress) and average ratings.
