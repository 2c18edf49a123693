/**
 * What every handler shares: the authenticated caller, the HTTP errors the
 * handlers answer with, JSON request fields with JavaScript truthiness, and the
 * `student_profiles` relation that links a student to a teacher.
 */
module Backend {
  import opened Wrappers
  import Seqs

  datatype Role = Teacher | Student

  /** `req.user`, as the authentication middleware sets it. */
  datatype User = User(userId: string, role: Role)

  datatype HttpError = BadRequest | Unauthorized | Forbidden | NotFound {
    function Code(): nat {
      match this
      case BadRequest => 400
      case Unauthorized => 401
      case Forbidden => 403
      case NotFound => 404
    }
  }

  datatype Result<+T> = Ok(value: T) | Err(error: HttpError)

  /** The role gate at the top of a handler: 401 without a user, 403 for the wrong role. */
  function RequireRole(caller: Option<User>, role: Role): (r: Result<User>)
    ensures r.Ok? <==> caller.Some? && caller.value.role == role
    ensures r.Ok? ==> r.value == caller.value
    ensures caller.None? ==> r == Err(Unauthorized)
    ensures caller.Some? && caller.value.role != role ==> r == Err(Forbidden)
  {
    match caller
    case None => Err(Unauthorized)
    case Some(u) => if u.role == role then Ok(u) else Err(Forbidden)
  }

  /** A string field of a JSON body or query string: absent, `null`, or present. */
  datatype Field = Undefined | Null | Given(text: string) {

    /** `!!field` */
    predicate Truthy() { Given? && text != "" }

    /** `field || null` */
    function OrNull(): (r: Option<string>)
      ensures r.Some? <==> Truthy()
      ensures r.Some? ==> r.value == text
    {
      if Truthy() then Some(text) else None
    }
  }

  /** The `type` column of `notifications`. */
  datatype NotificationType = LessonCreated | LessonUpdated | LessonCancelled | TeacherChanged | FeedbackReceived {
    function Name(): string {
      match this
      case LessonCreated => "lesson_created"
      case LessonUpdated => "lesson_updated"
      case LessonCancelled => "lesson_cancelled"
      case TeacherChanged => "teacher_changed"
      case FeedbackReceived => "feedback_received"
    }
  }

  datatype StudentProfile = StudentProfile(id: string, userId: string, teacherId: string, isActive: bool)

  predicate IsActiveOf(p: StudentProfile, teacherId: string) {
    p.teacherId == teacherId && p.isActive
  }

  /** `student_profiles.findMany({ where: { teacher_id, is_active: true } })` */
  function ActiveProfiles(profiles: seq<StudentProfile>, teacherId: string): (r: seq<StudentProfile>)
    ensures forall k :: 0 <= k < |r| ==> r[k] in profiles && IsActiveOf(r[k], teacherId)
    ensures forall k :: 0 <= k < |profiles| && IsActiveOf(profiles[k], teacherId) ==> profiles[k] in r
  {
    Seqs.Filter(profiles, p => IsActiveOf(p, teacherId))
  }

  /** `student_profiles.findFirst({ where: { user_id, is_active: true } })` */
  function ActiveProfileOf(profiles: seq<StudentProfile>, userId: string): (r: Option<StudentProfile>)
    ensures r.Some? ==> r.value in profiles && r.value.userId == userId && r.value.isActive
    ensures r.None? ==> forall k :: 0 <= k < |profiles| ==> !(profiles[k].userId == userId && profiles[k].isActive)
  {
    if profiles == [] then None
    else if profiles[0].userId == userId && profiles[0].isActive then Some(profiles[0])
    else ActiveProfileOf(profiles[1..], userId)
  }
}
