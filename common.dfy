/**
 * Entities of the academy's relational store, the enumerations they use, and the
 * failures the backend reports. Ids are the store's integer primary keys; dates are
 * integer timestamps.
 */
module Common {

  type Id = int
  type Timestamp = int

  datatype Option<+T> = None | Some(value: T)

  /** Either a value or the failure a service throws or a route answers with. */
  datatype Result<+T> = Ok(value: T) | Err(error: Error)

  /** An enumeration field of a request body: absent (`undefined`, which the store
      reads as "no condition" or "leave unchanged"), a member of the enumeration, or
      any other value, which the store's validation rejects. */
  datatype Field<+T> = Absent | Given(value: T) | Malformed

  datatype Error =
    // thrown by the rule resolver; the message names the academy and the three values
    | NoRule(academyId: Id, level: Level, frequency: Frequency, group: AthleteGroup)
    // thrown by the session generator
    | AthleteNotFound
    | NoCoachAvailable
    // answered by the authorization gate
    | Unauthorized        // 401
    | Forbidden           // 403
    // answered by the routes
    | MissingFields       // 400 on complete-drill
    | DuplicateRule       // 400 on rule creation
    | ProfileNotFound     // 404 on check-in
    | NoSessionToday      // 404 on check-in
    | NoMatchingTemplate  // 404 on session setup
    // a store call that rejects (missing row, constraint violation, unparsable number)
    // or a failing property access: 500 where the handler catches it, unhandled otherwise
    | StoreError

  datatype Role = ATHLETE | COACH | PARENT | ADMIN

  /** The three classification axes. Only equality on them is ever used. */
  datatype Level = L0 | L1 | L2
  datatype Frequency = F1X | F2X | F4_5X
  datatype AthleteGroup = YOUTH | HS | ADULT

  datatype WorkoutType = A_LOWER | B_UPPER | C_SPEED | D_RECOVERY
  datatype Duration = MIN_45 | MIN_60 | MIN_75 | MIN_90 | MIN_120
  datatype AttendanceStatus = PENDING | PRESENT | COMPLETED

  datatype User = User(id: Id, role: Role, academyId: Id, firstName: string, lastName: string)

  /** The classification of an athlete; `userId` is the owning user (unique). */
  datatype AthleteProfile =
    AthleteProfile(id: Id, userId: Id, level: Level, frequency: Frequency, group: AthleteGroup)

  /** A parent user linked to an athlete user. */
  datatype ParentLink = ParentLink(parentId: Id, athleteUserId: Id)

  datatype SessionTemplate =
    SessionTemplate(id: Id, academyId: Id, name: string, workoutType: WorkoutType, duration: Duration)

  /** One drill assignment of a template, at position `order`. */
  datatype TemplateDrill =
    TemplateDrill(id: Id, templateId: Id, drillId: Id, order: int, sets: string, reps: string)

  /** The descriptive columns of a drill, written as given by create and update. */
  datatype DrillContent = DrillContent(
    name: string, category: string, description: string, videoUrl: string,
    cue1: string, cue2: string, cue3: string,
    baseReps: string, baseSets: string, baseRest: string)

  datatype Drill = Drill(id: Id, academyId: Id, content: DrillContent, difficulty: int)

  /** Maps a classification tuple of one academy to a template. */
  datatype Rule = Rule(id: Id, academyId: Id, level: Level, frequency: Frequency,
                       group: AthleteGroup, templateId: Id)

  datatype Session = Session(id: Id, date: Timestamp, templateId: Id, coachId: Id, academyId: Id)

  datatype Attendance = Attendance(id: Id, sessionId: Id, athleteId: Id,
                                   status: AttendanceStatus, selectedProgram: Option<string>)

  /** Append-only record of one finished drill within one attendance. */
  datatype DrillCompletion = DrillCompletion(id: Id, attendanceId: Id, drillId: Id)
}
