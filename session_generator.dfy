/**
 * The session generator: from an athlete profile, resolve the template of the
 * athlete's classification in the athlete's academy, pick the first coach of that
 * academy, and insert one Session together with one PENDING Attendance. Each failure
 * aborts before anything is written.
 */
module SessionGenerator {
  import opened Common
  import opened Query
  import opened Store
  import opened RuleEngine

  predicate IsCoachOf(u: User, academyId: Id) {
    u.role == COACH && u.academyId == academyId
  }

  /** The first user, in table order, who is a coach of the academy. */
  function FindCoach(users: seq<User>, academyId: Id): (r: Option<User>)
    ensures r.Some? ==> r.value in users && r.value.role == COACH && r.value.academyId == academyId
    ensures r.None? <==> forall u :: u in users ==> !IsCoachOf(u, academyId)
  {
    First(users, (u: User) => IsCoachOf(u, academyId))
  }

  function FindAthlete(athletes: seq<AthleteProfile>, athleteId: Id): (r: Option<AthleteProfile>)
    ensures r.Some? ==> r.value in athletes && r.value.id == athleteId
    ensures r.None? <==> forall p :: p in athletes ==> p.id != athleteId
  {
    First(athletes, (p: AthleteProfile) => p.id == athleteId)
  }

  /** The academy of the user owning a profile (the profile's user always exists). */
  function AcademyOf(users: seq<User>, p: AthleteProfile): (a: Id)
    requires exists u :: u in users && u.id == p.userId
    ensures exists u :: u in users && u.id == p.userId && u.academyId == a
  {
    match First(users, (u: User) => u.id == p.userId)
    case Some(u) => u.academyId
    case None => assert false; 0
  }

  /** What a generated session is bound to. */
  datatype Assignment = Assignment(templateId: Id, coachId: Id, academyId: Id)

  /** The reads of generateAthleteSession, in order: the athlete, the template of the
      athlete's classification in the athlete's academy, the first coach of that academy. */
  function PlanSession(athletes: seq<AthleteProfile>, users: seq<User>, rules: seq<Rule>,
                       templates: seq<SessionTemplate>, templateDrills: seq<TemplateDrill>,
                       athleteId: Id): (r: Result<Assignment>)
    requires AthletesHaveUsers(athletes, users) && RulesHaveTemplates(rules, templates)
    ensures r == Err(AthleteNotFound) <==> forall p :: p in athletes ==> p.id != athleteId
    ensures r.Err? ==> r.error == AthleteNotFound || r.error == NoCoachAvailable || r.error.NoRule?
    // a resolver failure is passed on unchanged, naming the athlete's own classification
    ensures r.Err? && r.error.NoRule? ==>
              exists p :: p in athletes && p.id == athleteId
                && p.level == r.error.level && p.frequency == r.error.frequency && p.group == r.error.group
                && (forall x :: x in rules ==> !IsRuleFor(x, r.error.academyId, p.level, p.frequency, p.group))
    // with the athlete found, the plan succeeds exactly when a rule for the athlete's own
    // classification in the athlete's own academy and a coach of that academy both exist
    ensures FindAthlete(athletes, athleteId).Some? ==>
              var p := FindAthlete(athletes, athleteId).value;
              var a := AcademyOf(users, p);
              && (r.Ok? <==> FindRule(rules, a, p.level, p.frequency, p.group).Some? && FindCoach(users, a).Some?)
              && (r.Err? && r.error.NoRule? ==> r.error == NoRule(a, p.level, p.frequency, p.group))
              // the rule is resolved before the coach is looked up
              && (FindRule(rules, a, p.level, p.frequency, p.group).None? ==> r == Err(NoRule(a, p.level, p.frequency, p.group)))
    ensures r == Err(NoCoachAvailable) ==> forall u :: u in users ==> u.role != COACH || u.academyId != AcademyOf(users, FindAthlete(athletes, athleteId).value)
    // on success: the academy is the athlete's, the template comes from the matching rule,
    // and the coach is a coach of that academy
    ensures r.Ok? ==> exists p :: p in athletes && p.id == athleteId
                        && (exists u :: u in users && u.id == p.userId && u.academyId == r.value.academyId)
                        && (exists x :: x in rules && IsRuleFor(x, r.value.academyId, p.level, p.frequency, p.group)
                                        && x.templateId == r.value.templateId)
    ensures r.Ok? ==> HasTemplate(templates, r.value.templateId)
    ensures r.Ok? ==> exists c :: c in users && c.id == r.value.coachId && IsCoachOf(c, r.value.academyId)
  {
    match FindAthlete(athletes, athleteId)
    case None => Err(AthleteNotFound)
    case Some(p) =>
      var academyId := AcademyOf(users, p);
      match ResolveTemplate(rules, templates, templateDrills, academyId, p.level, p.frequency, p.group)
      case Err(e) => Err(e)
      case Ok(resolved) =>
        match FindCoach(users, academyId)
        case None => Err(NoCoachAvailable)
        case Some(coach) => Ok(Assignment(resolved.template.id, coach.id, academyId))
  }

  /** generateAthleteSession(athleteId, date). */
  method GenerateAthleteSession(db: Store, athleteId: Id, date: Timestamp) returns (r: Result<Session>)
    requires db.Valid()
    modifies db`sessions, db`attendances, db`nextSessionId, db`nextAttendanceId
    ensures db.Valid()
    ensures var plan := old(PlanSession(db.athletes, db.users, db.rules, db.templates, db.templateDrills, athleteId));
            && (plan.Err? ==> r == Err(plan.error))
            && (plan.Ok? ==> r == Ok(Session(old(db.nextSessionId), date, plan.value.templateId,
                                             plan.value.coachId, plan.value.academyId)))
    // all or nothing: a failure writes nothing, a success writes one session and its attendance
    ensures r.Err? ==> db.sessions == old(db.sessions) && db.attendances == old(db.attendances)
    ensures r.Ok? ==> db.sessions == old(db.sessions) + [r.value]
    ensures r.Ok? ==> db.attendances == old(db.attendances) +
                        [Attendance(old(db.nextAttendanceId), r.value.id, athleteId, PENDING, None)]
    ensures r.Ok? ==> forall s :: s in old(db.sessions) ==> s.id != r.value.id
    ensures db.nextSessionId == old(db.nextSessionId) + (if r.Ok? then 1 else 0)
    ensures db.nextAttendanceId == old(db.nextAttendanceId) + (if r.Ok? then 1 else 0)
  {
    var plan := PlanSession(db.athletes, db.users, db.rules, db.templates, db.templateDrills, athleteId);
    if plan.Err? {
      return Err(plan.error);
    }
    var session := Session(db.nextSessionId, date, plan.value.templateId, plan.value.coachId,
                           plan.value.academyId);
    var attendance := Attendance(db.nextAttendanceId, session.id, athleteId, PENDING, None);
    db.InsertSession(session, attendance);
    r := Ok(session);
  }

  /** Generation is not idempotent: a second call for the same athlete and date
      creates a second, distinct session. */
  method GenerateTwice(db: Store, athleteId: Id, date: Timestamp)
    returns (first: Result<Session>, second: Result<Session>)
    requires db.Valid()
    modifies db`sessions, db`attendances, db`nextSessionId, db`nextAttendanceId
    ensures db.Valid()
    ensures first.Ok? <==> second.Ok?
    ensures first.Ok? ==> first.value.id != second.value.id && first.value.date == second.value.date
    ensures first.Ok? ==> db.sessions == old(db.sessions) + [first.value] + [second.value]
    ensures first.Ok? ==> db.attendances == old(db.attendances)
                            + [Attendance(old(db.nextAttendanceId), first.value.id, athleteId, PENDING, None)]
                            + [Attendance(old(db.nextAttendanceId) + 1, second.value.id, athleteId, PENDING, None)]
    ensures first.Err? ==> second == first && db.sessions == old(db.sessions) && db.attendances == old(db.attendances)
  {
    first := GenerateAthleteSession(db, athleteId, date);
    second := GenerateAthleteSession(db, athleteId, date);
  }
}
