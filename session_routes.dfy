/**
 * The session routes: the coach's and the athlete's read views, the append-only
 * drill-completion log, and the coach's override of a session's template.
 */
module SessionRoutes {
  import opened Common
  import opened Query
  import opened Store
  import opened RuleEngine

  // ---- GET /coach -------------------------------------------------------------

  function RunBy(coachId: Id, academyId: Id): Session -> bool {
    (s: Session) => s.coachId == coachId && s.academyId == academyId
  }

  /** The sessions the calling coach runs in the caller's academy, in table order. */
  function CoachSessions(sessions: seq<Session>, coachId: Id, academyId: Id): (r: seq<Session>)
    ensures forall s :: s in r <==> s in sessions && s.coachId == coachId && s.academyId == academyId
  {
    Filter(sessions, RunBy(coachId, academyId))
  }

  /** A newly generated session joins the end of the view of its own coach in its own
      academy, and no other coach's view changes. */
  lemma CoachSessionsAfterInsert(sessions: seq<Session>, s: Session, coachId: Id, academyId: Id)
    ensures CoachSessions(sessions + [s], coachId, academyId)
         == CoachSessions(sessions, coachId, academyId)
            + (if s.coachId == coachId && s.academyId == academyId then [s] else [])
  {
    FilterAppend(sessions, [s], RunBy(coachId, academyId));
    assert [s] == [s] + [];
    FilterCons(s, [], RunBy(coachId, academyId));
  }

  // ---- completedDrillIds --------------------------------------------------------

  function OfAttendance(attendanceId: Id): DrillCompletion -> bool {
    (c: DrillCompletion) => c.attendanceId == attendanceId
  }

  function DrillIdsOf(cs: seq<DrillCompletion>): (r: seq<Id>)
    ensures |r| == |cs| && forall k :: 0 <= k < |cs| ==> r[k] == cs[k].drillId
  {
    if cs == [] then [] else [cs[0].drillId] + DrillIdsOf(cs[1..])
  }

  lemma {:induction false} DrillIdsOfAppend(cs: seq<DrillCompletion>, ds: seq<DrillCompletion>)
    ensures DrillIdsOf(cs + ds) == DrillIdsOf(cs) + DrillIdsOf(ds)
  {
    if cs == [] {
      assert cs + ds == ds;
    } else {
      assert (cs + ds)[1..] == cs[1..] + ds;
      DrillIdsOfAppend(cs[1..], ds);
    }
  }

  /** The drill of every completion record of one attendance, in record order,
      duplicates included. */
  function CompletedDrillIds(completions: seq<DrillCompletion>, attendanceId: Id): (r: seq<Id>)
    ensures |r| == |Filter(completions, OfAttendance(attendanceId))|
    ensures forall d :: d in r <==> exists c :: c in completions && c.attendanceId == attendanceId && c.drillId == d
  {
    var mine := Filter(completions, OfAttendance(attendanceId));
    var r := DrillIdsOf(mine);
    forall d | d in r ensures exists c :: c in completions && c.attendanceId == attendanceId && c.drillId == d {
      var k :| 0 <= k < |r| && r[k] == d;
      assert mine[k] in mine;
    }
    forall c | c in completions && c.attendanceId == attendanceId ensures c.drillId in r {
      assert c in mine;
      var k :| 0 <= k < |mine| && mine[k] == c;
      assert r[k] == c.drillId;
    }
    r
  }

  /** Logging a completion appends its drill to that attendance's list, even when the
      drill is already there, and leaves every other attendance's list alone. */
  lemma CompletionLogged(completions: seq<DrillCompletion>, c: DrillCompletion, attendanceId: Id)
    ensures CompletedDrillIds(completions + [c], attendanceId)
         == CompletedDrillIds(completions, attendanceId)
            + (if c.attendanceId == attendanceId then [c.drillId] else [])
  {
    var p := OfAttendance(attendanceId);
    FilterAppend(completions, [c], p);
    assert [c] == [c] + [];
    FilterCons(c, [], p);
    DrillIdsOfAppend(Filter(completions, p), Filter([c], p));
    assert DrillIdsOf([c]) == [c.drillId] + DrillIdsOf([c][1..]);
  }

  // ---- GET /athlete ---------------------------------------------------------------

  /** A session flattened with the attendance that lists it. */
  datatype SessionView = SessionView(session: Session, template: SessionTemplate,
                                     drills: seq<TemplateDrill>, attendanceId: Id,
                                     selectedProgram: Option<string>, completedDrillIds: seq<Id>)

  predicate OwnedBy(athletes: seq<AthleteProfile>, userId: Id, a: Attendance) {
    exists p :: p in athletes && p.id == a.athleteId && p.userId == userId
  }

  function Owned(athletes: seq<AthleteProfile>, userId: Id): Attendance -> bool {
    (a: Attendance) => OwnedBy(athletes, userId, a)
  }

  /** One attendance joined with its session, the session's template, the template's
      drills ascending by `order`, and the attendance's completions. */
  function ViewOf(a: Attendance, sessions: seq<Session>, templates: seq<SessionTemplate>,
                  templateDrills: seq<TemplateDrill>, completions: seq<DrillCompletion>): (v: SessionView)
    requires exists s :: s in sessions && s.id == a.sessionId
    requires SessionsHaveTemplates(sessions, templates)
    ensures v.session in sessions && v.session.id == a.sessionId
    ensures v.template in templates && v.template.id == v.session.templateId
    ensures multiset(v.drills) == multiset(DrillsOf(templateDrills, v.template.id))
    ensures forall i, j :: 0 <= i < j < |v.drills| ==> v.drills[i].order <= v.drills[j].order
    ensures v.attendanceId == a.id && v.selectedProgram == a.selectedProgram
    ensures v.completedDrillIds == CompletedDrillIds(completions, a.id)
  {
    var s := SessionOf(sessions, a.sessionId);
    var t := TemplateOf(templates, s.templateId);
    SessionView(s, t, OrderedDrills(templateDrills, t.id), a.id, a.selectedProgram,
                CompletedDrillIds(completions, a.id))
  }

  /** The calling athlete user's attendances, each flattened with its session. */
  function AthleteSessions(attendances: seq<Attendance>, athletes: seq<AthleteProfile>,
                           sessions: seq<Session>, templates: seq<SessionTemplate>,
                           templateDrills: seq<TemplateDrill>, completions: seq<DrillCompletion>,
                           userId: Id): (r: seq<SessionView>)
    requires AttendancesHaveSessions(attendances, sessions) && SessionsHaveTemplates(sessions, templates)
    ensures var mine := Filter(attendances, Owned(athletes, userId));
            |r| == |mine|
            && forall k :: 0 <= k < |r| ==>
                 && mine[k] in attendances && OwnedBy(athletes, userId, mine[k])
                 && r[k] == ViewOf(mine[k], sessions, templates, templateDrills, completions)
                 && r[k].selectedProgram == mine[k].selectedProgram && r[k].template in templates
                 && r[k].attendanceId == mine[k].id && r[k].session.id == mine[k].sessionId
                 && r[k].session in sessions && r[k].template.id == r[k].session.templateId
                 && (forall i, j :: 0 <= i < j < |r[k].drills| ==> r[k].drills[i].order <= r[k].drills[j].order)
                 && multiset(r[k].drills) == multiset(DrillsOf(templateDrills, r[k].template.id))
                 && r[k].completedDrillIds == CompletedDrillIds(completions, mine[k].id)
  {
    var mine := Filter(attendances, Owned(athletes, userId));
    seq(|mine|, k requires 0 <= k < |mine| =>
      assert mine[k] in attendances;
      ViewOf(mine[k], sessions, templates, templateDrills, completions))
  }

  // ---- POST /complete-drill --------------------------------------------------------

  /** An id field of the request body: falsy (missing, empty, zero), or present with
      what parseInt makes of it (None for NaN). */
  datatype BodyId = Falsy | Truthy(parsed: Option<int>)

  method CompleteDrill(db: Store, attendanceField: BodyId, drillField: BodyId)
    returns (r: Result<DrillCompletion>)
    requires db.Valid()
    modifies db`completions, db`nextCompletionId
    ensures db.Valid()
    ensures attendanceField.Falsy? || drillField.Falsy? ==> r == Err(MissingFields)
    ensures attendanceField.Truthy? && drillField.Truthy? ==>
              if attendanceField.parsed.None? || drillField.parsed.None?
                 || !HasAttendance(db.attendances, attendanceField.parsed.value)
              then r == Err(StoreError)
              else r == Ok(DrillCompletion(old(db.nextCompletionId), attendanceField.parsed.value,
                                           drillField.parsed.value))
    ensures r.Err? ==> db.completions == old(db.completions)
    ensures r.Ok? ==> db.completions == old(db.completions) + [r.value]
    ensures r.Ok? ==> CompletedDrillIds(db.completions, r.value.attendanceId)
                      == CompletedDrillIds(old(db.completions), r.value.attendanceId) + [r.value.drillId]
  {
    if attendanceField.Falsy? || drillField.Falsy? {
      return Err(MissingFields);
    }
    if attendanceField.parsed.None? || drillField.parsed.None? {
      return Err(StoreError);
    }
    r := db.CreateCompletion(attendanceField.parsed.value, drillField.parsed.value);
    if r.Ok? {
      CompletionLogged(old(db.completions), r.value, r.value.attendanceId);
    }
  }

  // ---- PATCH /:id/setup ------------------------------------------------------------

  predicate Fits(t: SessionTemplate, academyId: Id, workoutType: Field<WorkoutType>, duration: Field<Duration>) {
    && t.academyId == academyId
    && (workoutType.Given? ==> t.workoutType == workoutType.value)
    && (duration.Given? ==> t.duration == duration.value)
  }

  /** The first template of the caller's academy with the requested workout type and
      duration; an absent field does not constrain. */
  function FindTemplate(templates: seq<SessionTemplate>, academyId: Id,
                        workoutType: Field<WorkoutType>, duration: Field<Duration>): (r: Option<SessionTemplate>)
    ensures r.Some? ==> r.value in templates && r.value.academyId == academyId
    ensures r.Some? && workoutType.Given? ==> r.value.workoutType == workoutType.value
    ensures r.Some? && duration.Given? ==> r.value.duration == duration.value
    ensures r.None? <==> forall t :: t in templates ==> !Fits(t, academyId, workoutType, duration)
  {
    First(templates, (t: SessionTemplate) => Fits(t, academyId, workoutType, duration))
  }

  /** Coach override: retarget session `id` (as parsed from the path) to a template of
      the caller's academy matching the body's workout type and duration. */
  method SetupSession(db: Store, academyId: Id, id: Option<int>,
                      workoutType: Field<WorkoutType>, duration: Field<Duration>)
    returns (r: Result<Session>)
    requires db.Valid()
    modifies db`sessions
    ensures db.Valid()
    ensures workoutType.Malformed? || duration.Malformed? ==> r == Err(StoreError)
    ensures !workoutType.Malformed? && !duration.Malformed? ==>
              match FindTemplate(db.templates, academyId, workoutType, duration)
              case None => r == Err(NoMatchingTemplate)
              case Some(t) =>
                if id.None? || !exists s :: s in old(db.sessions) && s.id == id.value then r == Err(StoreError)
                else r.Ok? && r.value.id == id.value && r.value.templateId == t.id
    ensures r.Err? ==> db.sessions == old(db.sessions)
    // the updated row is the one returned
    ensures r.Ok? ==> r.value in db.sessions
    // only the chosen session's templateId changes
    ensures r.Ok? ==> |db.sessions| == |old(db.sessions)|
                      && forall k :: 0 <= k < |db.sessions| ==>
                           db.sessions[k] == if old(db.sessions)[k].id == r.value.id
                                             then old(db.sessions)[k].(templateId := r.value.templateId)
                                             else old(db.sessions)[k]
  {
    if workoutType.Malformed? || duration.Malformed? {
      return Err(StoreError);
    }
    var t := FindTemplate(db.templates, academyId, workoutType, duration);
    if t.None? {
      return Err(NoMatchingTemplate);
    }
    if id.None? {
      return Err(StoreError);
    }
    r := db.SetSessionTemplate(id.value, t.value.id);
    if r.Err? {
      assert forall s :: s in old(db.sessions) ==> s.id != id.value;
    }
  }
}
