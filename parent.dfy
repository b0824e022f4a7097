/**
 * GET /parent/children: for each athlete linked to the calling parent, integer
 * statistics folded over the athlete's attendances and the attendance history,
 * newest session first.
 */
module ParentRoutes {
  import opened Common
  import opened Query
  import opened Store
  import opened RuleEngine
  import opened SessionRoutes

  /** One attendance of a child as the summary reads it: its session's date, its status,
      the number of drills of the session's template, its completion records, and the
      template's duration. */
  datatype Visit = Visit(date: Timestamp, status: AttendanceStatus, drillCount: nat,
                         completionCount: nat, duration: Duration)

  /** Minutes of a template duration: MIN_120 and MIN_75 as named, every other value 60. */
  function Minutes(d: Duration): (m: nat)
    ensures 60 <= m <= 120
    ensures m == 120 <==> d == MIN_120
    ensures m == 75 <==> d == MIN_75
    ensures d != MIN_120 && d != MIN_75 ==> m == 60
  {
    if d == MIN_120 then 120 else if d == MIN_75 then 75 else 60
  }

  function DrillCountOf(v: Visit): nat { v.drillCount }
  function CompletionCountOf(v: Visit): nat { v.completionCount }
  function MinutesOf(v: Visit): nat { Minutes(v.duration) }

  /** 100 when the child has any attendance at all, whatever its status, else 0. */
  function AttendanceRate(vs: seq<Visit>): (r: nat)
    ensures r == 100 <==> |vs| > 0
    ensures r == 0 <==> |vs| == 0
  {
    if |vs| > 0 then 100 else 0
  }

  /** Math.round(completed / total * 100) on exact rationals: the nearest integer to
      100 * completed / total, halves rounded up; 0 when there are no drills. */
  function CompletionRate(completed: nat, total: nat): (r: nat)
    ensures total == 0 ==> r == 0
    ensures total > 0 ==> 2 * total * r <= 200 * completed + total < 2 * total * (r + 1)
  {
    if total > 0 then
      var n, d := 200 * completed + total, 2 * total;
      assert n == d * (n / d) + n % d;
      n / d
    else 0
  }

  lemma {:induction false} MulLe(a: nat, b: nat, t: nat)
    requires a <= b
    ensures a * t <= b * t
  {
    if t > 0 {
      MulLe(a, b, t - 1);
      assert a * t == a * (t - 1) + a && b * t == b * (t - 1) + b;
    }
  }

  /** When every drill counted is at most completed once, the rate is at most 100. */
  lemma CompletionRateAtMost100(completed: nat, total: nat)
    requires completed <= total
    ensures CompletionRate(completed, total) <= 100
  {
    if total > 0 {
      var r := CompletionRate(completed, total);
      if 101 <= r {
        assert 2 * total * r == r * (2 * total);
        MulLe(101, r, 2 * total);
        assert false;
      }
    }
  }

  /** The rate is not capped: completion records are not deduplicated, so more records
      than drills give a rate above 100. */
  lemma CompletionRateUncapped()
    ensures exists completed: nat, total: nat :: total > 0 && CompletionRate(completed, total) > 100
  {
    assert CompletionRate(3, 2) == 150;
  }

  datatype Stats = Stats(attendanceRate: nat, totalTime: nat, completedDrills: nat,
                         totalDrills: nat, completionRate: nat)

  function StatsOf(vs: seq<Visit>): (s: Stats)
    ensures s.totalDrills == Sum(vs, DrillCountOf)
    ensures s.completedDrills == Sum(vs, CompletionCountOf)
    ensures s.totalTime == Sum(vs, MinutesOf)
    ensures s.attendanceRate == AttendanceRate(vs)
    ensures 60 * |vs| <= s.totalTime <= 120 * |vs|
    ensures s.completionRate == CompletionRate(s.completedDrills, s.totalDrills)
  {
    SumBounds(vs, MinutesOf, 60, 120);
    var total := Sum(vs, DrillCountOf);
    var completed := Sum(vs, CompletionCountOf);
    Stats(AttendanceRate(vs), Sum(vs, MinutesOf), completed, total, CompletionRate(completed, total))
  }

  /** The statistics are folds: they do not depend on the order of the attendances. */
  lemma StatsIgnoreOrder(vs: seq<Visit>, ws: seq<Visit>)
    requires multiset(vs) == multiset(ws)
    ensures StatsOf(vs) == StatsOf(ws)
  {
    SumPermutation(vs, ws, DrillCountOf);
    SumPermutation(vs, ws, CompletionCountOf);
    SumPermutation(vs, ws, MinutesOf);
    assert |vs| == |multiset(vs)| == |multiset(ws)| == |ws|;
  }

  datatype HistoryEntry = HistoryEntry(date: Timestamp, status: AttendanceStatus)

  /** One (date, status) entry per attendance, in the attendances' order. */
  function History(vs: seq<Visit>): (h: seq<HistoryEntry>)
    ensures |h| == |vs|
    ensures forall k :: 0 <= k < |h| ==> h[k] == HistoryEntry(vs[k].date, vs[k].status)
  {
    seq(|vs|, k requires 0 <= k < |vs| => HistoryEntry(vs[k].date, vs[k].status))
  }

  const NewestFirst: (Visit, Visit) -> bool := (a: Visit, b: Visit) => a.date >= b.date

  /** One attendance joined with its session and the session's template. */
  function VisitOf(a: Attendance, sessions: seq<Session>, templates: seq<SessionTemplate>,
                   templateDrills: seq<TemplateDrill>, completions: seq<DrillCompletion>): (v: Visit)
    requires exists s :: s in sessions && s.id == a.sessionId
    requires SessionsHaveTemplates(sessions, templates)
    ensures v.status == a.status
    ensures v.completionCount == |Filter(completions, OfAttendance(a.id))|
    ensures exists s, t :: s in sessions && s.id == a.sessionId && t in templates && t.id == s.templateId
                           && v.date == s.date && v.duration == t.duration
                           && v.drillCount == |DrillsOf(templateDrills, t.id)|
  {
    var s := SessionOf(sessions, a.sessionId);
    var t := TemplateOf(templates, s.templateId);
    Visit(s.date, a.status, |DrillsOf(templateDrills, t.id)|, |Filter(completions, OfAttendance(a.id))|,
          t.duration)
  }

  function OfAthlete(athleteId: Id): Attendance -> bool {
    (a: Attendance) => a.athleteId == athleteId
  }

  /** The athlete's attendances joined, in table order. */
  function VisitsInTableOrder(athleteId: Id, attendances: seq<Attendance>, sessions: seq<Session>,
                              templates: seq<SessionTemplate>, templateDrills: seq<TemplateDrill>,
                              completions: seq<DrillCompletion>): (vs: seq<Visit>)
    requires AttendancesHaveSessions(attendances, sessions) && SessionsHaveTemplates(sessions, templates)
    ensures var mine := Filter(attendances, OfAthlete(athleteId));
            |vs| == |mine|
            && forall k :: 0 <= k < |vs| ==> mine[k] in attendances && mine[k].athleteId == athleteId
                                             && vs[k] == VisitOf(mine[k], sessions, templates, templateDrills, completions)
  {
    var mine := Filter(attendances, OfAthlete(athleteId));
    seq(|mine|, k requires 0 <= k < |mine| =>
      assert mine[k] in attendances;
      VisitOf(mine[k], sessions, templates, templateDrills, completions))
  }

  /** The athlete's attendances joined, newest session first. */
  function Visits(athleteId: Id, attendances: seq<Attendance>, sessions: seq<Session>,
                  templates: seq<SessionTemplate>, templateDrills: seq<TemplateDrill>,
                  completions: seq<DrillCompletion>): (vs: seq<Visit>)
    requires AttendancesHaveSessions(attendances, sessions) && SessionsHaveTemplates(sessions, templates)
    ensures multiset(vs) == multiset(VisitsInTableOrder(athleteId, attendances, sessions, templates,
                                                         templateDrills, completions))
    ensures forall i, j :: 0 <= i < j < |vs| ==> vs[i].date >= vs[j].date
  {
    assert TotalPreorder(NewestFirst);
    SortBy(VisitsInTableOrder(athleteId, attendances, sessions, templates, templateDrills, completions),
           NewestFirst)
  }

  datatype ChildSummary = ChildSummary(id: Id, name: string, age: nat, stats: Stats,
                                       history: seq<HistoryEntry>)

  /** The placeholder age every summary carries. */
  const MockAge: nat := 16

  /** The summary of one linked athlete. The link's user having no athlete profile
      (or, against the store's foreign key, no user row) is a failing property access. */
  function SummaryOf(link: ParentLink, users: seq<User>, athletes: seq<AthleteProfile>,
                     attendances: seq<Attendance>, sessions: seq<Session>,
                     templates: seq<SessionTemplate>, templateDrills: seq<TemplateDrill>,
                     completions: seq<DrillCompletion>): (r: Result<ChildSummary>)
    requires AttendancesHaveSessions(attendances, sessions) && SessionsHaveTemplates(sessions, templates)
    ensures r.Err? <==> (forall p :: p in athletes ==> p.userId != link.athleteUserId)
                        || (forall u :: u in users ==> u.id != link.athleteUserId)
    ensures r.Err? ==> r.error == StoreError
    ensures r.Ok? ==>
              exists p, u :: p in athletes && p.userId == link.athleteUserId && p.id == r.value.id
                && u in users && u.id == link.athleteUserId
                && r.value.name == u.firstName + " " + u.lastName
                && var vs := Visits(p.id, attendances, sessions, templates, templateDrills, completions);
                   r.value.stats == StatsOf(vs) && r.value.history == History(vs)
    ensures r.Ok? ==> r.value.age == MockAge
    // the history lists the child's attendances newest first
    ensures r.Ok? ==> forall i, j :: 0 <= i < j < |r.value.history| ==> r.value.history[i].date >= r.value.history[j].date
  {
    match First(athletes, (p: AthleteProfile) => p.userId == link.athleteUserId)
    case None => Err(StoreError)
    case Some(p) =>
      match First(users, (u: User) => u.id == link.athleteUserId)
      case None => Err(StoreError)
      case Some(u) =>
        var vs := Visits(p.id, attendances, sessions, templates, templateDrills, completions);
        Ok(ChildSummary(p.id, u.firstName + " " + u.lastName, MockAge, StatsOf(vs), History(vs)))
  }

  function OfParent(parentId: Id): ParentLink -> bool {
    (l: ParentLink) => l.parentId == parentId
  }

  /** GET /parent/children for the calling parent: one summary per link of the parent,
      in table order. */
  function ChildrenSummary(parentId: Id, parentLinks: seq<ParentLink>, users: seq<User>,
                           athletes: seq<AthleteProfile>, attendances: seq<Attendance>,
                           sessions: seq<Session>, templates: seq<SessionTemplate>,
                           templateDrills: seq<TemplateDrill>, completions: seq<DrillCompletion>)
    : (r: Result<seq<ChildSummary>>)
    requires AttendancesHaveSessions(attendances, sessions) && SessionsHaveTemplates(sessions, templates)
    ensures r.Err? ==> r.error == StoreError
    ensures r.Ok? ==> var mine := Filter(parentLinks, OfParent(parentId));
                      |r.value| == |mine|
                      && forall k :: 0 <= k < |mine| ==>
                           SummaryOf(mine[k], users, athletes, attendances, sessions, templates,
                                        templateDrills, completions) == Ok(r.value[k])
  {
    var mine := Filter(parentLinks, OfParent(parentId));
    MapAll(mine, (l: ParentLink) =>
             SummaryOf(l, users, athletes, attendances, sessions, templates, templateDrills, completions))
  }

  /** The summary fails exactly when some athlete linked to the parent has no profile. */
  lemma ChildrenSummaryFails(parentId: Id, parentLinks: seq<ParentLink>, users: seq<User>,
                             athletes: seq<AthleteProfile>, attendances: seq<Attendance>,
                             sessions: seq<Session>, templates: seq<SessionTemplate>,
                             templateDrills: seq<TemplateDrill>, completions: seq<DrillCompletion>)
    requires LinksHaveUsers(parentLinks, users)
    requires AttendancesHaveSessions(attendances, sessions) && SessionsHaveTemplates(sessions, templates)
    ensures ChildrenSummary(parentId, parentLinks, users, athletes, attendances, sessions, templates,
                            templateDrills, completions).Err?
            <==> exists l :: l in parentLinks && l.parentId == parentId
                             && forall p :: p in athletes ==> p.userId != l.athleteUserId
  {
    var mine := Filter(parentLinks, OfParent(parentId));
    var f := (l: ParentLink) =>
               SummaryOf(l, users, athletes, attendances, sessions, templates, templateDrills, completions);
    assert forall l :: l in mine <==> l in parentLinks && l.parentId == parentId;
    forall l | l in mine ensures f(l).Err? <==> forall p :: p in athletes ==> p.userId != l.athleteUserId {
      assert exists u :: u in users && u.id == l.athleteUserId;
    }
  }
}
