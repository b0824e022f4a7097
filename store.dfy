/**
 * The academy's relational store held in memory: one table per entity, in insertion
 * order, plus the next autoincrement key of each table the core inserts into.
 * `Valid` collects the constraints the store itself enforces: primary keys, the
 * unique classification key of a rule, and the foreign keys the core relies on.
 */
module Store {
  import opened Common
  import opened Query

  // ---- primary and unique keys ---------------------------------------------

  ghost predicate RuleIdsUnique(rules: seq<Rule>) {
    forall i, j :: 0 <= i < j < |rules| ==> rules[i].id != rules[j].id
  }

  ghost predicate DrillIdsUnique(drills: seq<Drill>) {
    forall i, j :: 0 <= i < j < |drills| ==> drills[i].id != drills[j].id
  }

  ghost predicate SessionIdsUnique(sessions: seq<Session>) {
    forall i, j :: 0 <= i < j < |sessions| ==> sessions[i].id != sessions[j].id
  }

  ghost predicate AttendanceIdsUnique(attendances: seq<Attendance>) {
    forall i, j :: 0 <= i < j < |attendances| ==> attendances[i].id != attendances[j].id
  }

  /** Primary keys of the reference tables the core only reads: no two rows share an id. */
  ghost predicate ReferenceKeysUnique(users: seq<User>, athletes: seq<AthleteProfile>,
                                      templates: seq<SessionTemplate>, templateDrills: seq<TemplateDrill>) {
    && (forall i, j :: 0 <= i < j < |users| ==> users[i].id != users[j].id)
    && (forall i, j :: 0 <= i < j < |athletes| ==> athletes[i].id != athletes[j].id)
    && (forall i, j :: 0 <= i < j < |templates| ==> templates[i].id != templates[j].id)
    && (forall i, j :: 0 <= i < j < |templateDrills| ==> templateDrills[i].id != templateDrills[j].id)
  }

  ghost predicate CompletionIdsUnique(completions: seq<DrillCompletion>) {
    forall i, j :: 0 <= i < j < |completions| ==> completions[i].id != completions[j].id
  }

  /** A user owns at most one athlete profile. */
  ghost predicate OneProfilePerUser(athletes: seq<AthleteProfile>) {
    forall i, j :: 0 <= i < j < |athletes| ==> athletes[i].userId != athletes[j].userId
  }

  /** The classification key of a rule: academy, level, frequency and group. */
  predicate SameKey(a: Rule, b: Rule) {
    a.academyId == b.academyId && a.level == b.level && a.frequency == b.frequency && a.group == b.group
  }

  /** At most one rule per (academy, level, frequency, group). */
  ghost predicate RuleKeysUnique(rules: seq<Rule>) {
    forall i, j :: 0 <= i < j < |rules| ==> !SameKey(rules[i], rules[j])
  }

  // ---- foreign keys ---------------------------------------------------------

  predicate HasTemplate(templates: seq<SessionTemplate>, id: Id) {
    exists t :: t in templates && t.id == id
  }

  ghost predicate RulesHaveTemplates(rules: seq<Rule>, templates: seq<SessionTemplate>) {
    forall r :: r in rules ==> HasTemplate(templates, r.templateId)
  }

  ghost predicate SessionsHaveTemplates(sessions: seq<Session>, templates: seq<SessionTemplate>) {
    forall s :: s in sessions ==> HasTemplate(templates, s.templateId)
  }

  ghost predicate AttendancesHaveSessions(attendances: seq<Attendance>, sessions: seq<Session>) {
    forall a :: a in attendances ==> exists s :: s in sessions && s.id == a.sessionId
  }

  ghost predicate AthletesHaveUsers(athletes: seq<AthleteProfile>, users: seq<User>) {
    forall p :: p in athletes ==> exists u :: u in users && u.id == p.userId
  }

  ghost predicate LinksHaveUsers(links: seq<ParentLink>, users: seq<User>) {
    forall l :: l in links ==> exists u :: u in users && u.id == l.athleteUserId
  }

  ghost predicate TemplateDrillsHaveDrills(templateDrills: seq<TemplateDrill>, drills: seq<Drill>) {
    forall td :: td in templateDrills ==> exists d :: d in drills && d.id == td.drillId
  }

  predicate HasAttendance(attendances: seq<Attendance>, id: Id) {
    exists a :: a in attendances && a.id == id
  }

  /** The session a foreign key refers to. */
  function SessionOf(sessions: seq<Session>, id: Id): (s: Session)
    requires exists s :: s in sessions && s.id == id
    ensures s in sessions && s.id == id
  {
    match First(sessions, (s: Session) => s.id == id)
    case Some(s) => s
    case None => assert false; Session(id, 0, 0, 0, 0)
  }

  /** The template a foreign key refers to. */
  function TemplateOf(templates: seq<SessionTemplate>, id: Id): (t: SessionTemplate)
    requires HasTemplate(templates, id)
    ensures t in templates && t.id == id
  {
    match First(templates, (t: SessionTemplate) => t.id == id)
    case Some(t) => t
    case None => assert false; SessionTemplate(id, 0, [], A_LOWER, MIN_60)
  }

  /** Some rule already holds the classification key of `r`. */
  predicate KeyTaken(rules: seq<Rule>, r: Rule) {
    exists x :: x in rules && SameKey(x, r)
  }

  /** The columns a rule update writes; an absent classification field keeps the stored value. */
  datatype RulePatch = RulePatch(level: Option<Level>, frequency: Option<Frequency>,
                                 group: Option<AthleteGroup>, templateId: Id)

  function Patched(x: Rule, p: RulePatch): Rule {
    x.(level := if p.level.Some? then p.level.value else x.level,
       frequency := if p.frequency.Some? then p.frequency.value else x.frequency,
       group := if p.group.Some? then p.group.value else x.group,
       templateId := p.templateId)
  }

  /** Row selector of a deleteMany on the drill assignments: the rows to keep. */
  function NotOfDrill(drillId: Id): TemplateDrill -> bool {
    (td: TemplateDrill) => td.drillId != drillId
  }

  /** Inserting a session with a fresh key and an existing template, together with
      an attendance of it under a fresh key, keeps the keys and references intact. */
  lemma SessionInserted(sessions: seq<Session>, attendances: seq<Attendance>,
                        templates: seq<SessionTemplate>, s: Session, a: Attendance)
    requires SessionIdsUnique(sessions) && AttendanceIdsUnique(attendances)
    requires forall x :: x in sessions ==> x.id < s.id
    requires forall x :: x in attendances ==> x.id < a.id
    requires SessionsHaveTemplates(sessions, templates) && HasTemplate(templates, s.templateId)
    requires AttendancesHaveSessions(attendances, sessions) && a.sessionId == s.id
    ensures SessionIdsUnique(sessions + [s]) && AttendanceIdsUnique(attendances + [a])
    ensures forall x :: x in sessions + [s] ==> x.id < s.id + 1
    ensures forall x :: x in attendances + [a] ==> x.id < a.id + 1
    ensures SessionsHaveTemplates(sessions + [s], templates)
    ensures AttendancesHaveSessions(attendances + [a], sessions + [s])
  {
    var ss := sessions + [s];
    forall x | x in attendances + [a] ensures exists y :: y in ss && y.id == x.sessionId {
      if x == a {
        assert ss[|sessions|] == s;
      } else {
        var y :| y in sessions && y.id == x.sessionId;
        assert y in ss;
      }
    }
  }

  /** Changing the status of one attendance keeps the attendance constraints. */
  lemma StatusChanged(attendances: seq<Attendance>, sessions: seq<Session>, nextId: Id, k: nat,
                      status: AttendanceStatus)
    requires AttendanceIdsUnique(attendances) && AttendancesHaveSessions(attendances, sessions)
    requires (forall a :: a in attendances ==> a.id < nextId) && k < |attendances|
    ensures var changed := attendances[k := attendances[k].(status := status)];
            && AttendanceIdsUnique(changed) && AttendancesHaveSessions(changed, sessions)
            && forall a :: a in changed ==> a.id < nextId
  {
    var changed := attendances[k := attendances[k].(status := status)];
    assert forall a :: a in changed ==> a == changed[k] || a in attendances;
    assert attendances[k] in attendances;
  }

  lemma RuleAppended(rules: seq<Rule>, templates: seq<SessionTemplate>, r: Rule)
    requires RuleIdsUnique(rules) && RuleKeysUnique(rules) && RulesHaveTemplates(rules, templates)
    requires forall x :: x in rules ==> x.id < r.id
    requires !KeyTaken(rules, r) && HasTemplate(templates, r.templateId)
    ensures RuleIdsUnique(rules + [r]) && RuleKeysUnique(rules + [r])
    ensures RulesHaveTemplates(rules + [r], templates)
    ensures forall x :: x in rules + [r] ==> x.id < r.id + 1
  {
    forall i, j | 0 <= i < j < |rules + [r]|
      ensures (rules + [r])[i].id != (rules + [r])[j].id && !SameKey((rules + [r])[i], (rules + [r])[j])
    {
      if j == |rules| {
        assert rules[i] in rules;
      }
    }
  }

  /** Overwriting row k with a row of the same key that clashes with no other row. */
  lemma RuleReplaced(rules: seq<Rule>, templates: seq<SessionTemplate>, k: nat, r: Rule)
    requires RuleIdsUnique(rules) && RuleKeysUnique(rules) && RulesHaveTemplates(rules, templates)
    requires k < |rules| && r.id == rules[k].id && HasTemplate(templates, r.templateId)
    requires forall j :: 0 <= j < |rules| && j != k ==> !SameKey(rules[j], r)
    ensures RuleIdsUnique(rules[k := r]) && RuleKeysUnique(rules[k := r])
    ensures RulesHaveTemplates(rules[k := r], templates)
    ensures forall x :: x in rules[k := r] ==> x in rules || x == r
  {
  }

  lemma RuleRemoved(rules: seq<Rule>, templates: seq<SessionTemplate>, k: nat)
    requires RuleIdsUnique(rules) && RuleKeysUnique(rules) && RulesHaveTemplates(rules, templates)
    requires k < |rules|
    ensures var rest := rules[..k] + rules[k + 1..];
            RuleIdsUnique(rest) && RuleKeysUnique(rest) && RulesHaveTemplates(rest, templates)
            && (forall x :: x in rest ==> x in rules)
  {
    var rest := rules[..k] + rules[k + 1..];
    assert forall i :: 0 <= i < |rest| ==> rest[i] == rules[if i < k then i else i + 1];
  }

  lemma SessionRetemplated(sessions: seq<Session>, attendances: seq<Attendance>,
                           templates: seq<SessionTemplate>, k: nat, templateId: Id)
    requires SessionIdsUnique(sessions) && SessionsHaveTemplates(sessions, templates)
    requires AttendancesHaveSessions(attendances, sessions)
    requires k < |sessions| && HasTemplate(templates, templateId)
    ensures var s' := sessions[k := sessions[k].(templateId := templateId)];
            SessionIdsUnique(s') && SessionsHaveTemplates(s', templates)
            && AttendancesHaveSessions(attendances, s')
            && (forall x :: x in s' ==> x == s'[k] || x in sessions)
  {
    var s' := sessions[k := sessions[k].(templateId := templateId)];
    forall a | a in attendances ensures exists y :: y in s' && y.id == a.sessionId {
      var y :| y in sessions && y.id == a.sessionId;
      var i :| 0 <= i < |sessions| && sessions[i] == y;
      assert s'[i].id == y.id;
    }
  }

  lemma DrillAppended(drills: seq<Drill>, templateDrills: seq<TemplateDrill>, d: Drill)
    requires DrillIdsUnique(drills) && TemplateDrillsHaveDrills(templateDrills, drills)
    requires forall x :: x in drills ==> x.id < d.id
    ensures DrillIdsUnique(drills + [d]) && TemplateDrillsHaveDrills(templateDrills, drills + [d])
    ensures forall x :: x in drills + [d] ==> x.id < d.id + 1
  {
    forall i, j | 0 <= i < j < |drills + [d]| ensures (drills + [d])[i].id != (drills + [d])[j].id {
      if j == |drills| {
        assert drills[i] in drills;
      }
    }
    forall td | td in templateDrills ensures exists x :: x in drills + [d] && x.id == td.drillId {
      var x :| x in drills && x.id == td.drillId;
      assert x in drills + [d];
    }
  }

  lemma DrillReplaced(drills: seq<Drill>, templateDrills: seq<TemplateDrill>, k: nat, d: Drill)
    requires DrillIdsUnique(drills) && TemplateDrillsHaveDrills(templateDrills, drills)
    requires k < |drills| && d.id == drills[k].id
    ensures DrillIdsUnique(drills[k := d]) && TemplateDrillsHaveDrills(templateDrills, drills[k := d])
    ensures forall x :: x in drills[k := d] ==> x in drills || x == d
  {
    forall td | td in templateDrills ensures exists x :: x in drills[k := d] && x.id == td.drillId {
      var x :| x in drills && x.id == td.drillId;
      var i :| 0 <= i < |drills| && drills[i] == x;
      assert drills[k := d][i].id == x.id;
    }
  }

  /** Removing a drill no assignment refers to keeps every assignment's reference. */
  lemma DrillRemoved(drills: seq<Drill>, templateDrills: seq<TemplateDrill>, k: nat)
    requires DrillIdsUnique(drills) && TemplateDrillsHaveDrills(templateDrills, drills)
    requires k < |drills| && forall td :: td in templateDrills ==> td.drillId != drills[k].id
    ensures var rest := drills[..k] + drills[k + 1..];
            DrillIdsUnique(rest) && TemplateDrillsHaveDrills(templateDrills, rest)
            && (forall x :: x in rest ==> x in drills)
  {
    var rest := drills[..k] + drills[k + 1..];
    assert forall i :: 0 <= i < |rest| ==> rest[i] == drills[if i < k then i else i + 1];
    forall td | td in templateDrills ensures exists x :: x in rest && x.id == td.drillId {
      var x :| x in drills && x.id == td.drillId;
      var i :| 0 <= i < |drills| && drills[i] == x;
      assert i != k;
      assert x == rest[if i < k then i else i - 1];
    }
  }

  class Store {
    var users: seq<User>
    var athletes: seq<AthleteProfile>
    var parentLinks: seq<ParentLink>
    var templates: seq<SessionTemplate>
    var templateDrills: seq<TemplateDrill>
    var drills: seq<Drill>
    var rules: seq<Rule>
    var sessions: seq<Session>
    var attendances: seq<Attendance>
    var completions: seq<DrillCompletion>

    // next autoincrement key of each table the core inserts into
    var nextDrillId: Id
    var nextRuleId: Id
    var nextSessionId: Id
    var nextAttendanceId: Id
    var nextCompletionId: Id

    ghost predicate Valid()
      reads this
    {
      && RuleIdsUnique(rules) && DrillIdsUnique(drills)
      && SessionIdsUnique(sessions) && AttendanceIdsUnique(attendances)
      && RuleKeysUnique(rules)
      && ReferenceKeysUnique(users, athletes, templates, templateDrills)
      && CompletionIdsUnique(completions) && OneProfilePerUser(athletes)
      && (forall r :: r in rules ==> r.id < nextRuleId)
      && (forall d :: d in drills ==> d.id < nextDrillId)
      && (forall s :: s in sessions ==> s.id < nextSessionId)
      && (forall a :: a in attendances ==> a.id < nextAttendanceId)
      && (forall c :: c in completions ==> c.id < nextCompletionId)
      && RulesHaveTemplates(rules, templates)
      && SessionsHaveTemplates(sessions, templates)
      && AttendancesHaveSessions(attendances, sessions)
      && AthletesHaveUsers(athletes, users)
      && LinksHaveUsers(parentLinks, users)
      && TemplateDrillsHaveDrills(templateDrills, drills)
    }

    /** The nested create of a session with its attendance, as one atomic insert
        under the next keys of both tables. */
    method InsertSession(s: Session, a: Attendance)
      requires Valid()
      requires s.id == nextSessionId && a.id == nextAttendanceId && a.sessionId == s.id
      requires HasTemplate(templates, s.templateId)
      modifies this`sessions, this`attendances, this`nextSessionId, this`nextAttendanceId
      ensures Valid()
      ensures sessions == old(sessions) + [s] && attendances == old(attendances) + [a]
      ensures nextSessionId == old(nextSessionId) + 1 && nextAttendanceId == old(nextAttendanceId) + 1
    {
      SessionInserted(sessions, attendances, templates, s, a);
      sessions, attendances := sessions + [s], attendances + [a];
      nextSessionId, nextAttendanceId := nextSessionId + 1, nextAttendanceId + 1;
    }

    /** drillCompletion.create: the attendance must exist (foreign key). */
    method CreateCompletion(attendanceId: Id, drillId: Id) returns (r: Result<DrillCompletion>)
      requires Valid()
      modifies this`completions, this`nextCompletionId
      ensures Valid()
      ensures r.Ok? <==> HasAttendance(attendances, attendanceId)
      ensures r.Err? ==> r.error == StoreError && completions == old(completions)
                         && nextCompletionId == old(nextCompletionId)
      ensures r.Ok? ==> r.value == DrillCompletion(old(nextCompletionId), attendanceId, drillId)
                        && completions == old(completions) + [r.value]
                        && nextCompletionId == old(nextCompletionId) + 1
    {
      if !HasAttendance(attendances, attendanceId) {
        return Err(StoreError);
      }
      var c := DrillCompletion(nextCompletionId, attendanceId, drillId);
      completions, nextCompletionId := completions + [c], nextCompletionId + 1;
      r := Ok(c);
    }

    /** session.update({where: {id}, data: {templateId}}); the session must exist. */
    method SetSessionTemplate(id: Id, templateId: Id) returns (r: Result<Session>)
      requires Valid() && HasTemplate(templates, templateId)
      modifies this`sessions
      ensures Valid()
      ensures r.Ok? <==> exists k :: 0 <= k < |old(sessions)| && old(sessions)[k].id == id
      ensures r.Err? ==> r.error == StoreError && sessions == old(sessions)
      ensures r.Ok? ==> |sessions| == |old(sessions)|
                        && forall k :: 0 <= k < |sessions| ==>
                             sessions[k] == if old(sessions)[k].id == id
                                            then old(sessions)[k].(templateId := templateId)
                                            else old(sessions)[k]
      ensures r.Ok? ==> r.value in sessions && r.value.id == id && r.value.templateId == templateId
    {
      if !exists k :: 0 <= k < |sessions| && sessions[k].id == id {
        return Err(StoreError);
      }
      var k :| 0 <= k < |sessions| && sessions[k].id == id;
      var s := sessions[k].(templateId := templateId);
      SessionRetemplated(sessions, attendances, templates, k, templateId);
      sessions := sessions[k := s];
      r := Ok(s);
    }

    /** rule.create: the template must exist and the classification key must be free. */
    method CreateRule(academyId: Id, level: Level, frequency: Frequency, group: AthleteGroup,
                      templateId: Id) returns (r: Result<Rule>)
      requires Valid()
      modifies this`rules, this`nextRuleId
      ensures Valid()
      ensures var row := Rule(old(nextRuleId), academyId, level, frequency, group, templateId);
              r.Ok? <==> HasTemplate(templates, templateId) && !KeyTaken(old(rules), row)
      ensures r.Err? ==> r.error == StoreError && rules == old(rules) && nextRuleId == old(nextRuleId)
      ensures r.Ok? ==> r.value == Rule(old(nextRuleId), academyId, level, frequency, group, templateId)
                        && rules == old(rules) + [r.value] && nextRuleId == old(nextRuleId) + 1
    {
      var row := Rule(nextRuleId, academyId, level, frequency, group, templateId);
      if !HasTemplate(templates, templateId) || KeyTaken(rules, row) {
        return Err(StoreError);
      }
      RuleAppended(rules, templates, row);
      rules, nextRuleId := rules + [row], nextRuleId + 1;
      r := Ok(row);
    }

    /** rule.update: the rule must exist, the template must exist, and the patched
        row's classification key must clash with no other rule. */
    method UpdateRule(id: Id, p: RulePatch) returns (r: Result<Rule>)
      requires Valid()
      modifies this`rules
      ensures Valid()
      ensures r.Ok? <==> exists k :: 0 <= k < |old(rules)| && old(rules)[k].id == id
                                     && HasTemplate(templates, p.templateId)
                                     && forall j :: 0 <= j < |old(rules)| && j != k ==>
                                                      !SameKey(old(rules)[j], Patched(old(rules)[k], p))
      ensures r.Err? ==> r.error == StoreError && rules == old(rules)
      ensures r.Ok? ==> |rules| == |old(rules)|
                        && forall k :: 0 <= k < |rules| ==>
                             rules[k] == if old(rules)[k].id == id then Patched(old(rules)[k], p) else old(rules)[k]
      ensures r.Ok? ==> r.value in rules && r.value.id == id
    {
      if !exists k :: 0 <= k < |rules| && rules[k].id == id {
        return Err(StoreError);
      }
      var k :| 0 <= k < |rules| && rules[k].id == id;
      var row := Patched(rules[k], p);
      if !HasTemplate(templates, p.templateId) || exists j :: 0 <= j < |rules| && j != k && SameKey(rules[j], row) {
        return Err(StoreError);
      }
      RuleReplaced(rules, templates, k, row);
      rules := rules[k := row];
      r := Ok(row);
    }

    /** rule.delete: the rule must exist; it is returned. */
    method DeleteRule(id: Id) returns (r: Result<Rule>)
      requires Valid()
      modifies this`rules
      ensures Valid()
      ensures r.Ok? <==> exists x :: x in old(rules) && x.id == id
      ensures r.Err? ==> r.error == StoreError && rules == old(rules)
      ensures r.Ok? ==> r.value in old(rules) && r.value.id == id
                        && exists k :: 0 <= k < |old(rules)| && old(rules)[k] == r.value
                                       && rules == old(rules)[..k] + old(rules)[k + 1..]
      ensures r.Ok? ==> (forall x :: x in rules ==> x.id != id)
                        && (forall x :: x in old(rules) && x.id != id ==> x in rules)
    {
      if !exists k :: 0 <= k < |rules| && rules[k].id == id {
        return Err(StoreError);
      }
      var k :| 0 <= k < |rules| && rules[k].id == id;
      r := Ok(rules[k]);
      RuleRemoved(rules, templates, k);
      RemovedByKey(rules, (x: Rule) => x.id, k);
      rules := rules[..k] + rules[k + 1..];
    }

    /** drill.create under the next drill key. */
    method CreateDrill(academyId: Id, content: DrillContent, difficulty: int) returns (d: Drill)
      requires Valid()
      modifies this`drills, this`nextDrillId
      ensures Valid()
      ensures d == Drill(old(nextDrillId), academyId, content, difficulty)
      ensures drills == old(drills) + [d] && nextDrillId == old(nextDrillId) + 1
    {
      d := Drill(nextDrillId, academyId, content, difficulty);
      DrillAppended(drills, templateDrills, d);
      drills, nextDrillId := drills + [d], nextDrillId + 1;
    }

    /** drill.update of the descriptive columns and the difficulty; the drill must exist. */
    method UpdateDrill(id: Id, content: DrillContent, difficulty: int) returns (r: Result<Drill>)
      requires Valid()
      modifies this`drills
      ensures Valid()
      ensures r.Ok? <==> exists k :: 0 <= k < |old(drills)| && old(drills)[k].id == id
      ensures r.Err? ==> r.error == StoreError && drills == old(drills)
      ensures r.Ok? ==> |drills| == |old(drills)|
                        && forall k :: 0 <= k < |drills| ==>
                             drills[k] == if old(drills)[k].id == id
                                          then old(drills)[k].(content := content, difficulty := difficulty)
                                          else old(drills)[k]
      ensures r.Ok? ==> r.value in drills && r.value.id == id
    {
      if !exists k :: 0 <= k < |drills| && drills[k].id == id {
        return Err(StoreError);
      }
      var k :| 0 <= k < |drills| && drills[k].id == id;
      var row := drills[k].(content := content, difficulty := difficulty);
      DrillReplaced(drills, templateDrills, k, row);
      drills := drills[k := row];
      r := Ok(row);
    }

    /** templateDrill.deleteMany({where: {drillId}}). */
    method DeleteAssignmentsOf(drillId: Id)
      requires Valid()
      modifies this`templateDrills
      ensures Valid()
      ensures templateDrills == Filter(old(templateDrills), NotOfDrill(drillId))
    {
      FilterKeepsKeysDistinct(templateDrills, NotOfDrill(drillId), (td: TemplateDrill) => td.id);
      templateDrills := Filter(templateDrills, NotOfDrill(drillId));
    }

    /** drill.delete: the drill must exist and, the relation being restrictive, no
        assignment may still refer to it. */
    method DeleteDrill(id: Id) returns (r: Result<Drill>)
      requires Valid()
      modifies this`drills
      ensures Valid()
      ensures r.Ok? <==> (exists x :: x in old(drills) && x.id == id)
                         && forall td :: td in templateDrills ==> td.drillId != id
      ensures r.Err? ==> r.error == StoreError && drills == old(drills)
      ensures r.Ok? ==> r.value in old(drills) && r.value.id == id
                        && exists k :: 0 <= k < |old(drills)| && old(drills)[k] == r.value
                                       && drills == old(drills)[..k] + old(drills)[k + 1..]
      ensures r.Ok? ==> (forall x :: x in drills ==> x.id != id)
                        && (forall x :: x in old(drills) && x.id != id ==> x in drills)
    {
      if (!exists k :: 0 <= k < |drills| && drills[k].id == id)
         || exists td :: td in templateDrills && td.drillId == id {
        return Err(StoreError);
      }
      var k :| 0 <= k < |drills| && drills[k].id == id;
      r := Ok(drills[k]);
      DrillRemoved(drills, templateDrills, k);
      RemovedByKey(drills, (x: Drill) => x.id, k);
      drills := drills[..k] + drills[k + 1..];
    }

    /** A store seeded with the reference data (users, profiles, links, templates and
        the drill catalog); every key in the seed is below `firstFreeId`. */
    constructor (users: seq<User>, athletes: seq<AthleteProfile>, parentLinks: seq<ParentLink>,
                 templates: seq<SessionTemplate>, templateDrills: seq<TemplateDrill>,
                 drills: seq<Drill>, firstFreeId: Id)
      requires DrillIdsUnique(drills) && (forall d :: d in drills ==> d.id < firstFreeId)
      requires AthletesHaveUsers(athletes, users) && LinksHaveUsers(parentLinks, users)
      requires TemplateDrillsHaveDrills(templateDrills, drills)
      requires ReferenceKeysUnique(users, athletes, templates, templateDrills) && OneProfilePerUser(athletes)
      ensures Valid()
      ensures this.users == users && this.athletes == athletes && this.parentLinks == parentLinks
      ensures this.templates == templates && this.templateDrills == templateDrills && this.drills == drills
      ensures rules == [] && sessions == [] && attendances == [] && completions == []
    {
      this.users, this.athletes, this.parentLinks := users, athletes, parentLinks;
      this.templates, this.templateDrills, this.drills := templates, templateDrills, drills;
      rules, sessions, attendances, completions := [], [], [], [];
      nextDrillId, nextRuleId, nextSessionId, nextAttendanceId, nextCompletionId :=
        firstFreeId, firstFreeId, firstFreeId, firstFreeId, firstFreeId;
    }
  }
}
