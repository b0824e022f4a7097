/**
 * The rule resolver: the template mapped to an athlete classification within one
 * academy, found by exact match on (academy, level, frequency, group), with the
 * template's drill assignments in ascending `order`. It only reads the tables.
 */
module RuleEngine {
  import opened Common
  import opened Query
  import opened Store

  /** The rule's key is exactly the given tuple; no partial or default match. */
  predicate IsRuleFor(r: Rule, academyId: Id, level: Level, frequency: Frequency, group: AthleteGroup) {
    r.academyId == academyId && r.level == level && r.frequency == frequency && r.group == group
  }

  /** Lookup of a rule by its unique classification key. */
  function FindRule(rules: seq<Rule>, academyId: Id, level: Level, frequency: Frequency,
                    group: AthleteGroup): (r: Option<Rule>)
    ensures r.Some? ==> r.value in rules && IsRuleFor(r.value, academyId, level, frequency, group)
    ensures r.None? <==> forall x :: x in rules ==> !IsRuleFor(x, academyId, level, frequency, group)
  {
    First(rules, (x: Rule) => IsRuleFor(x, academyId, level, frequency, group))
  }

  const ByOrder: (TemplateDrill, TemplateDrill) -> bool := (a: TemplateDrill, b: TemplateDrill) => a.order <= b.order

  /** The drill assignments of one template. */
  function DrillsOf(templateDrills: seq<TemplateDrill>, templateId: Id): (r: seq<TemplateDrill>)
    ensures forall td :: td in r <==> td in templateDrills && td.templateId == templateId
  {
    Filter(templateDrills, (td: TemplateDrill) => td.templateId == templateId)
  }

  /** The drill assignments of one template, ascending by `order`. */
  function OrderedDrills(templateDrills: seq<TemplateDrill>, templateId: Id): (r: seq<TemplateDrill>)
    ensures multiset(r) == multiset(DrillsOf(templateDrills, templateId))
    ensures forall i, j :: 0 <= i < j < |r| ==> r[i].order <= r[j].order
  {
    assert TotalPreorder(ByOrder);
    SortBy(DrillsOf(templateDrills, templateId), ByOrder)
  }

  datatype ResolvedTemplate = ResolvedTemplate(template: SessionTemplate, drills: seq<TemplateDrill>)

  /** resolveTemplate: the template of the rule for the exact tuple, or a failure
      naming the academy and the three classification values. */
  function ResolveTemplate(rules: seq<Rule>, templates: seq<SessionTemplate>,
                           templateDrills: seq<TemplateDrill>, academyId: Id,
                           level: Level, frequency: Frequency, group: AthleteGroup)
    : (r: Result<ResolvedTemplate>)
    requires RulesHaveTemplates(rules, templates)
    ensures r.Err? <==> forall x :: x in rules ==> !IsRuleFor(x, academyId, level, frequency, group)
    ensures r.Err? ==> r.error == NoRule(academyId, level, frequency, group)
    ensures r.Ok? ==> exists x :: x in rules && IsRuleFor(x, academyId, level, frequency, group)
                                 && x.templateId == r.value.template.id
    ensures r.Ok? ==> r.value.template in templates
    ensures r.Ok? ==> multiset(r.value.drills) == multiset(DrillsOf(templateDrills, r.value.template.id))
    ensures r.Ok? ==> forall i, j :: 0 <= i < j < |r.value.drills| ==>
                        r.value.drills[i].order <= r.value.drills[j].order
  {
    match FindRule(rules, academyId, level, frequency, group)
    case None => Err(NoRule(academyId, level, frequency, group))
    case Some(rule) =>
      assert HasTemplate(templates, rule.templateId);
      match First(templates, (t: SessionTemplate) => t.id == rule.templateId)
      case Some(t) => Ok(ResolvedTemplate(t, OrderedDrills(templateDrills, t.id)))
      case None => assert false; Err(StoreError)
  }

  /** With the store's unique classification key, a rule for the tuple determines the
      result: it is that rule's template. */
  lemma ResolveExact(rules: seq<Rule>, templates: seq<SessionTemplate>,
                     templateDrills: seq<TemplateDrill>, rule: Rule)
    requires RulesHaveTemplates(rules, templates) && RuleKeysUnique(rules)
    requires rule in rules
    ensures var r := ResolveTemplate(rules, templates, templateDrills, rule.academyId,
                                     rule.level, rule.frequency, rule.group);
            r.Ok? && r.value.template.id == rule.templateId
  {
    var found := FindRule(rules, rule.academyId, rule.level, rule.frequency, rule.group);
    var i :| 0 <= i < |rules| && rules[i] == found.value;
    var j :| 0 <= j < |rules| && rules[j] == rule;
    assert SameKey(rules[i], rules[j]) && SameKey(rules[j], rules[i]);
    assert i == j;
  }

  /** Tenant isolation: rules of other academies never influence resolution; the
      result is the same when only the academy's own rules are consulted. */
  lemma ResolveIsAcademyScoped(rules: seq<Rule>, templates: seq<SessionTemplate>,
                               templateDrills: seq<TemplateDrill>, academyId: Id,
                               level: Level, frequency: Frequency, group: AthleteGroup)
    requires RulesHaveTemplates(rules, templates)
    ensures var own := Filter(rules, (x: Rule) => x.academyId == academyId);
            RulesHaveTemplates(own, templates)
            && ResolveTemplate(own, templates, templateDrills, academyId, level, frequency, group)
               == ResolveTemplate(rules, templates, templateDrills, academyId, level, frequency, group)
  {
    FirstFiltered(rules, (x: Rule) => IsRuleFor(x, academyId, level, frequency, group),
                  (x: Rule) => x.academyId == academyId);
  }
}
