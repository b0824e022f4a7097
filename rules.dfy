/**
 * The rule table administration routes: list the caller's rules, create one after
 * checking that its classification tuple is free, update one with no such check,
 * delete one by id.
 */
module RuleRoutes {
  import opened Common
  import opened Query
  import opened Store
  import opened RuleEngine

  function RuleOfAcademy(academyId: Id): Rule -> bool {
    (x: Rule) => x.academyId == academyId
  }

  /** GET /rules: the rules of the caller's academy, in table order. */
  function ListRules(rules: seq<Rule>, academyId: Id): (r: seq<Rule>)
    ensures forall x :: x in r <==> x in rules && x.academyId == academyId
  {
    Filter(rules, RuleOfAcademy(academyId))
  }

  /** A created rule appears at the end of its own academy's list and in no other. */
  lemma ListRulesAfterCreate(rules: seq<Rule>, x: Rule, academyId: Id)
    ensures ListRules(rules + [x], academyId)
         == ListRules(rules, academyId) + (if x.academyId == academyId then [x] else [])
  {
    FilterAppend(rules, [x], RuleOfAcademy(academyId));
    assert [x] == [x] + [];
    FilterCons(x, [], RuleOfAcademy(academyId));
  }

  function FieldValue<T>(f: Field<T>): Option<T> {
    if f.Given? then Some(f.value) else None
  }

  /** POST /rules. A missing or invalid classification field, or an unparsable or
      unknown template id, is a store failure (500); a taken tuple is answered 400. */
  method CreateRule(db: Store, academyId: Id, level: Field<Level>, frequency: Field<Frequency>,
                    group: Field<AthleteGroup>, templateId: Option<int>) returns (r: Result<Rule>)
    requires db.Valid()
    modifies db`rules, db`nextRuleId
    ensures db.Valid()
    ensures !(level.Given? && frequency.Given? && group.Given?) ==> r == Err(StoreError)
    ensures level.Given? && frequency.Given? && group.Given? ==>
              if FindRule(old(db.rules), academyId, level.value, frequency.value, group.value).Some?
              then r == Err(DuplicateRule)
              else if templateId.None? || !HasTemplate(db.templates, templateId.value)
              then r == Err(StoreError)
              else r == Ok(Rule(old(db.nextRuleId), academyId, level.value, frequency.value, group.value,
                                templateId.value))
    ensures r.Err? ==> db.rules == old(db.rules)
    ensures r.Ok? ==> db.rules == old(db.rules) + [r.value]
    // once created, the resolver maps the tuple to the new rule's template
    ensures r.Ok? ==> var res := ResolveTemplate(db.rules, db.templates, db.templateDrills, academyId,
                                                 r.value.level, r.value.frequency, r.value.group);
                      res.Ok? && res.value.template.id == r.value.templateId
  {
    if !(level.Given? && frequency.Given? && group.Given?) {
      return Err(StoreError);
    }
    var existing := FindRule(db.rules, academyId, level.value, frequency.value, group.value);
    if existing.Some? {
      return Err(DuplicateRule);
    }
    if templateId.None? {
      return Err(StoreError);
    }
    r := db.CreateRule(academyId, level.value, frequency.value, group.value, templateId.value);
    if r.Ok? {
      assert r.value in db.rules;
      ResolveExact(db.rules, db.templates, db.templateDrills, r.value);
    }
  }

  /** PUT /rules/:id. There is no tuple check: a patch that would give two rules the
      same tuple is refused by the store's unique index, and every refusal is a 500. */
  method UpdateRule(db: Store, id: Option<int>, level: Field<Level>, frequency: Field<Frequency>,
                    group: Field<AthleteGroup>, templateId: Option<int>) returns (r: Result<Rule>)
    requires db.Valid()
    modifies db`rules
    ensures db.Valid()
    ensures r.Err? ==> r.error == StoreError && db.rules == old(db.rules)
    ensures id.None? || level.Malformed? || frequency.Malformed? || group.Malformed? || templateId.None?
            ==> r.Err?
    ensures r.Ok? ==> id.Some? && templateId.Some? && r.value.id == id.value && r.value.templateId == templateId.value
    ensures id.Some? && templateId.Some? && !level.Malformed? && !frequency.Malformed? && !group.Malformed? ==>
              var patch := RulePatch(FieldValue(level), FieldValue(frequency), FieldValue(group), templateId.value);
              && (r.Ok? <==> exists k :: 0 <= k < |old(db.rules)| && old(db.rules)[k].id == id.value
                                         && HasTemplate(db.templates, templateId.value)
                                         && forall j :: 0 <= j < |old(db.rules)| && j != k ==>
                                                          !SameKey(old(db.rules)[j], Patched(old(db.rules)[k], patch)))
              && (r.Ok? ==> |db.rules| == |old(db.rules)|
                            && forall k :: 0 <= k < |db.rules| ==>
                                 db.rules[k] == if old(db.rules)[k].id == id.value
                                                then Patched(old(db.rules)[k], patch) else old(db.rules)[k])
  {
    if id.None? || level.Malformed? || frequency.Malformed? || group.Malformed? || templateId.None? {
      return Err(StoreError);
    }
    var patch := RulePatch(FieldValue(level), FieldValue(frequency), FieldValue(group), templateId.value);
    r := db.UpdateRule(id.value, patch);
    if r.Ok? {
      ghost var k :| 0 <= k < |db.rules| && db.rules[k] == r.value;
      assert old(db.rules)[k].id == id.value;
    }
  }


  /** DELETE /rules/:id. */
  method DeleteRule(db: Store, id: Option<int>) returns (r: Result<Rule>)
    requires db.Valid()
    modifies db`rules
    ensures db.Valid()
    ensures r.Ok? <==> id.Some? && exists x :: x in old(db.rules) && x.id == id.value
    ensures r.Err? ==> r.error == StoreError && db.rules == old(db.rules)
    ensures r.Ok? ==> r.value in old(db.rules) && r.value.id == id.value
                      && exists k :: 0 <= k < |old(db.rules)| && old(db.rules)[k] == r.value
                                     && db.rules == old(db.rules)[..k] + old(db.rules)[k + 1..]
    // exactly the rule with that id is gone
    ensures r.Ok? ==> (forall x :: x in db.rules ==> x.id != id.value)
                      && (forall x :: x in old(db.rules) && x.id != id.value ==> x in db.rules)
                      && |db.rules| == |old(db.rules)| - 1
  {
    if id.None? {
      return Err(StoreError);
    }
    r := db.DeleteRule(id.value);
  }
}
