/**
 * The drill catalog routes: list the caller's drills by category, create and update
 * a drill (difficulty defaulting to 1), and delete a drill after removing every
 * template assignment that refers to it.
 */
module DrillRoutes {
  import opened Common
  import opened Query
  import opened Store

  function DrillOfAcademy(academyId: Id): Drill -> bool {
    (d: Drill) => d.academyId == academyId
  }

  const ByCategory: (Drill, Drill) -> bool := (a: Drill, b: Drill) => LexLe(a.content.category, b.content.category)

  lemma ByCategoryIsTotalPreorder()
    ensures TotalPreorder(ByCategory)
  {
    forall a: Drill, b: Drill ensures ByCategory(a, b) || ByCategory(b, a) {
      LexLeTotal(a.content.category, b.content.category);
    }
    forall a: Drill, b: Drill, c: Drill | ByCategory(a, b) && ByCategory(b, c) ensures ByCategory(a, c) {
      LexLeTransitive(a.content.category, b.content.category, c.content.category);
    }
  }

  /** GET /drills: the drills of the caller's academy, ascending by category. */
  function ListDrills(drills: seq<Drill>, academyId: Id): (r: seq<Drill>)
    ensures multiset(r) == multiset(Filter(drills, DrillOfAcademy(academyId)))
    ensures forall d :: d in r <==> d in drills && d.academyId == academyId
    ensures forall i, j :: 0 <= i < j < |r| ==> LexLe(r[i].content.category, r[j].content.category)
  {
    ByCategoryIsTotalPreorder();
    var r := SortBy(Filter(drills, DrillOfAcademy(academyId)), ByCategory);
    assert forall d :: d in r <==> d in multiset(r);
    r
  }

  /** `parseInt(difficulty) || 1`: NaN and 0 both fall back to 1. */
  function Difficulty(parsed: Option<int>): (d: int)
    ensures d != 0
    ensures parsed.Some? && parsed.value != 0 <==> parsed == Some(d)
    ensures !(parsed.Some? && parsed.value != 0) ==> d == 1
  {
    if parsed.Some? && parsed.value != 0 then parsed.value else 1
  }

  /** POST /drills: the drill is created in the caller's academy. */
  method CreateDrill(db: Store, academyId: Id, content: DrillContent, difficulty: Option<int>) returns (d: Drill)
    requires db.Valid()
    modifies db`drills, db`nextDrillId
    ensures db.Valid()
    ensures d.academyId == academyId && d.content == content && d.difficulty == Difficulty(difficulty)
    ensures forall x :: x in old(db.drills) ==> x.id != d.id
    ensures db.drills == old(db.drills) + [d]
  {
    d := db.CreateDrill(academyId, content, Difficulty(difficulty));
  }

  /** PUT /drills/:id: rewrites the content and the difficulty; the academy of a drill
      never changes. */
  method UpdateDrill(db: Store, id: Option<int>, content: DrillContent, difficulty: Option<int>)
    returns (r: Result<Drill>)
    requires db.Valid()
    modifies db`drills
    ensures db.Valid()
    ensures r.Ok? <==> id.Some? && exists x :: x in old(db.drills) && x.id == id.value
    ensures r.Err? ==> r.error == StoreError && db.drills == old(db.drills)
    ensures r.Ok? ==> r.value.id == id.value && r.value.content == content
                      && r.value.difficulty == Difficulty(difficulty)
    ensures |db.drills| == |old(db.drills)|
    ensures forall k :: 0 <= k < |db.drills| ==>
              db.drills[k].id == old(db.drills)[k].id && db.drills[k].academyId == old(db.drills)[k].academyId
    ensures r.Ok? ==> forall k :: 0 <= k < |db.drills| && old(db.drills)[k].id != id.value ==>
                        db.drills[k] == old(db.drills)[k]
    // the stored row now holds the new content and difficulty
    ensures r.Ok? ==> forall k :: 0 <= k < |db.drills| ==>
                        db.drills[k] == if old(db.drills)[k].id == id.value
                                        then old(db.drills)[k].(content := content, difficulty := Difficulty(difficulty))
                                        else old(db.drills)[k]
  {
    if id.None? {
      return Err(StoreError);
    }
    r := db.UpdateDrill(id.value, content, Difficulty(difficulty));
    if r.Err? {
      assert forall x :: x in old(db.drills) ==> x.id != id.value;
    } else {
      ghost var k :| 0 <= k < |db.drills| && db.drills[k] == r.value;
      assert old(db.drills)[k].id == id.value;
    }
  }

  /** DELETE /drills/:id: the cascade, then the drill. An unparsable id rejects before
      anything is removed. An unknown id leaves both tables as they were: no assignment
      can refer to a drill that does not exist. */
  method DeleteDrill(db: Store, id: Option<int>) returns (r: Result<Drill>)
    requires db.Valid()
    modifies db`templateDrills, db`drills
    ensures db.Valid()
    ensures r.Ok? <==> id.Some? && exists x :: x in old(db.drills) && x.id == id.value
    ensures r.Err? ==> r.error == StoreError && db.drills == old(db.drills)
                       && db.templateDrills == old(db.templateDrills)
    ensures r.Ok? ==> r.value in old(db.drills) && r.value.id == id.value
                      && exists k :: 0 <= k < |old(db.drills)| && old(db.drills)[k] == r.value
                                     && db.drills == old(db.drills)[..k] + old(db.drills)[k + 1..]
    ensures r.Ok? ==> db.templateDrills == Filter(old(db.templateDrills), NotOfDrill(id.value))
    // no assignment refers to the deleted drill; every other assignment survives
    ensures r.Ok? ==> forall td :: td in db.templateDrills <==> td in old(db.templateDrills) && td.drillId != id.value
    // the drill is gone and every other drill survives
    ensures r.Ok? ==> (forall x :: x in db.drills ==> x.id != id.value)
                      && (forall x :: x in old(db.drills) && x.id != id.value ==> x in db.drills)
  {
    if id.None? {
      return Err(StoreError);
    }
    ghost var assignments := db.templateDrills;
    if !exists x :: x in db.drills && x.id == id.value {
      forall k | 0 <= k < |assignments| ensures NotOfDrill(id.value)(assignments[k]) {
        assert assignments[k] in assignments;
      }
      FilterAllPass(assignments, NotOfDrill(id.value));
    }
    db.DeleteAssignmentsOf(id.value);
    r := db.DeleteDrill(id.value);
  }
}
