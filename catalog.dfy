/** The meal catalog and the dish editor: replacing or prepending a meal in
    the `meals` list, the choice of the active meal at start-up, the guard
    on deleting a meal, the id refresh of a copied meal, and the edits of a
    meal's dishes and stages (each found by id; an unknown id leaves
    everything as it was, which the functions here report as None). */
module Catalog {
  import opened Types
  import opened Util
  import opened Lists

  // ---------- The meals list ----------

  /** `upsertMeal`'s list update: the first meal with the same id is
      replaced where it stands, and a meal with a new id goes in front. */
  function Upserted(ms: seq<Meal>, m: Meal): (r: seq<Meal>)
    ensures m in r
    ensures IndexOf(ms, MealKey, m.id) >= 0 ==> |r| == |ms|
    ensures IndexOf(ms, MealKey, m.id) < 0 ==> |r| == |ms| + 1 && r[1..] == ms
    ensures forall k :: 0 <= k < |ms| && ms[k].id != m.id ==> ms[k] in r
    ensures var i := IndexOf(ms, MealKey, m.id);
      i >= 0 ==> r[i] == m && forall k :: 0 <= k < |ms| && k != i ==> r[k] == ms[k]
    ensures IndexOf(ms, MealKey, m.id) < 0 ==> r[0] == m
  {
    var i := IndexOf(ms, MealKey, m.id);
    if i >= 0 then
      var r := ms[i := m];
      assert r[i] == m;
      assert forall k :: 0 <= k < |ms| && ms[k].id != m.id ==> r[k] == ms[k];
      r
    else
      assert forall k :: 0 <= k < |ms| ==> ([m] + ms)[k + 1] == ms[k];
      [m] + ms
  }

  /** After an upsert, looking the meal up by its id finds exactly it. */
  lemma UpsertThenFind(ms: seq<Meal>, m: Meal)
    ensures var r := Upserted(ms, m);
      IndexOf(r, MealKey, m.id) >= 0 && r[IndexOf(r, MealKey, m.id)] == m
  {
    var i := IndexOf(ms, MealKey, m.id);
    var r := Upserted(ms, m);
    if i >= 0 {
      assert r == ms[i := m];
      assert MealKey(r[i]) == m.id;
      assert forall j :: 0 <= j < i ==> r[j] == ms[j] && MealKey(ms[j]) != m.id;
      var p := IndexOf(r, MealKey, m.id);
      assert p == i;
    } else {
      assert r[0] == m;
    }
  }

  /** Saving the same meal twice leaves the list as saving it once. */
  lemma UpsertIdempotent(ms: seq<Meal>, m: Meal)
    ensures Upserted(Upserted(ms, m), m) == Upserted(ms, m)
  {
    var r := Upserted(ms, m);
    UpsertThenFind(ms, m);
    var i := IndexOf(r, MealKey, m.id);
    assert r[i := m] == r;
  }

  /** The ids of the list after an upsert are those before plus the meal's own. */
  lemma UpsertIds(ms: seq<Meal>, m: Meal)
    ensures var r := Upserted(ms, m);
      (set k | 0 <= k < |r| :: r[k].id) == (set k | 0 <= k < |ms| :: ms[k].id) + {m.id}
  {
    var r := Upserted(ms, m);
    var i := IndexOf(ms, MealKey, m.id);
    var before := set k | 0 <= k < |ms| :: ms[k].id;
    var after := set k | 0 <= k < |r| :: r[k].id;
    if i >= 0 {
      forall x | x in before + {m.id}
        ensures x in after
      {
        if x == m.id {
          assert r[i].id == x;
        } else {
          var k :| 0 <= k < |ms| && ms[k].id == x;
          assert r[k].id == x;
        }
      }
    } else {
      forall x | x in before + {m.id}
        ensures x in after
      {
        if x == m.id {
          assert r[0].id == x;
        } else {
          var k :| 0 <= k < |ms| && ms[k].id == x;
          assert r[k + 1].id == x;
        }
      }
      forall x | x in after
        ensures x in before + {m.id}
      {
        var k :| 0 <= k < |r| && r[k].id == x;
        if k > 0 {
          assert ms[k - 1].id == x;
        }
      }
    }
  }

  /** `ensureBootstrap`'s active meal: the first meal carrying the stored
      active id, or the first meal when there is none. */
  function ActiveChoice(ms: seq<Meal>, active: Option<Id>): (r: Meal)
    requires ms != []
    ensures r in ms
    ensures IndexOf(ms, MealKey, r.id) >= 0 && r == ms[IndexOf(ms, MealKey, r.id)]
    ensures active.Some? && IndexOf(ms, MealKey, active.value) >= 0 ==> r == ms[IndexOf(ms, MealKey, active.value)]
    ensures active.Some? && (exists k :: 0 <= k < |ms| && ms[k].id == active.value) ==> r.id == active.value
    ensures (active.None? || forall k :: 0 <= k < |ms| ==> ms[k].id != active.value) ==> r == ms[0]
  {
    if active.None? then ms[0]
    else
      var i := IndexOf(ms, MealKey, active.value);
      if i < 0 then ms[0] else ms[i]
  }

  /** `deleteMeal`'s filter keeps a meal as long as one meal has another
      id, so `meals[0]` then exists. */
  lemma DeleteLeavesAMeal(ms: seq<Meal>, id: Id, k: nat)
    requires k < |ms| && ms[k].id != id
    ensures Without(ms, MealKey, id) != []
    ensures ms[k] in Without(ms, MealKey, id)
  {
    var r := Without(ms, MealKey, id);
    assert multiset(ms)[ms[k]] > 0;
    assert multiset(r)[ms[k]] > 0;
  }

  /** With pairwise different ids, deleting from two or more meals leaves
      exactly one fewer. */
  lemma DeleteWithDistinctIds(ms: seq<Meal>, k: nat)
    requires k < |ms|
    requires forall i, j :: 0 <= i < j < |ms| ==> ms[i].id != ms[j].id
    ensures |Without(ms, MealKey, ms[k].id)| == |ms| - 1
    ensures ms[k] !in Without(ms, MealKey, ms[k].id)
  {
    var id := ms[k].id;
    var r := Without(ms, MealKey, id);
    forall x
      ensures multiset(r)[x] == (if x == ms[k] then multiset(ms)[x] - 1 else multiset(ms)[x])
    {
      if x.id == id {
        forall j | 0 <= j < |ms| && j != k
          ensures ms[j] != x
        {
          assert ms[j].id != ms[k].id;
        }
        if x == ms[k] {
          DistinctMultiplicity(ms, x);
        } else {
          assert x !in ms;
        }
      }
    }
    assert multiset(r) + multiset{ms[k]} == multiset(ms);
    assert |multiset(r)| + 1 == |multiset(ms)|;
  }

  // ---------- Fresh ids for a copied or imported meal ----------

  /** The consecutive ids `a, a + 1, …, a + n - 1`. */
  function Range(a: Id, n: nat): (r: seq<Id>)
    ensures |r| == n
    ensures forall k :: 0 <= k < n ==> r[k] == a + k
  {
    seq(n, k requires 0 <= k < n => a + k)
  }

  function StageIds(st: seq<Stage>): (r: seq<Id>)
    ensures |r| == |st|
    ensures forall k :: 0 <= k < |st| ==> r[k] == st[k].id
  {
    seq(|st|, k requires 0 <= k < |st| => st[k].id)
  }

  /** Every id inside a list of dishes, in the order the refresh draws them:
      each dish's own id, then its stages' ids. */
  function Ids(ds: seq<Dish>): seq<Id>
  {
    if ds == [] then [] else [ds[0].id] + StageIds(ds[0].stages) + Ids(ds[1..])
  }

  /** How many ids a list of dishes holds. */
  function IdCount(ds: seq<Dish>): nat
  {
    if ds == [] then 0 else 1 + |ds[0].stages| + IdCount(ds[1..])
  }

  function RenumberStages(st: seq<Stage>, id: Id): (r: seq<Stage>)
    ensures |r| == |st|
    ensures forall k :: 0 <= k < |st| ==> r[k] == st[k].(id := id + k)
  {
    seq(|st|, k requires 0 <= k < |st| => st[k].(id := id + k))
  }

  /** `dishes.map(d => ({...d, id: uid(), stages: d.stages.map(s => ({...s, id: uid()}))}))`
      with the supply standing at `id`. */
  function Renumber(ds: seq<Dish>, id: Id): (r: seq<Dish>)
    ensures |r| == |ds|
  {
    if ds == [] then []
    else [ds[0].(id := id, stages := RenumberStages(ds[0].stages, id + 1))] + Renumber(ds[1..], id + 1 + |ds[0].stages|)
  }

  lemma RangeAppend(a: Id, n: nat, m: nat)
    ensures Range(a, n) + Range(a + n, m) == Range(a, n + m)
  {
  }

  /** The refreshed dishes carry exactly the consecutive ids the supply
      hands out, so they are pairwise different and all fresh. */
  lemma {:induction false} RenumberIds(ds: seq<Dish>, id: Id)
    ensures Ids(Renumber(ds, id)) == Range(id, IdCount(ds))
    decreases |ds|
  {
    if ds != [] {
      var st := ds[0].stages;
      var r := Renumber(ds, id);
      RenumberIds(ds[1..], id + 1 + |st|);
      assert r[1..] == Renumber(ds[1..], id + 1 + |st|);
      assert StageIds(r[0].stages) == Range(id + 1, |st|);
      RangeAppend(id, 1, |st|);
      RangeAppend(id, 1 + |st|, IdCount(ds[1..]));
    }
  }

  /** Refreshing twice is refreshing once: apart from the ids, the dishes
      and stages are copied unchanged. */
  lemma {:induction false} RenumberForgetsIds(ds: seq<Dish>, a: Id, b: Id)
    ensures Renumber(Renumber(ds, a), b) == Renumber(ds, b)
    decreases |ds|
  {
    if ds != [] {
      var st := ds[0].stages;
      var r := Renumber(ds, a);
      assert r[1..] == Renumber(ds[1..], a + 1 + |st|);
      RenumberForgetsIds(ds[1..], a + 1 + |st|, b + 1 + |st|);
      assert RenumberStages(RenumberStages(st, a + 1), b + 1) == RenumberStages(st, b + 1);
    }
  }

  /** The refresh keeps every dish's name and every stage apart from its id. */
  lemma {:induction false} RenumberKeepsContent(ds: seq<Dish>, id: Id)
    ensures var r := Renumber(ds, id);
      forall i :: 0 <= i < |ds| ==>
        r[i].name == ds[i].name && |r[i].stages| == |ds[i].stages| &&
        forall k :: 0 <= k < |ds[i].stages| ==> r[i].stages[k] == ds[i].stages[k].(id := r[i].stages[k].id)
    decreases |ds|
  {
    if ds != [] {
      var r := Renumber(ds, id);
      RenumberKeepsContent(ds[1..], id + 1 + |ds[0].stages|);
      assert r[1..] == Renumber(ds[1..], id + 1 + |ds[0].stages|);
      forall i | 1 <= i < |ds|
        ensures r[i] == r[1..][i - 1] && ds[i] == ds[1..][i - 1]
      {
      }
    }
  }

  /** `copyMeal` after the name prompt: a fresh meal id, the trimmed name,
      the same serve date and time, and the dishes with refreshed ids. */
  function Copied(m: Meal, name: string, id: Id): (r: Meal)
    ensures r.id == id && r.name == Trim(name)
    ensures r.serveDate == m.serveDate && r.serveTime == m.serveTime
    ensures |r.dishes| == |m.dishes|
    ensures forall i :: 0 <= i < |m.dishes| ==>
      r.dishes[i].name == m.dishes[i].name && |r.dishes[i].stages| == |m.dishes[i].stages| &&
      forall k :: 0 <= k < |m.dishes[i].stages| ==> r.dishes[i].stages[k] == m.dishes[i].stages[k].(id := r.dishes[i].stages[k].id)
  {
    RenumberKeepsContent(m.dishes, id + 1);
    Meal(id, Trim(name), m.serveDate, m.serveTime, Renumber(m.dishes, id + 1))
  }

  /** The copy's ids are the next `1 + IdCount` ids of the supply, so none
      of them is shared with the original or with each other. */
  lemma CopiedIds(m: Meal, name: string, id: Id)
    ensures var c := Copied(m, name, id);
      [c.id] + Ids(c.dishes) == Range(id, 1 + IdCount(m.dishes))
  {
    RenumberIds(m.dishes, id + 1);
    RangeAppend(id, 1, IdCount(m.dishes));
  }

  // ---------- Dish and stage edits ----------

  /** The stage `addStage` appends. */
  function DefaultStage(id: Id): (s: Stage)
    ensures s.id == id && s.durationMin == 10 && s.alertStart && s.alertEnd
  {
    Stage(id, "New stage", 10, true, true, "")
  }

  /** The edit `updateStageField` applies: the field and the value typed. */
  datatype StageField =
    | Name(name: string)
    | Duration(value: Num)
    | Notes(notes: string)
    | AlertStartFlag(on: bool)
    | AlertEndFlag(on: bool)

  /** A duration is clamped to [0, 2000] minutes, a flag is set as given,
      a text field is stored as typed; the other fields and the id stay. */
  function EditStage(s: Stage, f: StageField): (r: Stage)
    ensures r.id == s.id
    ensures f.Duration? ==> r.durationMin == ClampInt(f.value, 0, 2000) && 0 <= r.durationMin <= 2000
    ensures !f.Duration? ==> r.durationMin == s.durationMin
    ensures f.Duration? && f.value.NaN? ==> r.durationMin == 0
    ensures f.Duration? && f.value.Int? && 0 <= f.value.i <= 2000 ==> r.durationMin == f.value.i
    ensures f.Name? ==> r.name == f.name
    ensures f.Notes? ==> r.notes == f.notes
    ensures f.AlertStartFlag? ==> r.alertStart == f.on
    ensures f.AlertEndFlag? ==> r.alertEnd == f.on
    ensures !f.Name? ==> r.name == s.name
    ensures !f.Notes? ==> r.notes == s.notes
    ensures !f.AlertStartFlag? ==> r.alertStart == s.alertStart
    ensures !f.AlertEndFlag? ==> r.alertEnd == s.alertEnd
  {
    match f
    case Name(n) => s.(name := n)
    case Duration(v) => s.(durationMin := ClampInt(v, 0, 2000))
    case Notes(n) => s.(notes := n)
    case AlertStartFlag(b) => s.(alertStart := b)
    case AlertEndFlag(b) => s.(alertEnd := b)
  }

  /** Every stage duration lies in [0, 2000]: what the editor and the
      importer keep, so that re-clamping when the timeline is derived
      changes nothing. */
  predicate DurationsOk(ds: seq<Dish>)
  {
    forall i, k :: 0 <= i < |ds| && 0 <= k < |ds[i].stages| ==> 0 <= ds[i].stages[k].durationMin <= 2000
  }

  /** The dish at position `i` with its stage list replaced. */
  function WithStages(ds: seq<Dish>, i: nat, st: seq<Stage>): (r: seq<Dish>)
    requires i < |ds|
    ensures |r| == |ds| && r[i].id == ds[i].id && r[i].name == ds[i].name && r[i].stages == st
    ensures forall k :: 0 <= k < |ds| && k != i ==> r[k] == ds[k]
  {
    ds[i := ds[i].(stages := st)]
  }

  /** `addStage`: None for an unknown dish; otherwise the first dish with
      that id gains the default stage at its end. */
  function AddStageTo(ds: seq<Dish>, dishId: Id, id: Id): (r: Option<seq<Dish>>)
    ensures r.None? <==> IndexOf(ds, DishKey, dishId) < 0
    ensures r.Some? ==> var i := IndexOf(ds, DishKey, dishId);
      r.value == WithStages(ds, i, ds[i].stages + [DefaultStage(id)])
  {
    var i := IndexOf(ds, DishKey, dishId);
    if i < 0 then None else Some(WithStages(ds, i, ds[i].stages + [DefaultStage(id)]))
  }

  /** `deleteStage`: None for an unknown dish; otherwise every stage with
      that id is filtered out of the first dish with that id. */
  function DeleteStageFrom(ds: seq<Dish>, dishId: Id, stageId: Id): (r: Option<seq<Dish>>)
    ensures r.None? <==> IndexOf(ds, DishKey, dishId) < 0
    ensures r.Some? ==> var i := IndexOf(ds, DishKey, dishId);
      r.value == WithStages(ds, i, Without(ds[i].stages, StageKey, stageId))
  {
    var i := IndexOf(ds, DishKey, dishId);
    if i < 0 then None else Some(WithStages(ds, i, Without(ds[i].stages, StageKey, stageId)))
  }

  /** `moveStage`: None for an unknown dish, an unknown stage or a target
      outside the stage list; otherwise the stage list of that dish moved. */
  function MoveStageIn(ds: seq<Dish>, dishId: Id, stageId: Id, dir: int): (r: Option<seq<Dish>>)
    ensures r.None? <==> IndexOf(ds, DishKey, dishId) < 0
                         || MoveById(ds[IndexOf(ds, DishKey, dishId)].stages, StageKey, stageId, dir).None?
    ensures r.Some? ==> var i := IndexOf(ds, DishKey, dishId);
      r.value == WithStages(ds, i, MoveById(ds[i].stages, StageKey, stageId, dir).value)
  {
    var i := IndexOf(ds, DishKey, dishId);
    if i < 0 then None
    else
      match MoveById(ds[i].stages, StageKey, stageId, dir)
      case None => None
      case Some(st) => Some(WithStages(ds, i, st))
  }

  /** `updateStageField`: None for an unknown dish or stage; otherwise the
      first stage with that id, in the first dish with that id, edited. */
  function EditStageIn(ds: seq<Dish>, dishId: Id, stageId: Id, f: StageField): (r: Option<seq<Dish>>)
    ensures r.None? <==> IndexOf(ds, DishKey, dishId) < 0
                         || IndexOf(ds[IndexOf(ds, DishKey, dishId)].stages, StageKey, stageId) < 0
    ensures r.Some? ==> var i := IndexOf(ds, DishKey, dishId);
      var j := IndexOf(ds[i].stages, StageKey, stageId);
      r.value == WithStages(ds, i, ds[i].stages[j := EditStage(ds[i].stages[j], f)])
  {
    var i := IndexOf(ds, DishKey, dishId);
    if i < 0 then None
    else
      var j := IndexOf(ds[i].stages, StageKey, stageId);
      if j < 0 then None else Some(WithStages(ds, i, ds[i].stages[j := EditStage(ds[i].stages[j], f)]))
  }

  /** `updateDishName`: None for an unknown dish; otherwise the first dish
      with that id takes the name as typed. */
  function RenameDishIn(ds: seq<Dish>, dishId: Id, name: string): (r: Option<seq<Dish>>)
    ensures r.None? <==> IndexOf(ds, DishKey, dishId) < 0
    ensures r.Some? ==> var i := IndexOf(ds, DishKey, dishId);
      |r.value| == |ds| && r.value[i] == ds[i].(name := name)
      && forall k :: 0 <= k < |ds| && k != i ==> r.value[k] == ds[k]
  {
    var i := IndexOf(ds, DishKey, dishId);
    if i < 0 then None else Some(ds[i := ds[i].(name := name)])
  }

  lemma WithStagesDurations(ds: seq<Dish>, i: nat, st: seq<Stage>)
    requires i < |ds| && DurationsOk(ds)
    requires forall k :: 0 <= k < |st| ==> 0 <= st[k].durationMin <= 2000
    ensures DurationsOk(WithStages(ds, i, st))
  {
  }

  /** Adding the default stage (10 minutes) keeps all durations within [0, 2000]. */
  lemma AddStageKeepsDurations(ds: seq<Dish>, dishId: Id, id: Id)
    requires DurationsOk(ds)
    ensures AddStageTo(ds, dishId, id).Some? ==> DurationsOk(AddStageTo(ds, dishId, id).value)
  {
    var i := IndexOf(ds, DishKey, dishId);
    if i >= 0 {
      WithStagesDurations(ds, i, ds[i].stages + [DefaultStage(id)]);
    }
  }

  /** Deleting stages keeps all durations within [0, 2000]. */
  lemma DeleteStageKeepsDurations(ds: seq<Dish>, dishId: Id, stageId: Id)
    requires DurationsOk(ds)
    ensures DeleteStageFrom(ds, dishId, stageId).Some? ==> DurationsOk(DeleteStageFrom(ds, dishId, stageId).value)
  {
    var i := IndexOf(ds, DishKey, dishId);
    if i >= 0 {
      var st := ds[i].stages;
      var w := Without(st, StageKey, stageId);
      forall k | 0 <= k < |w|
        ensures 0 <= w[k].durationMin <= 2000
      {
        assert w[k] in multiset(st);
        var j :| 0 <= j < |st| && st[j] == w[k];
      }
      WithStagesDurations(ds, i, w);
    }
  }

  /** Moving a stage keeps all durations within [0, 2000]. */
  lemma MoveStageKeepsDurations(ds: seq<Dish>, dishId: Id, stageId: Id, dir: int)
    requires DurationsOk(ds)
    ensures MoveStageIn(ds, dishId, stageId, dir).Some? ==> DurationsOk(MoveStageIn(ds, dishId, stageId, dir).value)
  {
    var i := IndexOf(ds, DishKey, dishId);
    if i >= 0 {
      var st := ds[i].stages;
      var mv := MoveById(st, StageKey, stageId, dir);
      if mv.Some? {
        forall k | 0 <= k < |mv.value|
          ensures 0 <= mv.value[k].durationMin <= 2000
        {
          assert mv.value[k] in multiset(st);
          var j :| 0 <= j < |st| && st[j] == mv.value[k];
        }
        WithStagesDurations(ds, i, mv.value);
      }
    }
  }

  /** Editing a stage field keeps all durations within [0, 2000]: a typed
      duration is clamped. */
  lemma EditStageKeepsDurations(ds: seq<Dish>, dishId: Id, stageId: Id, f: StageField)
    requires DurationsOk(ds)
    ensures EditStageIn(ds, dishId, stageId, f).Some? ==> DurationsOk(EditStageIn(ds, dishId, stageId, f).value)
  {
    var i := IndexOf(ds, DishKey, dishId);
    if i >= 0 {
      var st := ds[i].stages;
      var j := IndexOf(st, StageKey, stageId);
      if j >= 0 {
        WithStagesDurations(ds, i, st[j := EditStage(st[j], f)]);
      }
    }
  }

  /** Deleting a dish keeps all durations within [0, 2000]. */
  lemma DeleteDishKeepsDurations(ds: seq<Dish>, dishId: Id)
    requires DurationsOk(ds)
    ensures DurationsOk(Without(ds, DishKey, dishId))
  {
    var wd := Without(ds, DishKey, dishId);
    forall a, k | 0 <= a < |wd| && 0 <= k < |wd[a].stages|
      ensures 0 <= wd[a].stages[k].durationMin <= 2000
    {
      assert wd[a] in multiset(ds);
      var b :| 0 <= b < |ds| && ds[b] == wd[a];
    }
  }
}
