/** The import normaliser of `importMealJSON`: what `JSON.parse` hands over
    is checked to be an object with a name, then every dish and stage is
    rebuilt with fresh ids and defaults for the missing fields, every
    duration clamped to [0, 2000] minutes. Export (`JSON.stringify` of a
    meal) is the partner: a well-formed meal comes back unchanged apart
    from its ids. */
module Import {
  import opened Types
  import opened Util
  import opened Catalog

  /** A stage object as parsed. A field that is absent or null is None;
      `durationMin` is given as what `parseInt` makes of it. */
  datatype RawStage = RawStage(
    name: Option<string>,
    durationMin: Option<Num>,
    alertStart: Option<bool>,
    alertEnd: Option<bool>,
    notes: Option<string>)

  datatype RawDish = RawDish(name: Option<string>, stages: Option<seq<RawStage>>)

  /** The outcome of `JSON.parse` on the pasted text. */
  datatype ImportInput =
    | Unparseable
    | NotAnObject
    | Object(name: Option<string>, serveDate: Option<string>, serveTime: Option<string>, dishes: Option<seq<RawDish>>)

  datatype ImportOutcome = InvalidJson | NotAMeal | Imported(meal: Meal)

  /** `x || dflt` on an optional string: absent, null and "" are falsy. */
  function OrDefault(x: Option<string>, dflt: string): (r: string)
    ensures x.Some? && x.value != [] ==> r == x.value
    ensures x.None? || x.value == [] ==> r == dflt
  {
    if x.Some? && x.value != [] then x.value else dflt
  }

  /** One stage rebuilt; the id is assigned afterwards by `Renumber`. */
  function NormaliseStage(s: RawStage): (r: Stage)
    ensures r.id == 0
    ensures r.name == OrDefault(s.name, "Stage") && r.notes == OrDefault(s.notes, "")
    ensures r.name != [] && 0 <= r.durationMin <= 2000
    ensures s.durationMin.None? ==> r.durationMin == 10
    ensures s.durationMin.Some? ==> r.durationMin == ClampInt(s.durationMin.value, 0, 2000)
    ensures s.durationMin == Some(NaN) ==> r.durationMin == 0
    ensures r.alertStart <==> s.alertStart != Some(false)
    ensures r.alertEnd <==> s.alertEnd != Some(false)
  {
    var dur := match s.durationMin
      case None => ClampInt(Int(10), 0, 2000)
      case Some(n) => ClampInt(n, 0, 2000);
    Stage(0, OrDefault(s.name, "Stage"), dur, s.alertStart != Some(false), s.alertEnd != Some(false), OrDefault(s.notes, ""))
  }

  function NormaliseDish(d: RawDish): (r: Dish)
    ensures r.id == 0 && r.name == OrDefault(d.name, "Dish") && r.name != []
    ensures |r.stages| == (if d.stages.None? then 0 else |d.stages.value|)
    ensures d.stages.Some? ==> forall k :: 0 <= k < |r.stages| ==> r.stages[k] == NormaliseStage(d.stages.value[k])
    ensures forall k :: 0 <= k < |r.stages| ==> r.stages[k].name != [] && 0 <= r.stages[k].durationMin <= 2000
  {
    var raw := if d.stages.None? then [] else d.stages.value;
    Dish(0, OrDefault(d.name, "Dish"), seq(|raw|, k requires 0 <= k < |raw| => NormaliseStage(raw[k])))
  }

  /** The checks and the rebuild of the import button's handler, with the
      supply standing at `id`: the meal takes `id`, then its dishes and
      stages take the following ids in order. */
  function NormaliseImport(input: ImportInput, today: string, id: Id): (r: ImportOutcome)
    ensures input.Unparseable? <==> r.InvalidJson?
    ensures r.NotAMeal? <==> input.NotAnObject? || (input.Object? && (input.name.None? || input.name.value == []))
    ensures r.Imported? ==> r.meal.id == id && r.meal.name == input.name.value
    ensures r.Imported? ==>
      && r.meal.serveDate == OrDefault(input.serveDate, today)
      && r.meal.serveTime == OrDefault(input.serveTime, "18:30")
      && r.meal.dishes == Renumber(CleanDishes(input), id + 1)
  {
    match input
    case Unparseable => InvalidJson
    case NotAnObject => NotAMeal
    case Object(name, serveDate, serveTime, dishes) =>
      if name.None? || name.value == [] then NotAMeal
      else
        Imported(Meal(id, name.value, OrDefault(serveDate, today), OrDefault(serveTime, "18:30"),
          Renumber(CleanDishes(input), id + 1)))
  }

  /** A meal as the editor and the timeline expect it: a name, a serve date
      and time, named dishes and stages, durations within [0, 2000]. */
  predicate WellFormed(m: Meal)
  {
    && m.name != [] && m.serveDate != [] && m.serveTime != []
    && (forall i :: 0 <= i < |m.dishes| ==> m.dishes[i].name != [])
    && (forall i, k :: 0 <= i < |m.dishes| && 0 <= k < |m.dishes[i].stages| ==> m.dishes[i].stages[k].name != [])
    && DurationsOk(m.dishes)
  }

  /** The refresh keeps names non-empty and durations in range. */
  lemma RenumberNames(ds: seq<Dish>, id: Id)
    requires forall i :: 0 <= i < |ds| ==> ds[i].name != []
    requires forall i, k :: 0 <= i < |ds| && 0 <= k < |ds[i].stages| ==>
      ds[i].stages[k].name != [] && 0 <= ds[i].stages[k].durationMin <= 2000
    ensures forall i :: 0 <= i < |Renumber(ds, id)| ==> Renumber(ds, id)[i].name != []
    ensures forall i, k :: 0 <= i < |Renumber(ds, id)| && 0 <= k < |Renumber(ds, id)[i].stages| ==>
      Renumber(ds, id)[i].stages[k].name != [] && 0 <= Renumber(ds, id)[i].stages[k].durationMin <= 2000
  {
    RenumberKeepsContent(ds, id);
  }

  /** The dishes the import rebuilds, before their ids are assigned. */
  function CleanDishes(input: ImportInput): (r: seq<Dish>)
    requires input.Object?
    ensures |r| == (if input.dishes.None? then 0 else |input.dishes.value|)
    ensures input.dishes.Some? ==> forall i :: 0 <= i < |r| ==> r[i] == NormaliseDish(input.dishes.value[i])
    ensures forall i :: 0 <= i < |r| ==> r[i].name != []
    ensures forall i, k :: 0 <= i < |r| && 0 <= k < |r[i].stages| ==>
      r[i].stages[k].name != [] && 0 <= r[i].stages[k].durationMin <= 2000
  {
    var raw := if input.dishes.None? then [] else input.dishes.value;
    seq(|raw|, i requires 0 <= i < |raw| => NormaliseDish(raw[i]))
  }

  /** Whatever is imported is well-formed. */
  lemma ImportedWellFormed(input: ImportInput, today: string, id: Id)
    requires today != []
    requires NormaliseImport(input, today, id).Imported?
    ensures WellFormed(NormaliseImport(input, today, id).meal)
  {
    var m := NormaliseImport(input, today, id).meal;
    var clean := CleanDishes(input);
    assert m.dishes == Renumber(clean, id + 1);
    RenumberNames(clean, id + 1);
  }

  /** The imported meal's ids are the consecutive ids the supply hands out
      from `id` on, so they are pairwise different and all fresh. */
  lemma ImportedIds(input: ImportInput, today: string, id: Id)
    requires NormaliseImport(input, today, id).Imported?
    ensures var m := NormaliseImport(input, today, id).meal;
      [m.id] + Ids(m.dishes) == Range(id, 1 + IdCount(m.dishes))
  {
    var m := NormaliseImport(input, today, id).meal;
    assert m.id == id && m.dishes == Renumber(CleanDishes(input), id + 1);
    RenumberedIds(CleanDishes(input), id);
  }

  /** A meal id `id` followed by dishes refreshed from `id + 1` on. */
  lemma RenumberedIds(ds: seq<Dish>, id: Id)
    ensures [id] + Ids(Renumber(ds, id + 1)) == Range(id, 1 + IdCount(Renumber(ds, id + 1)))
  {
    var n := IdCount(ds);
    RenumberIds(ds, id + 1);
    RenumberIdCount(ds, id + 1);
    RangeAppend(id, 1, n);
    assert [id] == Range(id, 1);
  }

  lemma {:induction false} RenumberIdCount(ds: seq<Dish>, id: Id)
    ensures IdCount(Renumber(ds, id)) == IdCount(ds)
    decreases |ds|
  {
    if ds != [] {
      var r := Renumber(ds, id);
      assert r[1..] == Renumber(ds[1..], id + 1 + |ds[0].stages|);
      RenumberIdCount(ds[1..], id + 1 + |ds[0].stages|);
    }
  }

  // ---------- Export ----------

  function ExportStage(s: Stage): RawStage
  {
    RawStage(Some(s.name), Some(Int(s.durationMin)), Some(s.alertStart), Some(s.alertEnd), Some(s.notes))
  }

  function ExportDish(d: Dish): RawDish
  {
    RawDish(Some(d.name), Some(seq(|d.stages|, k requires 0 <= k < |d.stages| => ExportStage(d.stages[k]))))
  }

  /** What `exportMealJSON` shows, as the import handler reads it back. */
  function Export(m: Meal): (r: ImportInput)
    ensures r.Object? && r.name == Some(m.name)
  {
    Object(Some(m.name), Some(m.serveDate), Some(m.serveTime),
      Some(seq(|m.dishes|, i requires 0 <= i < |m.dishes| => ExportDish(m.dishes[i]))))
  }

  /** All ids zero: a list of dishes as it reads apart from its ids. */
  function Blank(ds: seq<Dish>): (r: seq<Dish>)
    ensures |r| == |ds|
  {
    seq(|ds|, i requires 0 <= i < |ds| =>
      Dish(0, ds[i].name, seq(|ds[i].stages|, k requires 0 <= k < |ds[i].stages| => ds[i].stages[k].(id := 0))))
  }

  lemma {:induction false} RenumberBlank(ds: seq<Dish>, id: Id)
    ensures Renumber(Blank(ds), id) == Renumber(ds, id)
    decreases |ds|
  {
    if ds != [] {
      assert Blank(ds)[1..] == Blank(ds[1..]);
      RenumberBlank(ds[1..], id + 1 + |ds[0].stages|);
      assert RenumberStages(Blank(ds)[0].stages, id + 1) == RenumberStages(ds[0].stages, id + 1);
    }
  }

  /** Export then import gives back a well-formed meal unchanged, apart
      from the fresh ids the import draws. */
  lemma ExportImportRoundTrip(m: Meal, today: string, id: Id)
    requires WellFormed(m)
    ensures NormaliseImport(Export(m), today, id) == Imported(m.(id := id, dishes := Renumber(m.dishes, id + 1)))
  {
    var clean := CleanDishes(Export(m));
    forall i | 0 <= i < |m.dishes|
      ensures clean[i] == Blank(m.dishes)[i]
    {
      assert clean[i] == NormaliseDish(ExportDish(m.dishes[i]));
      var st := m.dishes[i].stages;
      forall k | 0 <= k < |st|
        ensures NormaliseStage(ExportStage(st[k])) == st[k].(id := 0)
      {
        assert 0 <= st[k].durationMin <= 2000;
      }
    }
    assert clean == Blank(m.dishes);
    RenumberBlank(m.dishes, id + 1);
  }

  /** Importing what an import produced changes nothing but the ids. */
  lemma ImportIdempotent(input: ImportInput, today: string, id1: Id, id2: Id)
    requires today != []
    requires NormaliseImport(input, today, id1).Imported?
    ensures var m := NormaliseImport(input, today, id1).meal;
      NormaliseImport(Export(m), today, id2) == Imported(m.(id := id2, dishes := Renumber(m.dishes, id2 + 1)))
  {
    ImportedWellFormed(input, today, id1);
    ExportImportRoundTrip(NormaliseImport(input, today, id1).meal, today, id2);
  }

  /** A dish renamed to "" in the editor comes back from export and import
      as "Dish", and a stage without a name as "Stage". */
  lemma EmptyNamesComeBackDefaulted(d: Dish, s: Stage)
    requires d.name == [] && s.name == []
    ensures NormaliseDish(ExportDish(d)).name == "Dish"
    ensures NormaliseStage(ExportStage(s)).name == "Stage"
  {
  }
}
