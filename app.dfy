/** The global state of app.js and the handlers that change it: the meals
    list and the active meal, what was last written to storage, the
    persisted session record, the armed timers, the ten-second tick, the
    alerts raised, and the fresh-id supply that stands for `uid()`.

    `meal` is held as a value: where app.js mutates the active meal object
    in place and then calls `upsertMeal(meal)`, the methods here build the
    edited meal and upsert it, which leaves `meals` as the aliasing did. */
module Coordinator {
  import opened Types
  import opened Util
  import opened Lists
  import opened Derivation
  import opened Session
  import opened Catalog
  import opened Import

  /** How `deleteMeal` ends: refused because only one meal is left, not
      confirmed, done, or thrown on `meals[0].id` after the filter removed
      every meal (which only repeated ids make possible). */
  datatype DeleteOutcome = KeptLastMeal | Declined | Deleted | Fault

  /** How `scheduleSession` ends. */
  datatype ArmOutcome = ServeTimeMissing | NothingToSchedule | Armed

  class App {
    var meals: seq<Meal>
    var meal: Meal
    /** What `saveMeals` last wrote. */
    var storedMeals: seq<Meal>
    /** What `setActiveMealId` last wrote. */
    var storedActiveId: Option<Id>
    /** The persisted session record (`getSession`/`setSession`). */
    var session: Option<SessionRecord>
    var timers: seq<Timer>
    /** Whether the ten-second re-render interval runs. */
    var ticking: bool
    /** The alerts (toast and beeps) raised by fired events, in order. */
    var alerts: seq<Event>
    /** The fresh-id supply: every id handed out so far is below it. */
    var nextId: Id

    /** The active meal is one of the meals, and no id the supply will hand
        out is already held by an armed timer's event or by the fired set. */
    predicate Valid()
      reads this
    {
      && meal in meals
      && (forall k :: 0 <= k < |timers| ==> timers[k].event.id < nextId)
      && (session.Some? ==> forall k :: 0 <= k < |session.value.firedEventIds| ==> session.value.firedEventIds[k] < nextId)
    }

    /** `ensureBootstrap`: the stored meals, or the template when there are
        none (then saved and made active); the active meal is the one with
        the stored active id, else the first; an empty serve date or time on
        it is filled in memory (today, "18:30") without being saved. */
    constructor Bootstrap(loaded: seq<Meal>, storedActive: Option<Id>, storedSession: Option<SessionRecord>,
                          template: Meal, today: string, firstId: Id)
      requires storedSession.Some? ==> forall k :: 0 <= k < |storedSession.value.firedEventIds| ==> storedSession.value.firedEventIds[k] < firstId
      ensures Valid()
      ensures storedMeals == (if loaded == [] then [template] else loaded)
      ensures var chosen := ActiveChoice(storedMeals, if loaded == [] then Some(template.id) else storedActive);
        && meal == chosen.(serveDate := OrDefault(Some(chosen.serveDate), today), serveTime := OrDefault(Some(chosen.serveTime), "18:30"))
        && storedActiveId == Some(chosen.id)
        && meals == storedMeals[IndexOf(storedMeals, MealKey, chosen.id) := meal]
      ensures meal in meals
      ensures session == storedSession && timers == [] && !ticking && alerts == [] && nextId == firstId
    {
      var ms := loaded;
      var active := storedActive;
      if ms == [] {
        ms := [template];
        active := Some(template.id);
      }
      storedMeals := ms;
      var k := if active.None? then -1 else IndexOf(ms, MealKey, active.value);
      if k < 0 {
        k := 0;
      }
      var chosen := ms[k];
      var m := chosen;
      if m.serveDate == [] {
        m := m.(serveDate := today);
      }
      if m.serveTime == [] {
        m := m.(serveTime := "18:30");
      }
      assert ms[k] == ActiveChoice(ms, active) && k == IndexOf(ms, MealKey, chosen.id);
      var updated := ms[k := m];
      assert updated[k] == m;
      meals := updated;
      meal := m;
      storedActiveId := Some(chosen.id);
      session := storedSession;
      timers := [];
      ticking := false;
      alerts := [];
      nextId := firstId;
    }

    // ---------- Catalog ----------

    /** `upsertMeal`: replace or prepend, save, make it the active meal. */
    method UpsertMeal(m: Meal)
      requires Valid()
      modifies this
      ensures Valid()
      ensures meals == Upserted(old(meals), m) && storedMeals == meals
      ensures meal == m && storedActiveId == Some(m.id)
      ensures session == old(session) && timers == old(timers) && ticking == old(ticking)
      ensures alerts == old(alerts) && nextId == old(nextId)
    {
      var idx := IndexOf(meals, MealKey, m.id);
      if idx >= 0 {
        meals := meals[idx := m];
        assert meals[idx] == m;
      } else {
        meals := [m] + meals;
        assert meals[0] == m;
      }
      storedMeals := meals;
      meal := m;
      storedActiveId := Some(m.id);
    }

    /** `setMealById`: nothing for an unknown id; otherwise the first meal
        with that id becomes the active meal. */
    method SetMealById(id: Id)
      requires Valid()
      modifies this
      ensures Valid()
      ensures IndexOf(old(meals), MealKey, id) < 0 ==> unchanged(this)
      ensures IndexOf(old(meals), MealKey, id) >= 0 ==>
        meal == old(meals)[IndexOf(old(meals), MealKey, id)] && storedActiveId == Some(id)
      ensures meals == old(meals) && storedMeals == old(storedMeals)
      ensures session == old(session) && timers == old(timers) && ticking == old(ticking)
      ensures alerts == old(alerts) && nextId == old(nextId)
    {
      var i := IndexOf(meals, MealKey, id);
      if i < 0 {
        return;
      }
      meal := meals[i];
      storedActiveId := Some(id);
    }

    /** Put a new meal in front, upsert it and select it: the sequence
        `createNewMeal`, `copyMeal` and the import share. */
    method AddAndSelect(m: Meal)
      requires Valid()
      modifies this
      ensures Valid()
      ensures meals == [m] + old(meals) && storedMeals == meals
      ensures meal == m && storedActiveId == Some(m.id)
      ensures session == old(session) && timers == old(timers) && ticking == old(ticking)
      ensures alerts == old(alerts) && nextId == old(nextId)
    {
      meals := [m] + meals;
      UpsertMeal(m);
      assert meals == [m] + old(meals) by {
        assert IndexOf([m] + old(meals), MealKey, m.id) == 0;
      }
      SetMealById(m.id);
    }

    /** `createNewMeal`: nothing when the prompt is cancelled or left empty;
        otherwise an empty meal under the trimmed name, served today at
        18:30, in front of the list and active. */
    method CreateNewMeal(answer: Option<string>, today: string)
      requires Valid()
      modifies this
      ensures Valid()
      ensures answer.None? || answer.value == [] ==> unchanged(this)
      ensures answer.Some? && answer.value != [] ==>
        && meal == Meal(old(nextId), Trim(answer.value), today, "18:30", [])
        && meals == [meal] + old(meals) && nextId == old(nextId) + 1
        && storedMeals == meals && storedActiveId == Some(meal.id)
      ensures session == old(session) && timers == old(timers) && ticking == old(ticking) && alerts == old(alerts)
    {
      if answer.None? || answer.value == [] {
        return;
      }
      var m := Meal(nextId, Trim(answer.value), today, "18:30", []);
      nextId := nextId + 1;
      AddAndSelect(m);
    }

    /** `copyMeal`: nothing when the prompt is cancelled or left empty;
        otherwise a copy of the active meal under the trimmed name, with a
        fresh meal id and fresh dish and stage ids, in front and active. */
    method CopyMeal(answer: Option<string>)
      requires Valid()
      modifies this
      ensures Valid()
      ensures answer.None? || answer.value == [] ==> unchanged(this)
      ensures answer.Some? && answer.value != [] ==>
        && meal == Copied(old(meal), answer.value, old(nextId))
        && meals == [meal] + old(meals) && storedMeals == meals && storedActiveId == Some(meal.id)
        && nextId == old(nextId) + 1 + IdCount(old(meal).dishes)
      ensures session == old(session) && timers == old(timers) && ticking == old(ticking) && alerts == old(alerts)
    {
      if answer.None? || answer.value == [] {
        return;
      }
      var clone := Copied(meal, answer.value, nextId);
      nextId := nextId + 1 + IdCount(meal.dishes);
      AddAndSelect(clone);
    }

    /** `deleteMeal`: refused while only one meal is left; nothing when not
        confirmed; otherwise every meal with the active meal's id is
        filtered out and saved, and the first remaining meal becomes active. */
    method DeleteMeal(confirmed: bool) returns (outcome: DeleteOutcome)
      requires Valid()
      modifies this
      ensures outcome != Fault ==> Valid()
      ensures |old(meals)| <= 1 ==> outcome == KeptLastMeal && unchanged(this)
      ensures |old(meals)| > 1 && !confirmed ==> outcome == Declined && unchanged(this)
      ensures |old(meals)| > 1 && confirmed ==>
        && meals == Without(old(meals), MealKey, old(meal).id) && storedMeals == meals
        && (outcome == Fault <==> meals == [])
        && (outcome == Deleted <==> meals != [])
      ensures outcome == Deleted ==> meal == meals[0] && storedActiveId == Some(meals[0].id)
      ensures outcome == Fault ==> meal == old(meal) && storedActiveId == old(storedActiveId)
      ensures session == old(session) && timers == old(timers) && ticking == old(ticking)
      ensures alerts == old(alerts) && nextId == old(nextId)
    {
      if |meals| <= 1 {
        return KeptLastMeal;
      }
      if !confirmed {
        return Declined;
      }
      outcome := RemoveActiveMeal();
    }

    /** The confirmed part of `deleteMeal`: filter and save, then select
        the first remaining meal (`meals[0]`, which throws on an empty list). */
    method RemoveActiveMeal() returns (outcome: DeleteOutcome)
      requires Valid()
      modifies this
      ensures outcome == Deleted || outcome == Fault
      ensures outcome == Deleted ==> Valid()
      ensures meals == Without(old(meals), MealKey, old(meal).id) && storedMeals == meals
      ensures outcome == Fault <==> meals == []
      ensures outcome == Deleted ==> meal == meals[0] && storedActiveId == Some(meals[0].id)
      ensures outcome == Fault ==> meal == old(meal) && storedActiveId == old(storedActiveId)
      ensures session == old(session) && timers == old(timers) && ticking == old(ticking)
      ensures alerts == old(alerts) && nextId == old(nextId)
    {
      var rest := Without(meals, MealKey, meal.id);
      meals := rest;
      storedMeals := rest;
      if rest == [] {
        return Fault;
      }
      SelectFirst();
      outcome := Deleted;
    }

    /** `setActiveMealId(next.id); setMealById(next.id)` for the first meal
        `next`: the first meal carrying that id is `next` itself. */
    method SelectFirst()
      requires meals != []
      modifies this
      ensures meals == old(meals) && storedMeals == old(storedMeals)
      ensures meal == meals[0] && storedActiveId == Some(meals[0].id)
      ensures session == old(session) && timers == old(timers) && ticking == old(ticking)
      ensures alerts == old(alerts) && nextId == old(nextId)
    {
      var next := meals[0];
      storedActiveId := Some(next.id);
      var i := IndexOf(meals, MealKey, next.id);
      assert i == 0;
      meal := meals[i];
    }

    /** The import button: nothing but the outcome for unparseable text or
        a value that is not a named object; otherwise the normalised meal,
        with fresh ids, goes in front and becomes active. */
    method ImportMeal(input: ImportInput, today: string) returns (outcome: ImportOutcome)
      requires Valid()
      modifies this
      ensures Valid()
      ensures outcome == NormaliseImport(input, today, old(nextId))
      ensures !outcome.Imported? ==> unchanged(this)
      ensures outcome.Imported? ==>
        && meal == outcome.meal && meals == [meal] + old(meals)
        && storedMeals == meals && storedActiveId == Some(meal.id)
        && nextId == old(nextId) + 1 + IdCount(outcome.meal.dishes)
      ensures session == old(session) && timers == old(timers) && ticking == old(ticking) && alerts == old(alerts)
    {
      outcome := NormaliseImport(input, today, nextId);
      if !outcome.Imported? {
        return;
      }
      nextId := nextId + 1 + IdCount(outcome.meal.dishes);
      AddAndSelect(outcome.meal);
    }

    // ---------- Dish editor ----------

    /** Replace the active meal's dishes and upsert it. */
    method SaveDishes(ds: seq<Dish>)
      requires Valid()
      modifies this
      ensures Valid()
      ensures meal == old(meal).(dishes := ds) && meals == Upserted(old(meals), meal) && storedMeals == meals
      ensures storedActiveId == Some(meal.id)
      ensures session == old(session) && timers == old(timers) && ticking == old(ticking)
      ensures alerts == old(alerts) && nextId == old(nextId)
    {
      UpsertMeal(meal.(dishes := ds));
    }

    /** `addDish`: nothing when the prompt is cancelled or left empty;
        otherwise a dish with no stages under the trimmed name goes last. */
    method AddDish(answer: Option<string>)
      requires Valid()
      modifies this
      ensures Valid()
      ensures answer.None? || answer.value == [] ==> unchanged(this)
      ensures answer.Some? && answer.value != [] ==>
        && meal == old(meal).(dishes := old(meal).dishes + [Dish(old(nextId), Trim(answer.value), [])])
        && meals == Upserted(old(meals), meal) && nextId == old(nextId) + 1
        && storedMeals == meals && storedActiveId == Some(meal.id)
      ensures session == old(session) && timers == old(timers) && ticking == old(ticking) && alerts == old(alerts)
    {
      if answer.None? || answer.value == [] {
        return;
      }
      var d := Dish(nextId, Trim(answer.value), []);
      nextId := nextId + 1;
      SaveDishes(meal.dishes + [d]);
    }

    /** `deleteDish`: when confirmed, every dish with that id is removed. */
    method DeleteDish(dishId: Id, confirmed: bool)
      requires Valid()
      modifies this
      ensures Valid()
      ensures !confirmed ==> unchanged(this)
      ensures confirmed ==>
        && meal == old(meal).(dishes := Without(old(meal).dishes, DishKey, dishId))
        && meals == Upserted(old(meals), meal)
        && storedMeals == meals && storedActiveId == Some(meal.id)
      ensures session == old(session) && timers == old(timers) && ticking == old(ticking)
      ensures alerts == old(alerts) && nextId == old(nextId)
    {
      if !confirmed {
        return;
      }
      SaveDishes(Without(meal.dishes, DishKey, dishId));
    }

    /** `addStage`: nothing for an unknown dish; otherwise the default stage,
        with a fresh id, goes last in that dish. */
    method AddStage(dishId: Id)
      requires Valid()
      modifies this
      ensures Valid()
      ensures AddStageTo(old(meal).dishes, dishId, old(nextId)).None? ==> unchanged(this)
      ensures AddStageTo(old(meal).dishes, dishId, old(nextId)).Some? ==>
        && meal == old(meal).(dishes := AddStageTo(old(meal).dishes, dishId, old(nextId)).value)
        && meals == Upserted(old(meals), meal) && nextId == old(nextId) + 1
        && storedMeals == meals && storedActiveId == Some(meal.id)
      ensures session == old(session) && timers == old(timers) && ticking == old(ticking) && alerts == old(alerts)
    {
      var r := AddStageTo(meal.dishes, dishId, nextId);
      if r.None? {
        return;
      }
      nextId := nextId + 1;
      SaveDishes(r.value);
    }

    /** `deleteStage`: nothing for an unknown dish; otherwise every stage
        with that id is removed from the dish. */
    method DeleteStage(dishId: Id, stageId: Id)
      requires Valid()
      modifies this
      ensures Valid()
      ensures DeleteStageFrom(old(meal).dishes, dishId, stageId).None? ==> unchanged(this)
      ensures DeleteStageFrom(old(meal).dishes, dishId, stageId).Some? ==>
        && meal == old(meal).(dishes := DeleteStageFrom(old(meal).dishes, dishId, stageId).value)
        && meals == Upserted(old(meals), meal)
        && storedMeals == meals && storedActiveId == Some(meal.id)
      ensures session == old(session) && timers == old(timers) && ticking == old(ticking)
      ensures alerts == old(alerts) && nextId == old(nextId)
    {
      var r := DeleteStageFrom(meal.dishes, dishId, stageId);
      if r.None? {
        return;
      }
      SaveDishes(r.value);
    }

    /** `moveDish`: nothing for an unknown dish or a target outside the
        list; otherwise the dish is taken out and put back at `idx + dir`. */
    method MoveDish(dishId: Id, dir: int)
      requires Valid()
      modifies this
      ensures Valid()
      ensures MoveById(old(meal).dishes, DishKey, dishId, dir).None? ==> unchanged(this)
      ensures MoveById(old(meal).dishes, DishKey, dishId, dir).Some? ==>
        && meal == old(meal).(dishes := MoveById(old(meal).dishes, DishKey, dishId, dir).value)
        && meals == Upserted(old(meals), meal)
        && storedMeals == meals && storedActiveId == Some(meal.id)
      ensures session == old(session) && timers == old(timers) && ticking == old(ticking)
      ensures alerts == old(alerts) && nextId == old(nextId)
    {
      var r := MoveById(meal.dishes, DishKey, dishId, dir);
      if r.None? {
        return;
      }
      SaveDishes(r.value);
    }

    /** `moveStage`: nothing for an unknown dish or stage or a target outside
        the stage list; otherwise the stage moves to `idx + dir`. */
    method MoveStage(dishId: Id, stageId: Id, dir: int)
      requires Valid()
      modifies this
      ensures Valid()
      ensures MoveStageIn(old(meal).dishes, dishId, stageId, dir).None? ==> unchanged(this)
      ensures MoveStageIn(old(meal).dishes, dishId, stageId, dir).Some? ==>
        && meal == old(meal).(dishes := MoveStageIn(old(meal).dishes, dishId, stageId, dir).value)
        && meals == Upserted(old(meals), meal)
        && storedMeals == meals && storedActiveId == Some(meal.id)
      ensures session == old(session) && timers == old(timers) && ticking == old(ticking)
      ensures alerts == old(alerts) && nextId == old(nextId)
    {
      var r := MoveStageIn(meal.dishes, dishId, stageId, dir);
      if r.None? {
        return;
      }
      SaveDishes(r.value);
    }

    /** `updateStageField`: nothing for an unknown dish or stage; otherwise
        the field is set (a duration clamped to [0, 2000]) and saved. */
    method UpdateStageField(dishId: Id, stageId: Id, f: StageField)
      requires Valid()
      modifies this
      ensures Valid()
      ensures EditStageIn(old(meal).dishes, dishId, stageId, f).None? ==> unchanged(this)
      ensures EditStageIn(old(meal).dishes, dishId, stageId, f).Some? ==>
        && meal == old(meal).(dishes := EditStageIn(old(meal).dishes, dishId, stageId, f).value)
        && meals == Upserted(old(meals), meal)
        && storedMeals == meals && storedActiveId == Some(meal.id)
      ensures session == old(session) && timers == old(timers) && ticking == old(ticking)
      ensures alerts == old(alerts) && nextId == old(nextId)
    {
      var r := EditStageIn(meal.dishes, dishId, stageId, f);
      if r.None? {
        return;
      }
      SaveDishes(r.value);
    }

    /** `updateDishName`: nothing for an unknown dish; otherwise the name is
        stored as typed (not trimmed, possibly empty). */
    method UpdateDishName(dishId: Id, name: string)
      requires Valid()
      modifies this
      ensures Valid()
      ensures RenameDishIn(old(meal).dishes, dishId, name).None? ==> unchanged(this)
      ensures RenameDishIn(old(meal).dishes, dishId, name).Some? ==>
        && meal == old(meal).(dishes := RenameDishIn(old(meal).dishes, dishId, name).value)
        && meals == Upserted(old(meals), meal)
        && storedMeals == meals && storedActiveId == Some(meal.id)
      ensures session == old(session) && timers == old(timers) && ticking == old(ticking)
      ensures alerts == old(alerts) && nextId == old(nextId)
    {
      var r := RenameDishIn(meal.dishes, dishId, name);
      if r.None? {
        return;
      }
      SaveDishes(r.value);
    }

    /** The serve time input: the value is stored as typed and the meal
        upserted. */
    method SetServeTime(value: string)
      requires Valid()
      modifies this
      ensures Valid()
      ensures meal == old(meal).(serveTime := value) && meals == Upserted(old(meals), meal) && storedMeals == meals
      ensures storedActiveId == Some(meal.id)
      ensures session == old(session) && timers == old(timers) && ticking == old(ticking)
      ensures alerts == old(alerts) && nextId == old(nextId)
    {
      UpsertMeal(meal.(serveTime := value));
    }

    /** The serve date input: the value is stored as typed and the meal
        upserted. */
    method SetServeDate(value: string)
      requires Valid()
      modifies this
      ensures Valid()
      ensures meal == old(meal).(serveDate := value) && meals == Upserted(old(meals), meal) && storedMeals == meals
      ensures storedActiveId == Some(meal.id)
      ensures session == old(session) && timers == old(timers) && ticking == old(ticking)
      ensures alerts == old(alerts) && nextId == old(nextId)
    {
      UpsertMeal(meal.(serveDate := value));
    }

    // ---------- Session ----------

    /** `clearTimers`: every timer cancelled, the tick stopped. */
    method ClearTimers()
      requires Valid()
      modifies this
      ensures Valid()
      ensures timers == [] && !ticking
      ensures meals == old(meals) && meal == old(meal) && storedMeals == old(storedMeals)
      ensures storedActiveId == old(storedActiveId) && session == old(session)
      ensures alerts == old(alerts) && nextId == old(nextId)
    {
      timers := [];
      ticking := false;
    }

    /** Arm one timer per upcoming event of `events`, whose ids were all
        handed out already, and start the tick. */
    method ArmAll(events: seq<Event>, now: int)
      requires Valid()
      requires forall e :: e in events ==> e.id < nextId
      modifies this
      ensures Valid()
      ensures timers == Pending(events, now) && ticking
      ensures meals == old(meals) && meal == old(meal) && storedMeals == old(storedMeals)
      ensures storedActiveId == old(storedActiveId) && session == old(session)
      ensures alerts == old(alerts) && nextId == old(nextId)
    {
      var ts := ArmTimers(events, now);
      timers := ts;
      ticking := true;
    }

    /** `scheduleSession`: without a serve instant, or with no events,
        nothing changes (beyond the ids the derivation drew); otherwise the
        timers are cleared, a session with an empty fired set is stored and
        one timer is armed per event at or after `now`. */
    method ScheduleSession(clock: LocalClock, now: int) returns (outcome: ArmOutcome)
      requires Valid()
      modifies this
      ensures Valid()
      ensures var serve := ParseServeDateTime(old(meal).serveDate, old(meal).serveTime, clock);
        var t := Timeline(old(meal), clock, old(nextId));
        && (serve.None? ==> outcome == ServeTimeMissing && unchanged(this))
        && (serve.Some? && t == [] ==> outcome == NothingToSchedule && unchanged(this))
        && (serve.Some? && t != [] ==>
              && outcome == Armed
              && session == Some(SessionRecord(old(meal).id, now, serve.value, now, []))
              && timers == Pending(t, now) && ticking
              && nextId == old(nextId) + |t|)
      ensures meals == old(meals) && meal == old(meal) && storedMeals == old(storedMeals)
      ensures storedActiveId == old(storedActiveId) && alerts == old(alerts)
    {
      var serve := ParseServeDateTime(meal.serveDate, meal.serveTime, clock);
      if serve.None? {
        return ServeTimeMissing;
      }
      var events, next := Derive(meal, clock, nextId);
      if events == [] {
        return NothingToSchedule;
      }
      TimelineIds(meal, clock, nextId);
      nextId := next;
      ClearTimers();
      session := Some(SessionRecord(meal.id, now, serve.value, now, []));
      ArmAll(events, now);
      outcome := Armed;
    }

    /** `stopSession`: timers cleared and the session record removed. */
    method StopSession()
      requires Valid()
      modifies this
      ensures Valid()
      ensures timers == [] && !ticking && session.None?
      ensures meals == old(meals) && meal == old(meal) && storedMeals == old(storedMeals)
      ensures storedActiveId == old(storedActiveId) && alerts == old(alerts) && nextId == old(nextId)
    {
      ClearTimers();
      session := None;
    }

    /** The callback of armed timer `k` (`fireEvent`): an event whose id is
        already in the session's fired set does nothing; otherwise its id is
        recorded (when a session exists) and the alert is raised. */
    method FireEvent(k: nat)
      requires Valid() && k < |timers|
      modifies this
      ensures Valid()
      ensures var ev := old(timers)[k].event;
        && session == Fire(old(session), ev.id)
        && alerts == old(alerts) + (if RaisesAlert(old(session), ev.id) then [ev] else [])
      ensures meals == old(meals) && meal == old(meal) && storedMeals == old(storedMeals)
      ensures storedActiveId == old(storedActiveId) && timers == old(timers) && ticking == old(ticking)
      ensures nextId == old(nextId)
    {
      var ev := timers[k].event;
      if session.Some? {
        var rec := session.value;
        if ev.id in rec.firedEventIds {
          return;
        }
        session := Some(rec.(firedEventIds := rec.firedEventIds + [ev.id]));
      }
      alerts := alerts + [ev];
    }

    /** `recoverSessionIfAny`: nothing without a session or when it belongs
        to another meal; otherwise the timeline is derived again and one
        timer armed per event at or after `now`. The fired set is not
        consulted: the re-derived events carry fresh ids, none of which is
        in it, so events alerted before a reload are armed again. */
    method RecoverSessionIfAny(clock: LocalClock, now: int)
      requires Valid()
      modifies this
      ensures Valid()
      ensures old(session).None? || old(session).value.mealId != old(meal).id ==> unchanged(this)
      ensures old(session).Some? && old(session).value.mealId == old(meal).id ==>
        var t := Timeline(old(meal), clock, old(nextId));
        && timers == Pending(t, now) && ticking && nextId == old(nextId) + |t|
        && forall k :: 0 <= k < |timers| ==> timers[k].event.id !in old(session).value.firedEventIds
      ensures meals == old(meals) && meal == old(meal) && storedMeals == old(storedMeals)
      ensures storedActiveId == old(storedActiveId) && session == old(session) && alerts == old(alerts)
    {
      if session.None? || session.value.mealId != meal.id {
        return;
      }
      var events, next := Derive(meal, clock, nextId);
      TimelineIds(meal, clock, nextId);
      RecoveryGuardNeverMatches(meal, clock, nextId, now, session.value.firedEventIds);
      nextId := next;
      ClearTimers();
      ArmAll(events, now);
    }
  }
}
