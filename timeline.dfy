/** The timeline deriver, `computeEvents`: every dish is scheduled backward
    from the one serve instant, its stages then laid out forward from the
    dish's start with a cursor; a stage yields a "start" event when its
    `alertStart` flag is set and an "end" event when `alertEnd` is set; the
    events are then sorted by time, "end" before "start" at the same instant.
    Also the timeline view's filter (`renderTimeline`'s `.filter`).

    Each event takes the next id from the fresh-id supply when it is pushed.
    The specification functions therefore build the events with a blank id
    (0) and `Number` hands out the ids in emission order afterwards. */
module Derivation {
  import opened Types
  import opened Util
  import opened Lists

  const MaxDurationMin := 2000

  /** Minutes to milliseconds. */
  function Ms(min: int): int
  {
    min * 60000
  }

  // ---------- Durations ----------

  /** The duration the deriver trusts: the stored value clamped again to [0, 2000]. */
  function Dur(s: Stage): (d: int)
    ensures 0 <= d <= MaxDurationMin
    ensures 0 <= s.durationMin <= MaxDurationMin ==> d == s.durationMin
  {
    ClampInt(Int(s.durationMin), 0, MaxDurationMin)
  }

  /** `stages.reduce((sum, s) => sum + clamped(s), 0)`. */
  function TotalMin(stages: seq<Stage>): (t: int)
    ensures 0 <= t <= MaxDurationMin * |stages|
  {
    if stages == [] then 0 else TotalMin(stages[..|stages| - 1]) + Dur(stages[|stages| - 1])
  }

  /** The number of events a stage produces. */
  function AlertCount(s: Stage): nat
  {
    (if s.alertStart then 1 else 0) + (if s.alertEnd then 1 else 0)
  }

  function Alerts(stages: seq<Stage>): nat
  {
    if stages == [] then 0 else Alerts(stages[..|stages| - 1]) + AlertCount(stages[|stages| - 1])
  }

  function MealAlerts(dishes: seq<Dish>): nat
  {
    if dishes == [] then 0 else MealAlerts(dishes[..|dishes| - 1]) + Alerts(dishes[|dishes| - 1].stages)
  }

  // ---------- Events in emission order ----------

  /** The events one stage contributes when it starts at `start`
      (`StageEventsSpec` states what they are). */
  function StageEvents(dish: string, s: Stage, start: int): (r: seq<Event>)
    ensures |r| == AlertCount(s)
  {
    var dur := Dur(s);
    (if s.alertStart then [Event(0, start, Start, dish, s.name, s.notes, dur)] else [])
    + (if s.alertEnd then [Event(0, start + Ms(dur), End, dish, s.name, s.notes, dur)] else [])
  }

  /** A stage yields exactly one "start" event iff `alertStart`, at the
      stage's start, and exactly one "end" event iff `alertEnd`, at the start
      plus the clamped duration; the start comes first, and the events carry
      the stage's name and notes and the clamped duration. */
  lemma StageEventsSpec(dish: string, s: Stage, start: int)
    ensures var r := StageEvents(dish, s, start);
      && (forall e :: e in r ==>
            e.dish == dish && e.stage == s.name && e.notes == s.notes && e.durationMin == Dur(s))
      && (forall e :: e in r && e.kind == Start ==> e.when == start)
      && (forall e :: e in r && e.kind == End ==> e.when == start + Ms(Dur(s)))
      && (s.alertStart <==> exists e :: e in r && e.kind == Start)
      && (s.alertEnd <==> exists e :: e in r && e.kind == End)
      && (s.alertStart ==> r[0].kind == Start)
      && (s.alertEnd ==> r[|r| - 1].kind == End)
  {
    var r := StageEvents(dish, s, start);
    if s.alertStart { assert r[0] in r; }
    if s.alertEnd { assert r[|r| - 1] in r; }
  }

  /** The events of a dish's stages laid out forward from `start`, in the
      order the cursor loop pushes them. */
  function DishEvents(dish: string, stages: seq<Stage>, start: int): (r: seq<Event>)
    ensures |r| == Alerts(stages)
  {
    if stages == [] then []
    else
      var prior := stages[..|stages| - 1];
      DishEvents(dish, prior, start) + StageEvents(dish, stages[|stages| - 1], start + Ms(TotalMin(prior)))
  }

  /** `dishStart = serve - totalMin * 60000`. */
  function DishStart(d: Dish, serve: int): int
  {
    serve - Ms(TotalMin(d.stages))
  }

  /** All events of all dishes, unsorted, each dish anchored at the serve instant. */
  function RawEvents(dishes: seq<Dish>, serve: int): (r: seq<Event>)
    ensures |r| == MealAlerts(dishes)
  {
    if dishes == [] then []
    else
      var d := dishes[|dishes| - 1];
      RawEvents(dishes[..|dishes| - 1], serve) + DishEvents(d.name, d.stages, DishStart(d, serve))
  }

  /** The ids the supply hands out, in emission order from `id` on. */
  function Number(s: seq<Event>, id: Id): (r: seq<Event>)
    ensures |r| == |s|
    ensures forall i :: 0 <= i < |s| ==> r[i] == s[i].(id := id + i)
  {
    seq(|s|, i requires 0 <= i < |s| => s[i].(id := id + i))
  }

  lemma NumberAppend(a: seq<Event>, b: seq<Event>, id: Id)
    ensures Number(a + b, id) == Number(a, id) + Number(b, id + |a|)
  {
  }

  // ---------- Sorting ----------

  /** `"end".localeCompare("start") < 0`: ends rank first. */
  function Rank(k: EventType): nat
  {
    if k == End then 0 else 1
  }

  /** The comparator `a.when - b.when || a.type.localeCompare(b.type)` is at most 0. */
  predicate Precedes(a: Event, b: Event)
  {
    a.when < b.when || (a.when == b.when && Rank(a.kind) <= Rank(b.kind))
  }

  predicate Sorted(s: seq<Event>)
  {
    forall i, j :: 0 <= i < j < |s| ==> Precedes(s[i], s[j])
  }

  /** Insert `e` after every element that does not come after it (which keeps
      equal events in their arrival order). */
  function Insert(s: seq<Event>, e: Event): (r: seq<Event>)
    ensures multiset(r) == multiset(s) + multiset{e}
    ensures |r| == |s| + 1
  {
    if s == [] then [e]
    else if Precedes(s[|s| - 1], e) then s + [e]
    else
      var prior := s[..|s| - 1];
      assert s == prior + [s[|s| - 1]];
      Insert(prior, e) + [s[|s| - 1]]
  }

  lemma PrecedesTransitive(a: Event, b: Event, c: Event)
    requires Precedes(a, b) && Precedes(b, c)
    ensures Precedes(a, c)
  {
  }

  /** Inserting into a sorted list gives a sorted list. */
  lemma {:induction false} InsertSorted(s: seq<Event>, e: Event)
    requires Sorted(s)
    ensures Sorted(Insert(s, e))
    decreases |s|
  {
    if s == [] {
    } else if Precedes(s[|s| - 1], e) {
      var r := s + [e];
      forall i, j | 0 <= i < j < |r|
        ensures Precedes(r[i], r[j])
      {
        if j == |s| && i < |s| - 1 {
          PrecedesTransitive(s[i], s[|s| - 1], e);
        }
      }
    } else {
      var prior := s[..|s| - 1];
      var last := s[|s| - 1];
      var ins := Insert(prior, e);
      InsertSorted(prior, e);
      forall x | x in ins
        ensures Precedes(x, last)
      {
        assert x in multiset(ins);
        if x != e {
          assert x in multiset(prior);
          var k :| 0 <= k < |prior| && prior[k] == x;
          assert s[k] == x;
        }
      }
      var r := ins + [last];
      forall i, j | 0 <= i < j < |r|
        ensures Precedes(r[i], r[j])
      {
        if j == |ins| {
          assert r[i] in ins;
        }
      }
    }
  }

  /** `events.sort(comparator)`: ECMAScript's sort is stable, so this is
      the insertion sort that keeps equal events in emission order. */
  function SortEvents(s: seq<Event>): (r: seq<Event>)
    ensures Sorted(r)
    ensures multiset(r) == multiset(s)
    ensures |r| == |s|
  {
    if s == [] then []
    else
      var prior := s[..|s| - 1];
      assert s == prior + [s[|s| - 1]];
      InsertSorted(SortEvents(prior), s[|s| - 1]);
      Insert(SortEvents(prior), s[|s| - 1])
  }

  /** Events already in order come back as they are: the sort moves an
      event only past one that must precede it. */
  lemma {:induction false} SortSortedIsIdentity(s: seq<Event>)
    requires Sorted(s)
    ensures SortEvents(s) == s
    decreases |s|
  {
    if s != [] {
      var prior := s[..|s| - 1];
      var last := s[|s| - 1];
      assert Sorted(prior) by {
        forall i, j | 0 <= i < j < |prior|
          ensures Precedes(prior[i], prior[j])
        {
          assert prior[i] == s[i] && prior[j] == s[j];
        }
      }
      SortSortedIsIdentity(prior);
      assert SortEvents(s) == Insert(prior, last);
      if prior != [] {
        assert Precedes(s[|s| - 2], last);
      }
      assert prior + [last] == s;
    }
  }

  // ---------- computeEvents ----------

  /** The value `computeEvents()` returns for meal `m`, when the fresh-id
      supply stands at `id`: empty without a serve instant, else all events,
      numbered as they are pushed, then sorted. */
  function Timeline(m: Meal, clock: LocalClock, id: Id): (r: seq<Event>)
    ensures Sorted(r)
    ensures |r| == if ParseServeDateTime(m.serveDate, m.serveTime, clock).None? then 0 else MealAlerts(m.dishes)
  {
    match ParseServeDateTime(m.serveDate, m.serveTime, clock)
    case None => []
    case Some(serve) => SortEvents(Number(RawEvents(m.dishes, serve), id))
  }

  /** One more stage: its events follow those of the stages before it. */
  lemma DishEventsStep(dish: string, stages: seq<Stage>, start: int, k: nat)
    requires k < |stages|
    ensures TotalMin(stages[..k + 1]) == TotalMin(stages[..k]) + Dur(stages[k])
    ensures Alerts(stages[..k + 1]) == Alerts(stages[..k]) + AlertCount(stages[k])
    ensures DishEvents(dish, stages[..k + 1], start)
         == DishEvents(dish, stages[..k], start) + StageEvents(dish, stages[k], start + Ms(TotalMin(stages[..k])))
  {
    assert stages[..k + 1][..k] == stages[..k];
  }

  /** One more dish: its events follow those of the dishes before it. */
  lemma RawEventsStep(dishes: seq<Dish>, serve: int, i: nat)
    requires i < |dishes|
    ensures MealAlerts(dishes[..i + 1]) == MealAlerts(dishes[..i]) + Alerts(dishes[i].stages)
    ensures RawEvents(dishes[..i + 1], serve)
         == RawEvents(dishes[..i], serve) + DishEvents(dishes[i].name, dishes[i].stages, DishStart(dishes[i], serve))
  {
    assert dishes[..i + 1][..i] == dishes[..i];
  }

  /** What one turn of the stage loop adds keeps the pushed events numbered. */
  lemma EmitStageStep(dish: string, stages: seq<Stage>, start: int, k: nat, firstId: Id,
                      pushed: seq<Event>, evs: seq<Event>)
    requires k < |stages|
    requires pushed == Number(DishEvents(dish, stages[..k], start), firstId)
    requires evs == Number(StageEvents(dish, stages[k], start + Ms(TotalMin(stages[..k]))), firstId + |pushed|)
    ensures pushed + evs == Number(DishEvents(dish, stages[..k + 1], start), firstId)
    ensures TotalMin(stages[..k + 1]) == TotalMin(stages[..k]) + Dur(stages[k])
  {
    DishEventsStep(dish, stages, start, k);
    NumberAppend(DishEvents(dish, stages[..k], start),
      StageEvents(dish, stages[k], start + Ms(TotalMin(stages[..k]))), firstId);
  }

  /** What one turn of the dish loop adds keeps the pushed events numbered. */
  lemma EmitDishStep(dishes: seq<Dish>, serve: int, i: nat, firstId: Id, raw: seq<Event>, evs: seq<Event>)
    requires i < |dishes|
    requires raw == Number(RawEvents(dishes[..i], serve), firstId)
    requires evs == Number(DishEvents(dishes[i].name, dishes[i].stages, DishStart(dishes[i], serve)), firstId + |raw|)
    ensures raw + evs == Number(RawEvents(dishes[..i + 1], serve), firstId)
  {
    RawEventsStep(dishes, serve, i);
    NumberAppend(RawEvents(dishes[..i], serve),
      DishEvents(dishes[i].name, dishes[i].stages, DishStart(dishes[i], serve)), firstId);
  }

  /** The body of the stage callback: push the stage's events at the
      cursor, each with the next id of the supply, and return the advanced
      cursor. */
  method EmitStage(dish: string, stage: Stage, cursor: int, nextId: Id)
    returns (pushed: seq<Event>, end: int, next: Id)
    ensures pushed == Number(StageEvents(dish, stage, cursor), nextId)
    ensures end == cursor + Ms(Dur(stage))
    ensures next == nextId + |pushed|
  {
    var durMin := ClampInt(Int(stage.durationMin), 0, MaxDurationMin);
    var start := cursor;
    end := cursor + durMin * 60000;
    pushed := [];
    next := nextId;
    if stage.alertStart {
      pushed := pushed + [Event(next, start, Start, dish, stage.name, stage.notes, durMin)];
      next := next + 1;
    }
    if stage.alertEnd {
      pushed := pushed + [Event(next, end, End, dish, stage.name, stage.notes, durMin)];
      next := next + 1;
    }
  }

  /** The body of the dish callback: start the cursor at serve minus the
      dish's total and walk its stages forward. */
  method EmitDish(d: Dish, serve: int, firstId: Id) returns (pushed: seq<Event>, next: Id)
    ensures pushed == Number(DishEvents(d.name, d.stages, DishStart(d, serve)), firstId)
    ensures next == firstId + |pushed|
  {
    var stages := d.stages;
    var totalMin := TotalMin(stages);
    var dishStart := serve - totalMin * 60000;
    var cursor := dishStart;
    pushed := [];
    next := firstId;
    var k := 0;
    while k < |stages|
      invariant 0 <= k <= |stages|
      invariant pushed == Number(DishEvents(d.name, stages[..k], dishStart), firstId)
      invariant cursor == dishStart + Ms(TotalMin(stages[..k]))
      invariant next == firstId + |pushed|
    {
      var evs, end, after := EmitStage(d.name, stages[k], cursor, next);
      EmitStageStep(d.name, stages, dishStart, k, firstId, pushed, evs);
      pushed, cursor, next := pushed + evs, end, after;
      k := k + 1;
    }
    assert stages[..k] == stages;
  }

  /** The dish loop of `computeEvents`: every dish's events in dish order,
      each numbered from the supply as it is pushed. */
  method EmitMeal(dishes: seq<Dish>, serve: int, firstId: Id) returns (raw: seq<Event>, nextId: Id)
    ensures raw == Number(RawEvents(dishes, serve), firstId)
    ensures nextId == firstId + |raw|
  {
    raw := [];
    nextId := firstId;
    var i := 0;
    while i < |dishes|
      invariant 0 <= i <= |dishes|
      invariant raw == Number(RawEvents(dishes[..i], serve), firstId)
      invariant nextId == firstId + |raw|
    {
      var d := dishes[i];
      var evs, next := EmitDish(d, serve, nextId);
      EmitDishStep(dishes, serve, i, firstId, raw, evs);
      raw, nextId := raw + evs, next;
      i := i + 1;
    }
    assert dishes[..i] == dishes;
  }

  /** `computeEvents`: no events without a serve instant; otherwise every
      dish's events in dish order, each numbered from the supply as it is
      pushed, then sorted. `nextId` is where the supply stands afterwards. */
  method Derive(m: Meal, clock: LocalClock, firstId: Id) returns (events: seq<Event>, nextId: Id)
    ensures events == Timeline(m, clock, firstId)
    ensures nextId == firstId + |events|
  {
    var serve := ParseServeDateTime(m.serveDate, m.serveTime, clock);
    if serve.None? {
      return [], firstId;
    }
    var raw;
    raw, nextId := EmitMeal(m.dishes, serve.value, firstId);
    events := SortEvents(raw);
  }

  // ---------- The timeline view's filter ----------

  /** The "show" selector: all events, starts only or ends only. */
  datatype Granularity = AllTypes | StartsOnly | EndsOnly

  /** The "when" selector: all events, upcoming ones or done ones. */
  datatype Window = AllTimes | Upcoming | Done

  /** The predicate `renderTimeline` filters the derived events with. */
  function Shown(ev: Event, gran: Granularity, window: Window, now: int): (b: bool)
    ensures gran == AllTypes && window == AllTimes ==> b
    ensures b && gran == StartsOnly ==> ev.kind == Start
    ensures b && gran == EndsOnly ==> ev.kind == End
    ensures b && window == Upcoming ==> ev.when >= now
    ensures b && window == Done ==> ev.when < now
  {
    && !(gran == StartsOnly && ev.kind != Start)
    && !(gran == EndsOnly && ev.kind != End)
    && !(window == Upcoming && ev.when < now)
    && !(window == Done && ev.when >= now)
  }

  function Visible(events: seq<Event>, gran: Granularity, window: Window, now: int): (r: seq<Event>)
    ensures forall k :: 0 <= k < |r| ==> Shown(r[k], gran, window, now)
    ensures forall k :: 0 <= k < |events| && Shown(events[k], gran, window, now) ==> events[k] in r
  {
    var p := e => Shown(e, gran, window, now);
    KeepPassing(events, p);
    Keep(events, p)
  }

  // ---------- Lemmas ----------

  /** Without a serve date or a serve time there is no timeline. */
  lemma NoServeNoEvents(m: Meal, clock: LocalClock, id: Id)
    requires m.serveDate == [] || m.serveTime == []
    ensures Timeline(m, clock, id) == []
  {
  }

  /** The events of the first `j` stages are the front of the dish's events. */
  lemma {:induction false} DishEventsPrefix(dish: string, stages: seq<Stage>, start: int, j: nat)
    requires j <= |stages|
    ensures Alerts(stages[..j]) <= Alerts(stages)
    ensures DishEvents(dish, stages, start)[..Alerts(stages[..j])] == DishEvents(dish, stages[..j], start)
    decreases |stages|
  {
    if j == |stages| {
      assert stages[..j] == stages;
    } else {
      var n := |stages|;
      var prior := stages[..n - 1];
      assert prior[..j] == stages[..j];
      DishEventsPrefix(dish, prior, start, j);
      var front := DishEvents(dish, prior, start);
      var tail := StageEvents(dish, stages[n - 1], start + Ms(TotalMin(prior)));
      assert DishEvents(dish, stages, start) == front + tail;
      assert (front + tail)[..Alerts(stages[..j])] == front[..Alerts(stages[..j])];
    }
  }

  /** Stage `k` occupies its own slot of the dish's events: the slot starts
      after the events of the stages before it, and the stage starts after
      their clamped durations. */
  lemma DishEventsLayout(dish: string, stages: seq<Stage>, start: int, k: nat)
    requires k < |stages|
    ensures Alerts(stages[..k]) + AlertCount(stages[k]) <= Alerts(stages)
    ensures DishEvents(dish, stages, start)[Alerts(stages[..k])..Alerts(stages[..k]) + AlertCount(stages[k])]
         == StageEvents(dish, stages[k], start + Ms(TotalMin(stages[..k])))
  {
    DishEventsPrefix(dish, stages, start, k + 1);
    DishEventsStep(dish, stages, start, k);
    var whole := DishEvents(dish, stages, start);
    var a := Alerts(stages[..k]);
    var b := a + AlertCount(stages[k]);
    assert whole[a..b] == whole[..b][a..];
  }

  /** Within a dish scheduled for the serve instant `serve`, stage `k`
      starts at serve - total + (durations before k), in minutes, and its
      slot of events is exactly what `StageEvents` describes. */
  lemma StageSlot(d: Dish, serve: int, k: nat)
    requires k < |d.stages|
    ensures var a := Alerts(d.stages[..k]);
      var evs := DishEvents(d.name, d.stages, DishStart(d, serve));
      && a + AlertCount(d.stages[k]) <= |evs|
      && evs[a..a + AlertCount(d.stages[k])]
         == StageEvents(d.name, d.stages[k], serve - Ms(TotalMin(d.stages)) + Ms(TotalMin(d.stages[..k])))
  {
    DishEventsLayout(d.name, d.stages, DishStart(d, serve), k);
  }

  /** Anchoring: the first stage starts at serve - total duration. */
  lemma FirstStageStartsAtDishStart(d: Dish, serve: int)
    requires d.stages != [] && d.stages[0].alertStart
    ensures var evs := DishEvents(d.name, d.stages, DishStart(d, serve));
      evs != [] && evs[0].kind == Start && evs[0].when == serve - Ms(TotalMin(d.stages))
  {
    DishEventsLayout(d.name, d.stages, DishStart(d, serve), 0);
    assert d.stages[..0] == [];
    var evs := DishEvents(d.name, d.stages, DishStart(d, serve));
    assert evs[0] == evs[0..AlertCount(d.stages[0])][0];
  }

  /** Anchoring: the last stage ends exactly at the serve instant. */
  lemma LastStageEndsAtServe(d: Dish, serve: int)
    requires d.stages != [] && d.stages[|d.stages| - 1].alertEnd
    ensures var evs := DishEvents(d.name, d.stages, DishStart(d, serve));
      evs != [] && evs[|evs| - 1].kind == End && evs[|evs| - 1].when == serve
  {
    var stages := d.stages;
    var prior := stages[..|stages| - 1];
    var last := stages[|stages| - 1];
    var tail := StageEvents(d.name, last, DishStart(d, serve) + Ms(TotalMin(prior)));
    var evs := DishEvents(d.name, stages, DishStart(d, serve));
    assert evs == DishEvents(d.name, prior, DishStart(d, serve)) + tail;
    assert evs[|evs| - 1] == tail[|tail| - 1];
  }

  lemma RawEventsSnoc(ds: seq<Dish>, d: Dish, serve: int)
    ensures MealAlerts(ds + [d]) == MealAlerts(ds) + Alerts(d.stages)
    ensures RawEvents(ds + [d], serve) == RawEvents(ds, serve) + DishEvents(d.name, d.stages, DishStart(d, serve))
  {
    assert (ds + [d])[..|ds|] == ds;
  }

  /** The events of the first `j` dishes are the front of the meal's events. */
  lemma {:induction false} RawEventsPrefix(dishes: seq<Dish>, serve: int, j: nat)
    requires j <= |dishes|
    ensures MealAlerts(dishes[..j]) <= MealAlerts(dishes)
    ensures RawEvents(dishes, serve)[..MealAlerts(dishes[..j])] == RawEvents(dishes[..j], serve)
    decreases |dishes|
  {
    if j == |dishes| {
      assert dishes[..j] == dishes;
    } else {
      var n := |dishes|;
      var prior := dishes[..n - 1];
      var d := dishes[n - 1];
      assert prior[..j] == dishes[..j];
      RawEventsPrefix(prior, serve, j);
      var front := RawEvents(prior, serve);
      var tail := DishEvents(d.name, d.stages, DishStart(d, serve));
      assert RawEvents(dishes, serve) == front + tail;
      assert (front + tail)[..MealAlerts(dishes[..j])] == front[..MealAlerts(dishes[..j])];
    }
  }

  /** Parallel dishes: the events of dish `j` are those of dish `j` alone,
      anchored at the same serve instant; the other dishes shift neither
      their times nor their order. */
  lemma DishesIndependent(dishes: seq<Dish>, serve: int, j: nat)
    requires j < |dishes|
    ensures var lo := MealAlerts(dishes[..j]);
      var d := dishes[j];
      && lo + Alerts(d.stages) <= MealAlerts(dishes)
      && RawEvents(dishes, serve)[lo..lo + Alerts(d.stages)] == DishEvents(d.name, d.stages, DishStart(d, serve))
  {
    var d := dishes[j];
    var lo := MealAlerts(dishes[..j]);
    var hi := lo + Alerts(d.stages);
    RawEventsPrefix(dishes, serve, j + 1);
    RawEventsStep(dishes, serve, j);
    var whole := RawEvents(dishes, serve);
    assert whole[lo..hi] == whole[..hi][lo..];
  }

  /** Every dish whose last stage alerts at its end finishes exactly at the
      serve instant, whatever the other dishes' totals are. */
  lemma EveryDishEndsAtServe(dishes: seq<Dish>, serve: int, j: nat)
    requires j < |dishes|
    requires dishes[j].stages != [] && dishes[j].stages[|dishes[j].stages| - 1].alertEnd
    ensures var hi := MealAlerts(dishes[..j]) + Alerts(dishes[j].stages);
      0 < hi <= |RawEvents(dishes, serve)|
      && RawEvents(dishes, serve)[hi - 1].kind == End
      && RawEvents(dishes, serve)[hi - 1].when == serve
  {
    var lo := MealAlerts(dishes[..j]);
    var raw := RawEvents(dishes, serve);
    var evs := DishEvents(dishes[j].name, dishes[j].stages, DishStart(dishes[j], serve));
    assert lo + |evs| <= |raw| && raw[lo..lo + |evs|] == evs by {
      DishesIndependent(dishes, serve, j);
    }
    assert evs != [] && evs[|evs| - 1].kind == End && evs[|evs| - 1].when == serve by {
      LastStageEndsAtServe(dishes[j], serve);
    }
    assert raw[lo + |evs| - 1] == evs[|evs| - 1];
  }

  /** A dish with no stages contributes nothing and leaves the other
      dishes' events exactly as they were. */
  lemma {:induction false} EmptyDishContributesNothing(a: seq<Dish>, d: Dish, b: seq<Dish>, serve: int)
    requires d.stages == []
    ensures MealAlerts(a + [d] + b) == MealAlerts(a + b)
    ensures RawEvents(a + [d] + b, serve) == RawEvents(a + b, serve)
    decreases |b|
  {
    if b == [] {
      assert a + [d] + b == a + [d] && a + b == a;
      RawEventsSnoc(a, d, serve);
    } else {
      var prior := b[..|b| - 1];
      var x := b[|b| - 1];
      assert a + [d] + b == (a + [d] + prior) + [x] && a + b == (a + prior) + [x];
      EmptyDishContributesNothing(a, d, prior, serve);
      RawEventsSnoc(a + [d] + prior, x, serve);
      RawEventsSnoc(a + prior, x, serve);
    }
  }

  /** A zero-length stage ("plate up") has its start and its end at the same instant. */
  lemma ZeroDurationStage(dish: string, s: Stage, start: int)
    requires Dur(s) == 0 && s.alertStart && s.alertEnd
    ensures var r := StageEvents(dish, s, start);
      |r| == 2 && r[0].kind == Start && r[1].kind == End && r[0].when == r[1].when == start
  {
  }

  /** The derived timeline is sorted by time with "end" before "start" at
      the same instant, and it is a permutation of the emitted events:
      nothing is merged or dropped, one event per enabled alert. */
  lemma TimelineSortedPermutation(m: Meal, clock: LocalClock, id: Id)
    requires ParseServeDateTime(m.serveDate, m.serveTime, clock).Some?
    ensures var serve := ParseServeDateTime(m.serveDate, m.serveTime, clock).value;
      && Sorted(Timeline(m, clock, id))
      && multiset(Timeline(m, clock, id)) == multiset(Number(RawEvents(m.dishes, serve), id))
      && |Timeline(m, clock, id)| == MealAlerts(m.dishes)
  {
  }

  /** At one instant an "end" event is never placed after a "start" event. */
  lemma EndBeforeStartAtSameInstant(s: seq<Event>, i: nat, j: nat)
    requires Sorted(s) && i < j < |s|
    requires s[i].when == s[j].when && s[i].kind != s[j].kind
    ensures s[i].kind == End && s[j].kind == Start
  {
    assert Precedes(s[i], s[j]);
  }

  /** The derived events carry pairwise different ids, all drawn from the
      supply's range [id, id + count). */
  lemma TimelineIds(m: Meal, clock: LocalClock, id: Id)
    ensures var t := Timeline(m, clock, id);
      && (forall e :: e in t ==> id <= e.id < id + |t|)
      && (forall i, j :: 0 <= i < j < |t| ==> t[i].id != t[j].id)
  {
    var serve := ParseServeDateTime(m.serveDate, m.serveTime, clock);
    if serve.Some? {
      var raw := RawEvents(m.dishes, serve.value);
      NumberedPermutationIds(raw, id, SortEvents(Number(raw, id)));
    }
  }

  /** Any reordering of a numbered list still carries pairwise different
      ids from [id, id + count). */
  lemma NumberedPermutationIds(src: seq<Event>, id: Id, t: seq<Event>)
    requires multiset(t) == multiset(Number(src, id))
    ensures forall e :: e in t ==> id <= e.id < id + |t|
    ensures forall i, j :: 0 <= i < j < |t| ==> t[i].id != t[j].id
  {
    var raw := Number(src, id);
    assert |t| == |raw| by {
      assert |multiset(t)| == |multiset(raw)|;
    }
    forall e | e in t
      ensures id <= e.id < id + |t|
    {
      assert e in multiset(raw);
      var p :| 0 <= p < |raw| && raw[p] == e;
    }
    PermutationDistinct(raw, t);
    forall i, j | 0 <= i < j < |t|
      ensures t[i].id != t[j].id
    {
      assert t[i] in multiset(raw) && t[j] in multiset(raw);
      var p :| 0 <= p < |raw| && raw[p] == t[i];
      var q :| 0 <= q < |raw| && raw[q] == t[j];
    }
  }

  // ---------- Determinism up to the ids ----------

  /** An event with the id the supply gave it blanked out. */
  function Unnumbered(e: Event): Event
  {
    e.(id := 0)
  }

  /** A list of events as it reads apart from the ids. */
  function StripIds(s: seq<Event>): (r: seq<Event>)
    ensures |r| == |s|
    ensures forall i :: 0 <= i < |s| ==> r[i] == Unnumbered(s[i])
  {
    seq(|s|, i requires 0 <= i < |s| => Unnumbered(s[i]))
  }

  lemma StripIdsSnoc(s: seq<Event>, e: Event)
    ensures StripIds(s + [e]) == StripIds(s) + [Unnumbered(e)]
  {
  }

  /** The comparator never looks at ids, so inserting commutes with blanking them. */
  lemma {:induction false} InsertStripIds(s: seq<Event>, e: Event)
    ensures StripIds(Insert(s, e)) == Insert(StripIds(s), Unnumbered(e))
    decreases |s|
  {
    if s != [] {
      var prior := s[..|s| - 1];
      var last := s[|s| - 1];
      assert s == prior + [last];
      StripIdsSnoc(prior, last);
      var ss := StripIds(s);
      assert ss[..|ss| - 1] == StripIds(prior) && ss[|ss| - 1] == Unnumbered(last);
      if Precedes(last, e) {
        StripIdsSnoc(s, e);
      } else {
        InsertStripIds(prior, e);
        StripIdsSnoc(Insert(prior, e), last);
      }
    }
  }

  lemma {:induction false} SortStripIds(s: seq<Event>)
    ensures StripIds(SortEvents(s)) == SortEvents(StripIds(s))
    decreases |s|
  {
    if s != [] {
      var n := |s|;
      var prior := s[..n - 1];
      SortStripIds(prior);
      InsertStripIds(SortEvents(prior), s[n - 1]);
      assert StripIds(s)[..n - 1] == StripIds(prior);
    }
  }

  /** Deriving the timeline twice from an unchanged meal gives the same
      events in the same order at the same instants; only the freshly drawn
      ids differ. */
  lemma TimelineDeterministic(m: Meal, clock: LocalClock, id1: Id, id2: Id)
    ensures StripIds(Timeline(m, clock, id1)) == StripIds(Timeline(m, clock, id2))
    ensures var t1, t2 := Timeline(m, clock, id1), Timeline(m, clock, id2);
      |t1| == |t2| &&
      forall i :: 0 <= i < |t1| ==>
        t1[i].when == t2[i].when && t1[i].kind == t2[i].kind && t1[i].dish == t2[i].dish &&
        t1[i].stage == t2[i].stage && t1[i].notes == t2[i].notes && t1[i].durationMin == t2[i].durationMin
  {
    var serve := ParseServeDateTime(m.serveDate, m.serveTime, clock);
    if serve.Some? {
      var raw := RawEvents(m.dishes, serve.value);
      SortStripIds(Number(raw, id1));
      SortStripIds(Number(raw, id2));
      assert StripIds(Number(raw, id1)) == StripIds(Number(raw, id2));
    }
    var t1, t2 := Timeline(m, clock, id1), Timeline(m, clock, id2);
    assert forall i :: 0 <= i < |t1| ==> Unnumbered(t1[i]) == Unnumbered(t2[i]);
  }

  // ---------- Filter lemmas ----------

  /** Filtering a sorted timeline keeps it sorted. */
  lemma {:induction false} KeepSorted(s: seq<Event>, p: Event -> bool)
    requires Sorted(s)
    ensures Sorted(Keep(s, p))
    decreases |s|
  {
    if s != [] {
      var prior := s[..|s| - 1];
      var last := s[|s| - 1];
      KeepSorted(prior, p);
      var k := Keep(prior, p);
      forall x | x in k
        ensures Precedes(x, last)
      {
        assert x in multiset(k);
      }
    }
  }

  lemma VisibleSorted(events: seq<Event>, gran: Granularity, window: Window, now: int)
    requires Sorted(events)
    ensures Sorted(Visible(events, gran, window, now))
  {
    KeepSorted(events, e => Shown(e, gran, window, now));
  }

  /** "Upcoming" and "done" split the events of a granularity between them:
      each event is in exactly one of the two views. */
  lemma UpcomingDonePartition(events: seq<Event>, gran: Granularity, now: int)
    ensures multiset(Visible(events, gran, Upcoming, now)) + multiset(Visible(events, gran, Done, now))
         == multiset(Visible(events, gran, AllTimes, now))
    ensures |Visible(events, gran, Upcoming, now)| + |Visible(events, gran, Done, now)|
         == |Visible(events, gran, AllTimes, now)|
  {
    KeepSplit(events, e => Shown(e, gran, Upcoming, now), e => Shown(e, gran, Done, now),
      e => Shown(e, gran, AllTimes, now));
  }

  /** The "starts" and "ends" selectors keep only their kind of event. */
  lemma GranularityKinds(events: seq<Event>, window: Window, now: int)
    ensures forall e :: e in Visible(events, StartsOnly, window, now) ==> e.kind == Start
    ensures forall e :: e in Visible(events, EndsOnly, window, now) ==> e.kind == End
  {
    var st := Visible(events, StartsOnly, window, now);
    var en := Visible(events, EndsOnly, window, now);
    assert forall k :: 0 <= k < |st| ==> Shown(st[k], StartsOnly, window, now);
    assert forall k :: 0 <= k < |en| ==> Shown(en[k], EndsOnly, window, now);
  }

  /** Between them, "starts" and "ends" show every event "all" shows, each once. */
  lemma GranularityPartition(events: seq<Event>, window: Window, now: int)
    ensures multiset(Visible(events, StartsOnly, window, now)) + multiset(Visible(events, EndsOnly, window, now))
         == multiset(Visible(events, AllTypes, window, now))
  {
    KeepSplit(events, e => Shown(e, StartsOnly, window, now), e => Shown(e, EndsOnly, window, now),
      e => Shown(e, AllTypes, window, now));
  }
}
