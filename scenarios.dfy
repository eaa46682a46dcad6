/** Worked examples on concrete meals: a two-stage roast, the template's
    tempering stage followed by a 40-minute roast, laid out before an 18:30
    serve time, the timers a session
    started an hour before serving arms, and the double-fire guard on one
    of them. */
module Scenarios {
  import opened Types
  import opened Derivation
  import opened Session

  function Temper(): Stage
  {
    Stage(2, "Take out of fridge (temper)", 45, true, true, "")
  }

  function Roast(): Stage
  {
    Stage(3, "Roast", 40, true, true, "")
  }

  function Dinner(): Meal
  {
    Meal(0, "Roast Beef Dinner", "2026-10-17", "18:30", [Dish(1, "Roast Beef", [Temper(), Roast()])])
  }

  /** The four events of `Dinner` as they are pushed, before numbering. */
  function DinnerEvents(serve: int): seq<Event>
  {
    [ Event(0, serve - 85 * 60000, Start, "Roast Beef", Temper().name, "", 45),
      Event(0, serve - 40 * 60000, End, "Roast Beef", Temper().name, "", 45),
      Event(0, serve - 40 * 60000, Start, "Roast Beef", "Roast", "", 40),
      Event(0, serve, End, "Roast Beef", "Roast", "", 40)]
  }

  /** The roast dish starts 85 minutes before serving; the tempering fills
      its first 45 minutes and the roast the last 40. */
  lemma DinnerRawEvents(serve: int)
    ensures RawEvents(Dinner().dishes, serve) == DinnerEvents(serve)
  {
    var d := Dinner().dishes[0];
    assert d.stages[..1] == [Temper()];
    assert TotalMin(d.stages) == 85;
    var e := DinnerEvents(serve);
    assert DishEvents(d.name, [Temper()], DishStart(d, serve)) == e[..2];
    assert DishEvents(d.name, d.stages, DishStart(d, serve)) == e;
    assert Dinner().dishes[..0] == [];
  }

  /** The timeline of `Dinner` with the supply standing at `id`: the
      tempering starts 85 minutes before serving; it ends 40 minutes before,
      at the same instant the roast starts, and the end is listed first; the
      roast ends at the serve instant. Ids follow the order of emission. */
  lemma DinnerTimeline(clock: LocalClock, serve: int, id: Id)
    requires clock("2026-10-17", "18:30") == Some(serve)
    ensures Timeline(Dinner(), clock, id) == [
      Event(id, serve - 85 * 60000, Start, "Roast Beef", Temper().name, "", 45),
      Event(id + 1, serve - 40 * 60000, End, "Roast Beef", Temper().name, "", 45),
      Event(id + 2, serve - 40 * 60000, Start, "Roast Beef", "Roast", "", 40),
      Event(id + 3, serve, End, "Roast Beef", "Roast", "", 40)]
  {
    DinnerRawEvents(serve);
    var n := Number(DinnerEvents(serve), id);
    assert Sorted(n);
    SortSortedIsIdentity(n);
  }

  /** A session started an hour before serving arms the three events still
      ahead: the tempering end and the roast start in 20 minutes, the roast
      end in an hour. The tempering start, 25 minutes past, gets no timer. */
  lemma DinnerSessionArms(clock: LocalClock, serve: int, id: Id)
    requires clock("2026-10-17", "18:30") == Some(serve)
    ensures var t := Timeline(Dinner(), clock, id);
      Pending(t, serve - 60 * 60000) == [
        Timer(t[1], 20 * 60000),
        Timer(t[2], 20 * 60000),
        Timer(t[3], 60 * 60000)]
  {
    DinnerTimeline(clock, serve, id);
    DinnerArms(Timeline(Dinner(), clock, id), serve, id);
  }

  /** The timers armed an hour before serving, on the timeline laid out. */
  lemma DinnerArms(t: seq<Event>, serve: int, id: Id)
    requires t == [
      Event(id, serve - 85 * 60000, Start, "Roast Beef", Temper().name, "", 45),
      Event(id + 1, serve - 40 * 60000, End, "Roast Beef", Temper().name, "", 45),
      Event(id + 2, serve - 40 * 60000, Start, "Roast Beef", "Roast", "", 40),
      Event(id + 3, serve, End, "Roast Beef", "Roast", "", 40)]
    ensures Pending(t, serve - 60 * 60000) == [Timer(t[1], 20 * 60000), Timer(t[2], 20 * 60000), Timer(t[3], 60 * 60000)]
  {
    ArmsAllButFirst(t, serve - 60 * 60000);
  }

  /** Four events of which only the first lies before `now`. */
  lemma ArmsAllButFirst(t: seq<Event>, now: int)
    requires |t| == 4 && t[0].when < now
    requires t[1].when >= now && t[2].when >= now && t[3].when >= now
    ensures Pending(t, now) == [Timer(t[1], t[1].when - now), Timer(t[2], t[2].when - now), Timer(t[3], t[3].when - now)]
  {
    assert t[..3][..2][..1] == [t[0]];
    assert Pending(t[..1], now) == [];
    assert Pending(t[..3][..2], now) == [Timer(t[1], t[1].when - now)];
  }

  /** The roast start fired twice during that session raises one alert and
      records its id once. */
  lemma DinnerFiresOnce(clock: LocalClock, serve: int, id: Id)
    requires clock("2026-10-17", "18:30") == Some(serve)
    ensures var t := Timeline(Dinner(), clock, id);
      var s0 := Some(SessionRecord(0, serve - 60 * 60000, serve, serve - 60 * 60000, []));
      var s1 := Fire(s0, t[2].id);
      && RaisesAlert(s0, t[2].id)
      && !RaisesAlert(s1, t[2].id)
      && Fire(s1, t[2].id) == s1
      && s1.value.firedEventIds == [id + 2]
  {
    DinnerTimeline(clock, serve, id);
  }
}
