/** The meal document and the values derived from it.
    A meal has a serve date and time and an ordered list of dishes; a dish is
    an ordered list of timed stages. Events are derived from a meal and never
    stored in it. Identifiers come from a fresh-id supply (a counter), which
    stands for the browser's random `uid()`. */
module Types {

  datatype Option<+T> = None | Some(value: T)

  /** An opaque identifier handed out by the fresh-id supply. */
  type Id = nat

  /** What `parseInt(x, 10)` gives: either NaN or an integer. */
  datatype Num = NaN | Int(i: int)

  datatype Stage = Stage(
    id: Id,
    name: string,
    durationMin: int,
    alertStart: bool,
    alertEnd: bool,
    notes: string)

  datatype Dish = Dish(id: Id, name: string, stages: seq<Stage>)

  datatype Meal = Meal(
    id: Id,
    name: string,
    serveDate: string,
    serveTime: string,
    dishes: seq<Dish>)

  /** The `type` field of an event: "start" or "end". */
  datatype EventType = Start | End

  datatype Event = Event(
    id: Id,
    when: int,
    kind: EventType,
    dish: string,
    stage: string,
    notes: string,
    durationMin: int)

  /** The host's local-time conversion of a serve date ("YYYY-MM-DD") and a
      serve time ("HH:MM") into epoch milliseconds, or None when the `Date`
      it builds is invalid. */
  type LocalClock = (string, string) -> Option<int>

  function MealKey(m: Meal): Id { m.id }
  function DishKey(d: Dish): Id { d.id }
  function StageKey(s: Stage): Id { s.id }
}
