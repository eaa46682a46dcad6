# Meal timer: timeline and session engine

A Dafny model of the core of a browser meal timer (`app.js`). A meal has a
serve date and time and a list of dishes; each dish is a list of timed stages.
From the meal the app derives a timeline of "start" and "end" alert events:

- each dish is scheduled backwards from the one serve instant, so its last
  stage ends exactly when the meal is served;
- the events are sorted by time, with "end" before "start" at the same instant.

A cooking session arms one timer per upcoming event. The session record
persists which event ids have fired, so an event is not alerted twice. Around
this sit the meal catalog (upsert, select, create, copy, delete, import) and
the dish editor (add, delete, move and edit dishes and stages).

The project is organised as follows:

- `types.dfy`, module `Types`: meals, dishes, stages, events, `Option`, the injected local clock.
- `util.dfy`, module `Util`: `clampInt`, `pad2`, `parseServeDateTime`, `String.prototype.trim`.
- `lists.dfy`, module `Lists`: `findIndex`, `filter` by id, and the splice-based move of `moveDish`/`moveStage`.
- `escape.dfy`, module `Escape`: `escapeHtml` and its decoding partner.
- `timeline.dfy`, module `Derivation`: `computeEvents` (the cursor loops as methods proved against specification functions), the sort, and the timeline view's filter.
- `session.dfy`, module `Session`: arming timers, the fired-id guard, and recovery.
- `catalog.dfy`, module `Catalog`: the meals list and the dish and stage edits, as functions on values.
- `normalise.dfy`, module `Import`: the import normaliser, and export as its partner.
- `app.dfy`, module `Coordinator`: class `App`: the global state and every handler that changes it.
- `scenarios.dfy`, module `Scenarios`: worked examples on a two-stage roast.

The model stands in for the host environment as follows:

- **Ids.** The random `uid()` becomes a fresh-id supply: a counter `nextId`
  that every operation drawing ids advances.
- **Instants.** These are integers (epoch milliseconds). The local-time
  conversion inside `parseServeDateTime` is an injected function
  (`LocalClock`).
- **User answers.** What `prompt` and `confirm` return are parameters.
- **Storage.** localStorage becomes the fields `storedMeals`,
  `storedActiveId` and `session` of `App`.
- **Timers.** A pending `setTimeout` is the `(event, delay)` pair its callback
  would fire. The ten-second re-render interval is the boolean `ticking`.
- **Alerts.** The toast and beeps of a fired event are the event appended to
  `alerts`.

### Behaviour of the code worth knowing

- **Recovery.** `recoverSessionIfAny` (app.js:767-790) does not consult
  `firedEventIds`. It re-derives the timeline and re-arms every event with
  `when >= now`. The re-derived events carry freshly drawn ids, so no re-armed
  event's id is ever in the fired list (`Session.RecoveryGuardNeverMatches`).
  Across a reload, the only protection against a repeat alert is that events
  already past are not re-armed.
- **The "de-dup" comment.** The comment at app.js:611 speaks of removing exact
  duplicates, but the statement under it only sorts.
  `Derivation.TimelineSortedPermutation` proves that nothing is merged or
  dropped.
- **Determinism.** Deriving twice gives equal events apart from their ids,
  because each derivation draws new ids (`Derivation.TimelineDeterministic`).
- **The two-stage roast.** With a serve time of 18:30, tempering (45 min)
  starts at 17:05. Tempering ends and roasting (40 min) starts at 17:50, with
  the end listed first. The roast ends at 18:30 (`Scenarios.DinnerTimeline`).
- **Default names.** The import defaults a missing or empty dish name to
  "Dish" and stage name to "Stage" (app.js:340-343).

## Model

| member | source | states |
|---|---|---|
| Util.ClampInt | app.js:14-18 | NaN gives `min`; with `min <= max` the result is in `[min, max]`; a value in range is kept, one below gives `min`, one above gives `max` |
| Util.ClampIdempotent | app.js:14-18 | clamping an already clamped value changes nothing, so re-clamping stored durations is harmless |
| Util.ClampDurationExamples | app.js:14-18 | for bounds [0, 2000]: -5 gives 0, 9999 gives 2000, non-numeric input gives 0 |
| Util.DecimalRoundTrip | app.js:20 | `String(n)` of a natural number reads back as `n` |
| Util.Pad2 | app.js:20 | `padStart(2, "0")`: the decimal text is kept whole at the end, and zeros are put in front only to reach two characters |
| Util.Pad2TwoDigits | app.js:20 | for 0..99 the padded text is exactly two digits and reads back as the number |
| Util.Pad2Wide | app.js:20 | `padStart` never truncates: from 100 on the text is the plain decimal |
| Util.ParseServeDateTime | app.js:31-39 | no instant when the date or the time is empty; otherwise whatever the local clock gives, including its None for an invalid date |
| Util.Trim | app.js:255 | the result is the middle of the input; everything cut off is white space; the result neither starts nor ends with white space |
| Util.TrimIdempotent | app.js:270 | trimming a trimmed name changes nothing |
| Lists.IndexOf | app.js:217 | `findIndex`: the first position holding the id, or -1 exactly when no element holds it |
| Lists.Keep | app.js:450 | `filter`: every kept element passes, and each element occurs as often as in the input if it passes, else not at all |
| Lists.KeepAll | app.js:467 | a filter that every element passes returns the list unchanged |
| Lists.KeepSnoc | app.js:450 | one more element at the end is kept, at the end, exactly when it passes |
| Lists.KeepAppend | app.js:450 | the filter of a concatenation is the filters of the parts in turn, so the kept elements keep their order |
| Lists.KeepPassing | app.js:626-632 | every element that passes is among those kept |
| Lists.Without | app.js:288 | filtering by id removes exactly the elements carrying the id, keeps the count of every other element, and shrinks the list iff the id occurs |
| Lists.WithoutAppend | app.js:288 | filtering by id keeps the remaining elements in their order: it distributes over concatenation, and one element stays exactly when it lacks the id |
| Lists.MoveItem | app.js:479-480 | the two splices keep the length and put the moved item at the target position |
| Lists.MoveItemPermutes | app.js:479-480 | the move is a permutation |
| Lists.MoveItemShifts | app.js:479-480 | positions outside the moved range keep their element; those inside shift by one towards the source |
| Lists.MoveAdjacentIsSwap | app.js:479-480 | a move by one place swaps two neighbours |
| Lists.MoveById | app.js:473-484 | nothing happens iff the id is unknown or `idx + dir` is outside the list; otherwise the result is a permutation, the item lands at `idx + dir`, and for `dir = ±1` it is the swap of two neighbours with every other position unchanged |
| Escape.ReplaceAll | app.js:795-799 | one `replaceAll` of a character: text without that character is unchanged |
| Escape.EscapeHtml | app.js:793-800 | text without any of `&`, `<`, `>`, `"` and `'` passes through the chain unchanged |
| Escape.EscapeChar | app.js:795-799 | no entity contains a markup character |
| Escape.EscapeHtmlAppend | app.js:793-800 | the chain escapes a concatenation piecewise |
| Escape.EscapeAmp | app.js:795 | `&` becomes `&amp;` |
| Escape.EscapeLt | app.js:796 | `<` becomes `&lt;`, with no second escaping of its `&` |
| Escape.EscapeGt | app.js:797 | `>` becomes `&gt;` |
| Escape.EscapeQuot | app.js:798 | `"` becomes `&quot;` |
| Escape.EscapeApos | app.js:799 | `'` becomes `&#039;` |
| Escape.EscapeHtmlChar | app.js:793-800 | one character goes through the whole chain to its own entity |
| Escape.EscapeHtmlPerChar | app.js:793-800 | because `&` is replaced first, the chain equals escaping each character on its own |
| Escape.UnescapeStep | app.js:793-800 | an escaped character followed by any text reads back as that character |
| Escape.UnescapeEntity | app.js:795-799 | each of the five entities reads back as its character |
| Escape.UnescapeEscapeHtml | app.js:793-800 | reading the escaped text back gives the original text |
| Escape.EscapeHtmlNoMarkup | app.js:793-800 | the escaped text holds no `<`, `>`, `"` or `'` |
| Derivation.Dur | app.js:581 | the duration the deriver uses is in [0, 2000] and equals the stored duration when that is already in range |
| Derivation.TotalMin | app.js:576 | a dish's total lies between 0 and 2000 minutes per stage |
| Derivation.StageEvents | app.js:585-606 | a stage contributes one event per enabled alert flag |
| Derivation.DishEvents | app.js:580-607 | a dish contributes one event per enabled alert flag of its stages |
| Derivation.RawEvents | app.js:573-609 | the meal contributes one event per enabled alert flag of all its stages |
| Derivation.StageEventsSpec | app.js:585-606 | a stage yields one "start" event iff `alertStart`, at the cursor, and one "end" event iff `alertEnd`, at the cursor plus the clamped duration; start before end; each event carries the dish and stage names, the notes and the clamped duration |
| Derivation.Number | app.js:586-598 | the i-th pushed event takes the supply's i-th id and is otherwise unchanged |
| Derivation.NumberAppend | app.js:586-598 | numbering two batches one after the other is numbering their concatenation |
| Derivation.Insert | app.js:612 | insertion adds exactly the one event |
| Derivation.PrecedesTransitive | app.js:612 | the comparator (time, then "end" before "start") is transitive |
| Derivation.InsertSorted | app.js:612 | inserting into a sorted list keeps it sorted |
| Derivation.SortEvents | app.js:612 | the result is sorted by time, "end" first on ties, and is a permutation of the input |
| Derivation.SortSortedIsIdentity | app.js:612 | the stable sort leaves already ordered events where they are |
| Derivation.EmitStage | app.js:581-607 | one turn of the stage loop pushes that stage's events with the next ids and advances the cursor by the clamped duration |
| Derivation.EmitDish | app.js:573-608 | the cursor loop starts at serve minus the dish's total and pushes the dish's events in stage order, numbered consecutively |
| Derivation.EmitMeal | app.js:572-609 | the dish loop pushes every dish's events in dish order, numbered consecutively from the supply |
| Derivation.Derive | app.js:568-614 | `computeEvents`: empty without a serve instant; otherwise the numbered events sorted; the supply advances by the number of events |
| Derivation.Timeline | app.js:568-614 | the timeline is sorted, and is empty without a serve instant; otherwise it holds one event per enabled alert flag |
| Derivation.NoServeNoEvents | app.js:569-570 | an empty serve date or time gives an empty timeline |
| Derivation.DishEventsPrefix | app.js:580-608 | the events of the first j stages are the front of the dish's events |
| Derivation.DishEventsLayout | app.js:579-608 | stage k's events occupy their own slot, which starts at the dish start plus the clamped durations of the stages before k |
| Derivation.StageSlot | app.js:576-607 | within a dish anchored at the serve instant, stage k starts at serve - total + (durations before k) minutes |
| Derivation.FirstStageStartsAtDishStart | app.js:577-588 | the first stage's "start" event is at serve - total duration |
| Derivation.LastStageEndsAtServe | app.js:576-607 | the last stage's "end" event is exactly at the serve instant |
| Derivation.RawEventsSnoc | app.js:573-609 | another dish appends its events after the others' |
| Derivation.RawEventsPrefix | app.js:573-609 | the events of the first j dishes are the front of the meal's events |
| Derivation.DishesIndependent | app.js:573-609 | dish j's events are those it would have alone: other dishes change neither their times nor their order |
| Derivation.EveryDishEndsAtServe | app.js:573-609 | every dish whose last stage alerts at its end finishes exactly at the serve instant, whatever the other dishes' totals |
| Derivation.EmptyDishContributesNothing | app.js:573-609 | a dish without stages adds no event and changes no other dish's events |
| Derivation.ZeroDurationStage | app.js:581-599 | a zero-length stage with both flags yields a start and an end at the same instant |
| Derivation.TimelineSortedPermutation | app.js:611-612 | the timeline is sorted and a permutation of the pushed events: nothing is merged or dropped, one event per enabled flag |
| Derivation.EndBeforeStartAtSameInstant | app.js:612 | at one instant no "end" event is placed after a "start" event |
| Derivation.TimelineIds | app.js:587-598 | the derived events carry pairwise different ids, all in the range just drawn from the supply |
| Derivation.NumberedPermutationIds | app.js:587-612 | any reordering of numbered events keeps their ids distinct and in range |
| Derivation.StripIdsSnoc | app.js:612 | blanking ids distributes over appending one event |
| Derivation.InsertStripIds | app.js:612 | the comparator ignores ids: inserting commutes with blanking them |
| Derivation.SortStripIds | app.js:612 | sorting commutes with blanking the ids |
| Derivation.TimelineDeterministic | app.js:568-614 | deriving twice from an unchanged meal gives the same events, times and order; only the drawn ids differ |
| Derivation.Shown | app.js:626-632 | the unfiltered view shows every event; a shown event has the selected type ("start" or "end") and lies in the selected window ("upcoming": at or after `now`, "done": before it) |
| Derivation.Visible | app.js:626-632 | the view holds exactly the events that pass the filter: each event it holds passes, and each event that passes is in it |
| Derivation.KeepSorted | app.js:626-632 | filtering a sorted timeline keeps it sorted |
| Derivation.VisibleSorted | app.js:626-632 | the filtered view is sorted |
| Derivation.UpcomingDonePartition | app.js:629-630 | "upcoming" and "done" split the events between them, each event in exactly one |
| Derivation.GranularityKinds | app.js:627-628 | the "start" selector shows only start events and the "end" selector only end events |
| Derivation.GranularityPartition | app.js:627-628 | the "start" and "end" selectors together show each event of the unfiltered view once |
| Session.Pending | app.js:714-719 | every armed timer's delay is non-negative and its event is at `now + delay`; each timer's event is one of the events |
| Session.ArmTimers | app.js:714-719 | the arming loop pushes exactly the timers `Pending` describes |
| Session.PendingIsUpcoming | app.js:714-719 | the armed events are exactly the "upcoming" view of the events, in the same order |
| Session.PendingOnePerUpcoming | app.js:714-719 | each event at or after `now` is armed as often as it occurs, and a past event not at all |
| Session.ArmedOncePerUpcomingEvent | app.js:694-719 | for a derived timeline, every event with `when >= now` gets exactly one timer and nothing else is armed |
| Session.Fire | app.js:743-749 | no session, no record; an id already recorded leaves the record unchanged; otherwise the id is recorded and nothing else in the record changes |
| Session.RaisesAlert | app.js:745 | the alert is raised unless a session exists whose fired list already holds the id |
| Session.FireRecordsOnce | app.js:745-748 | a new id is appended exactly once, behind the ids recorded before, and every other id keeps its count |
| Session.FireTwice | app.js:743-749 | firing the same event twice equals firing it once, and the second fire raises no alert |
| Session.RecoveryGuardNeverMatches | app.js:767-784 | after re-derivation with fresh ids, no re-armed timer's event id is in the fired list, so the guard cannot suppress a re-fire |
| Catalog.Upserted | app.js:216-219 | a known id: the first meal with it is replaced by the meal in its place, and every other position is unchanged; a new id: the meal goes in front of the unchanged list |
| Catalog.UpsertThenFind | app.js:216-221 | after an upsert, looking the id up finds exactly that meal |
| Catalog.UpsertIdempotent | app.js:216-219 | upserting the same meal twice equals upserting it once |
| Catalog.UpsertIds | app.js:216-219 | the set of ids after an upsert is the set before plus the meal's id |
| Catalog.ActiveChoice | app.js:207-208 | the first meal carrying the stored id when some meal does, and the first meal otherwise; in both cases the first meal with its own id |
| Catalog.DeleteLeavesAMeal | app.js:283-290 | when some meal has an id other than the deleted one, the filter leaves it, so `meals[0]` exists |
| Catalog.DeleteWithDistinctIds | app.js:288 | with distinct ids, deleting removes exactly the one meal |
| Catalog.Renumber | app.js:272-276 | the id refresh keeps the number of dishes |
| Catalog.RenumberStages | app.js:275 | stage k takes the k-th id of the supply and is otherwise unchanged |
| Catalog.RenumberIds | app.js:272-276 | the refreshed dishes hold exactly the consecutive ids drawn, so they are distinct and fresh |
| Catalog.RenumberForgetsIds | app.js:272-276 | refreshing twice is refreshing once: apart from ids nothing changes |
| Catalog.RenumberKeepsContent | app.js:272-276 | every dish keeps its name and stage count, and every stage keeps everything but its id |
| Catalog.Copied | app.js:268-276 | the copy has the new id, the trimmed name, the same serve date and time, and the same dishes and stages apart from their ids |
| Catalog.CopiedIds | app.js:268-276 | the copy's ids are the next `1 + IdCount` ids of the supply |
| Catalog.DefaultStage | app.js:459 | the appended stage has the fresh id, 10 minutes and both alerts on |
| Catalog.EditStage | app.js:514-520 | a typed duration becomes its `clampInt` to [0, 2000] (NaN gives 0, below 0 gives 0, above 2000 gives 2000); a flag or text field is set as given; every other field and the id stay |
| Catalog.AddStageTo | app.js:456-459 | nothing iff the dish is unknown; otherwise the first dish with that id gains the default stage at its end and no other dish changes |
| Catalog.DeleteStageFrom | app.js:465-467 | nothing iff the dish is unknown; otherwise that dish's stages are filtered by the stage id |
| Catalog.MoveStageIn | app.js:487-496 | nothing iff the dish is unknown or the stage move does nothing; otherwise that dish's stages are moved as `MoveById` states |
| Catalog.EditStageIn | app.js:509-520 | nothing iff the dish or the stage is unknown; otherwise only that stage is edited |
| Catalog.RenameDishIn | app.js:502-504 | nothing iff the dish is unknown; otherwise that dish takes the name as typed and every other dish is unchanged |
| Catalog.WithStagesDurations | app.js:455-499 | replacing one dish's stages by stages with durations in range keeps all durations in range |
| Catalog.AddStageKeepsDurations | app.js:455-462 | adding a stage keeps every duration in [0, 2000] |
| Catalog.DeleteStageKeepsDurations | app.js:464-470 | deleting stages keeps every duration in [0, 2000] |
| Catalog.MoveStageKeepsDurations | app.js:486-499 | moving a stage keeps every duration in [0, 2000] |
| Catalog.EditStageKeepsDurations | app.js:508-522 | editing a field keeps every duration in [0, 2000] |
| Catalog.DeleteDishKeepsDurations | app.js:448-453 | deleting a dish keeps every duration in [0, 2000] |
| Import.OrDefault | app.js:340 | the logical-or default on a string: a non-empty value is kept, an absent or empty one gives the default |
| Import.NormaliseStage | app.js:341-348 | the name defaults to "Stage" and the notes to ""; a given duration is clamped to [0, 2000] (0 for NaN), an absent one is 10; each alert flag is on unless it is explicitly false |
| Import.NormaliseDish | app.js:338-349 | the name defaults to "Dish"; stage k is raw stage k normalised (no stages when absent), so each is named and has a duration in range |
| Import.CleanDishes | app.js:338-349 | one dish per raw dish, in order (none when absent), dish i being raw dish i normalised; every dish and stage is named and every duration in range |
| Import.NormaliseImport | app.js:326-351 | unparseable text is rejected as invalid JSON; a non-object or a missing or empty name as not a meal; an accepted meal takes the fresh id and its own name, the serve date defaults to today and the time to "18:30", and its dishes are the rebuilt ones with the following ids |
| Import.RenumberNames | app.js:337-349 | drawing the ids keeps the names non-empty and the durations in range |
| Import.ImportedWellFormed | app.js:333-351 | every imported meal is well formed: named, with a serve date and time, named dishes and stages, durations in [0, 2000] |
| Import.ImportedIds | app.js:337-342 | the imported meal's ids are consecutive ids from the supply, so distinct and fresh |
| Import.RenumberedIds | app.js:337-342 | a meal id followed by refreshed dishes holds exactly the consecutive ids drawn |
| Import.RenumberIdCount | app.js:337-349 | drawing ids keeps the number of ids |
| Import.Export | app.js:300 | the exported document is an object carrying the meal's name |
| Import.RenumberBlank | app.js:337-349 | the ids a list held before the refresh do not matter |
| Import.ExportImportRoundTrip | app.js:333-351 | importing an exported well-formed meal gives the meal back, apart from freshly drawn ids |
| Import.ImportIdempotent | app.js:333-351 | re-importing an imported meal changes nothing but the ids |
| Import.EmptyNamesComeBackDefaulted | app.js:340-343 | an empty dish or stage name comes back from export and import as "Dish" or "Stage" |
| Coordinator.App.Bootstrap | app.js:198-214 | the stored meals, or the template saved and made active; the active meal is the stored choice, else the first; its empty serve date or time is filled in memory only, at its own position in the list, every other entry as stored; no timers, no ticking |
| Coordinator.App.UpsertMeal | app.js:216-224 | the list is `Upserted`, saved, the meal active and its id stored; invariant kept |
| Coordinator.App.SetMealById | app.js:238-248 | nothing for an unknown id; otherwise the first meal with it becomes active |
| Coordinator.App.AddAndSelect | app.js:260-262 | `unshift` then upsert then select leaves the new meal exactly once in front and active |
| Coordinator.App.CreateNewMeal | app.js:250-263 | nothing for a cancelled or empty answer; otherwise an empty meal with the trimmed name, today at 18:30, in front and active, with the list saved and its id stored |
| Coordinator.App.CopyMeal | app.js:265-280 | nothing for a cancelled or empty answer; otherwise the copy with fresh ids in front and active, with the list saved and its id stored |
| Coordinator.App.DeleteMeal | app.js:282-294 | refused while one meal is left; nothing unless confirmed; otherwise the active meal's id is filtered out and saved and the first remaining meal is selected, or the outcome is a fault when none remains, with the active meal and its stored id left as they were |
| Coordinator.App.RemoveActiveMeal | app.js:288-292 | the filter and save, then the first remaining meal selected, or a fault on an empty list that leaves the active meal and its stored id as they were |
| Coordinator.App.SelectFirst | app.js:290-292 | the first meal becomes active and its id is stored |
| Coordinator.App.ImportMeal | app.js:324-358 | the outcome is the normaliser's; on a rejection nothing changes; otherwise the imported meal goes in front and becomes active, the list is saved and its id stored, and the supply advances past its ids |
| Coordinator.App.SaveDishes | app.js:450-451 | the active meal with the new dishes is upserted, the list saved and its id stored |
| Coordinator.App.AddDish | app.js:439-446 | nothing for a cancelled or empty answer; otherwise a dish with the trimmed name and no stages goes last; the list is upserted and saved and the meal's id stored |
| Coordinator.App.DeleteDish | app.js:448-453 | nothing unless confirmed; otherwise every dish with the id is removed; the list is upserted and saved and the meal's id stored |
| Coordinator.App.AddStage | app.js:455-462 | nothing for an unknown dish; otherwise the default stage with a fresh id goes last in it; the list is upserted and saved and the meal's id stored |
| Coordinator.App.DeleteStage | app.js:464-470 | nothing for an unknown dish; otherwise the stage is filtered out of it; the list is upserted and saved and the meal's id stored |
| Coordinator.App.MoveDish | app.js:473-484 | nothing for an unknown dish or an out-of-range target; otherwise the dishes are moved as `MoveById` states; the list is upserted and saved and the meal's id stored |
| Coordinator.App.MoveStage | app.js:486-499 | nothing for an unknown dish or stage or an out-of-range target; otherwise the stage moves within its dish; the list is upserted and saved and the meal's id stored |
| Coordinator.App.UpdateStageField | app.js:508-522 | nothing for an unknown dish or stage; otherwise the field is edited as `EditStage` states; the list is upserted and saved and the meal's id stored |
| Coordinator.App.UpdateDishName | app.js:501-506 | nothing for an unknown dish; otherwise the name is stored as typed; the list is upserted and saved and the meal's id stored |
| Coordinator.App.SetServeTime | app.js:827 | the serve time as typed is stored in the meal; the list is upserted and saved and the meal's id stored |
| Coordinator.App.SetServeDate | app.js:828 | the serve date as typed is stored in the meal; the list is upserted and saved and the meal's id stored |
| Coordinator.App.ClearTimers | app.js:681-686 | no timers and no tick afterwards; nothing else changes |
| Coordinator.App.ArmAll | app.js:714-726 | the timers are exactly `Pending(events, now)` and the tick runs |
| Coordinator.App.ScheduleSession | app.js:688-731 | without a serve instant or with no events nothing changes; otherwise a session with an empty fired list and one timer per event at or after `now`, and the supply advances past the drawn ids |
| Coordinator.App.StopSession | app.js:733-739 | no timers, no tick, no session |
| Coordinator.App.FireEvent | app.js:741-765 | the record becomes `Fire` of the old one, and the alert is raised iff the id was not recorded yet |
| Coordinator.App.RecoverSessionIfAny | app.js:767-790 | nothing without a session or for another meal; otherwise the timeline is derived again and one timer is armed per event at or after `now`, none of whose ids is in the fired list |
| Scenarios.DinnerRawEvents | app.js:573-609 | a 45 + 40 minute roast dish pushes its four events at serve - 85, -40, -40 and 0 minutes |
| Scenarios.DinnerTimeline | app.js:568-614 | that roast's timeline: the temper start at -85 minutes, the temper end before the roast start at -40, the roast end at the serve instant |
| Scenarios.DinnerSessionArms | app.js:713-719 | a session started an hour before serving arms the three later events with delays of 20, 20 and 60 minutes |
| Scenarios.DinnerArms | app.js:713-719 | on the laid-out roast timeline, an hour before serving the three later events are armed with delays of 20, 20 and 60 minutes |
| Scenarios.DinnerFiresOnce | app.js:743-749 | firing the roast start twice raises one alert and records its id once |

## Left out

- `sw.js`, the service worker, is pure network and cache I/O.
- DOM rendering and wiring are left out: `renderDishes`, the markup part of
  `renderTimeline`, `rebuildMealSelect`, `setTab`, toasts, `scrollToNow` and
  `wireDishHandlers`. A fired event's toast is the event appended to `alerts`.
- Audio (`ensureAudio`, `enableSound`, `beep`) is floating-point Web Audio
  work, so the different sound patterns for "start" and "end" are not
  modelled.
- JSON serialisation and localStorage failures are left out. The stores are
  fields that hold exactly what was last written.
- The JSON export text and the clipboard are left out. `Import.Export` gives
  the document as the import handler reads it back.
- Real timer scheduling and the order in which same-instant timers fire are
  left out. A pending timer is its `(event, delay)` pair. The ten-second tick
  is a boolean, since its callback only re-renders.
- `Date` and the time zone (`toLocalISODate`, `toTimeLabel`, the `Date`
  constructor) are host calls. Instants are integers, the clock is a
  parameter, and today's date is a parameter.
- `uid()` randomness is replaced by a counter. Its ids are therefore distinct
  by construction, where the source's are distinct only with high
  probability.
- `roastBeefTemplate` is a parameter of `Bootstrap`, since its ids and date
  come from `uid()` and `Date`.
- JSON values of the wrong type are not modelled: a number as a name, a
  non-array `stages` (which throws), extra fields the import copies along.
  Raw fields are optional strings, booleans, lists and `parseInt` results.
- Coordinator.App.UpsertMeal: models in-place mutation and aliasing by value.
  The source mutates the active meal object, which is shared with its entry in
  `meals`, and then upserts it. The methods build the edited meal and upsert
  it, which leaves `meals` in the same state after each handler. The moment
  between the mutation and the upsert is not modelled.
- The ids `renderTimeline` and the ten-second tick draw from `uid()` while
  re-rendering are not counted: `nextId` advances only by the derivation's
  draws in `ScheduleSession` and `RecoverSessionIfAny`. Only freshness
  matters, and every id the model hands out is still fresh.
- `escapeHtml`'s `String(str)` coercion of non-strings is left out; the input
  is a string.
