# Workout logger: records, validation and the workout list

A model of the logic in `script.js` of a map-based workout logger. The user clicks
a map, fills in a form and saves a running or a cycling workout. The app keeps
the workouts in a list that can be edited, deleted, emptied and shown sorted by
distance, and saves the list to local storage.

The model has six modules:

- `JsNumber` (`js_number.dfy`) models the numbers the form yields (`+input.value`).
  A number is either a finite real or one of `NaN`, `Infinity` and `-Infinity`. It
  gives `a - b` and `a / b` with their IEEE cases, and the comparator test
  `a - b > 0`.
- `Text` (`text.dfy`) holds the string operations the labels use:
  - upper-casing the first letter;
  - the decimal rendering of the day number;
  - `split(' ')` and `join(' ')`.
- `Workouts` (`workout.dfy`) holds the record itself:
  - a `Workout` value with the common fields and an optional field per variant
    property (`cadence`/`pace` for running, `elevationGain`/`speed` for cycling);
  - pace (`calcPace`) and speed (`calcSpeed`);
  - the description (`_setDescription`) and the description an edit writes.
- `Inputs` (`inputs.dfy`) covers what the form submits:
  - `_validInputs` and `_allPositive`, and the check each type applies;
  - the record a create builds;
  - the rewrite an edit applies to a record.
- `WorkoutList` (`workout_list.dfy`) holds the list operations:
  - `find` by id and `filter` by id;
  - the sorted copy (`slice().sort((a, b) => a.distance - b.distance)`), modelled as a
    stable insertion sort driven by the same comparator.
- `WorkoutApp` (`app.dfy`) is the `App` controller:
  - the fields `#workouts`, `#isEdit`, `#isSort` and `#editWorkOutId`;
  - where the map was last clicked (`#mapEvent`), and whether the map has loaded (`#map`);
  - the saved copy in local storage;
  - whether each of the three list buttons (delete all, sort, show all) is shown.

  The `State` datatype holds these fields. One `On...` function per handler says
  what that handler leaves behind. The class `App` keeps the same fields and its
  methods update them in place. Each method is proved to end in the state its
  function gives, and the handlers' promises are proved as lemmas about the
  functions.

A form submission ends in one of four outcomes: `Added`, `Updated`, `Rejected`
(the error dialog) or `Threw`. `Threw` stands for a `TypeError` that escapes the
handler:
- a create before any map click reads `this.#mapEvent.latlng` of `undefined`;
- an edit whose workout is gone reads `workout.querySelector` of `null`, before
  it writes anything. This happens when the workout being edited is deleted:
  the delete handler never clears edit mode, so the next submission still
  edits the deleted id (`DeleteWhileEditingThrows`);
- a handler that reaches the map before there is one (see below).

Three behaviours of the code are modelled as written:

- **An invalid edit changes the record anyway.** The edit handler writes type,
  distance, duration, description, cadence or elevation, and pace or speed into
  the record before it validates the input. A rejected edit therefore leaves the
  record changed in the list, leaves edit mode on and saves nothing
  (`EditOutcomes`). Every edit keeps the list's invariants, valid or not
  (`EditKeepsConsistent`, `EditKeepsDescribedList`).
- **An edit that changes the type keeps the old type's properties.** A record
  edited from running to cycling gains `elevationGain` and `speed` and still
  carries `cadence` and `pace`, since nothing deletes them (`EditMatchesBuild`,
  `RunThenRideExample`).
- **The map may be missing.** `#map` is set only by `_loadMap`, the callback of
  a granted geolocation request. Before it runs, and for good when the position
  is refused, the list loaded from storage is still shown and its buttons work,
  but every handler that updates the markers throws when it reaches the map.
  The model keeps this as the flag `mapLoaded`:
  - a delete has already filtered the list and hidden buttons, and saves nothing;
  - a delete-all has already emptied the list, and leaves the buttons shown and
    the saved copy in place (`DeleteAllEmpties`);
  - a valid edit has already rewritten the record, and stays in edit mode
    without saving (`EditOutcomes`);
  - a create throws after appending and showing the buttons, and saves nothing
    (`CreateAppendsOne`). Only a loaded map reports clicks, so the page never
    reaches this case; the model keeps it because the handler's code allows it.

The edit builds the new description from the title shown on the page. That title
is the record's description as it was last rendered. The model reads the
record's own description instead. `EditDescriptionKeepsTail` shows the two give
the same text: an edit keeps every word after the first, so a rejected edit that
already rewrote the record changes nothing here.

An id is the last ten digits of `Date.now()`. Two workouts therefore share an
id when they are created in the same millisecond, or exactly 10^10 ms (about
115.7 days) apart. The lemmas that keep ids unique take a fresh id as a
precondition of create.

## Model

| member | source | states |
|---|---|---|
| JsNumber.Sub | script.js:470 | `a - b` is finite exactly when both operands are; then it is the difference; it is NaN exactly for a NaN operand or two equal infinities |
| JsNumber.Div | script.js:44 | `a / b` is finite exactly when `a` is finite and `b` is a non-zero finite or infinite number; a finite quotient times a finite divisor gives back `a`; a finite number divided by an infinity is 0; NaN cases as in IEEE |
| JsNumber.GreaterThan | script.js:470 | for finite distances, the comparator puts `a` after `b` exactly when `a > b` |
| Text.Capitalize | script.js:29 | upper-casing the first letter keeps the length and every later character |
| Text.DecimalString | script.js:29 | the rendering of a day number is a non-empty run of decimal digits that starts with `0` only for the number 0 |
| Text.DecimalRoundTrip | script.js:29 | reading the digits of the rendering from the left gives back the day number |
| Text.DecimalStringInjective | script.js:29 | different day numbers have different renderings |
| Text.Join | script.js:350 | `join(' ')` puts one space between consecutive pieces; with `JoinSplit` it undoes `split(' ')` |
| Text.WordsAfterFirst | script.js:350 | `split(' ').splice(1).join(' ')`: everything after the first space, or the empty string when there is none; `WordsAfterFirstOf` gives its value |
| Text.Split | script.js:350 | `split(' ')` yields at least one piece and no piece holds a space |
| Text.JoinSplit | script.js:350 | joining the pieces of a split with spaces gives back the string |
| Text.WordsAfterFirstOf | script.js:350 | dropping the first word of `w + " " + rest` gives `rest` when `w` has no space |
| Workouts.Title | script.js:29 | the capitalised type is a non-empty word without spaces |
| Workouts.TitleCapitalizesType | script.js:29 | the title is `type[0].toUpperCase()` followed by `type.slice(1)` |
| Workouts.MonthName | script.js:28 | every month name is a non-empty word without spaces |
| Workouts.Description | script.js:27-30 | `_setDescription`: the title, " on ", the month name, a space and the day number; its words are given by `DescriptionWords` and `DescriptionDay` |
| Workouts.DescriptionWords | script.js:27-30 | a description reads as four words: the capitalised type, "on", the month name, the day of the month |
| Workouts.DescriptionDay | script.js:29 | the last word of a description spells the day of the month the workout was created on |
| Workouts.Pace | script.js:43-46 | `calcPace`: `duration / distance` with the JavaScript division; its values are given by `PaceOfPositive` |
| Workouts.Speed | script.js:59-62 | `calcSpeed`: `distance / (duration / 60)` with the JavaScript division; its values are given by `SpeedOfPositive` |
| Workouts.NewRunning | script.js:33-41 | the `Runing` constructor: a running record with its cadence, pace and description and no cycling property |
| Workouts.NewCycling | script.js:49-57 | the `Cycling` constructor: a cycling record with its elevation gain, speed and description and no running property |
| Workouts.EditDescription | script.js:349-350 | the description an edit writes: the new title, a space, and the old description after its first word; `EditOfDescription` gives its value on a constructed description |
| Workouts.PaceOfPositive | script.js:43-46 | for a positive finite distance and duration the pace is the finite positive quotient duration / distance, and pace × distance = duration |
| Workouts.SpeedOfPositive | script.js:59-62 | for a positive finite distance and duration the speed is the finite positive distance / (duration / 60), and speed × duration = 60 × distance |
| Workouts.EditDescriptionKeepsTail | script.js:348-350 | the description an edit writes keeps every word of the old one after the first, so editing the rewritten and the displayed description gives the same words |
| Workouts.EditOfDescription | script.js:348-350 | editing a constructed description gives exactly the description a new record of the new type on the same date gets |
| JsNumber.IsFinite | script.js:155 | `Number.isFinite`: true exactly for a finite number |
| JsNumber.IsPositive | script.js:157 | `n > 0`: true for a positive finite number and for `Infinity`, false for `NaN` |
| Inputs.ValidInputs | script.js:155 | `_validInputs` holds exactly when every input is finite |
| Inputs.AllPositive | script.js:157 | `_allPositive` holds exactly when every input is `Infinity` or a finite number above 0 |
| Inputs.Accepts | script.js:175-193 | an accepted submission has a finite positive distance and duration |
| Inputs.AcceptsRunning | script.js:178 | a running submission is accepted exactly when distance, duration and cadence are all finite and positive |
| Inputs.AcceptsCycling | script.js:190 | a cycling submission is accepted exactly when distance, duration and elevation are finite and distance and duration positive, so an elevation of 0 or below passes |
| Inputs.Build | script.js:175-196 | the record `_newWorkout` constructs for the submitted type at the clicked place; `BuiltRecord` gives every field |
| Inputs.BuiltRecord | script.js:175-196 | an accepted submission builds a record of its type: given id, date and place, its inputs, its description, and a finite positive pace (running) or speed (cycling) equal to the formula, with no property of the other type |
| Inputs.BuildIsDescribed | script.js:33-57 | every record a constructor builds carries its description and the id it was given |
| Inputs.ApplyEdit | script.js:352-371 | the record an edit leaves behind: type, distance, duration and description overwritten, then the new type's number and its pace or speed; `EditMatchesBuild` compares it with a fresh record |
| Inputs.EditMatchesBuild | script.js:352-371 | an edit keeps id, date and place, agrees with a fresh record of the new inputs on type, distance, duration, description and the new type's properties, and leaves the old type's properties as they were |
| Inputs.EditKeepsDescribed | script.js:348-355 | a described record stays described after any edit |
| Inputs.EditKeepsId | script.js:352-371 | an edit never changes the id |
| Inputs.EditAtKeepsInvariants | script.js:343-371 | rewriting the found record keeps every record described and the ids unique |
| Inputs.RunThenRideExample | script.js:341-377 | a 5 km, 25 min run on May 5 has pace 5 and description "Running on May 5"; edited into a 10 km, 30 min ride it has speed 20, description "Cycling on May 5", the same id and date, and still its cadence and pace |
| WorkoutList.FindById | script.js:343 | `find` by id gives the first index holding the id, and nothing exactly when no record has it |
| WorkoutList.RemoveId | script.js:413 | `filter` by id never lengthens the list |
| WorkoutList.RemoveIdMembers | script.js:413 | after the delete, a record is in the list exactly when it was before and its id differs |
| WorkoutList.RemoveIdAppend | script.js:413 | the filter works piece by piece, so the kept records stay in their order |
| WorkoutList.RemoveAbsentId | script.js:413 | deleting an id no record has leaves the list equal to the original |
| WorkoutList.RemoveUniqueId | script.js:413 | with unique ids, deleting a present id removes exactly the record at its index and keeps the rest in order |
| WorkoutList.RemoveKeepsUnique | script.js:413 | a delete keeps ids unique |
| WorkoutList.RemoveIdCount | script.js:413 | with unique ids a delete shortens the list by one when the id is present, and not at all otherwise |
| WorkoutList.RemoveKeepsDescribed | script.js:413 | a delete keeps every remaining record described |
| WorkoutList.DeleteKeepsInvariants | script.js:413-422 | a delete keeps ids unique and records described, and shortens a list with unique ids by at most one |
| WorkoutList.AppendKeepsUnique | script.js:198 | appending a record with a fresh id keeps ids unique |
| WorkoutList.AppendKeepsInvariants | script.js:198 | appending a described record with a fresh id keeps ids unique and every record described |
| WorkoutList.DeleteUndoesCreate | script.js:413 | deleting the id of a record just appended with a fresh id gives back the earlier list |
| WorkoutList.InsertByDistance | script.js:470 | one insertion step of the sorted copy adds exactly one entry |
| WorkoutList.SortByDistance | script.js:470 | the sorted copy has the list's length |
| WorkoutList.InsertIsPermutation | script.js:470 | an insertion adds its entry and loses none |
| WorkoutList.SortedCopyIsPermutation | script.js:470 | the sorted copy is a permutation of the list |
| WorkoutList.InsertKeepsOrder | script.js:470 | inserting an entry of finite distance into a list in distance order keeps it in order |
| WorkoutList.SortedCopyIsOrdered | script.js:470 | with finite distances the sorted copy is in non-decreasing distance order |
| WorkoutList.InsertIsStable | script.js:470 | an insertion puts the entry after every entry of equal distance |
| WorkoutList.SortedCopyIsStable | script.js:470 | with finite distances, entries of equal distance keep their list order in the sorted copy |
| WorkoutApp.Loaded | script.js:74-90 | the fields after the constructor: the saved list, or none, with the buttons that list wants, no map yet, and neither edit nor sort mode |
| WorkoutApp.OnMapLoaded | script.js:113-130 | `_loadMap` sets `#map` and changes nothing else the model holds |
| WorkoutApp.OnShowForm | script.js:132-141 | `_showForm`: ends edit mode when the form is open and records the clicked place |
| WorkoutApp.OnEditWorkout | script.js:308-339 | `_editWorkout`: edit mode on with the clicked id; the click is forgotten when the form was hidden and the workout found |
| WorkoutApp.OnCreate | script.js:167-217 | the create branch of `_newWorkout`, with its outcome; `CreateAppendsOne` gives every case |
| WorkoutApp.OnEditData | script.js:341-401 | `_editDataWorkout`, with its outcome; `EditOutcomes` and `EditRewritesTarget` give every case |
| WorkoutApp.OnNewWorkout | script.js:159-165 | a submission edits in edit mode and creates otherwise |
| WorkoutApp.OnDelete | script.js:403-434 | `_deleteWorkout`; `DeleteRemovesId` gives what it keeps and saves |
| WorkoutApp.OnDeleteAll | script.js:440-456 | `_deleteAllWorkouts`; `DeleteAllEmpties` gives both cases |
| WorkoutApp.OnSort | script.js:465 | `_sortWorkouts` flips sort mode and nothing else |
| WorkoutApp.RenderOrder | script.js:467-472 | the order of the `_renderWorkout` calls: the sorted copy in sort mode, the list otherwise; each row goes right after the form, so the page shows this order reversed |
| WorkoutApp.LoadedIsConsistent | script.js:481-494 | a saved list with unique ids, or no saved list, gives a controller whose buttons match the list; the list is empty exactly when nothing non-empty was saved; there is no map yet and storage holds what was saved |
| WorkoutApp.MapLoadedKeepsState | script.js:113-130 | the map's arrival changes only the map flag, keeps the controller consistent and is idempotent |
| WorkoutApp.ShowFormEndsOpenEdit | script.js:132-141 | a map click leaves edit mode when the form is open, keeps it otherwise, records the clicked place and leaves the list alone |
| WorkoutApp.CreateAppendsOne | script.js:159-216 | a create adds a workout exactly when the map was clicked, the input is accepted and the map is loaded; it is rejected exactly for a click with invalid input, and then, as without a click, nothing changes; after a click with valid input it appends exactly one record, built from the input, after the unchanged earlier ones, and saves the list exactly when the map is loaded |
| WorkoutApp.CreateKeepsConsistent | script.js:198-204 | a create with a fresh id keeps ids unique and the buttons in step with the list |
| WorkoutApp.CreateKeepsDescribed | script.js:183-198 | a create keeps every record described |
| WorkoutApp.EditRewritesTarget | script.js:343-371 | an edit rewrites only the record with the edited id, keeping its id, date and place, and keeps the list's length |
| WorkoutApp.EditedDescription | script.js:348-355 | the edited record gets the description a new record of the new type and the same date gets |
| WorkoutApp.EditOutcomes | script.js:341-401 | an edit throws exactly when no record has the id (changing nothing) or the input is valid but the map is missing; when the record exists it always gets the new type and distance; a valid edit with a map ends edit mode and saves; any other leaves edit mode on and saves nothing; it is rejected exactly for invalid input |
| WorkoutApp.EditKeepsConsistent | script.js:341-401 | every edit, accepted or not, keeps ids unique and the buttons in step |
| WorkoutApp.EditKeepsDescribedList | script.js:348-355 | every edit, accepted or not, keeps every record described |
| WorkoutApp.NewWorkoutKeepsConsistent | script.js:159-165 | a submission keeps the controller consistent in edit mode, and in create mode when the id is fresh |
| WorkoutApp.DeleteRemovesId | script.js:403-434 | a delete keeps exactly the records whose id differs; an absent id changes neither list nor storage; with unique ids a present id removes exactly its record, keeps the rest in order, and the list is saved exactly when the map is loaded |
| WorkoutApp.DeleteKeepsConsistent | script.js:413-422 | the buttons a delete hides are exactly those the shorter list no longer wants, and ids stay unique |
| WorkoutApp.DeleteKeepsDescribed | script.js:413 | a delete keeps every remaining record described |
| WorkoutApp.DeleteUndoesCreateStep | script.js:198 | deleting the workout a create just added restores the list the create started from |
| WorkoutApp.DeleteAllEmpties | script.js:440-456 | delete-all empties the list and keeps both modes; with the map loaded it removes the saved copy and hides every button, leaving the controller consistent; without a map buttons and saved copy stay, so buttons remain shown over the emptied list |
| WorkoutApp.DeleteWhileEditingThrows | script.js:403-434 | deleting the workout being edited leaves edit mode on, so the next submission finds no record, throws and changes nothing |
| WorkoutApp.SortTogglesView | script.js:464-473 | sorting flips sort mode and never reorders the stored list, and flipping twice restores the state; in sort mode the rendered order is a permutation of the list, in non-decreasing distance order and stable when every distance is finite; otherwise it is the list itself |
| WorkoutApp.App.constructor | script.js:74-90 | the new controller holds the saved list (or none) and shows the buttons that list wants |
| WorkoutApp.App.LoadMap | script.js:113-130 | the fields end as `OnMapLoaded` gives |
| WorkoutApp.App.ShowForm | script.js:132-141 | the fields end as `OnShowForm` gives |
| WorkoutApp.App.EditWorkout | script.js:308-339 | edit mode on with the clicked id; the map click is forgotten when the form was hidden and the workout found |
| WorkoutApp.App.NewWorkout | script.js:159-218 | outcome and fields end as `OnNewWorkout` gives: edit in edit mode, create otherwise |
| WorkoutApp.App.EditDataWorkout | script.js:341-401 | outcome and fields end as `OnEditData` gives |
| WorkoutApp.App.DeleteWorkout | script.js:403-434 | the fields end as `OnDelete` gives |
| WorkoutApp.App.DeleteAllWorkouts | script.js:440-456 | the fields end as `OnDeleteAll` gives |
| WorkoutApp.App.SortWorkouts | script.js:464-473 | sort mode flips, nothing else changes, and the rendered order is `RenderOrder` of the new state |
| WorkoutApp.App.ShowButtonDeleteAll | script.js:458-462 | the delete-all button is shown once the list is non-empty and never hidden here |
| WorkoutApp.App.ShowButtonSort | script.js:475-479 | the sort button is shown once the list holds two workouts and never hidden here |
| WorkoutApp.App.ShowButtonAllWorkouts | script.js:540-544 | the show-all button is shown once the list is non-empty and never hidden here |

## Left out

- The page: the form fields, rendering of the list, the error dialog, and showing and hiding the form. A submission is passed in as a `FormInput` holding the numbers `+input.value` yields, and whether the form is visible is passed in as a flag.
- The Leaflet map, its markers and popups, `_moveToPopup` and `_showAllWorkouts`: these are calls into a library the model does not include. A map click is passed in as its coordinates.
- Geolocation and `setTimeout`: browser callbacks.
- `localStorage`, `JSON.stringify`/`JSON.parse` and the `Object.assign` rehydration: the stored entry is an abstract copy of the list (`stored`). Loaded records are taken as saved, and the loss of `NaN` and of `Date` objects in JSON is not modelled.
- `reset`: it removes the stored list and reloads the page.
- Ids and dates: `Date.now()` and `new Date()` become parameters. Only the month index and the day of the month of a date are kept.
- Floating point: numbers are exact reals. Rounding, overflow and the sign of zero are not modelled. A zero divisor is taken to be `+0`.
- Object identity: the edit writes into the record object shared by the list. The model replaces that element of the list by the rewritten value, so nothing else can observe the change.
- A form type other than running or cycling: the form's select offers only these two.
- WorkoutList.SortByDistance: the order and stability of the sorted copy are proved only when every distance is finite. Without `NaN` the comparator is a consistent order even with infinite distances (`Infinity - Infinity` is `NaN`, which the sort reads as equal), but the proofs do not cover infinities. With a `NaN` distance the comparator is inconsistent, and the order depends on the engine's sort algorithm.
- WorkoutApp.App.EditWorkout: the `TypeError` the handler throws after setting the flags when no record has the id is not an outcome. The fields it leaves are modelled.
