# Workout tracker: a verified model

The tracker is a browser page. The user clicks a point on a map, fills in a
small form and gets a *running* or *cycling* workout record. The record is
listed beside the map and marked on it. This project models the part of the
page's script that has logic of its own:

- **Workout records** (`workouts.dfy`, module `Workouts`). A record holds
  coordinates, a duration in minutes, a distance in kilometres, an id, its
  date and a description. A running record adds the elevation gain and the
  pace, `duration / distance`. A cycling record adds the cadence and the
  speed, `distance / (duration / 60)`. The record is a datatype whose
  `Metrics` part depends on its kind; `Kind()` gives the source's `type` field.
  The clock is an input (`Clock`): the month index, the weekday index
  (`getDay()`) and `Date.now()`. The description is
  `"on " + month name + " " + weekday index`; note that the source uses the
  day of the week here, not the day of the month, and the model keeps that.
  The id is the last ten characters of the decimal text of `Date.now()`
  (`decimal.dfy`, module `Decimal`).
- **Numbers** (`js_number.dfy`, module `JsNumber`). A value read from the
  form by unary `+` is a JavaScript number `Num`: a finite value (an exact
  real), NaN or an infinity. Division by zero gives an infinity or NaN, as in
  JavaScript.
- **The controller** (`controller.dfy`, module `Controller`). The class `App`
  holds the ordered `workouts`, the pending map-click location `mapEvent`,
  the map view the script last set with `setView`, the form-hidden flag, the hidden flags of the
  cadence and elevation rows, the selected type and the four inputs (an
  array, in the order `_hideForm` receives them). Its methods are the event
  handlers: loading the map, a map click, a form submission, a type change
  and a click in the workout list. `Edit` stands for the user typing into an
  input. `Valid()` is the object invariant. It says three things:
  - a pending click or a stored record implies a loaded map;
  - every stored record passed validation;
  - the rows shown match the selected type, so exactly one of cadence and
    elevation is visible.

  The pure parts of the submit handler are functions:
  - `CheckNum` is `checkNum`;
  - `Checked` picks the three values the handler validates for the selected type;
  - `Submission` validates the form and builds the record;
  - `FindIndex` is the `find` in `_moveTo`.

## Model

| member | source | states |
|---|---|---|
| `Decimal.ToDecimal` | script.js:15 | `Date.now() + ''` is a non-empty digit string without a leading zero |
| `Decimal.ValueOfToDecimal` | script.js:15 | the decimal text of the clock reads back as the clock value |
| `Decimal.SliceLast` | script.js:15 | for a positive count, `slice(-10)` keeps the last ten characters, or the whole string when it is shorter |
| `Workouts.Id` | script.js:15 | the id, the last ten characters of the decimal text of `Date.now()`, is one to ten digits, exactly ten once the clock has ten digits; its value is given by `IdIsLowDigits` |
| `Workouts.IdIsLowDigits` | script.js:15 | an id is one to ten digits and denotes `Date.now()` modulo 10^10 |
| `Workouts.IdCollision` | script.js:15 | ids are not unique: for ten-digit clocks two ids agree exactly when the clocks agree modulo 10^10 |
| `Workouts.MonthsCoverClock` | script.js:26-40 | every month index the clock can report (0..11) is a valid index into the twelve-name table |
| `Workouts.Description` | script.js:24-41 | `_description()`: "on ", the name of the date's month, a space and the digit of its weekday; read back by `DescriptionRoundTrip` |
| `Workouts.DescriptionShape` | script.js:40 | a description is "on ", the month's name, a space and the single digit of the weekday |
| `Workouts.DescriptionRoundTrip` | script.js:24-41 | month and weekday can be read back from the description |
| `Workouts.DescriptionEqualIff` | script.js:24-41 | two descriptions are equal exactly when the dates share month and weekday |
| `Workouts.Pace` | script.js:53-56 | for a non-zero distance the pace is finite and pace times distance equals duration |
| `Workouts.Speed` | script.js:68-71 | for a non-zero duration the speed is finite and speed times duration equals 60 times distance |
| `Workouts.PaceSpeedReciprocal` | script.js:53-71 | for positive inputs pace and speed are positive and their product is 60 |
| `Workouts.ZeroDenominators` | script.js:53-71 | the unguarded divisions give infinity for a zero denominator and NaN for 0/0 |
| `Workouts.NewRunning` | script.js:44-56 | a running record keeps its coordinates, duration, distance and elevation gain, gets its id and description from the clock, and has the pace of its duration and distance |
| `Workouts.NewCycling` | script.js:59-71 | a cycling record keeps its coordinates, duration, distance and cadence, gets its id and description from the clock, and has the speed of its duration and distance |
| `Workouts.SampleRunningPace` | script.js:74 | the sample run (duration 10, distance 20) has pace 0.5 |
| `Workouts.SampleCyclingSpeed` | script.js:75 | the sample ride (duration 40, distance 50) has speed 75 |
| `Controller.CheckNum` | script.js:125-129 | accepts exactly when every argument is finite and greater than zero |
| `Controller.CheckNumRejectsOne` | script.js:125-129 | one failing argument rejects the whole call |
| `Controller.App.FormValues` | script.js:132-149 | the form as the submit handler reads it: the selected type, and as the three checked values the duration, the distance and the cadence (cycling) or elevation (running) input |
| `Controller.Submission` | script.js:131-157 | a record is built exactly when duration, distance and the field of the selected type are all positive and finite; it has the selected kind, the pending location, the clock's id and description, the form's values, and the pace (running) or speed (cycling) of its duration and distance, finite and positive |
| `Controller.FindIndex` | script.js:216 | the lookup returns the first record with the id, and nothing only when no record has it |
| `Controller.FindIndexAfterAppend` | script.js:216 | appending a record never changes which record an id resolves to, and the new record's id is found |
| `Controller.FindIndexPrefersEarlier` | script.js:216 | with two records sharing an id the lookup picks the earlier one |
| `Controller.App.constructor` | script.js:78-89 | a new controller has no map, no pending click and no workouts, and a hidden form with empty inputs |
| `Controller.App.LoadMap` | script.js:100-103 | the view set is the resolved position at zoom 13; no other field of the model changes |
| `Controller.App.OnMapClick` | script.js:110-117 | the click overwrites the pending location and shows the form; no other field of the model changes |
| `Controller.App.HideForm` | script.js:176-187 | every input is emptied (reads back as 0) and the form is hidden |
| `Controller.App.SubmitForm` | script.js:120-175 | a rejected submission changes nothing; an accepted one appends exactly the record `Submission` builds at the end, keeps earlier entries, hides and clears the form |
| `Controller.App.ToggleElevationField` | script.js:206-209 | both row flags flip, so "exactly one row visible" is preserved |
| `Controller.App.SelectType` | script.js:87 | after a type change the visible row is the one of the selected type |
| `Controller.ToggleTwiceRestores` | script.js:206-209 | toggling twice restores both row flags |
| `Controller.App.MoveTo` | script.js:211-224 | a click outside every entry sets no view; otherwise the view set is the first record with the clicked id, at zoom 13 |

## Left out

- Page and DOM work: element queries, focus and blur, `alert`, `console.log`, and the list entry's HTML with its `toFixed(1)` formatting (`_rederWorkoutMap`). These are user-interface side effects.
- The map's view as moved by the user (dragging, zooming) or by a popup's auto-pan is not modelled; `mapView` is the last view the script set with `setView`, so "the view is unchanged" in the contracts means the script set no new view.
- The map widget: creating the map, the tile layer, markers and popups (`_renderWorkout`). These are foreign library calls. Only the centre and zoom the script passes to `setView` are kept.
- The geolocation request and its failure alert. This is an asynchronous browser service; `LoadMap` takes the resolved position.
- The one-second timer that restores the form's display style. It is cosmetic and timer-driven.
- Floating point: the numbers are exact reals. Rounding and negative zero are not modelled (so `x / -0` is not distinguished).
- Text-to-number coercion: an input's value is given as the `Num` that unary `+` produces. An emptied input is 0, as `+''` is.
- `Date`: the month, the weekday and `Date.now()` are inputs (`Clock`).
- The selected type is one of the two options of the form's select. A value outside them, which the page cannot produce, is not modelled.
- The page's initial layout is not part of this model. The constructor assumes a hidden form, empty inputs and rows that match the selected type.
- `Controller.App.Edit` stands for the user typing into an input. The page does this, not the script, so it has no source lines to cite.
- `Controller.App.SubmitForm`: a submission before any map click dereferences an undefined location in the source. The model makes a pending location a precondition.
- `Controller.App.MoveTo`: a click on an entry whose id is missing dereferences an undefined record in the source. The model makes a present id a precondition.
- `Controller.App.LoadMap`: the widget refuses to build a second map in the same container, so the model requires that no map exists yet.
