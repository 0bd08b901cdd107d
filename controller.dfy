/**
 * The application controller with the page and the map widget abstracted
 * away. It owns the ordered list of workouts, the location of the last map
 * click, the visibility of the form and of its cadence and elevation rows,
 * the form's inputs and the map view the script last set.
 */
module Controller {
  import opened Wrappers
  import opened JsNumber
  import opened Workouts

  /** The zoom the map is set to when it is loaded and when a workout is selected. */
  const MapZoomLevel: int := 13

  /** The centre and zoom the script last passed to the map's `setView`; panning by the user or by a popup is not tracked. */
  datatype View = View(center: Coords, zoom: int)

  /** The form as `_showForm` reads it: the selected type and the four inputs coerced with unary `+`. */
  datatype Form = Form(kind: WorkoutType, distance: Num, duration: Num, cadence: Num, elevation: Num)

  /** The test `checkNum` applies to each argument: `mov > 0 && Number.isFinite(mov)`. */
  predicate Acceptable(n: Num) {
    GreaterThanZero(n) && IsFinite(n)
  }

  /** `checkNum(...xs)`: whether every argument is accepted. */
  function CheckNum(xs: seq<Num>): (ok: bool)
    ensures ok <==> forall i :: 0 <= i < |xs| ==> xs[i].Finite? && xs[i].value > 0.0
  {
    if xs == [] then true else Acceptable(xs[0]) && CheckNum(xs[1..])
  }

  /** One argument that fails the test rejects the whole call. */
  lemma CheckNumRejectsOne(xs: seq<Num>, i: nat)
    requires i < |xs| && !Acceptable(xs[i])
    ensures !CheckNum(xs)
  {
  }

  /** The three numbers `_showForm` validates for the selected type. */
  function Checked(f: Form): seq<Num> {
    match f.kind
    case Cycling => [f.duration, f.distance, f.cadence]
    case Running => [f.duration, f.distance, f.elevation]
  }

  /** What a record that passed validation looks like: positive inputs and the metric of its kind, finite and positive. */
  predicate Validated(w: Workout) {
    w.duration > 0.0 && w.distance > 0.0 &&
    match w.metrics
    case RunningMetrics(gain, pace) =>
      gain > 0.0 && pace == Pace(w.duration, w.distance) && pace.Finite? && pace.value > 0.0
    case CyclingMetrics(cadence, speed) =>
      cadence > 0.0 && speed == Speed(w.duration, w.distance) && speed.Finite? && speed.value > 0.0
  }

  /**
   * The record a submission of form `f` creates at location `at` and clock
   * reading `c`, or None when validation rejects it.
   */
  function Submission(f: Form, at: Coords, c: Clock): (r: Option<Workout>)
    ensures r.Some? <==> f.duration.Finite? && f.duration.value > 0.0 && f.distance.Finite? && f.distance.value > 0.0
                         && (f.kind == Cycling ==> f.cadence.Finite? && f.cadence.value > 0.0)
                         && (f.kind == Running ==> f.elevation.Finite? && f.elevation.value > 0.0)
    ensures r.Some? ==> var w := r.value;
      w.Kind() == f.kind && w.coords == at && w.date == c && w.id == Id(c)
      && w.description == Description(c)
      && Finite(w.duration) == f.duration && Finite(w.distance) == f.distance && Validated(w)
      && (f.kind == Cycling ==> Finite(w.metrics.cadence) == f.cadence)
      && (f.kind == Running ==> Finite(w.metrics.elevationGain) == f.elevation)
  {
    var xs := Checked(f);
    assert xs[0] == f.duration && xs[1] == f.distance;
    assert xs[2] == if f.kind == Cycling then f.cadence else f.elevation;
    if !CheckNum(xs) then None
    else
      var duration, distance := f.duration.value, f.distance.value;
      PaceSpeedReciprocal(duration, distance);
      match f.kind
      case Cycling => Some(NewCycling(c, at, duration, distance, f.cadence.value))
      case Running => Some(NewRunning(c, at, duration, distance, f.elevation.value))
  }

  /** `workouts.find(w => w.id == id)`, as the index of the record found. */
  function FindIndex(ws: seq<Workout>, id: string): (k: Option<nat>)
    ensures k.Some? ==> k.value < |ws| && ws[k.value].id == id
    ensures k.Some? ==> forall j :: 0 <= j < k.value ==> ws[j].id != id
    ensures k.None? ==> forall j :: 0 <= j < |ws| ==> ws[j].id != id
  {
    if ws == [] then None
    else if ws[0].id == id then Some(0)
    else match FindIndex(ws[1..], id)
      case Some(k) => Some(k + 1)
      case None => None
  }

  /** Appending a record never changes which record an id already found resolves to, and the new record's id is always found. */
  lemma {:induction false} FindIndexAfterAppend(ws: seq<Workout>, w: Workout, id: string)
    ensures FindIndex(ws, id).Some? ==> FindIndex(ws + [w], id) == FindIndex(ws, id)
    ensures FindIndex(ws, id).None? ==> FindIndex(ws + [w], id) == if w.id == id then Some(|ws|) else None
  {
    if ws != [] {
      assert (ws + [w])[1..] == ws[1..] + [w];
      FindIndexAfterAppend(ws[1..], w, id);
    }
  }

  /** Two workouts with the same id: the lookup always selects the earlier one. */
  lemma FindIndexPrefersEarlier(ws: seq<Workout>, i: nat, j: nat)
    requires i < j < |ws| && ws[i].id == ws[j].id
    ensures FindIndex(ws, ws[j].id).Some? && FindIndex(ws, ws[j].id).value <= i
  {
  }

  /** The input rows' visibility keeps exactly one of cadence and elevation on show. */
  predicate ExactlyOneRowVisible(cadenceHidden: bool, elevationHidden: bool) {
    cadenceHidden != elevationHidden
  }

  class App {
    var mapView: Option<View>
    var mapEvent: Option<Coords>
    var workouts: seq<Workout>
    var formHidden: bool
    var cadenceRowHidden: bool
    var elevationRowHidden: bool
    var inputType: WorkoutType
    /** The distance, duration, elevation and cadence inputs, in the order `_hideForm` receives them. */
    const inputs: array<Num>

    static const DistanceInput: nat := 0
    static const DurationInput: nat := 1
    static const ElevationInput: nat := 2
    static const CadenceInput: nat := 3

    /** An emptied input: `+''` is 0. */
    static const Cleared: Num := Finite(0.0)

    ghost predicate Valid()
      reads this, inputs
    {
      inputs.Length == 4 &&
      (mapEvent.Some? ==> mapView.Some?) &&
      (|workouts| > 0 ==> mapView.Some?) &&
      (forall i :: 0 <= i < |workouts| ==> Validated(workouts[i])) &&
      cadenceRowHidden == (inputType == Running) &&
      elevationRowHidden == (inputType == Cycling)
    }

    /** The form as a submission reads it. */
    function FormValues(): (f: Form)
      reads this, inputs
      requires inputs.Length == 4
      ensures f.kind == inputType
      ensures Checked(f) == [inputs[DurationInput], inputs[DistanceInput],
                             if inputType == Cycling then inputs[CadenceInput] else inputs[ElevationInput]]
    {
      Form(inputType, inputs[DistanceInput], inputs[DurationInput], inputs[CadenceInput], inputs[ElevationInput])
    }

    /** A fresh page: no map yet, no workouts, the form hidden with empty inputs and `selected` chosen as its type. */
    constructor (selected: WorkoutType)
      ensures Valid() && fresh(inputs)
      ensures mapView == None && mapEvent == None && workouts == [] && formHidden
      ensures inputType == selected && forall i :: 0 <= i < inputs.Length ==> inputs[i] == Cleared
    {
      mapView := None;
      mapEvent := None;
      workouts := [];
      formHidden := true;
      inputType := selected;
      cadenceRowHidden := selected == Running;
      elevationRowHidden := selected == Cycling;
      inputs := new Num[4](_ => Cleared);
    }

    /** `_loadMap(position)`: centre the new map on the position at the default zoom. */
    method LoadMap(position: Coords)
      requires Valid() && mapView == None
      modifies this
      ensures Valid() && mapView == Some(View(position, MapZoomLevel))
      ensures mapEvent == old(mapEvent) && workouts == old(workouts) && formHidden == old(formHidden)
      ensures cadenceRowHidden == old(cadenceRowHidden) && elevationRowHidden == old(elevationRowHidden)
      ensures inputType == old(inputType)
    {
      mapView := Some(View(position, MapZoomLevel));
    }

    /** The map's click handler: remember the clicked location and show the form. */
    method OnMapClick(latlng: Coords)
      requires Valid() && mapView.Some?
      modifies this
      ensures Valid() && mapEvent == Some(latlng) && !formHidden
      ensures mapView == old(mapView) && workouts == old(workouts)
      ensures cadenceRowHidden == old(cadenceRowHidden) && elevationRowHidden == old(elevationRowHidden)
      ensures inputType == old(inputType)
    {
      mapEvent := Some(latlng);
      formHidden := false;
    }

    /** The user types into input `field`; the value is what unary `+` makes of the text. */
    method Edit(field: nat, value: Num)
      requires Valid() && field < inputs.Length
      modifies inputs
      ensures Valid() && inputs[..] == old(inputs[..])[field := value]
    {
      inputs[field] := value;
    }

    /**
     * `_toggleElevationField`: flip the visibility of both rows. The browser
     * runs it only on a change of the selected type, which `SelectType`
     * models; on its own it keeps "exactly one row visible" but not the
     * match with the selected type that `Valid()` asks for.
     */
    method ToggleElevationField()
      modifies this
      ensures cadenceRowHidden == !old(cadenceRowHidden) && elevationRowHidden == !old(elevationRowHidden)
      ensures ExactlyOneRowVisible(cadenceRowHidden, elevationRowHidden)
          == ExactlyOneRowVisible(old(cadenceRowHidden), old(elevationRowHidden))
      ensures mapView == old(mapView) && mapEvent == old(mapEvent) && workouts == old(workouts)
      ensures formHidden == old(formHidden) && inputType == old(inputType)
    {
      cadenceRowHidden := !cadenceRowHidden;
      elevationRowHidden := !elevationRowHidden;
    }

    /**
     * The user selects type `t`. The browser fires the change event, and so
     * the toggle, only when the selection actually changes.
     */
    method SelectType(t: WorkoutType)
      requires Valid()
      modifies this
      ensures Valid() && inputType == t
      ensures ExactlyOneRowVisible(cadenceRowHidden, elevationRowHidden)
      ensures elevationRowHidden <==> t == Cycling
      ensures mapView == old(mapView) && mapEvent == old(mapEvent) && workouts == old(workouts)
      ensures formHidden == old(formHidden)
    {
      if t != inputType {
        inputType := t;
        ToggleElevationField();
      }
    }

    /** `_hideForm(...)`: empty every input and hide the form. */
    method HideForm()
      requires Valid()
      modifies this, inputs
      ensures Valid() && formHidden
      ensures forall i :: 0 <= i < inputs.Length ==> inputs[i] == Cleared
      ensures mapView == old(mapView) && mapEvent == old(mapEvent) && workouts == old(workouts)
      ensures cadenceRowHidden == old(cadenceRowHidden) && elevationRowHidden == old(elevationRowHidden)
      ensures inputType == old(inputType)
    {
      for i := 0 to inputs.Length
        modifies inputs
        invariant forall j :: 0 <= j < i ==> inputs[j] == Cleared
      {
        inputs[i] := Cleared;
      }
      formHidden := true;
    }

    /**
     * `_showForm`, the form's submit handler: validate the inputs for the
     * selected type; if they pass, append the new record, built at the last
     * clicked location, and hide and clear the form; otherwise change nothing.
     */
    method SubmitForm(c: Clock) returns (added: bool)
      requires Valid() && mapEvent.Some?
      modifies this, inputs
      ensures Valid() && mapView == old(mapView) && mapEvent == old(mapEvent)
      ensures added <==> Submission(old(FormValues()), old(mapEvent).value, c).Some?
      ensures added ==> workouts == old(workouts) + [Submission(old(FormValues()), old(mapEvent).value, c).value]
      ensures added ==> formHidden && forall i :: 0 <= i < inputs.Length ==> inputs[i] == Cleared
      ensures !added ==> workouts == old(workouts) && formHidden == old(formHidden) && inputs[..] == old(inputs[..])
      ensures cadenceRowHidden == old(cadenceRowHidden) && elevationRowHidden == old(elevationRowHidden)
      ensures inputType == old(inputType)
    {
      var at := mapEvent.value;
      var r := Submission(FormValues(), at, c);
      if r.None? {
        return false;
      }
      workouts := workouts + [r.value];
      HideForm();
      added := true;
    }

    /**
     * `_moveTo`, the workout list's click handler. `target` is the `data-id`
     * of the list entry the click landed in, or None when it landed outside
     * every entry. The lookup is not guarded, so the id must be present.
     */
    method MoveTo(target: Option<string>)
      requires Valid()
      requires target.Some? ==> FindIndex(workouts, target.value).Some?
      modifies this
      ensures Valid() && mapEvent == old(mapEvent) && workouts == old(workouts) && formHidden == old(formHidden)
      ensures target.None? ==> mapView == old(mapView)
      ensures target.Some? ==> mapView == Some(View(workouts[FindIndex(workouts, target.value).value].coords, MapZoomLevel))
      ensures cadenceRowHidden == old(cadenceRowHidden) && elevationRowHidden == old(elevationRowHidden)
      ensures inputType == old(inputType)
    {
      if target.None? {
        return;
      }
      var k := FindIndex(workouts, target.value).value;
      mapView := Some(View(workouts[k].coords, MapZoomLevel));
    }
  }

  /** Toggling the type rows twice restores their original visibility (a client of the class). */
  method ToggleTwiceRestores(app: App)
    modifies app
    ensures app.cadenceRowHidden == old(app.cadenceRowHidden) && app.elevationRowHidden == old(app.elevationRowHidden)
    ensures app.workouts == old(app.workouts) && app.formHidden == old(app.formHidden)
  {
    app.ToggleElevationField();
    app.ToggleElevationField();
  }
}
