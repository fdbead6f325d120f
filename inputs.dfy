/**
 * What the workout form submits, the two validation predicates of the app
 * controller, and the record a valid create builds or an edit writes.
 */
module Inputs {
  import opened JsNumber
  import opened Workouts
  import opened Wrappers
  import opened WorkoutList

  /** The form fields, each read with unary `+` (an empty field reads as 0, text as NaN) */
  datatype FormInput = FormInput(kind: Kind, distance: Num, duration: Num, cadence: Num, elevation: Num)

  /** `_validInputs(...inputs)`: `inputs.every(Number.isFinite)` */
  function ValidInputs(inputs: seq<Num>): (ok: bool)
    ensures ok <==> forall i :: 0 <= i < |inputs| ==> inputs[i].Finite?
  {
    |inputs| == 0 || (IsFinite(inputs[0]) && ValidInputs(inputs[1..]))
  }

  /** `_allPositive(...inputs)`: `inputs.every(item => item > 0)` */
  function AllPositive(inputs: seq<Num>): (ok: bool)
    ensures ok <==> forall i :: 0 <= i < |inputs| ==> inputs[i] == PosInfinity || (inputs[i].Finite? && inputs[i].value > 0.0)
  {
    |inputs| == 0 || (IsPositive(inputs[0]) && AllPositive(inputs[1..]))
  }

  /** The check guarding both create and edit: running needs all three numbers finite and
      positive; cycling needs all three finite but only distance and duration positive */
  predicate Accepts(f: FormInput)
    ensures Accepts(f) ==>
      f.distance.Finite? && f.distance.value > 0.0 && f.duration.Finite? && f.duration.value > 0.0
  {
    match f.kind
    case Running =>
      var xs := [f.distance, f.duration, f.cadence];
      assert xs[0] == f.distance && xs[1] == f.duration;
      ValidInputs(xs) && AllPositive(xs)
    case Cycling =>
      var xs, ys := [f.distance, f.duration, f.elevation], [f.distance, f.duration];
      assert xs[0] == ys[0] == f.distance && xs[1] == ys[1] == f.duration;
      ValidInputs(xs) && AllPositive(ys)
  }

  /** A running submission is accepted exactly when distance, duration and cadence are finite and positive */
  lemma AcceptsRunning(f: FormInput)
    requires f.kind == Running
    ensures Accepts(f) <==>
      f.distance.Finite? && f.distance.value > 0.0 &&
      f.duration.Finite? && f.duration.value > 0.0 &&
      f.cadence.Finite? && f.cadence.value > 0.0
  {
    var xs := [f.distance, f.duration, f.cadence];
    assert xs[0] == f.distance && xs[1] == f.duration && xs[2] == f.cadence;
  }

  /** A cycling submission is accepted exactly when distance and duration are finite and positive and
      the elevation is finite; a zero or negative elevation passes */
  lemma AcceptsCycling(f: FormInput)
    requires f.kind == Cycling
    ensures Accepts(f) <==>
      f.distance.Finite? && f.distance.value > 0.0 &&
      f.duration.Finite? && f.duration.value > 0.0 &&
      f.elevation.Finite?
  {
    var xs := [f.distance, f.duration, f.elevation];
    assert xs[0] == f.distance && xs[1] == f.duration && xs[2] == f.elevation;
    var ys := [f.distance, f.duration];
    assert ys[0] == f.distance && ys[1] == f.duration;
  }

  /** The record `_newWorkout` constructs from a submission, at the clicked coordinates */
  function Build(f: FormInput, id: string, date: Date, coords: Coords): Workout {
    match f.kind
    case Running => NewRunning(id, date, coords, f.distance, f.duration, f.cadence)
    case Cycling => NewCycling(id, date, coords, f.distance, f.duration, f.elevation)
  }

  /** An accepted submission builds a record of its type holding its inputs, its description, and a finite
      positive pace (duration / distance) or speed (distance / (duration / 60)), and no property of the other type */
  lemma BuiltRecord(f: FormInput, id: string, date: Date, coords: Coords)
    requires Accepts(f)
    ensures var w := Build(f, id, date, coords);
      && w.id == id && w.date == date && w.coords == coords
      && w.kind == f.kind && w.distance == f.distance && w.duration == f.duration
      && w.description == Description(f.kind, date)
      && (f.kind == Running ==>
            && w.cadence == Some(f.cadence)
            && w.pace == Some(Finite(f.duration.value / f.distance.value))
            && w.pace.value.value > 0.0
            && w.elevationGain == None && w.speed == None)
      && (f.kind == Cycling ==>
            && w.elevationGain == Some(f.elevation)
            && w.speed == Some(Finite(f.distance.value / (f.duration.value / 60.0)))
            && w.speed.value.value > 0.0
            && w.cadence == None && w.pace == None)
  {
    match f.kind
    case Running =>
      AcceptsRunning(f);
      PaceOfPositive(f.distance, f.duration);
    case Cycling =>
      AcceptsCycling(f);
      SpeedOfPositive(f.distance, f.duration);
  }

  /** Every record a submission builds is described and carries the id it was given */
  lemma BuildIsDescribed(f: FormInput, id: string, date: Date, coords: Coords)
    ensures Described(Build(f, id, date, coords)) && Build(f, id, date, coords).id == id
  {
  }

  /** The record `_editDataWorkout` leaves behind: type, distance, duration and description overwritten,
      then the new type's own number and its pace or speed; this happens before the submission is validated */
  function ApplyEdit(w: Workout, f: FormInput): Workout {
    var common := w.(kind := f.kind, distance := f.distance, duration := f.duration,
                     description := EditDescription(f.kind, w.description));
    match f.kind
    case Running => common.(cadence := Some(f.cadence), pace := Some(Pace(f.distance, f.duration)))
    case Cycling => common.(elevationGain := Some(f.elevation), speed := Some(Speed(f.distance, f.duration)))
  }

  /** An edit of a described record agrees with a fresh record built from the same submission on everything
      but the properties of the type it had before, which it leaves as they were; id, date and place are kept */
  lemma EditMatchesBuild(w: Workout, f: FormInput)
    requires Described(w)
    ensures var e, n := ApplyEdit(w, f), Build(f, w.id, w.date, w.coords);
      && e.id == w.id && e.date == w.date && e.coords == w.coords
      && e.kind == n.kind && e.distance == n.distance && e.duration == n.duration
      && e.description == n.description
      && (f.kind == Running ==>
            e.cadence == n.cadence && e.pace == n.pace && e.elevationGain == w.elevationGain && e.speed == w.speed)
      && (f.kind == Cycling ==>
            e.elevationGain == n.elevationGain && e.speed == n.speed && e.cadence == w.cadence && e.pace == w.pace)
  {
    EditOfDescription(w.kind, f.kind, w.date);
  }

  /** Every record an edit writes is described, valid submission or not */
  lemma EditKeepsDescribed(w: Workout, f: FormInput)
    requires Described(w)
    ensures Described(ApplyEdit(w, f))
  {
    EditOfDescription(w.kind, f.kind, w.date);
  }

  /** An edit changes no id */
  lemma EditKeepsId(w: Workout, f: FormInput)
    ensures ApplyEdit(w, f).id == w.id
  {
  }

  /** Editing the record at `i` keeps every record described and every id where it was */
  lemma EditAtKeepsInvariants(ws: seq<Workout>, i: nat, f: FormInput)
    requires i < |ws|
    ensures EveryDescribed(ws) ==> EveryDescribed(ws[i := ApplyEdit(ws[i], f)])
    ensures UniqueIds(ws) ==> UniqueIds(ws[i := ApplyEdit(ws[i], f)])
  {
    var e := ApplyEdit(ws[i], f);
    var r := ws[i := e];
    if EveryDescribed(ws) {
      EditKeepsDescribed(ws[i], f);
      assert forall j :: 0 <= j < |r| ==> r[j] == if j == i then e else ws[j];
    }
    if UniqueIds(ws) {
      EditKeepsId(ws[i], f);
      assert forall j :: 0 <= j < |r| ==> r[j].id == ws[j].id;
    }
  }

  /** A 5 km run of 25 minutes at cadence 178 on May 5, then edited into a 10 km ride of 30 minutes climbing
      150 m: the run's pace is 5 min/km, the ride's speed 20 km/h, the id and date stay, the description
      follows the type, and the cadence of the run is still there */
  lemma RunThenRideExample(id: string, coords: Coords)
    ensures var run := FormInput(Running, Finite(5.0), Finite(25.0), Finite(178.0), Finite(0.0));
      var ride := FormInput(Cycling, Finite(10.0), Finite(30.0), Finite(0.0), Finite(150.0));
      var w := Build(run, id, Date(4, 5), coords);
      var e := ApplyEdit(w, ride);
      && Accepts(run) && Accepts(ride)
      && w.description == "Running on May 5" && w.pace == Some(Finite(5.0))
      && e.description == "Cycling on May 5" && e.speed == Some(Finite(20.0))
      && e.id == id && e.date == w.date && e.cadence == Some(Finite(178.0)) && e.pace == w.pace
  {
    var run := FormInput(Running, Finite(5.0), Finite(25.0), Finite(178.0), Finite(0.0));
    var ride := FormInput(Cycling, Finite(10.0), Finite(30.0), Finite(0.0), Finite(150.0));
    var date := Date(4, 5);
    AcceptsRunning(run);
    AcceptsCycling(ride);
    BuiltRecord(run, id, date, coords);
    assert Description(Running, date) == "Running on May 5";
    assert Description(Cycling, date) == "Cycling on May 5";
    EditOfDescription(Running, Cycling, date);
    SpeedOfPositive(ride.distance, ride.duration);
  }
}
