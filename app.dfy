/**
 * The app controller: the in-memory list of workouts, the edit and sort
 * modes, the id being edited, where the map was last clicked, the copy kept
 * in local storage and the visibility of the three list buttons, with the
 * event handlers that change them.
 *
 * `State` is what the controller holds between two events and the `On...`
 * functions say what each handler leaves behind; the class `App` holds the
 * same fields and its methods update them in place, each proved to end in
 * the state its function gives. What the handlers promise is proved about
 * the functions.
 */
module WorkoutApp {
  import opened JsNumber
  import opened Workouts
  import opened Inputs
  import opened WorkoutList
  import opened Wrappers

  /** How a form submission ended */
  datatype Outcome =
    | Added     // a new workout was appended to the list
    | Updated   // the edited workout passed validation and edit mode ended
    | Rejected  // validation failed and the error dialog is shown
    | Threw     // a TypeError left the handler: no map click to place a new workout, no workout with the edited id,
                // or no map yet to update the markers after a valid submission

  /** `_showButtonDeleteAll` un-hides its button once the list is non-empty */
  predicate DeleteAllWanted(count: nat) {
    count != 0
  }

  /** `_showButtonSort` un-hides its button once the list holds two workouts */
  predicate SortWanted(count: nat) {
    count >= 2
  }

  /** `_showButtonAllWorkouts` un-hides its button once the list is non-empty */
  predicate AllWorkoutsWanted(count: nat) {
    count != 0
  }

  /** The controller's fields: `#workouts`, `#isEdit`, `#isSort`, `#editWorkOutId`, the place of `#mapEvent`,
      whether `#map` is set, the `workouts` entry of local storage and whether each list button is shown */
  datatype State = State(
    workouts: seq<Workout>,
    isEdit: bool,
    isSort: bool,
    editWorkoutId: Option<string>,
    mapClick: Option<Coords>,
    mapLoaded: bool,
    stored: Option<seq<Workout>>,
    deleteAllShown: bool,
    sortShown: bool,
    allWorkoutsShown: bool)

  /** A submission's outcome with the state it leaves */
  datatype Step = Step(outcome: Outcome, state: State)

  /** Each button is visible exactly when the list is long enough for it */
  predicate ButtonsMatchList(s: State) {
    && s.deleteAllShown == DeleteAllWanted(|s.workouts|)
    && s.sortShown == SortWanted(|s.workouts|)
    && s.allWorkoutsShown == AllWorkoutsWanted(|s.workouts|)
  }

  /** What the handlers keep: buttons in step with the list and ids unique */
  predicate Consistent(s: State) {
    ButtonsMatchList(s) && UniqueIds(s.workouts)
  }

  /** The constructor: load the saved list (none when storage holds nothing), then show the buttons it needs;
      the map comes later, from the geolocation callback */
  function Loaded(saved: Option<seq<Workout>>): State {
    var ws := if saved.Some? then saved.value else [];
    State(ws, false, false, None, None, false, saved, DeleteAllWanted(|ws|), SortWanted(|ws|), AllWorkoutsWanted(|ws|))
  }

  /** `_loadMap`, the callback of a granted geolocation request: `#map` is set from then on. Until it runs (and
      for good when the position is refused) the handlers that update the markers throw when they reach the map */
  function OnMapLoaded(s: State): State {
    s.(mapLoaded := true)
  }

  /** `_showForm`: a map click ends an edit whose form is open and records where the map was clicked */
  function OnShowForm(s: State, click: Coords, formVisible: bool): State {
    s.(isEdit := s.isEdit && !formVisible, mapClick := Some(click))
  }

  /** `_editWorkout`: enter edit mode for a workout; when the form is hidden and the workout is found,
      `_showForm()` runs without an event and forgets the map click */
  function OnEditWorkout(s: State, id: string, formHidden: bool): State {
    s.(isEdit := true, editWorkoutId := Some(id),
       mapClick := if HasId(s.workouts, id) && formHidden then None else s.mapClick)
  }

  /** The create branch of `_newWorkout`: read the clicked place, validate, append, un-hide buttons, add the
      marker to the map, save; without a map the marker throws after the buttons and before the save */
  function OnCreate(s: State, f: FormInput, id: string, date: Date): Step {
    if s.mapClick.None? then Step(Threw, s)
    else if !Accepts(f) then Step(Rejected, s)
    else
      var ws := s.workouts + [Build(f, id, date, s.mapClick.value)];
      var shown := s.(workouts := ws,
                      deleteAllShown := s.deleteAllShown || DeleteAllWanted(|ws|),
                      sortShown := s.sortShown || SortWanted(|ws|),
                      allWorkoutsShown := s.allWorkoutsShown || AllWorkoutsWanted(|ws|));
      if s.mapLoaded then Step(Added, shown.(stored := Some(ws))) else Step(Threw, shown)
  }

  /** The index `_editDataWorkout` finds for the edited id */
  function EditTarget(s: State): Option<nat> {
    if s.editWorkoutId.Some? then FindById(s.workouts, s.editWorkoutId.value) else None
  }

  /** `_editDataWorkout`: overwrite the edited record whether or not the submission is valid; on a valid
      one update the marker, save the list and leave edit mode, unless there is no map to update */
  function OnEditData(s: State, f: FormInput): Step {
    match EditTarget(s)
    case None => Step(Threw, s)
    case Some(i) =>
      var ws := s.workouts[i := ApplyEdit(s.workouts[i], f)];
      if !Accepts(f) then Step(Rejected, s.(workouts := ws))
      else if s.mapLoaded then Step(Updated, s.(workouts := ws, stored := Some(ws), isEdit := false))
      else Step(Threw, s.(workouts := ws))
  }

  /** `_newWorkout`: a submission edits in edit mode and creates otherwise */
  function OnNewWorkout(s: State, f: FormInput, id: string, date: Date): Step {
    if s.isEdit then OnEditData(s, f) else OnCreate(s, f, id, date)
  }

  /** `_deleteWorkout`: drop every workout with the id, hide the buttons a short list no longer needs,
      remove the marker and save; with no such workout, or no map, a TypeError stops the handler before it saves */
  function OnDelete(s: State, id: string): State {
    var ws := RemoveId(s.workouts, id);
    s.(workouts := ws,
       deleteAllShown := s.deleteAllShown && ws != [],
       allWorkoutsShown := s.allWorkoutsShown && ws != [],
       sortShown := s.sortShown && |ws| != 1,
       stored := if HasId(s.workouts, id) && s.mapLoaded then Some(ws) else s.stored)
  }

  /** `_deleteAllWorkouts`: empty the list, remove the markers, hide all three buttons and remove the saved
      copy; without a map it throws at the markers, after emptying the list and before anything else */
  function OnDeleteAll(s: State): State {
    if s.mapLoaded then
      s.(workouts := [], deleteAllShown := false, sortShown := false, allWorkoutsShown := false, stored := None)
    else s.(workouts := [])
  }

  /** `_sortWorkouts` flips sort mode and nothing else */
  function OnSort(s: State): State {
    s.(isSort := !s.isSort)
  }

  /** The order `_sortWorkouts` renders the list in: a sorted copy in sort mode, the list itself otherwise.
      Each row is inserted right after the form, so the page shows this order reversed: in sort mode the
      longest distance is on top */
  function RenderOrder(s: State): seq<Workout> {
    if s.isSort then SortByDistance(s.workouts) else s.workouts
  }

  // --- what the handlers promise ---

  /** A list loaded from storage with unique ids gives a consistent controller, and so does no list */
  lemma LoadedIsConsistent(saved: Option<seq<Workout>>)
    requires saved.Some? ==> UniqueIds(saved.value)
    ensures Consistent(Loaded(saved))
    ensures Loaded(saved).workouts == [] <==> saved.None? || saved.value == []
    ensures !Loaded(saved).mapLoaded && Loaded(saved).stored == saved
  {
  }

  /** A map click while an edit form is open leaves edit mode; a click always records its place */
  lemma ShowFormEndsOpenEdit(s: State, click: Coords, formVisible: bool)
    ensures var t := OnShowForm(s, click, formVisible);
      && (formVisible ==> !t.isEdit)
      && (!formVisible ==> t.isEdit == s.isEdit)
      && t.mapClick == Some(click) && t.workouts == s.workouts && Consistent(t) == Consistent(s)
  {
  }

  /** A submission in create mode appends a workout exactly when the map was clicked and the input is
      accepted: the list then grows by exactly one record at the end, built from the submission, and is
      saved when there is a map to add the marker to; with no click or an invalid input nothing changes.
      Since only a loaded map reports clicks, a create after a click never meets the missing map */
  lemma CreateAppendsOne(s: State, f: FormInput, id: string, date: Date)
    ensures var r := OnCreate(s, f, id, date);
      && (r.outcome == Added <==> s.mapClick.Some? && Accepts(f) && s.mapLoaded)
      && (r.outcome == Threw <==> s.mapClick.None? || (Accepts(f) && !s.mapLoaded))
      && (r.outcome == Rejected <==> s.mapClick.Some? && !Accepts(f))
      && (s.mapClick.None? || !Accepts(f) ==> r.state == s)
      && (s.mapClick.Some? && Accepts(f) ==>
            && |r.state.workouts| == |s.workouts| + 1
            && r.state.workouts[..|s.workouts|] == s.workouts
            && r.state.workouts[|s.workouts|] == Build(f, id, date, s.mapClick.value)
            && r.state.stored == (if s.mapLoaded then Some(r.state.workouts) else s.stored)
            && r.state.isEdit == s.isEdit && r.state.isSort == s.isSort)
  {
    var r := OnCreate(s, f, id, date);
    if s.mapClick.Some? && Accepts(f) {
      assert r.state.workouts[..|s.workouts|] == s.workouts;
    }
  }

  /** Creating with a fresh id keeps the controller consistent */
  lemma CreateKeepsConsistent(s: State, f: FormInput, id: string, date: Date)
    requires Consistent(s) && !HasId(s.workouts, id)
    ensures Consistent(OnCreate(s, f, id, date).state)
  {
    if s.mapClick.Some? && Accepts(f) {
      var w := Build(f, id, date, s.mapClick.value);
      BuildIsDescribed(f, id, date, s.mapClick.value);
      AppendKeepsInvariants(s.workouts, w);
    }
  }

  /** A create keeps every record described */
  lemma CreateKeepsDescribed(s: State, f: FormInput, id: string, date: Date)
    requires EveryDescribed(s.workouts)
    ensures EveryDescribed(OnCreate(s, f, id, date).state.workouts)
  {
    if s.mapClick.Some? && Accepts(f) {
      var w := Build(f, id, date, s.mapClick.value);
      BuildIsDescribed(f, id, date, s.mapClick.value);
      AppendKeepsInvariants(s.workouts, w);
    }
  }

  /** An edit of a found record rewrites that record alone, as `ApplyEdit` gives it, keeping its id,
      date and place, and gives it the description a new record of the new type would get */
  lemma EditRewritesTarget(s: State, f: FormInput, i: nat)
    requires EditTarget(s) == Some(i)
    ensures var t := OnEditData(s, f).state;
      && |t.workouts| == |s.workouts|
      && t.workouts[i] == ApplyEdit(s.workouts[i], f)
      && t.workouts[i].id == s.workouts[i].id == s.editWorkoutId.value
      && t.workouts[i].date == s.workouts[i].date && t.workouts[i].coords == s.workouts[i].coords
      && (forall j :: 0 <= j < |s.workouts| && j != i ==> t.workouts[j] == s.workouts[j])
  {
    EditKeepsId(s.workouts[i], f);
  }

  /** The edited record gets the description a new record of the new type would get */
  lemma EditedDescription(s: State, f: FormInput, i: nat)
    requires EditTarget(s) == Some(i) && Described(s.workouts[i])
    ensures OnEditData(s, f).state.workouts[i].description == Description(f.kind, s.workouts[i].date)
  {
    var w := s.workouts[i];
    assert OnEditData(s, f).state.workouts[i] == ApplyEdit(w, f);
    assert ApplyEdit(w, f).description == EditDescription(f.kind, w.description);
    EditOfDescription(w.kind, f.kind, w.date);
  }

  /** The edit path's outcomes: no record with the id throws and changes nothing. Otherwise the record is
      rewritten in the list whatever follows; a valid submission is then saved and ends edit mode when there
      is a map to update, while an invalid one, or a valid one without a map, saves nothing and leaves edit
      mode on */
  lemma EditOutcomes(s: State, f: FormInput)
    ensures var r := OnEditData(s, f);
      && (r.outcome == Threw <==> EditTarget(s).None? || (Accepts(f) && !s.mapLoaded))
      && (EditTarget(s).None? ==> r.state == s)
      && (EditTarget(s).Some? ==>
            && (r.outcome == Updated <==> Accepts(f) && s.mapLoaded)
            && (r.outcome == Rejected <==> !Accepts(f))
            && (r.outcome == Updated ==> !r.state.isEdit && r.state.stored == Some(r.state.workouts))
            && (r.outcome != Updated ==> r.state.isEdit == s.isEdit && r.state.stored == s.stored)
            && r.state.workouts[EditTarget(s).value].distance == f.distance
            && r.state.workouts[EditTarget(s).value].kind == f.kind)
      && r.state.isSort == s.isSort && r.state.editWorkoutId == s.editWorkoutId
      && r.state.mapClick == s.mapClick
  {
  }

  /** Every edit, accepted or not, keeps the controller consistent */
  lemma EditKeepsConsistent(s: State, f: FormInput)
    requires Consistent(s)
    ensures Consistent(OnEditData(s, f).state)
  {
    match EditTarget(s)
    case None =>
    case Some(i) =>
      EditAtKeepsInvariants(s.workouts, i, f);
  }

  /** Every edit, accepted or not, keeps every record described */
  lemma EditKeepsDescribedList(s: State, f: FormInput)
    requires EveryDescribed(s.workouts)
    ensures EveryDescribed(OnEditData(s, f).state.workouts)
  {
    match EditTarget(s)
    case None =>
    case Some(i) =>
      EditAtKeepsInvariants(s.workouts, i, f);
  }

  /** A submission in create mode with a fresh id keeps the controller consistent, and so does one in edit mode */
  lemma NewWorkoutKeepsConsistent(s: State, f: FormInput, id: string, date: Date)
    requires Consistent(s) && (s.isEdit || !HasId(s.workouts, id))
    ensures Consistent(OnNewWorkout(s, f, id, date).state)
  {
    if s.isEdit {
      EditKeepsConsistent(s, f);
    } else {
      CreateKeepsConsistent(s, f, id, date);
    }
  }

  /** A delete removes exactly the records with the id and keeps the order of the rest; with unique ids a
      present id removes one record, and the shorter list is saved when there is a map to remove the marker
      from; an absent id changes neither list nor storage */
  lemma DeleteRemovesId(s: State, id: string)
    ensures var t := OnDelete(s, id);
      && (forall w :: w in t.workouts <==> w in s.workouts && w.id != id)
      && (!HasId(s.workouts, id) ==> t.workouts == s.workouts && t.stored == s.stored)
      && (UniqueIds(s.workouts) && HasId(s.workouts, id) ==>
            var i := FindById(s.workouts, id).value;
            && t.workouts == s.workouts[..i] + s.workouts[i + 1..]
            && t.stored == (if s.mapLoaded then Some(t.workouts) else s.stored))
  {
    RemoveIdMembers(s.workouts, id);
    if !HasId(s.workouts, id) {
      RemoveAbsentId(s.workouts, id);
    } else if UniqueIds(s.workouts) {
      RemoveUniqueId(s.workouts, id, FindById(s.workouts, id).value);
    }
  }

  /** A delete keeps the controller consistent: with unique ids the list shrinks by at most one, so the
      buttons it hides are exactly those the shorter list no longer wants */
  lemma DeleteKeepsConsistent(s: State, id: string)
    requires Consistent(s)
    ensures Consistent(OnDelete(s, id))
  {
    DeleteKeepsInvariants(s.workouts, id);
  }

  /** A delete keeps every remaining record described */
  lemma DeleteKeepsDescribed(s: State, id: string)
    requires EveryDescribed(s.workouts)
    ensures EveryDescribed(OnDelete(s, id).workouts)
  {
    RemoveKeepsDescribed(s.workouts, id);
  }

  /** Deleting the workout just created restores the list the create started from */
  lemma DeleteUndoesCreateStep(s: State, f: FormInput, id: string, date: Date)
    requires !HasId(s.workouts, id)
    requires OnCreate(s, f, id, date).outcome == Added
    ensures OnDelete(OnCreate(s, f, id, date).state, id).workouts == s.workouts
  {
    var w := Build(f, id, date, s.mapClick.value);
    BuildIsDescribed(f, id, date, s.mapClick.value);
    DeleteUndoesCreate(s.workouts, w);
  }

  /** Deleting everything empties the list. With a map it also empties storage and hides every button, which
      is consistent; without one the buttons and the saved copy stay, so a consistent non-empty list leaves
      buttons shown over an empty one */
  lemma DeleteAllEmpties(s: State)
    ensures var t := OnDeleteAll(s);
      && t.workouts == [] && t.isEdit == s.isEdit && t.isSort == s.isSort
      && (s.mapLoaded ==> t.stored == None && Consistent(t))
      && (!s.mapLoaded ==>
            && t.stored == s.stored && t.deleteAllShown == s.deleteAllShown
            && t.sortShown == s.sortShown && t.allWorkoutsShown == s.allWorkoutsShown)
      && (!s.mapLoaded && Consistent(s) && s.workouts != [] ==> !ButtonsMatchList(t))
  {
  }

  /** Deleting the workout being edited leaves edit mode on, so the next submission finds no record and throws,
      changing nothing */
  lemma DeleteWhileEditingThrows(s: State, id: string, f: FormInput, newId: string, date: Date)
    requires s.isEdit && s.editWorkoutId == Some(id)
    ensures var t := OnDelete(s, id);
      && t.isEdit && EditTarget(t).None?
      && OnNewWorkout(t, f, newId, date) == Step(Threw, t)
  {
    var t := OnDelete(s, id);
    RemoveIdMembers(s.workouts, id);
    assert !HasId(t.workouts, id) by {
      forall i | 0 <= i < |t.workouts| ensures t.workouts[i].id != id {
        assert t.workouts[i] in t.workouts;
      }
    }
  }

  /** The map's arrival changes nothing but the map, keeps the controller consistent, and happens once */
  lemma MapLoadedKeepsState(s: State)
    ensures var t := OnMapLoaded(s);
      && t.mapLoaded && t.workouts == s.workouts && t.stored == s.stored && t.isEdit == s.isEdit
      && (Consistent(t) <==> Consistent(s)) && OnMapLoaded(t) == t
  {
  }

  /** Sorting flips the mode, never reorders the stored list, and flipping twice restores the state; in sort
      mode the rendered order is a permutation of the list in ascending distance (when every distance is
      finite), in which records of equal distance keep their order */
  lemma SortTogglesView(s: State)
    ensures var t := OnSort(s);
      && t.isSort == !s.isSort && t.workouts == s.workouts && OnSort(t) == s
      && multiset(RenderOrder(t)) == multiset(s.workouts)
      && (t.isSort && AllDistancesFinite(s.workouts) ==>
            && InDistanceOrder(RenderOrder(t))
            && forall d :: WithDistance(RenderOrder(t), d) == WithDistance(s.workouts, d))
      && (!t.isSort ==> RenderOrder(t) == s.workouts)
  {
    var t := OnSort(s);
    if t.isSort {
      SortedCopyIsPermutation(s.workouts);
      if AllDistancesFinite(s.workouts) {
        SortedCopyIsOrdered(s.workouts);
        forall d ensures WithDistance(RenderOrder(t), d) == WithDistance(s.workouts, d) {
          SortedCopyIsStable(s.workouts, d);
        }
      }
    }
  }

  // --- the controller object ---

  class App {
    var workouts: seq<Workout>
    var isEdit: bool
    var isSort: bool
    var editWorkoutId: Option<string>
    /** `#mapEvent.latlng`: where the map was last clicked, if the form was opened from the map */
    var mapClick: Option<Coords>
    /** `#map` is set: `_loadMap` has run */
    var mapLoaded: bool
    /** The `workouts` entry of local storage, absent once removed */
    var stored: Option<seq<Workout>>
    var deleteAllShown: bool
    var sortShown: bool
    var allWorkoutsShown: bool

    /** The fields as a value */
    function Snapshot(): State
      reads this
    {
      State(workouts, isEdit, isSort, editWorkoutId, mapClick, mapLoaded, stored, deleteAllShown, sortShown, allWorkoutsShown)
    }

    /** The constructor: `_getLocalStorage`, then the three button checks */
    constructor (saved: Option<seq<Workout>>)
      ensures Snapshot() == Loaded(saved)
    {
      workouts := if saved.Some? then saved.value else [];
      stored := saved;
      isEdit, isSort := false, false;
      editWorkoutId, mapClick, mapLoaded := None, None, false;
      deleteAllShown, sortShown, allWorkoutsShown := false, false, false;
      new;
      ShowButtonDeleteAll();
      ShowButtonSort();
      ShowButtonAllWorkouts();
    }

    /** `_loadMap` */
    method LoadMap()
      modifies this
      ensures Snapshot() == OnMapLoaded(old(Snapshot()))
    {
      mapLoaded := true;
    }

    /** `_showForm` */
    method ShowForm(click: Coords, formVisible: bool)
      modifies this
      ensures Snapshot() == OnShowForm(old(Snapshot()), click, formVisible)
    {
      if isEdit && formVisible {
        isEdit := false;
      }
      mapClick := Some(click);
    }

    /** `_editWorkout` */
    method EditWorkout(id: string, formHidden: bool)
      modifies this
      ensures Snapshot() == OnEditWorkout(old(Snapshot()), id, formHidden)
    {
      isEdit := true;
      editWorkoutId := Some(id);
      if FindById(workouts, id).Some? && formHidden {
        mapClick := None;
      }
    }

    /** `_newWorkout` */
    method NewWorkout(f: FormInput, id: string, date: Date) returns (outcome: Outcome)
      modifies this
      ensures Step(outcome, Snapshot()) == OnNewWorkout(old(Snapshot()), f, id, date)
    {
      if isEdit {
        outcome := EditDataWorkout(f);
        return;
      }
      if mapClick.None? {
        outcome := Threw;
        return;
      }
      if !Accepts(f) {
        outcome := Rejected;
        return;
      }
      var w := Build(f, id, date, mapClick.value);
      workouts := workouts + [w];
      ShowButtonDeleteAll();
      ShowButtonSort();
      ShowButtonAllWorkouts();
      if !mapLoaded {
        outcome := Threw;
        return;
      }
      stored := Some(workouts);
      outcome := Added;
    }

    /** `_editDataWorkout` */
    method EditDataWorkout(f: FormInput) returns (outcome: Outcome)
      modifies this
      ensures Step(outcome, Snapshot()) == OnEditData(old(Snapshot()), f)
    {
      var target := if editWorkoutId.Some? then FindById(workouts, editWorkoutId.value) else None;
      if target.None? {
        outcome := Threw;
        return;
      }
      var i := target.value;
      workouts := workouts[i := ApplyEdit(workouts[i], f)];
      if !Accepts(f) {
        outcome := Rejected;
        return;
      }
      if !mapLoaded {
        outcome := Threw;
        return;
      }
      stored := Some(workouts);
      isEdit := false;
      outcome := Updated;
    }

    /** `_deleteWorkout` */
    method DeleteWorkout(id: string)
      modifies this
      ensures Snapshot() == OnDelete(old(Snapshot()), id)
    {
      var found := FindById(workouts, id);
      workouts := RemoveId(workouts, id);
      if |workouts| == 0 {
        deleteAllShown := false;
        allWorkoutsShown := false;
      }
      if |workouts| == 1 {
        sortShown := false;
      }
      if found.Some? && mapLoaded {
        stored := Some(workouts);
      }
    }

    /** `_deleteAllWorkouts` */
    method DeleteAllWorkouts()
      modifies this
      ensures Snapshot() == OnDeleteAll(old(Snapshot()))
    {
      workouts := [];
      if !mapLoaded {
        return;
      }
      deleteAllShown, sortShown, allWorkoutsShown := false, false, false;
      stored := None;
    }

    /** `_sortWorkouts`: flip sort mode and give the order the list is rendered in */
    method SortWorkouts() returns (view: seq<Workout>)
      modifies this
      ensures Snapshot() == OnSort(old(Snapshot()))
      ensures view == RenderOrder(Snapshot())
    {
      isSort := !isSort;
      view := if isSort then SortByDistance(workouts) else workouts;
    }

    /** `_showButtonDeleteAll` */
    method ShowButtonDeleteAll()
      modifies this`deleteAllShown
      ensures deleteAllShown == (old(deleteAllShown) || DeleteAllWanted(|workouts|))
    {
      if DeleteAllWanted(|workouts|) {
        deleteAllShown := true;
      }
    }

    /** `_showButtonSort` */
    method ShowButtonSort()
      modifies this`sortShown
      ensures sortShown == (old(sortShown) || SortWanted(|workouts|))
    {
      if SortWanted(|workouts|) {
        sortShown := true;
      }
    }

    /** `_showButtonAllWorkouts` */
    method ShowButtonAllWorkouts()
      modifies this`allWorkoutsShown
      ensures allWorkoutsShown == (old(allWorkoutsShown) || AllWorkoutsWanted(|workouts|))
    {
      if AllWorkoutsWanted(|workouts|) {
        allWorkoutsShown := true;
      }
    }
  }
}
