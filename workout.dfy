/**
 * Workout records: the fields every workout has, the running and cycling
 * variants with their derived pace and speed, and the label shown for them.
 *
 * A record is a value here. The source keeps a JavaScript object whose
 * properties the edit path overwrites; which variant properties an object
 * has is modelled by the optional fields (`cadence`/`pace` for running,
 * `elevationGain`/`speed` for cycling), since an edit that changes the type
 * adds the new variant's properties and leaves the old ones in place.
 */
module Workouts {
  import opened JsNumber
  import opened Text
  import opened Wrappers

  datatype Kind = Running | Cycling

  /** The `type` property */
  function TypeName(k: Kind): string {
    match k
    case Running => "running"
    case Cycling => "cycling"
  }

  /** The type with its first letter upper-cased, as it opens a description */
  function Title(k: Kind): (t: string)
    ensures |t| > 0 && NoSpace(t)
  {
    match k
    case Running => "Running"
    case Cycling => "Cycling"
  }

  /** The title is `${type[0].toUpperCase()}${type.slice(1)}` of the type */
  lemma TitleCapitalizesType(k: Kind)
    ensures Title(k) == Capitalize(TypeName(k))
    ensures Title(k)[1..] == TypeName(k)[1..] && Title(k)[0] == UpperChar(TypeName(k)[0])
  {
  }

  /** `Date.prototype.getMonth()` is a month index 0..11 */
  type MonthIndex = m: nat | m < 12

  /** `Date.prototype.getDate()` is a day of the month 1..31 */
  type DayOfMonth = d: nat | 1 <= d <= 31 witness 1

  /** The part of a creation date the model uses */
  datatype Date = Date(month: MonthIndex, day: DayOfMonth)

  /** `[lat, lng]` of the map click the workout was created at */
  datatype Coords = Coords(lat: real, lng: real)

  const MonthNames: seq<string> := [
    "January", "February", "March", "April", "May", "June",
    "July", "August", "September", "October", "November", "December"]

  function MonthName(m: MonthIndex): (name: string)
    ensures |name| > 0 && NoSpace(name)
  {
    MonthNames[m]
  }

  /** `_setDescription`: "Running on May 5" */
  function Description(k: Kind, date: Date): string {
    Title(k) + " on " + MonthName(date.month) + " " + DecimalString(date.day)
  }

  /** A description reads as four words: the title, "on", the month name and the day number */
  lemma DescriptionWords(k: Kind, date: Date)
    ensures Split(Description(k, date)) == [Title(k), "on", MonthName(date.month), DecimalString(date.day)]
  {
    var title, month, day := Title(k), MonthName(date.month), DecimalString(date.day);
    var s3 := month + [Space] + day;
    var s2 := "on" + [Space] + s3;
    assert Description(k, date) == title + [Space] + s2;
    assert NoSpace(day);
    SplitWord(day);
    SplitAfterWord(month, day);
    assert Split(s3) == [month, day];
    SplitAfterWord("on", s3);
    assert Split(s2) == ["on", month, day];
    SplitAfterWord(title, s2);
  }

  /** The last word of a description spells the day of the month the workout was created on */
  lemma DescriptionDay(k: Kind, date: Date)
    ensures var words := Split(Description(k, date));
      |words| == 4 && words[3] == DecimalString(date.day) && DigitsValue(words[3]) == date.day
  {
    DescriptionWords(k, date);
    DecimalRoundTrip(date.day);
  }

  /** A workout as the list holds it */
  datatype Workout = Workout(
    id: string,
    date: Date,
    coords: Coords,
    kind: Kind,
    distance: Num,
    duration: Num,
    description: string,
    cadence: Option<Num>,
    pace: Option<Num>,
    elevationGain: Option<Num>,
    speed: Option<Num>)

  /** `calcPace`: minutes per kilometre, `duration / distance` */
  function Pace(distance: Num, duration: Num): Num {
    Div(duration, distance)
  }

  /** `calcSpeed`: kilometres per hour, `distance / (duration / 60)` */
  function Speed(distance: Num, duration: Num): Num {
    Div(distance, Div(duration, Finite(60.0)))
  }

  /** For a positive finite distance and duration the pace is their finite, positive quotient */
  lemma PaceOfPositive(distance: Num, duration: Num)
    requires distance.Finite? && distance.value > 0.0
    requires duration.Finite? && duration.value > 0.0
    ensures Pace(distance, duration) == Finite(duration.value / distance.value)
    ensures Pace(distance, duration).value > 0.0
    ensures Pace(distance, duration).value * distance.value == duration.value
  {
  }

  /** For a positive finite distance and duration the speed is finite, positive and covers the distance in the duration */
  lemma SpeedOfPositive(distance: Num, duration: Num)
    requires distance.Finite? && distance.value > 0.0
    requires duration.Finite? && duration.value > 0.0
    ensures Speed(distance, duration) == Finite(distance.value / (duration.value / 60.0))
    ensures Speed(distance, duration).value > 0.0
    ensures Speed(distance, duration).value * duration.value == 60.0 * distance.value
  {
    var h := duration.value / 60.0;
    assert Div(duration, Finite(60.0)) == Finite(h);
    var v := distance.value / h;
    assert v * h == distance.value;
    assert v * duration.value == v * (h * 60.0);
  }

  /** The `Runing` constructor: pace and description are computed once, at construction */
  function NewRunning(id: string, date: Date, coords: Coords, distance: Num, duration: Num, cadence: Num): Workout {
    Workout(id, date, coords, Running, distance, duration, Description(Running, date),
            Some(cadence), Some(Pace(distance, duration)), None, None)
  }

  /** The `Cycling` constructor: speed and description are computed once, at construction */
  function NewCycling(id: string, date: Date, coords: Coords, distance: Num, duration: Num, elevationGain: Num): Workout {
    Workout(id, date, coords, Cycling, distance, duration, Description(Cycling, date),
            None, None, Some(elevationGain), Some(Speed(distance, duration)))
  }

  /** A record whose description is the one its type and date give (every constructed record is one) */
  predicate Described(w: Workout) {
    w.description == Description(w.kind, w.date)
  }

  /** The description an edit writes: the new title, then every word of the old description after its first */
  function EditDescription(k: Kind, current: string): string {
    Title(k) + " " + WordsAfterFirst(current)
  }

  /** An edit keeps the words after the first, so editing the stored or the displayed description gives the same text */
  lemma EditDescriptionKeepsTail(k: Kind, current: string)
    ensures WordsAfterFirst(EditDescription(k, current)) == WordsAfterFirst(current)
  {
    assert EditDescription(k, current) == Title(k) + [Space] + WordsAfterFirst(current);
    WordsAfterFirstOf(Title(k), WordsAfterFirst(current));
  }

  /** A description is its title, a space, and a tail the type does not change */
  lemma TitleThenTail(k: Kind, date: Date, tail: string)
    requires tail == "on " + MonthName(date.month) + " " + DecimalString(date.day)
    ensures Description(k, date) == Title(k) + [Space] + tail
  {
    var title, month, day := Title(k), MonthName(date.month), DecimalString(date.day);
    calc {
      Description(k, date);
      title + " on " + month + " " + day;
      { assert title + " on " == title + [Space] + "on "; }
      title + [Space] + "on " + month + " " + day;
      title + [Space] + ("on " + month + " " + day);
    }
  }

  /** Editing a constructed description yields exactly the description a new record of the new type would get */
  lemma EditOfDescription(before: Kind, after: Kind, date: Date)
    ensures EditDescription(after, Description(before, date)) == Description(after, date)
  {
    var month, day := MonthName(date.month), DecimalString(date.day);
    var tail := "on " + month + " " + day;
    TitleThenTail(before, date, tail);
    WordsAfterFirstOf(Title(before), tail);
    assert WordsAfterFirst(Description(before, date)) == tail;
    TitleThenTail(after, date, tail);
  }
}
