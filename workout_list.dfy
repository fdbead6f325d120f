/**
 * The operations the app performs on its list of workouts: `find` by id,
 * `filter` by id, and the sorted copy shown when sorting is on.
 */
module WorkoutList {
  import opened JsNumber
  import opened Workouts
  import opened Wrappers

  /** Some entry of the list has this id */
  predicate HasId(ws: seq<Workout>, id: string) {
    exists i :: 0 <= i < |ws| && ws[i].id == id
  }

  /** No two entries share an id */
  predicate UniqueIds(ws: seq<Workout>) {
    forall i, j :: 0 <= i < j < |ws| ==> ws[i].id != ws[j].id
  }

  /** `ws.find(item => item.id === id)`, as the index of the first match */
  function FindById(ws: seq<Workout>, id: string): (r: Option<nat>)
    ensures r.Some? ==> r.value < |ws| && ws[r.value].id == id
    ensures r.Some? ==> forall j :: 0 <= j < r.value ==> ws[j].id != id
    ensures r.None? <==> !HasId(ws, id)
  {
    if ws == [] then None
    else if ws[0].id == id then Some(0)
    else match FindById(ws[1..], id)
      case None => None
      case Some(k) => Some(k + 1)
  }

  /** `ws.filter(item => item.id !== id)` */
  function RemoveId(ws: seq<Workout>, id: string): (r: seq<Workout>)
    ensures |r| <= |ws|
  {
    if ws == [] then []
    else (if ws[0].id == id then [] else [ws[0]]) + RemoveId(ws[1..], id)
  }

  /** The delete keeps exactly the entries whose id differs */
  lemma {:induction false} RemoveIdMembers(ws: seq<Workout>, id: string)
    ensures forall w :: w in RemoveId(ws, id) <==> w in ws && w.id != id
    decreases |ws|
  {
    if ws != [] {
      RemoveIdMembers(ws[1..], id);
      assert ws == [ws[0]] + ws[1..];
    }
  }

  /** Filtering a concatenation filters each part in place, so the kept entries stay in their order */
  lemma {:induction false} RemoveIdAppend(a: seq<Workout>, b: seq<Workout>, id: string)
    ensures RemoveId(a + b, id) == RemoveId(a, id) + RemoveId(b, id)
    decreases |a|
  {
    if a != [] {
      var head := if a[0].id == id then [] else [a[0]];
      assert (a + b)[0] == a[0] && (a + b)[1..] == a[1..] + b;
      calc {
        RemoveId(a + b, id);
        head + RemoveId(a[1..] + b, id);
        { RemoveIdAppend(a[1..], b, id); }
        head + (RemoveId(a[1..], id) + RemoveId(b, id));
        (head + RemoveId(a[1..], id)) + RemoveId(b, id);
        RemoveId(a, id) + RemoveId(b, id);
      }
    } else {
      assert a + b == b;
    }
  }

  /** Deleting an id no entry has leaves the list as it was */
  lemma {:induction false} RemoveAbsentId(ws: seq<Workout>, id: string)
    requires !HasId(ws, id)
    ensures RemoveId(ws, id) == ws
    decreases |ws|
  {
    if ws != [] {
      assert !HasId(ws[1..], id) by {
        forall i | 0 <= i < |ws[1..]| ensures ws[1..][i].id != id {
          assert ws[1..][i] == ws[i + 1];
        }
      }
      RemoveAbsentId(ws[1..], id);
      assert [ws[0]] + ws[1..] == ws;
    }
  }

  /** With unique ids, deleting a present id removes exactly that one entry and keeps the rest in order */
  lemma RemoveUniqueId(ws: seq<Workout>, id: string, i: nat)
    requires UniqueIds(ws)
    requires FindById(ws, id) == Some(i)
    ensures RemoveId(ws, id) == ws[..i] + ws[i + 1..]
    ensures |RemoveId(ws, id)| == |ws| - 1
  {
    var pre, post := ws[..i], ws[i + 1..];
    assert ws == (pre + [ws[i]]) + post;
    assert !HasId(pre, id) by {
      forall j | 0 <= j < |pre| ensures pre[j].id != id {
        assert pre[j] == ws[j];
      }
    }
    assert !HasId(post, id) by {
      forall j | 0 <= j < |post| ensures post[j].id != id {
        assert post[j] == ws[i + 1 + j];
      }
    }
    assert RemoveId([ws[i]], id) == [];
    calc {
      RemoveId(ws, id);
      { RemoveIdAppend(pre + [ws[i]], post, id); }
      RemoveId(pre + [ws[i]], id) + RemoveId(post, id);
      { RemoveIdAppend(pre, [ws[i]], id); }
      RemoveId(pre, id) + RemoveId([ws[i]], id) + RemoveId(post, id);
      { RemoveAbsentId(pre, id); RemoveAbsentId(post, id); }
      pre + [] + post;
    }
  }

  /** Deleting keeps ids unique */
  lemma RemoveKeepsUnique(ws: seq<Workout>, id: string)
    requires UniqueIds(ws)
    ensures UniqueIds(RemoveId(ws, id))
  {
    match FindById(ws, id)
    case None =>
      RemoveAbsentId(ws, id);
    case Some(i) =>
      RemoveUniqueId(ws, id, i);
      var r := RemoveId(ws, id);
      forall a, b | 0 <= a < b < |r| ensures r[a].id != r[b].id {
        var a', b' := if a < i then a else a + 1, if b < i then b else b + 1;
        assert r[a] == ws[a'] && r[b] == ws[b'];
      }
  }

  /** Creating a record with a fresh id and then deleting that id gives back the list it was appended to */
  lemma DeleteUndoesCreate(ws: seq<Workout>, w: Workout)
    requires !HasId(ws, w.id)
    ensures RemoveId(ws + [w], w.id) == ws
  {
    RemoveIdAppend(ws, [w], w.id);
    RemoveAbsentId(ws, w.id);
    assert RemoveId([w], w.id) == [];
  }

  /** Appending a record with a fresh id keeps ids unique */
  lemma AppendKeepsUnique(ws: seq<Workout>, w: Workout)
    requires UniqueIds(ws) && !HasId(ws, w.id)
    ensures UniqueIds(ws + [w])
  {
    var r := ws + [w];
    forall a, b | 0 <= a < b < |r| ensures r[a].id != r[b].id {
      if b == |ws| {
        assert r[a] == ws[a];
      }
    }
  }

  /** With unique ids a delete shortens the list by one when the id is present and not at all otherwise */
  lemma RemoveIdCount(ws: seq<Workout>, id: string)
    requires UniqueIds(ws)
    ensures |RemoveId(ws, id)| == if HasId(ws, id) then |ws| - 1 else |ws|
  {
    match FindById(ws, id)
    case None => RemoveAbsentId(ws, id);
    case Some(i) => RemoveUniqueId(ws, id, i);
  }

  /** Every record carries the description its type and date give */
  predicate EveryDescribed(ws: seq<Workout>) {
    forall i :: 0 <= i < |ws| ==> Described(ws[i])
  }

  /** Deleting keeps every remaining record described */
  lemma RemoveKeepsDescribed(ws: seq<Workout>, id: string)
    requires EveryDescribed(ws)
    ensures EveryDescribed(RemoveId(ws, id))
  {
    var r := RemoveId(ws, id);
    RemoveIdMembers(ws, id);
    forall i | 0 <= i < |r| ensures Described(r[i]) {
      assert r[i] in r;
    }
  }

  /** A delete keeps ids unique, shortening the list by one exactly when the id was present, and keeps records described */
  lemma DeleteKeepsInvariants(ws: seq<Workout>, id: string)
    ensures var r := RemoveId(ws, id);
      && (UniqueIds(ws) ==> UniqueIds(r) && |r| == (if HasId(ws, id) then |ws| - 1 else |ws|))
      && (EveryDescribed(ws) ==> EveryDescribed(r))
  {
    if UniqueIds(ws) {
      RemoveKeepsUnique(ws, id);
      RemoveIdCount(ws, id);
    }
    if EveryDescribed(ws) {
      RemoveKeepsDescribed(ws, id);
    }
  }

  /** Appending a described record with a fresh id keeps ids unique and records described */
  lemma AppendKeepsInvariants(ws: seq<Workout>, w: Workout)
    ensures UniqueIds(ws) && !HasId(ws, w.id) ==> UniqueIds(ws + [w])
    ensures EveryDescribed(ws) && Described(w) ==> EveryDescribed(ws + [w])
  {
    if UniqueIds(ws) && !HasId(ws, w.id) {
      AppendKeepsUnique(ws, w);
    }
    if EveryDescribed(ws) && Described(w) {
      var r := ws + [w];
      forall i | 0 <= i < |r| ensures Described(r[i]) {
        if i < |ws| {
          assert r[i] == ws[i];
        }
      }
    }
  }

  // --- the sorted copy `ws.slice().sort((a, b) => a.distance - b.distance)` ---

  /** Places `w` after every entry the comparator does not put behind it: a stable insertion */
  function InsertByDistance(w: Workout, ws: seq<Workout>): (r: seq<Workout>)
    ensures |r| == |ws| + 1
  {
    if ws == [] then [w]
    else if GreaterThan(ws[0].distance, w.distance) then [w] + ws
    else [ws[0]] + InsertByDistance(w, ws[1..])
  }

  /** The sorted copy: each entry in turn inserted into the sorted copy of the ones before it */
  function SortByDistance(ws: seq<Workout>): (r: seq<Workout>)
    ensures |r| == |ws|
  {
    if ws == [] then []
    else InsertByDistance(ws[|ws| - 1], SortByDistance(ws[..|ws| - 1]))
  }

  /** An insertion adds `w` and loses nothing */
  lemma {:induction false} InsertIsPermutation(w: Workout, ws: seq<Workout>)
    ensures multiset(InsertByDistance(w, ws)) == multiset(ws) + multiset{w}
    decreases |ws|
  {
    if ws != [] && !GreaterThan(ws[0].distance, w.distance) {
      InsertIsPermutation(w, ws[1..]);
      assert ws == [ws[0]] + ws[1..];
      calc {
        multiset(InsertByDistance(w, ws));
        multiset([ws[0]] + InsertByDistance(w, ws[1..]));
        multiset([ws[0]]) + multiset(InsertByDistance(w, ws[1..]));
        multiset([ws[0]]) + (multiset(ws[1..]) + multiset{w});
        (multiset([ws[0]]) + multiset(ws[1..])) + multiset{w};
        multiset(ws) + multiset{w};
      }
    }
  }

  /** The sorted copy is a permutation of the list */
  lemma {:induction false} SortedCopyIsPermutation(ws: seq<Workout>)
    ensures multiset(SortByDistance(ws)) == multiset(ws)
    decreases |ws|
  {
    if ws != [] {
      var last := |ws| - 1;
      var init := ws[..last];
      SortedCopyIsPermutation(init);
      InsertIsPermutation(ws[last], SortByDistance(init));
      assert ws == init + [ws[last]];
      calc {
        multiset(SortByDistance(ws));
        multiset(InsertByDistance(ws[last], SortByDistance(init)));
        multiset(SortByDistance(init)) + multiset{ws[last]};
        multiset(init) + multiset([ws[last]]);
        multiset(init + [ws[last]]);
      }
    }
  }

  predicate AllDistancesFinite(ws: seq<Workout>) {
    forall i :: 0 <= i < |ws| ==> ws[i].distance.Finite?
  }

  /** Finite distances, in non-decreasing order */
  predicate InDistanceOrder(ws: seq<Workout>) {
    AllDistancesFinite(ws) &&
    forall i, j :: 0 <= i < j < |ws| ==> ws[i].distance.value <= ws[j].distance.value
  }

  lemma {:induction false} InsertKeepsOrder(w: Workout, ws: seq<Workout>)
    requires w.distance.Finite? && InDistanceOrder(ws)
    ensures InDistanceOrder(InsertByDistance(w, ws))
    ensures ws != [] ==> InsertByDistance(w, ws)[0] == ws[0] || InsertByDistance(w, ws)[0] == w
    decreases |ws|
  {
    var r := InsertByDistance(w, ws);
    if ws == [] {
      assert r == [w];
    } else if GreaterThan(ws[0].distance, w.distance) {
      assert r == [w] + ws;
      forall i | 0 <= i < |r| ensures r[i].distance.Finite? {
        if i > 0 { assert r[i] == ws[i - 1]; }
      }
      forall i, j | 0 <= i < j < |r| ensures r[i].distance.value <= r[j].distance.value {
        assert r[j] == ws[j - 1];
        if i > 0 {
          assert r[i] == ws[i - 1];
        } else if j > 1 {
          assert ws[0].distance.value <= ws[j - 1].distance.value;
        }
      }
    } else {
      var tail := ws[1..];
      assert InDistanceOrder(tail) by {
        forall i | 0 <= i < |tail| ensures tail[i] == ws[i + 1] { }
      }
      InsertKeepsOrder(w, tail);
      var rest := InsertByDistance(w, tail);
      assert r == [ws[0]] + rest;
      assert ws[0].distance.value <= rest[0].distance.value by {
        if tail == [] {
          assert rest == [w];
        } else {
          assert tail[0] == ws[1];
        }
      }
      forall i | 0 <= i < |r| ensures r[i].distance.Finite? {
        if i > 0 { assert r[i] == rest[i - 1]; }
      }
      forall i, j | 0 <= i < j < |r| ensures r[i].distance.value <= r[j].distance.value {
        assert r[j] == rest[j - 1];
        if i > 0 {
          assert r[i] == rest[i - 1];
        } else if j > 1 {
          assert rest[0].distance.value <= rest[j - 1].distance.value;
        }
      }
    }
  }

  /** With finite distances the sorted copy is in non-decreasing distance order */
  lemma {:induction false} SortedCopyIsOrdered(ws: seq<Workout>)
    requires AllDistancesFinite(ws)
    ensures InDistanceOrder(SortByDistance(ws))
    decreases |ws|
  {
    if ws != [] {
      var last := |ws| - 1;
      assert AllDistancesFinite(ws[..last]) by {
        forall i | 0 <= i < last ensures ws[..last][i].distance.Finite? {
          assert ws[..last][i] == ws[i];
        }
      }
      SortedCopyIsOrdered(ws[..last]);
      InsertKeepsOrder(ws[last], SortByDistance(ws[..last]));
    }
  }

  /** The entries whose distance is `d`, in list order */
  function WithDistance(ws: seq<Workout>, d: Num): seq<Workout> {
    if ws == [] then []
    else (if ws[0].distance == d then [ws[0]] else []) + WithDistance(ws[1..], d)
  }

  lemma {:induction false} WithDistanceAppend(a: seq<Workout>, b: seq<Workout>, d: Num)
    ensures WithDistance(a + b, d) == WithDistance(a, d) + WithDistance(b, d)
    decreases |a|
  {
    if a != [] {
      var head := if a[0].distance == d then [a[0]] else [];
      assert (a + b)[0] == a[0] && (a + b)[1..] == a[1..] + b;
      calc {
        WithDistance(a + b, d);
        head + WithDistance(a[1..] + b, d);
        { WithDistanceAppend(a[1..], b, d); }
        head + (WithDistance(a[1..], d) + WithDistance(b, d));
        (head + WithDistance(a[1..], d)) + WithDistance(b, d);
        WithDistance(a, d) + WithDistance(b, d);
      }
    } else {
      assert a + b == b;
    }
  }

  lemma {:induction false} WithDistanceNone(ws: seq<Workout>, d: Num)
    requires forall i :: 0 <= i < |ws| ==> ws[i].distance != d
    ensures WithDistance(ws, d) == []
    decreases |ws|
  {
    if ws != [] {
      WithDistanceNone(ws[1..], d);
    }
  }

  /** In an ordered list, every entry lies beyond a distance smaller than the first */
  lemma NoneAtSmallerDistance(ws: seq<Workout>, w: Workout)
    requires w.distance.Finite? && InDistanceOrder(ws)
    requires ws != [] && ws[0].distance.value > w.distance.value
    ensures WithDistance(ws, w.distance) == []
  {
    forall i | 0 <= i < |ws| ensures ws[i].distance != w.distance {
      assert ws[0].distance.value <= ws[i].distance.value;
    }
    WithDistanceNone(ws, w.distance);
  }

  lemma OrderedTail(ws: seq<Workout>)
    requires ws != [] && InDistanceOrder(ws)
    ensures InDistanceOrder(ws[1..])
  {
    var t := ws[1..];
    forall i | 0 <= i < |t| ensures t[i] == ws[i + 1] {
    }
  }

  /** Putting one entry in front of two lists that agree up to a suffix keeps them agreeing */
  lemma WithDistanceCons(x: Workout, rest: seq<Workout>, tail: seq<Workout>, mine: seq<Workout>, d: Num)
    requires WithDistance(rest, d) == WithDistance(tail, d) + mine
    ensures WithDistance([x] + rest, d) == WithDistance([x] + tail, d) + mine
  {
    var head := if x.distance == d then [x] else [];
    assert ([x] + rest)[0] == x && ([x] + rest)[1..] == rest;
    assert ([x] + tail)[0] == x && ([x] + tail)[1..] == tail;
    assert WithDistance([x] + rest, d) == head + WithDistance(rest, d);
    assert WithDistance([x] + tail, d) == head + WithDistance(tail, d);
    var t := WithDistance(tail, d);
    assert head + (t + mine) == (head + t) + mine;
  }

  /** An entry placed in front of an ordered list whose first distance is larger precedes no entry of its own distance */
  lemma InsertInFront(w: Workout, ws: seq<Workout>, d: Num)
    requires w.distance.Finite? && InDistanceOrder(ws)
    requires ws != [] && ws[0].distance.value > w.distance.value
    ensures WithDistance([w] + ws, d) == WithDistance(ws, d) + (if w.distance == d then [w] else [])
  {
    var mine := if w.distance == d then [w] else [];
    WithDistanceAppend([w], ws, d);
    assert WithDistance([w], d) == mine + WithDistance([], d);
    if w.distance == d {
      NoneAtSmallerDistance(ws, w);
      assert WithDistance(ws, d) + mine == mine;
    } else {
      assert WithDistance([w], d) + WithDistance(ws, d) == WithDistance(ws, d);
    }
  }

  /** Inserting into an ordered list puts `w` after every entry of equal distance */
  lemma {:induction false} InsertIsStable(w: Workout, ws: seq<Workout>, d: Num)
    requires w.distance.Finite? && InDistanceOrder(ws)
    ensures WithDistance(InsertByDistance(w, ws), d) == WithDistance(ws, d) + (if w.distance == d then [w] else [])
    decreases |ws|
  {
    var mine := if w.distance == d then [w] else [];
    if ws == [] {
      assert WithDistance([w], d) == mine + WithDistance([], d);
    } else if GreaterThan(ws[0].distance, w.distance) {
      assert InsertByDistance(w, ws) == [w] + ws;
      InsertInFront(w, ws, d);
    } else {
      OrderedTail(ws);
      InsertIsStable(w, ws[1..], d);
      assert InsertByDistance(w, ws) == [ws[0]] + InsertByDistance(w, ws[1..]);
      assert ws == [ws[0]] + ws[1..];
      WithDistanceCons(ws[0], InsertByDistance(w, ws[1..]), ws[1..], mine, d);
    }
  }

  /** With finite distances the sort is stable: entries of equal distance keep their list order */
  lemma {:induction false} SortedCopyIsStable(ws: seq<Workout>, d: Num)
    requires AllDistancesFinite(ws)
    ensures WithDistance(SortByDistance(ws), d) == WithDistance(ws, d)
    decreases |ws|
  {
    if ws != [] {
      var last := |ws| - 1;
      var init := ws[..last];
      assert AllDistancesFinite(init) by {
        forall i | 0 <= i < last ensures init[i].distance.Finite? {
          assert init[i] == ws[i];
        }
      }
      var x := ws[last];
      var mine := if x.distance == d then [x] else [];
      assert x.distance.Finite?;
      SortedCopyIsOrdered(init);
      assert WithDistance([x], d) == mine + WithDistance([], d);
      calc {
        WithDistance(SortByDistance(ws), d);
        WithDistance(InsertByDistance(x, SortByDistance(init)), d);
        { InsertIsStable(x, SortByDistance(init), d); }
        WithDistance(SortByDistance(init), d) + mine;
        { SortedCopyIsStable(init, d); }
        WithDistance(init, d) + WithDistance([x], d);
        { WithDistanceAppend(init, [x], d); }
        WithDistance(init + [x], d);
        { assert init + [x] == ws; }
        WithDistance(ws, d);
      }
    }
  }
}
