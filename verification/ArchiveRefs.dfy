/** What `_refs` finds: the reference at every position of a document that holds one, in document order. */
module ArchiveRefs {
  import opened Results
  import opened ArchiveBinding

  /** Where to go in a document: the number of the value or item at each level. */
  type Place = seq<nat>

  function Children<R>(t: Tree<R>): seq<Tree<R>> {
    match t
    case Dict(_, values) => values
    case List(items) => items
    case Scalar => []
  }

  /** The reference at a place, if there is a dictionary with the four keys. */
  function At<R>(t: Tree<R>, place: Place): Option<R>
    decreases |place|
  {
    if place == [] then (if t.Dict? then t.own else None) else AtIn(Children(t), place)
  }

  function AtIn<R>(ts: seq<Tree<R>>, place: Place): Option<R>
    requires place != []
    decreases |place|, 0
  {
    if place[0] < |ts| then At(ts[place[0]], place[1..]) else None
  }

  /** Document order: a dictionary comes before what it holds, and earlier values before later ones. */
  predicate Before(p: Place, q: Place) {
    q != [] && (p == [] || p[0] < q[0] || (p[0] == q[0] && Before(p[1..], q[1..])))
  }

  ghost predicate Ordered(places: seq<Place>) {
    forall i, j :: 0 <= i < j < |places| ==> Before(places[i], places[j])
  }

  function Under(first: nat, places: seq<Place>): (r: seq<Place>)
    ensures |r| == |places|
  {
    seq(|places|, i requires 0 <= i < |places| => [first] + places[i])
  }

  /** The same places in a list that has one more item in front. */
  function Shifted(places: seq<Place>): (r: seq<Place>)
    requires forall i :: 0 <= i < |places| ==> places[i] != []
    ensures |r| == |places|
  {
    seq(|places|, i requires 0 <= i < |places| => [places[i][0] + 1] + places[i][1..])
  }

  ghost predicate AllHold<R>(ts: seq<Tree<R>>, refs: seq<R>, places: seq<Place>) {
    |places| == |refs| && forall i :: 0 <= i < |places| ==> places[i] != [] && AtIn(ts, places[i]) == Some(refs[i])
  }

  ghost predicate Complete<R>(ts: seq<Tree<R>>, places: seq<Place>) {
    forall p: Place :: p != [] && AtIn(ts, p).Some? ==> p in places
  }

  /** These are the places of these references in the list, all of them, in order. */
  ghost predicate Locates<R>(ts: seq<Tree<R>>, refs: seq<R>, places: seq<Place>) {
    AllHold(ts, refs, places) && Ordered(places) && Complete(ts, places)
  }

  lemma AllHoldJoin<R>(ts: seq<Tree<R>>, refs: seq<R>, places: seq<Place>, more: seq<R>, others: seq<Place>)
    requires AllHold(ts, refs, places) && AllHold(ts, more, others)
    ensures AllHold(ts, refs + more, places + others)
  {
    hide AtIn;
  }

  lemma OrderedJoin(front: seq<Place>, back: seq<Place>)
    requires Ordered(front) && Ordered(back)
    requires forall i, j :: 0 <= i < |front| && 0 <= j < |back| ==> Before(front[i], back[j])
    ensures Ordered(front + back)
  {
  }

  lemma UnderOrdered(first: nat, places: seq<Place>)
    requires Ordered(places)
    ensures Ordered(Under(first, places))
  {
    forall i, j | 0 <= i < j < |places| ensures Before(Under(first, places)[i], Under(first, places)[j]) {
      assert Before(places[i], places[j]);
      assert Under(first, places)[i][1..] == places[i] && Under(first, places)[j][1..] == places[j];
    }
  }

  lemma ShiftedOrdered(places: seq<Place>)
    requires Ordered(places) && forall i :: 0 <= i < |places| ==> places[i] != []
    ensures Ordered(Shifted(places))
  {
    forall i, j | 0 <= i < j < |places| ensures Before(Shifted(places)[i], Shifted(places)[j]) {
      assert Before(places[i], places[j]);
      assert Shifted(places)[i][1..] == places[i][1..] && Shifted(places)[j][1..] == places[j][1..];
    }
  }

  /** These are the places of these references in the document, all of them, in order. */
  ghost predicate LocatesAt<R>(t: Tree<R>, refs: seq<R>, places: seq<Place>) {
    && |places| == |refs|
    && (forall i :: 0 <= i < |places| ==> At(t, places[i]) == Some(refs[i]))
    && Ordered(places)
    && (forall p: Place :: At(t, p).Some? ==> p in places)
  }

  lemma Within<R>(t: Tree<R>, refs: seq<R>, places: seq<Place>)
    requires Locates(Children(t), refs, places) && (t.Dict? ==> t.own.None?)
    ensures LocatesAt(t, refs, places)
  {
    forall i | 0 <= i < |places| ensures At(t, places[i]) == Some(refs[i]) {
      assert AtIn(Children(t), places[i]) == Some(refs[i]);
    }
    forall p: Place | At(t, p).Some? ensures p in places {
      assert p != [] && AtIn(Children(t), p).Some?;
    }
  }

  lemma OwnFirst<R>(t: Tree<R>, r: R, refs: seq<R>, below: seq<Place>)
    requires t.Dict? && t.own == Some(r) && Locates(Children(t), refs, below)
    ensures LocatesAt(t, [r] + refs, [[]] + below)
  {
    var places := [[]] + below;
    forall i | 0 <= i < |places| ensures At(t, places[i]) == Some(([r] + refs)[i]) {
      if i > 0 {
        assert AtIn(Children(t), below[i - 1]) == Some(refs[i - 1]);
      }
    }
    assert forall j :: 0 <= j < |below| ==> below[j] != [];
    OrderedJoin([[]], below);
    forall p: Place | At(t, p).Some? ensures p in places {
      if p == [] {
        assert places[0] == p;
      } else {
        assert AtIn(Children(t), p).Some? && p in below;
      }
    }
  }

  /** The references found are exactly those that stand somewhere in the document, listed in document order. */
  lemma {:induction false} RefsInOrder<R>(t: Tree<R>) returns (places: seq<Place>)
    ensures LocatesAt(t, Refs(t), places)
    decreases t, 0
  {
    hide LocatesAt, Locates;
    match t
    case Scalar =>
      places := [];
      NothingLocated<R>();
      Within(t, [], places);
    case List(items) =>
      places := RefsOfAllInOrder(items);
      Within(t, RefsOfAll(items), places);
    case Dict(own, values) =>
      places := RefsOfAllInOrder(values);
      if own.Some? {
        OwnFirst(t, own.value, RefsOfAll(values), places);
        places := [[]] + places;
      } else {
        Within(t, RefsOfAll(values), places);
        assert Refs(t) == RefsOfAll(values);
      }
  }

  lemma NothingLocated<R>()
    ensures Locates<R>([], [], [])
  {
  }

  lemma {:induction false} RefsOfAllInOrder<R>(ts: seq<Tree<R>>) returns (places: seq<Place>)
    ensures Locates(ts, RefsOfAll(ts), places)
    decreases ts
  {
    hide LocatesAt, Locates;
    if ts == [] {
      places := [];
      NothingLocated<R>();
    } else {
      var front := RefsInOrder(ts[0]);
      var back := RefsOfAllInOrder(ts[1..]);
      Deep(ts[1..], RefsOfAll(ts[1..]), back);
      places := Under(0, front) + Shifted(back);
      Located(ts, front, back);
    }
  }

  lemma Located<R>(ts: seq<Tree<R>>, front: seq<Place>, back: seq<Place>)
    requires ts != [] && LocatesAt(ts[0], Refs(ts[0]), front) && Locates(ts[1..], RefsOfAll(ts[1..]), back)
    ensures Locates(ts, RefsOfAll(ts), Under(0, front) + Shifted(back))
  {
    FrontHolds(ts, front);
    BackHolds(ts, back);
    LocatedOrdered(front, back);
    forall p: Place | p != [] && AtIn(ts, p).Some? ensures p in Under(0, front) + Shifted(back) {
      Found(ts, front, back, p);
    }
    hide AtIn, At, Ordered, Under, Shifted, AllHold, LocatesAt;
    AllHoldJoin(ts, Refs(ts[0]), Under(0, front), RefsOfAll(ts[1..]), Shifted(back));
    assert RefsOfAll(ts) == Refs(ts[0]) + RefsOfAll(ts[1..]);
  }

  lemma Deep<R>(ts: seq<Tree<R>>, refs: seq<R>, places: seq<Place>)
    requires Locates(ts, refs, places)
    ensures forall i :: 0 <= i < |places| ==> places[i] != []
  {
  }

  lemma FrontHolds<R>(ts: seq<Tree<R>>, front: seq<Place>)
    requires ts != [] && LocatesAt(ts[0], Refs(ts[0]), front)
    ensures AllHold(ts, Refs(ts[0]), Under(0, front))
  {
    var under := Under(0, front);
    forall i | 0 <= i < |under| ensures under[i] != [] && AtIn(ts, under[i]) == Some(Refs(ts[0])[i]) {
      assert under[i][1..] == front[i];
      assert At(ts[0], front[i]) == Some(Refs(ts[0])[i]);
    }
  }

  lemma BackHolds<R>(ts: seq<Tree<R>>, back: seq<Place>)
    requires ts != [] && Locates(ts[1..], RefsOfAll(ts[1..]), back)
    ensures AllHold(ts, RefsOfAll(ts[1..]), Shifted(back))
  {
    var shifted := Shifted(back);
    forall i | 0 <= i < |shifted| ensures shifted[i] != [] && AtIn(ts, shifted[i]) == Some(RefsOfAll(ts[1..])[i]) {
      LaterHolds(ts, back[i]);
    }
  }

  lemma LocatedOrdered(front: seq<Place>, back: seq<Place>)
    requires Ordered(front) && Ordered(back) && forall k :: 0 <= k < |back| ==> back[k] != []
    ensures Ordered(Under(0, front) + Shifted(back))
  {
    UnderOrdered(0, front);
    ShiftedOrdered(back);
    forall i, j | 0 <= i < |front| && 0 <= j < |back| ensures Before(Under(0, front)[i], Shifted(back)[j]) {
      UnderFirst(front, back, i, j);
    }
    OrderedJoin(Under(0, front), Shifted(back));
  }

  lemma LaterHolds<R>(ts: seq<Tree<R>>, place: Place)
    requires ts != [] && place != []
    ensures AtIn(ts, [place[0] + 1] + place[1..]) == AtIn(ts[1..], place)
  {
    assert ([place[0] + 1] + place[1..])[1..] == place[1..];
  }

  lemma UnderFirst(front: seq<Place>, back: seq<Place>, i: nat, j: nat)
    requires i < |front| && j < |back| && forall k :: 0 <= k < |back| ==> back[k] != []
    ensures Before(Under(0, front)[i], Shifted(back)[j])
  {
  }

  lemma Found<R>(ts: seq<Tree<R>>, front: seq<Place>, back: seq<Place>, p: Place)
    requires ts != [] && p != [] && AtIn(ts, p).Some?
    requires LocatesAt(ts[0], Refs(ts[0]), front)
    requires Locates(ts[1..], RefsOfAll(ts[1..]), back)
    ensures p in Under(0, front) + Shifted(back)
  {
    var places := Under(0, front) + Shifted(back);
    if p[0] == 0 {
      assert At(ts[0], p[1..]).Some?;
      var i :| 0 <= i < |front| && front[i] == p[1..];
      assert places[i] == p;
    } else {
      var q := [p[0] - 1] + p[1..];
      assert [q[0] + 1] + q[1..] == p;
      LaterHolds(ts, q);
      var i :| 0 <= i < |back| && back[i] == q;
      assert places[|front| + i] == p;
    }
  }
}
