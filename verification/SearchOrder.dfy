/** When the search of the superinterfaces finds what JVMS chooses, and how that depends on the order of interfaces. */
module SearchOrder {
  import opened Options
  import opened ClassGraph
  import opened MethodSearch

  // ---- one pass, from what was found before ----

  /** The class of the default that is held. */
  function HeldBy(found: Found): Option<Id>
  {
    if found.maxSpecific.None? then None else Some(found.maxSpecific.value.clazz)
  }

  predicate HeldOk(h: Types, held: Option<Id>)
  {
    held.Some? ==> held.value in h.classes
  }

  /** A default of d would be taken. */
  predicate Improves(h: Types, d: Id, held: Option<Id>)
    requires d in h.classes && HeldOk(h, held)
  {
    held.None? || IsSubclassOf(h, d, held.value)
  }

  ghost predicate HasDefault(h: Types, d: Id, sig: Signature)
  {
    exists i: nat :: IsDefault(h, Ref(d, i), sig)
  }

  /** The pass keeps what was held or takes an improvement; nothing that it has seen improves the result. */
  ghost predicate Settles(h: Types, sig: Signature, seen: seq<Ref>, found: Found, r: Found)
    requires FoundOk(h, found) && FoundOk(h, r)
  {
    && (r.maxSpecific == found.maxSpecific
        || (r.maxSpecific.Some? && r.maxSpecific.value in seen && IsDefault(h, r.maxSpecific.value, sig)
            && Improves(h, r.maxSpecific.value.clazz, HeldBy(found))))
    && forall n :: n in seen && IsDefault(h, n, sig) ==> !Improves(h, n.clazz, HeldBy(r))
  }

  lemma {:induction false} PassSettles(h: Types, ms: seq<Ref>, sig: Signature, found: Found)
    requires AllValid(h, ms) && FoundOk(h, found)
    ensures Settles(h, sig, ms, found, Pass(h, ms, sig, found))
    decreases |ms|
  {
    if ms != [] {
      var front, last := ms[..|ms| - 1], ms[|ms| - 1];
      PassSettles(h, front, sig, found);
      ConsiderSettles(h, sig, front, found, Pass(h, front, sig, found), last);
      assert ms == front + [last];
    }
  }

  lemma ConsiderSettles(h: Types, sig: Signature, seen: seq<Ref>, found: Found, r: Found, m: Ref)
    requires FoundOk(h, found) && FoundOk(h, r) && Settles(h, sig, seen, found, r) && Valid(h, m)
    ensures Settles(h, sig, seen + [m], found, Consider(h, m, sig, r))
  {
    if IsDefault(h, m, sig) && Improves(h, m.clazz, HeldBy(r)) {
      SubclassIrreflexive(h, m.clazz);
      assert Consider(h, m, sig, r).maxSpecific == Some(m);
      if r.maxSpecific.Some? {
        ImprovesMore(h, m.clazz, r.maxSpecific.value.clazz, HeldBy(found));
        forall n | n in seen && IsDefault(h, n, sig) ensures !Improves(h, n.clazz, Some(m.clazz)) {
          ImprovesMore(h, n.clazz, m.clazz, HeldBy(r));
        }
      }
    }
  }

  lemma ImprovesMore(h: Types, d: Id, e: Id, held: Option<Id>)
    requires d in h.classes && e in h.classes && HeldOk(h, held)
    ensures Improves(h, d, Some(e)) && Improves(h, e, held) ==> Improves(h, d, held)
  {
    if held.Some? && IsSubclassOf(h, d, e) && IsSubclassOf(h, e, held.value) {
      SubclassTransitive(h, d, e, held.value);
    }
  }

  // ---- the order of interfaces does not count ----

  /** d is c, or is at or above an interface that c names: what c adds to its superclass. */
  ghost predicate InLevel(h: Types, c: Id, d: Id)
    requires c in h.classes
  {
    d in h.classes && (d == c || AboveFirst(h, c, |h.classes[c].interfaces|, d))
  }

  ghost predicate MayTake(h: Types, c: Id, sig: Signature, held: Option<Id>, d: Id)
    requires c in h.classes && HeldOk(h, held)
  {
    InLevel(h, c, d) && HasDefault(h, d, sig) && Improves(h, d, held)
  }

  ghost predicate IsLowest(h: Types, c: Id, sig: Signature, held: Option<Id>, d: Id)
    requires c in h.classes && HeldOk(h, held)
  {
    && MayTake(h, c, sig, held, d)
    && forall e :: MayTake(h, c, sig, held, e) ==> !IsSubclassOf(h, e, d)
  }

  /** A lowest default that may be taken; an array class has its two interfaces in a fixed order. */
  ghost predicate IsPick(h: Types, c: Id, sig: Signature, held: Option<Id>, d: Id)
    requires c in h.classes && HeldOk(h, held)
  {
    && IsLowest(h, c, sig, held, d)
    && (h.classes[c].element.Some? ==> d == h.cloneable || !MayTake(h, c, sig, held, h.cloneable))
  }

  ghost predicate NoPick(h: Types, c: Id, sig: Signature, held: Option<Id>)
    requires c in h.classes && HeldOk(h, held)
  {
    forall d :: !MayTake(h, c, sig, held, d)
  }

  /**
   A list of classes, one below the other: from c up the superclass chain, each class that has defaults below the last
   one of the list adds a lowest one of them.
   */
  ghost predicate IsTrail(h: Types, c: Id, sig: Signature, held: Option<Id>, trail: seq<Id>)
    requires c in h.classes && HeldOk(h, held)
    decreases h.classes[c].rank, 1
  {
    if NoPick(h, c, sig, held) then IsTrailAbove(h, c, sig, held, trail)
    else
      && trail != [] && IsPick(h, c, sig, held, trail[0])
      && IsTrailAbove(h, c, sig, Some(trail[0]), trail[1..])
  }

  ghost predicate IsTrailAbove(h: Types, c: Id, sig: Signature, held: Option<Id>, trail: seq<Id>)
    requires c in h.classes && HeldOk(h, held)
    decreases h.classes[c].rank, 0
  {
    assert ClassOk(h, c);
    match h.classes[c].super
    case None => trail == []
    case Some(s) => IsTrail(h, s, sig, held, trail)
  }

  function EndOf(held: Option<Id>, trail: seq<Id>): Option<Id>
  {
    if trail == [] then held else Some(trail[|trail| - 1])
  }

  // ---- the search follows a trail ----

  function Level(h: Types, c: Id): (ms: seq<Ref>)
    requires c in h.classes
    ensures AllValid(h, ms)
  {
    VisitedFirst(h, c, |h.classes[c].interfaces|)
  }

  lemma LevelExactly(h: Types, c: Id, m: Ref)
    requires c in h.classes
    ensures m in Level(h, c) <==> Valid(h, m) && InLevel(h, c, m.clazz)
  {
    VisitedFirstExactly(h, c, |h.classes[c].interfaces|, m);
  }

  /** What the own part of c leaves is a pick, or what was held if there is none. */
  lemma LevelPicks(h: Types, c: Id, sig: Signature, found: Found)
    requires c in h.classes && FoundOk(h, found)
    ensures var r := Pass(h, Level(h, c), sig, found);
            if NoPick(h, c, sig, HeldBy(found)) then r.maxSpecific == found.maxSpecific
            else r.maxSpecific.Some? && IsLowest(h, c, sig, HeldBy(found), r.maxSpecific.value.clazz)
  {
    var r := Pass(h, Level(h, c), sig, found);
    PassSettles(h, Level(h, c), sig, found);
    if r.maxSpecific != found.maxSpecific {
      LevelExactly(h, c, r.maxSpecific.value);
      assert MayTake(h, c, sig, HeldBy(found), r.maxSpecific.value.clazz);
    }
    forall d | MayTake(h, c, sig, HeldBy(found), d) ensures !Improves(h, d, HeldBy(r)) {
      var i: nat :| IsDefault(h, Ref(d, i), sig);
      LevelExactly(h, c, Ref(d, i));
    }
  }

  /** When t is held and nothing of the level is below it, t is held at its end. */
  lemma {:induction false} Stays(h: Types, c: Id, sig: Signature, found: Found, t: Id, k: nat, n: nat)
    requires c in h.classes && t in h.classes && k <= n <= |h.classes[c].interfaces| && FoundOk(h, found)
    requires HeldBy(Pass(h, VisitedFirst(h, c, k), sig, found)) == Some(t) && NothingBelow(h, c, sig, t)
    ensures HeldBy(Pass(h, VisitedFirst(h, c, n), sig, found)) == Some(t)
    decreases n
  {
    if k < n {
      Stays(h, c, sig, found, t, k, n - 1);
      InterfaceIsBelow(h, c, n - 1);
      PassInterface(h, c, n - 1, sig, found);
      StaysInside(h, c, h.classes[c].interfaces[n - 1], sig, Pass(h, VisitedFirst(h, c, n - 1), sig, found), t);
    }
  }

  ghost predicate NothingBelow(h: Types, c: Id, sig: Signature, t: Id)
    requires c in h.classes && t in h.classes
  {
    forall e :: InLevel(h, c, e) && HasDefault(h, e, sig) ==> !IsSubclassOf(h, e, t)
  }

  lemma StaysInside(h: Types, c: Id, i: Id, sig: Signature, found: Found, t: Id)
    requires c in h.classes && t in h.classes && i in h.classes[c].interfaces && i in h.classes && FoundOk(h, found)
    requires HeldBy(found) == Some(t) && NothingBelow(h, c, sig, t)
    ensures HeldBy(Pass(h, Visited(h, i), sig, found)) == Some(t)
  {
    forall m | m in Visited(h, i) && IsDefault(h, m, sig) ensures !Improves(h, m.clazz, HeldBy(found)) {
      VisitedExactly(h, i, m);
      InterfaceInLevel(h, c, i, m.clazz);
      DefaultOf(h, m, sig);
    }
    NothingImproves(h, Visited(h, i), sig, found);
  }

  lemma DefaultOf(h: Types, m: Ref, sig: Signature)
    requires IsDefault(h, m, sig)
    ensures HasDefault(h, m.clazz, sig)
  {
    assert m == Ref(m.clazz, m.index);
  }

  lemma NothingImproves(h: Types, ms: seq<Ref>, sig: Signature, found: Found)
    requires AllValid(h, ms) && FoundOk(h, found)
    requires forall m :: m in ms && IsDefault(h, m, sig) ==> !Improves(h, m.clazz, HeldBy(found))
    ensures Pass(h, ms, sig, found).maxSpecific == found.maxSpecific
  {
    PassSettles(h, ms, sig, found);
  }

  lemma InterfaceInLevel(h: Types, c: Id, i: Id, d: Id)
    requires c in h.classes && i in h.classes[c].interfaces && i in h.classes && AtOrAbove(h, i, d)
    ensures InLevel(h, c, d) && AtOrAbove(h, c, d)
  {
    var k :| 0 <= k < |h.classes[c].interfaces| && h.classes[c].interfaces[k] == i;
    SubclassStep(h, c, i, d);
  }

  // ---- an array class ----

  lemma ArrayLevel(h: Types, c: Id, sig: Signature, d: Id)
    requires c in h.classes && h.classes[c].element.Some? && InLevel(h, c, d) && HasDefault(h, d, sig)
    ensures h.classes[c].interfaces == [h.cloneable, h.serializable] && (d == h.cloneable || d == h.serializable)
  {
    assert ClassOk(h, c);
    AboveMarker(h, h.cloneable, d);
    AboveMarker(h, h.serializable, d);
    RootHasNoDefault(h, sig);
  }

  lemma RootHasNoDefault(h: Types, sig: Signature)
    ensures !HasDefault(h, h.root, sig)
  {
    assert ClassOk(h, h.root);
  }

  lemma OwnKeeps(h: Types, c: Id, sig: Signature, found: Found)
    requires c in h.classes && FoundOk(h, found) && !HasDefault(h, c, sig)
    ensures Pass(h, VisitedFirst(h, c, 0), sig, found).maxSpecific == found.maxSpecific
  {
    forall m | m in Own(h, c) ensures !IsDefault(h, m, sig) {
      if IsDefault(h, m, sig) {
        DefaultOf(h, m, sig);
      }
    }
    NothingImproves(h, Own(h, c), sig, found);
  }

  lemma ArrayTakesCloneable(h: Types, c: Id, sig: Signature, found: Found)
    requires c in h.classes && h.classes[c].element.Some? && FoundOk(h, found)
    requires MayTake(h, c, sig, HeldBy(found), h.cloneable)
    ensures HeldBy(Pass(h, Level(h, c), sig, found)) == Some(h.cloneable)
  {
    assert ClassOk(h, c);
    ArrayLevel(h, c, sig, h.cloneable);
    OwnKeeps(h, c, sig, found);
    var found' := Pass(h, VisitedFirst(h, c, 0), sig, found);
    PassInterface(h, c, 0, sig, found);
    TakesMarker(h, h.cloneable, sig, found');
    forall e | InLevel(h, c, e) && HasDefault(h, e, sig) ensures !IsSubclassOf(h, e, h.cloneable) {
      ArrayLevel(h, c, sig, e);
      AboveMarker(h, e, h.cloneable);
      RootHasNoDefault(h, sig);
    }
    Stays(h, c, sig, found, h.cloneable, 1, 2);
  }

  lemma TakesMarker(h: Types, i: Id, sig: Signature, found: Found)
    requires IsMarkerInterface(h, i) && HasDefault(h, i, sig) && FoundOk(h, found) && Improves(h, i, HeldBy(found))
    ensures HeldBy(Pass(h, Visited(h, i), sig, found)) == Some(i)
  {
    var r := Pass(h, Visited(h, i), sig, found);
    PassSettles(h, Visited(h, i), sig, found);
    var j: nat :| IsDefault(h, Ref(i, j), sig);
    VisitedExactly(h, i, Ref(i, j));
    if r.maxSpecific != found.maxSpecific {
      var m := r.maxSpecific.value;
      DefaultOf(h, m, sig);
      VisitedExactly(h, i, m);
      AboveMarker(h, i, m.clazz);
      RootHasNoDefault(h, sig);
    }
  }

  /** The search in the order that the hierarchy gives. */
  lemma LevelIsPick(h: Types, c: Id, sig: Signature, found: Found)
    requires c in h.classes && FoundOk(h, found) && !NoPick(h, c, sig, HeldBy(found))
    ensures var r := Pass(h, Level(h, c), sig, found);
            r.maxSpecific.Some? && IsPick(h, c, sig, HeldBy(found), r.maxSpecific.value.clazz)
  {
    LevelPicks(h, c, sig, found);
    if h.classes[c].element.Some? && MayTake(h, c, sig, HeldBy(found), h.cloneable) {
      ArrayTakesCloneable(h, c, sig, found);
    }
  }

  lemma {:induction false} SearchFollowsTrail(h: Types, c: Id, sig: Signature, found: Found) returns (trail: seq<Id>)
    requires c in h.classes && FoundOk(h, found)
    ensures IsTrail(h, c, sig, HeldBy(found), trail)
    ensures HeldBy(Pass(h, Visited(h, c), sig, found)) == EndOf(HeldBy(found), trail)
    decreases h.classes[c].rank
  {
    var k := h.classes[c];
    var first := Pass(h, Level(h, c), sig, found);
    LevelPicks(h, c, sig, found);
    PassSuper(h, c, sig, found);
    var rest: seq<Id> := [];
    if k.super.Some? {
      rest := SearchFollowsTrail(h, k.super.value, sig, first);
    }
    assert IsTrailAbove(h, c, sig, HeldBy(first), rest);
    if NoPick(h, c, sig, HeldBy(found)) {
      trail := rest;
    } else {
      LevelIsPick(h, c, sig, found);
      trail := [first.maxSpecific.value.clazz] + rest;
      assert trail[1..] == rest;
    }
  }

  // ---- every trail can be followed ----

  ghost predicate Leads(h: Types, i: Id, t: Id)
  {
    i in h.classes && AtOrAbove(h, i, t)
  }

  /** If some interface of a class leads to t, the first one does. */
  ghost predicate IsFronted(h: Types, t: Id)
  {
    forall c, k {:trigger h.classes[c].interfaces[k]} ::
      (&& c in h.classes && h.classes[c].element.None? && 0 <= k < |h.classes[c].interfaces|
       && Leads(h, h.classes[c].interfaces[k], t)) ==> Leads(h, h.classes[c].interfaces[0], t)
  }

  /** Then the search goes straight to t, if nothing on the way is below it. */
  lemma {:induction false} GoesStraight(h: Types, c: Id, sig: Signature, found: Found, t: Id)
    requires c in h.classes && h.classes[c].element.None? && FoundOk(h, found) && IsFronted(h, t)
    requires MayTake(h, c, sig, HeldBy(found), t) && NothingBelow(h, c, sig, t)
    ensures HeldBy(Pass(h, Level(h, c), sig, found)) == Some(t)
    decreases h.classes[c].rank
  {
    var n := |h.classes[c].interfaces|;
    if c == t {
      TakesOwn(h, c, sig, found);
      Stays(h, c, sig, found, t, 0, n);
    } else {
      var i := FirstLeads(h, c, t);
      OwnIsNoDefault(h, c, sig, t);
      OwnKeeps(h, c, sig, found);
      var found' := Pass(h, VisitedFirst(h, c, 0), sig, found);
      PassInterface(h, c, 0, sig, found);
      InnerLevel(h, c, i, sig, t);
      GoesStraight(h, i, sig, found', t);
      InterfaceEnds(h, i, sig, found');
      Stays(h, c, sig, found, t, 1, n);
    }
  }

  lemma TakesOwn(h: Types, c: Id, sig: Signature, found: Found)
    requires c in h.classes && FoundOk(h, found) && HasDefault(h, c, sig) && Improves(h, c, HeldBy(found))
    ensures HeldBy(Pass(h, VisitedFirst(h, c, 0), sig, found)) == Some(c)
  {
    PassSettles(h, Own(h, c), sig, found);
    var j: nat :| IsDefault(h, Ref(c, j), sig);
    assert Own(h, c)[j] == Ref(c, j);
  }

  lemma FirstLeads(h: Types, c: Id, t: Id) returns (i: Id)
    requires c in h.classes && h.classes[c].element.None? && c != t && InLevel(h, c, t) && IsFronted(h, t)
    ensures |h.classes[c].interfaces| > 0 && i == h.classes[c].interfaces[0] && Leads(h, i, t)
    ensures IsInterface(h, i) && h.classes[i].element.None? && h.classes[i].rank < h.classes[c].rank
  {
    var direct := h.classes[c].interfaces;
    var k :| 0 <= k < |direct| && direct[k] in h.classes && AtOrAbove(h, direct[k], t);
    assert Leads(h, h.classes[c].interfaces[k], t);
    i := h.classes[c].interfaces[0];
    assert ClassOk(h, c);
    assert ClassOk(h, i);
  }

  lemma LevelIsAbove(h: Types, c: Id, d: Id)
    requires c in h.classes && InLevel(h, c, d)
    ensures AtOrAbove(h, c, d)
  {
    if d != c {
      var direct := h.classes[c].interfaces;
      var k :| 0 <= k < |direct| && direct[k] in h.classes && AtOrAbove(h, direct[k], d);
      InterfaceInLevel(h, c, direct[k], d);
    }
  }

  lemma OwnIsNoDefault(h: Types, c: Id, sig: Signature, t: Id)
    requires c in h.classes && c != t && InLevel(h, c, t) && NothingBelow(h, c, sig, t)
    ensures !HasDefault(h, c, sig)
  {
    LevelIsAbove(h, c, t);
    assert InLevel(h, c, c);
  }

  lemma AboveInterface(h: Types, i: Id, sig: Signature, t: Id)
    requires IsInterface(h, i) && AtOrAbove(h, i, t) && HasDefault(h, t, sig)
    ensures InLevel(h, i, t)
  {
    AboveSplits(h, i, t);
    NothingAboveRoot(h, t);
    RootHasNoDefault(h, sig);
  }

  lemma InnerLevel(h: Types, c: Id, i: Id, sig: Signature, t: Id)
    requires c in h.classes && i in h.classes[c].interfaces && IsInterface(h, i) && Leads(h, i, t)
    requires HasDefault(h, t, sig) && NothingBelow(h, c, sig, t)
    ensures InLevel(h, i, t) && NothingBelow(h, i, sig, t)
  {
    AboveInterface(h, i, sig, t);
    forall e | InLevel(h, i, e) && HasDefault(h, e, sig) ensures !IsSubclassOf(h, e, t) {
      LevelIsAbove(h, i, e);
      InterfaceInLevel(h, c, i, e);
    }
  }

  /** Above an interface only Object is left, which declares no candidate. */
  lemma InterfaceEnds(h: Types, i: Id, sig: Signature, found: Found)
    requires IsInterface(h, i) && FoundOk(h, found)
    ensures Pass(h, Visited(h, i), sig, found).maxSpecific == Pass(h, Level(h, i), sig, found).maxSpecific
  {
    assert ClassOk(h, i);
    PassSuper(h, i, sig, found);
    RootKeeps(h, sig, Pass(h, Level(h, i), sig, found));
  }

  lemma RootKeeps(h: Types, sig: Signature, found: Found)
    requires FoundOk(h, found)
    ensures Pass(h, Visited(h, h.root), sig, found).maxSpecific == found.maxSpecific
  {
    RootHasNoDefault(h, sig);
    forall m | m in Visited(h, h.root) ensures !IsDefault(h, m, sig) {
      VisitedExactly(h, h.root, m);
      NothingAboveRoot(h, m.clazz);
      if IsDefault(h, m, sig) {
        DefaultOf(h, m, sig);
      }
    }
    NothingImproves(h, Visited(h, h.root), sig, found);
  }

  lemma PickIsReached(h: Types, c: Id, sig: Signature, found: Found, t: Id)
    requires c in h.classes && FoundOk(h, found) && IsPick(h, c, sig, HeldBy(found), t) && IsFronted(h, t)
    ensures HeldBy(Pass(h, Level(h, c), sig, found)) == Some(t)
  {
    if h.classes[c].element.None? {
      LowestHasNothingBelow(h, c, sig, HeldBy(found), t);
      GoesStraight(h, c, sig, found, t);
    } else {
      LevelIsPick(h, c, sig, found);
      ArrayLevel(h, c, sig, t);
      ArrayLevel(h, c, sig, Pass(h, Level(h, c), sig, found).maxSpecific.value.clazz);
    }
  }

  lemma LowestHasNothingBelow(h: Types, c: Id, sig: Signature, held: Option<Id>, t: Id)
    requires c in h.classes && HeldOk(h, held) && IsLowest(h, c, sig, held, t)
    ensures NothingBelow(h, c, sig, t)
  {
    forall e | InLevel(h, c, e) && HasDefault(h, e, sig) ensures !IsSubclassOf(h, e, t) {
      if IsSubclassOf(h, e, t) {
        ImprovesMore(h, e, t, held);
      }
    }
  }

  lemma {:induction false} TrailIsFollowed(h: Types, c: Id, sig: Signature, found: Found, trail: seq<Id>)
    requires c in h.classes && FoundOk(h, found) && IsTrail(h, c, sig, HeldBy(found), trail)
    requires forall t :: t in trail ==> IsFronted(h, t)
    ensures HeldBy(Pass(h, Visited(h, c), sig, found)) == EndOf(HeldBy(found), trail)
    decreases h.classes[c].rank
  {
    var k := h.classes[c];
    var first := Pass(h, Level(h, c), sig, found);
    PassSuper(h, c, sig, found);
    if NoPick(h, c, sig, HeldBy(found)) {
      LevelPicks(h, c, sig, found);
      if k.super.Some? {
        TrailIsFollowed(h, k.super.value, sig, first, trail);
      }
    } else {
      PickIsReached(h, c, sig, found, trail[0]);
      if k.super.Some? {
        TrailIsFollowed(h, k.super.value, sig, first, trail[1..]);
      }
    }
  }

  // ---- other orders of the interfaces ----

  /** The same classes, whose interfaces may come in another order. */
  ghost predicate Reordered(h: Hierarchy, h': Hierarchy)
  {
    && h'.root == h.root && h'.cloneable == h.cloneable && h'.serializable == h.serializable
    && h'.classes.Keys == h.classes.Keys
    && forall c {:trigger h'.classes[c]} :: c in h.classes ==> SameButOrder(h.classes[c], h'.classes[c])
  }

  predicate SameButOrder(k: Class, k': Class)
  {
    k' == k.(interfaces := k'.interfaces) && multiset(k'.interfaces) == multiset(k.interfaces)
  }

  lemma ReorderedBack(h: Hierarchy, h': Hierarchy)
    requires Reordered(h, h')
    ensures Reordered(h', h)
  {
    forall c {:trigger h.classes[c]} | c in h'.classes ensures SameButOrder(h'.classes[c], h.classes[c]) {
      assert SameButOrder(h.classes[c], h'.classes[c]);
    }
  }

  lemma SameInterfaces(h: Hierarchy, h': Hierarchy, c: Id, i: Id)
    requires Reordered(h, h') && c in h.classes
    ensures i in h'.classes[c].interfaces <==> i in h.classes[c].interfaces
  {
    assert SameButOrder(h.classes[c], h'.classes[c]);
    assert multiset(h'.classes[c].interfaces)[i] == multiset(h.classes[c].interfaces)[i];
  }

  lemma {:induction false} SubclassReordered(h: Types, h': Types, c: Id, d: Id)
    requires Reordered(h, h') && c in h.classes && d in h.classes && IsSubclassOf(h, c, d)
    ensures IsSubclassOf(h', c, d)
    decreases h.classes[c].rank
  {
    var k := h.classes[c];
    assert ClassOk(h, c) && SameButOrder(k, h'.classes[c]);
    if k.super == Some(d) {
      SubclassStep(h', c, d, d);
    } else if d in k.interfaces {
      SameInterfaces(h, h', c, d);
      SubclassStep(h', c, d, d);
    } else if k.super.Some? && IsSubclassOf(h, k.super.value, d) {
      SubclassReordered(h, h', k.super.value, d);
      SubclassStep(h', c, k.super.value, d);
    } else {
      var j :| 0 <= j < |k.interfaces| && IsSubclassOf(h, k.interfaces[j], d);
      SubclassReordered(h, h', k.interfaces[j], d);
      SameInterfaces(h, h', c, k.interfaces[j]);
      SubclassStep(h', c, k.interfaces[j], d);
    }
  }

  lemma SameSubclasses(h: Types, h': Types)
    requires Reordered(h, h')
    ensures forall c, d :: c in h.classes && d in h.classes ==> (IsSubclassOf(h, c, d) <==> IsSubclassOf(h', c, d))
  {
    ReorderedBack(h, h');
    forall c, d | c in h.classes && d in h.classes ensures IsSubclassOf(h, c, d) <==> IsSubclassOf(h', c, d) {
      if IsSubclassOf(h, c, d) {
        SubclassReordered(h, h', c, d);
      }
      if IsSubclassOf(h', c, d) {
        SubclassReordered(h', h, c, d);
      }
    }
  }

  lemma SameMethods(h: Types, h': Types, m: Ref, sig: Signature)
    requires Reordered(h, h')
    ensures Valid(h, m) <==> Valid(h', m)
    ensures Valid(h, m) ==> InfoOf(h, m) == InfoOf(h', m)
    ensures IsCandidate(h, m, sig) <==> IsCandidate(h', m, sig)
    ensures IsDefault(h, m, sig) <==> IsDefault(h', m, sig)
  {
    if m.clazz in h.classes {
      assert SameButOrder(h.classes[m.clazz], h'.classes[m.clazz]);
    }
  }

  lemma SameDefaults(h: Types, h': Types, sig: Signature, d: Id)
    requires Reordered(h, h')
    ensures HasDefault(h, d, sig) <==> HasDefault(h', d, sig)
  {
    forall i: nat ensures IsDefault(h, Ref(d, i), sig) <==> IsDefault(h', Ref(d, i), sig) {
      SameMethods(h, h', Ref(d, i), sig);
    }
  }

  lemma LevelReordered(h: Types, h': Types, c: Id, d: Id)
    requires Reordered(h, h') && c in h.classes && InLevel(h, c, d)
    ensures InLevel(h', c, d)
  {
    if d != c {
      var direct, direct' := h.classes[c].interfaces, h'.classes[c].interfaces;
      var k :| 0 <= k < |direct| && direct[k] in h.classes && AtOrAbove(h, direct[k], d);
      SameInterfaces(h, h', c, direct[k]);
      var k' :| 0 <= k' < |direct'| && direct'[k'] == direct[k];
      SameSubclasses(h, h');
    }
  }

  lemma SameTakes(h: Types, h': Types, c: Id, sig: Signature, held: Option<Id>)
    requires Reordered(h, h') && c in h.classes && HeldOk(h, held)
    ensures forall d :: MayTake(h, c, sig, held, d) <==> MayTake(h', c, sig, held, d)
  {
    ReorderedBack(h, h');
    SameSubclasses(h, h');
    forall d ensures MayTake(h, c, sig, held, d) <==> MayTake(h', c, sig, held, d) {
      SameDefaults(h, h', sig, d);
      if InLevel(h, c, d) {
        LevelReordered(h, h', c, d);
      }
      if InLevel(h', c, d) {
        LevelReordered(h', h, c, d);
      }
    }
  }

  lemma SamePicks(h: Types, h': Types, c: Id, sig: Signature, held: Option<Id>)
    requires Reordered(h, h') && c in h.classes && HeldOk(h, held)
    ensures NoPick(h, c, sig, held) <==> NoPick(h', c, sig, held)
    ensures forall d :: IsPick(h, c, sig, held, d) <==> IsPick(h', c, sig, held, d)
  {
    SameTakes(h, h', c, sig, held);
    SameSubclasses(h, h');
    assert SameButOrder(h.classes[c], h'.classes[c]);
  }

  /** Trails do not depend on the order. */
  lemma {:induction false} TrailReordered(h: Types, h': Types, c: Id, sig: Signature, held: Option<Id>, trail: seq<Id>)
    requires Reordered(h, h') && c in h.classes && HeldOk(h, held) && IsTrail(h, c, sig, held, trail)
    ensures IsTrail(h', c, sig, held, trail)
    decreases h.classes[c].rank
  {
    SamePicks(h, h', c, sig, held);
    assert ClassOk(h, c) && SameButOrder(h.classes[c], h'.classes[c]);
    var super := h.classes[c].super;
    if super.Some? {
      if NoPick(h, c, sig, held) {
        TrailReordered(h, h', super.value, sig, held, trail);
      } else {
        TrailReordered(h, h', super.value, sig, Some(trail[0]), trail[1..]);
      }
    }
  }

  // ---- the order in which a trail is followed ----

  /** Each class is below the one before it. */
  ghost predicate Descends(h: Types, trail: seq<Id>)
  {
    && (forall t :: t in trail ==> t in h.classes)
    && forall j, k :: 0 <= j < k < |trail| ==> IsSubclassOf(h, trail[k], trail[j])
  }

  lemma {:induction false} TrailDescends(h: Types, c: Id, sig: Signature, held: Option<Id>, trail: seq<Id>)
    requires c in h.classes && HeldOk(h, held) && IsTrail(h, c, sig, held, trail)
    ensures Descends(h, trail) && forall t :: t in trail ==> Improves(h, t, held)
    decreases h.classes[c].rank
  {
    assert ClassOk(h, c);
    var super := h.classes[c].super;
    if NoPick(h, c, sig, held) {
      if super.Some? {
        TrailDescends(h, super.value, sig, held, trail);
      }
    } else {
      var rest := trail[1..];
      if super.Some? {
        TrailDescends(h, super.value, sig, Some(trail[0]), rest);
      }
      forall t | t in rest ensures Improves(h, t, held) {
        ImprovesMore(h, t, trail[0], held);
      }
      assert trail == [trail[0]] + rest;
      DescendsBelow(h, trail[0], rest);
    }
  }

  lemma DescendsBelow(h: Types, t: Id, rest: seq<Id>)
    requires t in h.classes && Descends(h, rest) && forall u :: u in rest ==> Improves(h, u, Some(t))
    ensures Descends(h, [t] + rest)
  {
    var trail := [t] + rest;
    forall j, k | 0 <= j < k < |trail| ensures IsSubclassOf(h, trail[k], trail[j]) {
      if j == 0 {
        assert trail[k] in rest;
      } else {
        assert trail[k] == rest[k - 1] && trail[j] == rest[j - 1];
      }
    }
  }

  /** The interface to visit first: one that leads as far down the trail as possible. */
  ghost function Favourite(h: Types, direct: seq<Id>, trail: seq<Id>): (r: nat)
    requires direct != [] && Descends(h, trail)
    ensures r < |direct|
    ensures forall k, t {:trigger direct[k], t in trail} ::
      0 <= k < |direct| && t in trail && Leads(h, direct[k], t) ==> Leads(h, direct[r], t)
  {
    if trail == [] then 0
    else
      var last := trail[|trail| - 1];
      if k :| 0 <= k < |direct| && Leads(h, direct[k], last) then
        (LeadsFurther(h, direct[k], trail); k)
      else
        assert trail == trail[..|trail| - 1] + [last];
        Favourite(h, direct, trail[..|trail| - 1])
  }

  lemma LeadsFurther(h: Types, i: Id, trail: seq<Id>)
    requires trail != [] && Descends(h, trail) && Leads(h, i, trail[|trail| - 1])
    ensures forall t :: t in trail ==> Leads(h, i, t)
  {
    var n := |trail| - 1;
    forall t | t in trail ensures Leads(h, i, t) {
      var j :| 0 <= j <= n && trail[j] == t;
      if j < n && i != trail[n] {
        SubclassTransitive(h, i, trail[n], t);
      }
    }
  }

  function ToFront(direct: seq<Id>, k: nat): seq<Id>
    requires k < |direct|
  {
    [direct[k]] + direct[..k] + direct[k + 1..]
  }

  lemma FrontIsPermutation(direct: seq<Id>, k: nat)
    requires k < |direct|
    ensures multiset(ToFront(direct, k)) == multiset(direct)
  {
    assert direct == direct[..k] + [direct[k]] + direct[k + 1..];
  }

  /** The hierarchy in which the trail is followed. */
  ghost function ClassFor(h: Types, c: Id, trail: seq<Id>): Class
    requires c in h.classes && Descends(h, trail)
  {
    var k := h.classes[c];
    if k.element.Some? || k.interfaces == [] then k
    else k.(interfaces := ToFront(k.interfaces, Favourite(h, k.interfaces, trail)))
  }

  ghost function OrderFor(h: Types, trail: seq<Id>): Hierarchy
    requires Descends(h, trail)
  {
    h.(classes := map c | c in h.classes :: ClassFor(h, c, trail))
  }

  lemma OrderIsReordered(h: Types, trail: seq<Id>)
    requires Descends(h, trail)
    ensures Reordered(h, OrderFor(h, trail)) && WellFormed(OrderFor(h, trail))
  {
    var h' := OrderFor(h, trail);
    forall c {:trigger h'.classes[c]} | c in h.classes ensures SameButOrder(h.classes[c], h'.classes[c]) {
      var k := h.classes[c];
      if k.element.None? && k.interfaces != [] {
        FrontIsPermutation(k.interfaces, Favourite(h, k.interfaces, trail));
      }
    }
    forall c {:trigger ClassOk(h', c)} | c in h'.classes ensures ClassOk(h', c) {
      ReorderedIsOk(h, h', c);
    }
    MarkersStay(h, h');
  }

  lemma ReorderedIsOk(h: Types, h': Hierarchy, c: Id)
    requires Reordered(h, h') && c in h.classes
    requires h.classes[c].element.Some? ==> h'.classes[c] == h.classes[c]
    ensures ClassOk(h', c)
  {
    assert ClassOk(h, c) && SameButOrder(h.classes[c], h'.classes[c]);
    var direct := h'.classes[c].interfaces;
    forall i {:trigger direct[i]} | 0 <= i < |direct| ensures Refers(h', c, direct[i]) && IsInterface(h', direct[i]) {
      SameInterfaces(h, h', c, direct[i]);
      var j :| 0 <= j < |h.classes[c].interfaces| && h.classes[c].interfaces[j] == direct[i];
      assert SameButOrder(h.classes[direct[i]], h'.classes[direct[i]]);
    }
  }

  lemma MarkersStay(h: Types, h': Hierarchy)
    requires Reordered(h, h')
    ensures IsMarkerInterface(h', h'.cloneable) && IsMarkerInterface(h', h'.serializable)
    ensures h'.classes[h'.root].super.None?
  {
    assert SameButOrder(h.classes[h.cloneable], h'.classes[h.cloneable]);
    assert SameButOrder(h.classes[h.serializable], h'.classes[h.serializable]);
    assert SameButOrder(h.classes[h.root], h'.classes[h.root]);
    assert |multiset(h'.classes[h.cloneable].interfaces)| == 0;
    assert |multiset(h'.classes[h.serializable].interfaces)| == 0;
  }

  lemma OrderIsFronted(h: Types, h': Types, trail: seq<Id>, t: Id)
    requires Descends(h, trail) && h' == OrderFor(h, trail) && t in trail && Reordered(h, h')
    ensures IsFronted(h', t)
  {
    SameSubclasses(h, h');
    forall c, k {:trigger h'.classes[c].interfaces[k]} | c in h'.classes && h'.classes[c].element.None?
      && 0 <= k < |h'.classes[c].interfaces| && Leads(h', h'.classes[c].interfaces[k], t)
      ensures Leads(h', h'.classes[c].interfaces[0], t)
    {
      var direct := h.classes[c].interfaces;
      SameInterfaces(h, h', c, h'.classes[c].interfaces[k]);
      var j :| 0 <= j < |direct| && direct[j] == h'.classes[c].interfaces[k];
      assert Leads(h, direct[j], t);
      assert h'.classes[c].interfaces[0] == direct[Favourite(h, direct, trail)];
    }
  }

  // ---- exactly what can be found ----

  /** In some order of the interfaces the search ends with a default of this class, or without one. */
  ghost predicate CanEnd(h: Types, c: Id, sig: Signature, r: Option<Id>)
    requires c in h.classes
  {
    exists h': Types :: Reordered(h, h') && HeldBy(Result(h', Visited(h', c), sig)) == r
  }

  ghost predicate TrailEnds(h: Types, c: Id, sig: Signature, r: Option<Id>)
    requires c in h.classes
  {
    exists trail :: IsTrail(h, c, sig, None, trail) && r == EndOf(None, trail)
  }

  lemma SearchCanEndIff(h: Types, c: Id, sig: Signature, r: Option<Id>)
    requires c in h.classes
    ensures CanEnd(h, c, sig, r) <==> TrailEnds(h, c, sig, r)
  {
    if CanEnd(h, c, sig, r) {
      var h': Types :| Reordered(h, h') && HeldBy(Result(h', Visited(h', c), sig)) == r;
      var trail := SearchFollowsTrail(h', c, sig, Found(None, None));
      ReorderedBack(h, h');
      TrailReordered(h', h, c, sig, None, trail);
    }
    if TrailEnds(h, c, sig, r) {
      var trail :| IsTrail(h, c, sig, None, trail) && r == EndOf(None, trail);
      TrailIsPossible(h, c, sig, trail);
    }
  }

  lemma TrailIsPossible(h: Types, c: Id, sig: Signature, trail: seq<Id>)
    requires c in h.classes && IsTrail(h, c, sig, None, trail)
    ensures CanEnd(h, c, sig, EndOf(None, trail))
  {
    TrailDescends(h, c, sig, None, trail);
    OrderIsReordered(h, trail);
    var h': Types := OrderFor(h, trail);
    TrailReordered(h, h', c, sig, None, trail);
    forall t | t in trail ensures IsFronted(h', t) {
      OrderIsFronted(h, h', trail, t);
    }
    TrailIsFollowed(h', c, sig, Found(None, None), trail);
  }

  // ---- against sections 5.4.3.3 and 5.4.6 of JVMS SE 16 ----

  /** The default that is found is the method that JVMS selects. */
  ghost predicate SelectsChosen(h: Types, c: Id, sig: Signature)
    requires c in h.classes
  {
    var found := Result(h, Visited(h, c), sig).maxSpecific;
    found.Some? && IsChosen(h, c, sig, found.value)
  }

  /** If there is a method that JVMS resolves to for sure, it is found. */
  ghost predicate ResolvesChosen(h: Types, c: Id, sig: Signature)
    requires c in h.classes
  {
    forall m :: IsChosen(h, c, sig, m) ==> Result(h, Visited(h, c), sig).maxSpecific == Some(m)
  }

  lemma SameAbove(h: Types, h': Types, c: Id, m: Ref)
    requires Reordered(h, h') && c in h.classes
    ensures Above(h, c, m) <==> Above(h', c, m)
  {
    SameSubclasses(h, h');
    if m.clazz in h.classes {
      assert SameButOrder(h.classes[m.clazz], h'.classes[m.clazz]);
    }
  }

  lemma SameMaximal(h: Types, h': Types, c: Id, sig: Signature, m: Ref)
    requires Reordered(h, h') && c in h.classes && IsMaximallySpecific(h, c, sig, m)
    ensures IsMaximallySpecific(h', c, sig, m) && InfoOf(h', m) == InfoOf(h, m)
  {
    SameSubclasses(h, h');
    forall n ensures Above(h, c, n) && IsCandidate(h, n, sig) <==> Above(h', c, n) && IsCandidate(h', n, sig) {
      SameAbove(h, h', c, n);
      SameMethods(h, h', n, sig);
    }
    SameMethods(h, h', m, sig);
  }

  /** What JVMS chooses does not depend on the order. */
  lemma SameChosen(h: Types, h': Types, c: Id, sig: Signature, m: Ref)
    requires Reordered(h, h') && c in h.classes && IsChosen(h, c, sig, m)
    ensures IsChosen(h', c, sig, m)
  {
    SameMaximal(h, h', c, sig, m);
    ReorderedBack(h, h');
    forall n | IsMaximallySpecific(h', c, sig, n) && !InfoOf(h', n).isAbstract ensures n == m {
      SameMaximal(h', h, c, sig, n);
    }
  }

  /** To find the class of the chosen method is to find it. */
  lemma ChosenClassIsFound(h: Types, c: Id, sig: Signature, m: Ref)
    requires c in h.classes && IsChosen(h, c, sig, m)
    ensures var found := Result(h, Visited(h, c), sig);
            HeldBy(found) == Some(m.clazz) <==> found.maxSpecific == Some(m)
  {
    SearchIsMostSpecific(h, c, sig);
    var found := Result(h, Visited(h, c), sig);
    if HeldBy(found) == Some(m.clazz) {
      assert IsMaximallySpecific(h, c, sig, found.maxSpecific.value);
    }
  }

  /** Every trail ends at the class of m. */
  ghost predicate AllEndAt(h: Types, c: Id, sig: Signature, m: Ref)
    requires c in h.classes
  {
    forall r :: TrailEnds(h, c, sig, r) ==> r == Some(m.clazz)
  }

  ghost predicate FoundInAllOrders(h: Types, c: Id, sig: Signature, m: Ref)
    requires c in h.classes
  {
    forall h': Types :: Reordered(h, h') ==> Result(h', Visited(h', c), sig).maxSpecific == Some(m)
  }

  /** The chosen method is found in all orders of the interfaces exactly when every trail ends at it. */
  lemma FoundInAllOrdersIff(h: Types, c: Id, sig: Signature, m: Ref)
    requires c in h.classes && IsChosen(h, c, sig, m)
    ensures FoundInAllOrders(h, c, sig, m) <==> AllEndAt(h, c, sig, m)
  {
    if AllEndAt(h, c, sig, m) {
      forall h': Types | Reordered(h, h') ensures Result(h', Visited(h', c), sig).maxSpecific == Some(m) {
        SearchCanEndIff(h, c, sig, HeldBy(Result(h', Visited(h', c), sig)));
        SameChosen(h, h', c, sig, m);
        ChosenClassIsFound(h', c, sig, m);
      }
    }
    if FoundInAllOrders(h, c, sig, m) {
      forall r | TrailEnds(h, c, sig, r) ensures r == Some(m.clazz) {
        SearchCanEndIff(h, c, sig, r);
      }
    }
  }

  /** Selection takes the right default in all orders of interfaces exactly when all trails end at the chosen one. */
  lemma SelectionIsRightIff(h: Types, c: Id, sig: Signature)
    requires c in h.classes
    ensures (forall h': Types :: Reordered(h, h') ==> SelectsChosen(h', c, sig))
            <==> exists m :: IsChosen(h, c, sig, m) && AllEndAt(h, c, sig, m)
  {
    if m :| IsChosen(h, c, sig, m) && AllEndAt(h, c, sig, m) {
      FoundInAllOrdersIff(h, c, sig, m);
      forall h': Types | Reordered(h, h') ensures SelectsChosen(h', c, sig) {
        SameChosen(h, h', c, sig, m);
      }
    }
    if forall h': Types :: Reordered(h, h') ==> SelectsChosen(h', c, sig) {
      var m := SelectedInAllOrders(h, c, sig);
      FoundInAllOrdersIff(h, c, sig, m);
    }
  }

  lemma SelectedInAllOrders(h: Types, c: Id, sig: Signature) returns (m: Ref)
    requires c in h.classes && forall h': Types :: Reordered(h, h') ==> SelectsChosen(h', c, sig)
    ensures IsChosen(h, c, sig, m) && FoundInAllOrders(h, c, sig, m)
  {
    assert Reordered(h, h);
    m := Result(h, Visited(h, c), sig).maxSpecific.value;
    forall h': Types | Reordered(h, h') ensures Result(h', Visited(h', c), sig).maxSpecific == Some(m) {
      SameChosen(h, h', c, sig, m);
    }
  }

  /** The same for resolution, where there is a method that JVMS resolves to for sure. */
  lemma ResolutionIsRightIff(h: Types, c: Id, sig: Signature)
    requires c in h.classes
    ensures (forall h': Types :: Reordered(h, h') ==> ResolvesChosen(h', c, sig))
            <==> forall m :: IsChosen(h, c, sig, m) ==> AllEndAt(h, c, sig, m)
  {
    if forall h': Types :: Reordered(h, h') ==> ResolvesChosen(h', c, sig) {
      forall m | IsChosen(h, c, sig, m) ensures AllEndAt(h, c, sig, m) {
        forall h': Types | Reordered(h, h') ensures Result(h', Visited(h', c), sig).maxSpecific == Some(m) {
          SameChosen(h, h', c, sig, m);
        }
        FoundInAllOrdersIff(h, c, sig, m);
      }
    }
    if forall m :: IsChosen(h, c, sig, m) ==> AllEndAt(h, c, sig, m) {
      forall h': Types, m | Reordered(h, h') && IsChosen(h', c, sig, m)
        ensures Result(h', Visited(h', c), sig).maxSpecific == Some(m)
      {
        ReorderedBack(h, h');
        SameChosen(h', h, c, sig, m);
        FoundInAllOrdersIff(h, c, sig, m);
      }
    }
  }

  // ---- where superclasses add nothing ----

  /** All defaults come from c and its own interfaces. */
  ghost predicate OneLevel(h: Types, c: Id, sig: Signature)
    requires c in h.classes
  {
    forall d :: d in h.classes && AtOrAbove(h, c, d) && HasDefault(h, d, sig) ==> InLevel(h, c, d)
  }

  /** Below each default there is one that may be picked first. */
  lemma {:induction false} PickBelow(h: Types, c: Id, sig: Signature, d: Id) returns (p: Id)
    requires c in h.classes && h.classes[c].element.None? && MayTake(h, c, sig, None, d)
    ensures IsPick(h, c, sig, None, p) && (p == d || IsSubclassOf(h, p, d))
    decreases h.classes[c].rank + 1 - h.classes[d].rank
  {
    if e :| MayTake(h, c, sig, None, e) && IsSubclassOf(h, e, d) {
      SubclassRank(h, e, d);
      LevelIsAbove(h, c, e);
      if c != e {
        SubclassRank(h, c, e);
      }
      p := PickBelow(h, c, sig, e);
      if p != e {
        SubclassTransitive(h, p, e, d);
      }
    } else {
      p := d;
    }
  }

  lemma LeastIsFoundInAllOrders(h: Types, c: Id, sig: Signature, m: Ref)
    requires c in h.classes && IsLeastDefault(h, c, sig, m)
    ensures FoundInAllOrders(h, c, sig, m)
  {
    forall h': Types | Reordered(h, h') ensures Result(h', Visited(h', c), sig).maxSpecific == Some(m) {
      SameSubclasses(h, h');
      forall n ensures Above(h, c, n) && IsDefault(h, n, sig) <==> Above(h', c, n) && IsDefault(h', n, sig) {
        SameAbove(h, h', c, n);
        SameMethods(h, h', n, sig);
      }
      VisitedEnumerates(h', c);
      LeastDefaultIsFound(h', c, Visited(h', c), sig, m);
    }
  }

  /** A trail that begins with any pick. */
  lemma TrailFrom(h: Types, c: Id, sig: Signature, p: Id) returns (end: Id)
    requires c in h.classes && IsPick(h, c, sig, None, p)
    ensures end in h.classes && (end == p || IsSubclassOf(h, end, p)) && TrailEnds(h, c, sig, Some(end))
  {
    var rest := RestOfTrail(h, c, sig, p);
    var trail := [p] + rest;
    assert trail[1..] == rest;
    assert IsTrail(h, c, sig, None, trail);
    end := if rest == [] then p else rest[|rest| - 1];
    assert EndOf(None, trail) == Some(end);
  }

  lemma RestOfTrail(h: Types, c: Id, sig: Signature, p: Id) returns (rest: seq<Id>)
    requires c in h.classes && p in h.classes && HasDefault(h, p, sig)
    ensures IsTrailAbove(h, c, sig, Some(p), rest)
    ensures forall t :: t in rest ==> t in h.classes && IsSubclassOf(h, t, p)
  {
    assert ClassOk(h, c);
    var i: nat :| IsDefault(h, Ref(p, i), sig);
    rest := [];
    if h.classes[c].super.Some? {
      rest := SearchFollowsTrail(h, h.classes[c].super.value, sig, Found(Some(Ref(p, i)), None));
      TrailDescends(h, h.classes[c].super.value, sig, Some(p), rest);
    }
  }

  /** Two defaults of one class are both chosen or none is. */
  lemma ChosenIsAlone(h: Types, c: Id, sig: Signature, m: Ref, n: Ref)
    requires c in h.classes && IsChosen(h, c, sig, m) && Above(h, c, n) && IsDefault(h, n, sig) && n.clazz == m.clazz
    ensures n == m
  {
    assert IsMaximallySpecific(h, c, sig, n);
  }

  lemma NotLeastIsMissed(h: Types, c: Id, sig: Signature, m: Ref, n: Ref)
    requires c in h.classes && h.classes[c].element.None? && OneLevel(h, c, sig) && IsChosen(h, c, sig, m)
    requires Above(h, c, n) && IsDefault(h, n, sig) && n != m && !IsSubclassOf(h, m.clazz, n.clazz)
    ensures !AllEndAt(h, c, sig, m)
  {
    if n.clazz == m.clazz {
      ChosenIsAlone(h, c, sig, m, n);
    }
    DefaultOf(h, n, sig);
    DefaultOf(h, m, sig);
    var p := PickBelow(h, c, sig, n.clazz);
    assert p != m.clazz;
    assert MayTake(h, c, sig, None, m.clazz);
    var end := TrailFrom(h, c, sig, p);
    assert end != m.clazz;
  }

  lemma ArrayChosenIsLeast(h: Types, c: Id, sig: Signature, m: Ref)
    requires c in h.classes && h.classes[c].element.Some? && OneLevel(h, c, sig) && IsChosen(h, c, sig, m)
    ensures IsLeastDefault(h, c, sig, m)
  {
    DefaultOf(h, m, sig);
    forall n | Above(h, c, n) && IsDefault(h, n, sig) ensures n == m {
      DefaultOf(h, n, sig);
      ArrayLevel(h, c, sig, n.clazz);
      forall k | Above(h, c, k) && IsCandidate(h, k, sig) ensures !IsSubclassOf(h, k.clazz, n.clazz) {
        ArrayCandidates(h, c, sig, k);
        AboveMarker(h, k.clazz, n.clazz);
        RootHasNoDefault(h, sig);
      }
      assert IsMaximallySpecific(h, c, sig, n);
    }
  }

  lemma ArrayCandidates(h: Types, c: Id, sig: Signature, k: Ref)
    requires c in h.classes && h.classes[c].element.Some? && Above(h, c, k) && IsCandidate(h, k, sig)
    ensures k.clazz == h.cloneable || k.clazz == h.serializable
  {
    assert ClassOk(h, c) && ClassOk(h, h.root);
    AboveArray(h, c, k.clazz);
  }

  /** There the chosen method is found in all orders exactly when it is declared below all other defaults. */
  lemma FoundIffLeast(h: Types, c: Id, sig: Signature, m: Ref)
    requires c in h.classes && OneLevel(h, c, sig) && IsChosen(h, c, sig, m)
    ensures FoundInAllOrders(h, c, sig, m) <==> IsLeastDefault(h, c, sig, m)
  {
    FoundInAllOrdersIff(h, c, sig, m);
    if IsLeastDefault(h, c, sig, m) {
      LeastIsFoundInAllOrders(h, c, sig, m);
    } else if h.classes[c].element.Some? {
      ArrayChosenIsLeast(h, c, sig, m);
    } else {
      var n :| Above(h, c, n) && IsDefault(h, n, sig) && n != m && !IsSubclassOf(h, m.clazz, n.clazz);
      NotLeastIsMissed(h, c, sig, m, n);
    }
  }

  lemma InterfaceIsOneLevel(h: Types, c: Id, sig: Signature)
    requires IsInterface(h, c)
    ensures OneLevel(h, c, sig)
  {
    forall d | d in h.classes && AtOrAbove(h, c, d) && HasDefault(h, d, sig) ensures InLevel(h, c, d) {
      AboveInterface(h, c, sig, d);
    }
  }

  // ---- in the order that the hierarchy gives ----

  /** A most specific default is found if each default that is visited before it is declared above it. */
  lemma FoundIfThoseBeforeAreAbove(h: Types, c: Id, sig: Signature, k: nat)
    requires c in h.classes && k < |Visited(h, c)| && IsMostSpecific(h, c, sig, Visited(h, c)[k])
    requires var ms := Visited(h, c);
             forall j :: 0 <= j < k && IsDefault(h, ms[j], sig) ==> IsSubclassOf(h, ms[k].clazz, ms[j].clazz)
    ensures Result(h, Visited(h, c), sig).maxSpecific == Some(Visited(h, c)[k])
  {
    var ms, none := Visited(h, c), Found(None, None);
    var front, m, rest := ms[..k], ms[k], ms[k + 1..];
    var before := Pass(h, front, sig, none);
    PassSettles(h, front, sig, none);
    var now := Pass(h, front + [m], sig, none);
    PassNext(h, front, m, sig);
    assert now.maxSpecific == Some(m);
    assert ms == (front + [m]) + rest;
    PassConcat(h, front + [m], rest, sig, none);
    PassGoesDown(h, rest, sig, now);
    SearchIsMostSpecific(h, c, sig);
  }

  /** A default is missed if the first one that is visited is another one and not declared above it. */
  lemma MissedIfFirstIsNotAbove(h: Types, c: Id, sig: Signature, k: nat, m: Ref)
    requires c in h.classes && k < |Visited(h, c)| && Valid(h, m) && IsDefault(h, Visited(h, c)[k], sig)
    requires forall j :: 0 <= j < k ==> !IsDefault(h, Visited(h, c)[j], sig)
    requires m != Visited(h, c)[k] && !IsSubclassOf(h, m.clazz, Visited(h, c)[k].clazz)
    ensures Result(h, Visited(h, c), sig).maxSpecific != Some(m)
  {
    var ms, none := Visited(h, c), Found(None, None);
    var front, n, rest := ms[..k], ms[k], ms[k + 1..];
    PassSettles(h, front, sig, none);
    PassNext(h, front, n, sig);
    assert ms == (front + [n]) + rest;
    PassConcat(h, front + [n], rest, sig, none);
    PassGoesDown(h, rest, sig, Pass(h, front + [n], sig, none));
  }

  // ---- a class whose superclass implements the other interface ----

  /** E extends D implements K: no default is declared below the other, and still K.m is found in all orders. */
  lemma SuperclassComesLast()
    ensures WellFormed(Redeclaration())
    ensures var h: Types := Redeclaration();
            && IsChosen(h, 8, EXAMPLE, Ref(5, 0)) && FoundInAllOrders(h, 8, EXAMPLE, Ref(5, 0))
            && forall m :: !IsLeastDefault(h, 8, EXAMPLE, m)
  {
    RedeclarationIsWellFormed();
    var h: Types := Redeclaration();
    ChosenInE(h);
    NoneIsLeastInE(h);
    forall r | TrailEnds(h, 8, EXAMPLE, r) ensures r == Some(5) {
      var trail :| IsTrail(h, 8, EXAMPLE, None, trail) && r == EndOf(None, trail);
      TrailInE(h, trail);
    }
    FoundInAllOrdersIff(h, 8, EXAMPLE, Ref(5, 0));
  }

  lemma VisitedFromE(h: Types)
    requires h == Redeclaration()
    ensures Visited(h, 8) == [Ref(5, 0), Ref(4, 0), Ref(3, 0)]
  {
    VisitedBelow(h);
    VisitedFromD(h);
    assert Own(h, 8) == [];
    assert VisitedFirst(h, 8, 1) == VisitedFirst(h, 8, 0) + Visited(h, 5);
  }

  lemma AboveE(h: Types, m: Ref)
    requires h == Redeclaration()
    ensures Above(h, 8, m) <==> m == Ref(4, 0) || m == Ref(3, 0) || m == Ref(5, 0)
  {
    VisitedFromE(h);
    VisitedExactly(h, 8, m);
  }

  lemma ChosenInE(h: Types)
    requires h == Redeclaration()
    ensures IsChosen(h, 8, EXAMPLE, Ref(5, 0))
  {
    SubclassesInExample(h);
    AboveE(h, Ref(5, 0));
    AboveE(h, Ref(4, 0));
    assert IsCandidate(h, Ref(4, 0), EXAMPLE);
    forall n | Above(h, 8, n) ensures !IsSubclassOf(h, n.clazz, 5) {
      AboveE(h, n);
    }
    forall n | IsMaximallySpecific(h, 8, EXAMPLE, n) && !InfoOf(h, n).isAbstract ensures n == Ref(5, 0) {
      AboveE(h, n);
    }
  }

  lemma NoneIsLeastInE(h: Types)
    requires h == Redeclaration()
    ensures forall m :: !IsLeastDefault(h, 8, EXAMPLE, m)
  {
    SubclassesInExample(h);
    AboveE(h, Ref(5, 0));
    AboveE(h, Ref(3, 0));
    assert IsDefault(h, Ref(5, 0), EXAMPLE) && IsDefault(h, Ref(3, 0), EXAMPLE);
    forall m ensures !IsLeastDefault(h, 8, EXAMPLE, m) {
      AboveE(h, m);
    }
  }

  lemma DefaultsInExample(h: Types, d: Id)
    requires h == Redeclaration()
    ensures HasDefault(h, d, EXAMPLE) <==> d == 3 || d == 5
  {
    assert IsDefault(h, Ref(3, 0), EXAMPLE) && IsDefault(h, Ref(5, 0), EXAMPLE);
  }

  lemma {:induction false} NothingBelowK(h: Types, c: Id, trail: seq<Id>)
    requires h == Redeclaration() && c in h.classes && IsTrail(h, c, EXAMPLE, Some(5), trail)
    ensures trail == []
    decreases h.classes[c].rank
  {
    SubclassesInExample(h);
    forall d ensures !MayTake(h, c, EXAMPLE, Some(5), d) {
      DefaultsInExample(h, d);
    }
    assert ClassOk(h, c);
    if h.classes[c].super.Some? {
      NothingBelowK(h, h.classes[c].super.value, trail);
    }
  }

  lemma TakesKFirst(h: Types, d: Id)
    requires h == Redeclaration()
    ensures MayTake(h, 8, EXAMPLE, None, d) <==> d == 5
  {
    SubclassesInExample(h);
    DefaultsInExample(h, d);
    assert h.classes[8].interfaces == [5];
    assert h.classes[8].interfaces[0] == 5;
  }

  lemma TrailInE(h: Types, trail: seq<Id>)
    requires h == Redeclaration() && IsTrail(h, 8, EXAMPLE, None, trail)
    ensures trail == [5]
  {
    TakesKFirst(h, 5);
    TakesKFirst(h, trail[0]);
    NothingBelowK(h, 7, trail[1..]);
    assert trail == [trail[0]] + trail[1..];
  }
}
