/** Class initialization by one thread, with <clinit> bodies that request any classes (section 5.5 of JVMS SE 16). */
module ClassInit {
  import opened Options
  import opened ClassGraph

  /** Claimed is step 6, Started the start of step 9, Finished step 10. */
  datatype Event = Claimed(c: Id) | Started(c: Id) | Finished(c: Id)

  /** The flags of all classes as one thread sees them, and the history. */
  datatype State = State(initializing: set<Id>, initialized: set<Id>, log: seq<Event>)

  /** What the <clinit> of a class asks to initialize, in order; it runs at most once, so a list is enough. */
  type Requests = Id -> seq<Id>

  ghost predicate Touched(s: State, c: Id)
  {
    c in s.initializing || c in s.initialized
  }

  ghost function Untouched(h: Types, s: State): set<Id>
  {
    h.classes.Keys - s.initializing - s.initialized
  }

  // ---- step 7 ----

  function HasDefaultMethod(methods: seq<Method>): bool
  {
    exists m :: m in methods && !m.isAbstract && !m.isStatic
  }

  /** The superinterfaces of c with a default method, each after its own superinterfaces. */
  function Enumeration(h: Types, c: Id): seq<Id>
    requires c in h.classes
    decreases h.classes[c].rank, 1, 0
  {
    EnumerationFirst(h, c, |h.classes[c].interfaces|)
  }

  function EnumerationFirst(h: Types, c: Id, n: nat): seq<Id>
    requires c in h.classes && n <= |h.classes[c].interfaces|
    decreases h.classes[c].rank, 0, n
  {
    if n == 0 then []
    else
      assert ClassOk(h, c);
      var i := h.classes[c].interfaces[n - 1];
      EnumerationFirst(h, c, n - 1) + Enumeration(h, i)
      + if HasDefaultMethod(h.classes[i].methods) then [i] else []
  }

  /** The list [SC, SI1, ..., SIn]; nothing for an interface. */
  function StepSeven(h: Types, c: Id): seq<Id>
    requires c in h.classes
  {
    if h.classes[c].isInterface then []
    else (match h.classes[c].super { case None => [] case Some(s) => [s] }) + Enumeration(h, c)
  }

  // ---- the procedure ----

  ghost predicate Known(h: Types, req: Requests)
  {
    forall c, d {:trigger d in req(c)} :: c in h.classes && d in req(c) ==> d in h.classes
  }

  function Claim(s: State, c: Id): State
  {
    State(s.initializing + {c}, s.initialized, s.log + [Claimed(c)])
  }

  function Start(s: State, c: Id): State
  {
    s.(log := s.log + [Started(c)])
  }

  function Finish(s: State, c: Id): State
  {
    State(s.initializing - {c}, s.initialized + {c}, s.log + [Finished(c)])
  }

  lemma ClaimShrinks(h: Types, s: State, c: Id)
    requires c in Untouched(h, s)
    ensures Untouched(h, Claim(s, c)) < Untouched(h, s)
  {
  }

  /** Later means: the same classes are in progress, and no class is forgotten. */
  ghost predicate Later(s: State, r: State)
  {
    r.initializing == s.initializing && s.initialized <= r.initialized
  }

  lemma LaterShrinks(h: Types, s: State, r: State)
    requires Later(s, r)
    ensures Untouched(h, r) <= Untouched(h, s) && |Untouched(h, r)| <= |Untouched(h, s)|
  {
    Smaller(Untouched(h, r), Untouched(h, s));
  }

  lemma Smaller(a: set<Id>, b: set<Id>)
    requires a <= b
    ensures |a| <= |b| && (a != b ==> |a| < |b|)
  {
    assert b == a + (b - a);
  }

  /** initialize_class for each class of a list, in order. */
  ghost function InitAll(h: Types, req: Requests, todo: seq<Id>, s: State): (r: State)
    requires Known(h, req) && forall c :: c in todo ==> c in h.classes
    ensures Later(s, r)
    decreases |Untouched(h, s)|, |todo|
  {
    if todo == [] then s
    else
      var s1 := Init(h, req, todo[0], s);
      LaterShrinks(h, s, s1);
      InitAll(h, req, todo[1..], s1)
  }

  /** initialize_class: it ends although a <clinit> may ask for any classes, its own included. */
  ghost function Init(h: Types, req: Requests, c: Id, s: State): (r: State)
    requires Known(h, req) && c in h.classes
    ensures Later(s, r)
    decreases |Untouched(h, s)|, 0
  {
    if Touched(s, c) then s
    else
      var s1 := Claim(s, c);
      ClaimShrinks(h, s, c);
      Smaller(Untouched(h, s1), Untouched(h, s));
      StepSevenKnown(h, c);
      var s2 := InitAll(h, req, StepSeven(h, c), s1);
      LaterShrinks(h, s1, s2);
      var s3 := Start(s2, c);
      assert Untouched(h, s3) == Untouched(h, s2);
      Finish(InitAll(h, req, req(c), s3), c)
  }

  lemma {:induction false} EnumerationKnown(h: Types, c: Id, n: nat, d: Id)
    requires c in h.classes && n <= |h.classes[c].interfaces| && d in EnumerationFirst(h, c, n)
    ensures d in h.classes
    decreases h.classes[c].rank, n
  {
    assert ClassOk(h, c);
    var i := h.classes[c].interfaces[n - 1];
    if d in EnumerationFirst(h, c, n - 1) {
      EnumerationKnown(h, c, n - 1, d);
    } else if d in Enumeration(h, i) {
      EnumerationKnown(h, i, |h.classes[i].interfaces|, d);
    }
  }

  lemma StepSevenKnown(h: Types, c: Id)
    requires c in h.classes
    ensures forall d :: d in StepSeven(h, c) ==> d in h.classes
  {
    assert ClassOk(h, c);
    forall d | d in Enumeration(h, c) ensures d in h.classes {
      EnumerationKnown(h, c, |h.classes[c].interfaces|, d);
    }
  }

  /** The superinterfaces of c through its first n interfaces; the supertypes of an interface but Object. */
  ghost predicate IsSuperinterface(h: Types, c: Id, n: nat, d: Id)
    requires c in h.classes && n <= |h.classes[c].interfaces|
  {
    var direct := h.classes[c].interfaces;
    && d in h.classes && h.classes[d].isInterface
    && exists j {:trigger direct[j]} :: 0 <= j < n && direct[j] in h.classes
         && (direct[j] == d || IsSubclassOf(h, direct[j], d))
  }

  lemma AboveInterface(h: Types, i: Id, d: Id)
    requires i in h.classes && h.classes[i].isInterface && d in h.classes && h.classes[d].isInterface
    ensures IsSubclassOf(h, i, d) <==> IsSuperinterface(h, i, |h.classes[i].interfaces|, d)
  {
    assert ClassOk(h, i) && ClassOk(h, h.root);
    NothingAboveRoot(h, d);
  }

  /** The list holds exactly the direct and indirect superinterfaces that declare a default method. */
  lemma {:induction false} EnumerationExactly(h: Types, c: Id, n: nat, d: Id)
    requires c in h.classes && n <= |h.classes[c].interfaces|
    ensures d in EnumerationFirst(h, c, n) <==>
      IsSuperinterface(h, c, n, d) && HasDefaultMethod(h.classes[d].methods)
    decreases h.classes[c].rank, n
  {
    if n > 0 {
      assert ClassOk(h, c);
      var i := h.classes[c].interfaces[n - 1];
      EnumerationExactly(h, c, n - 1, d);
      EnumerationExactly(h, i, |h.classes[i].interfaces|, d);
      if d in h.classes && h.classes[d].isInterface {
        AboveInterface(h, i, d);
      }
    }
  }

  ghost predicate SupersComeFirst(h: Types, list: seq<Id>)
  {
    forall j, d {:trigger d in Enumeration(h, list[j])} ::
      0 <= j < |list| && list[j] in h.classes && d in Enumeration(h, list[j]) ==> d in list[..j]
  }

  lemma SupersFirstConcat(h: Types, a: seq<Id>, b: seq<Id>)
    requires SupersComeFirst(h, a) && SupersComeFirst(h, b)
    ensures SupersComeFirst(h, a + b)
  {
    forall j, d | 0 <= j < |a + b| && (a + b)[j] in h.classes && d in Enumeration(h, (a + b)[j])
      ensures d in (a + b)[..j]
    {
      if j < |a| {
        assert (a + b)[..j] == a[..j];
      } else {
        assert (a + b)[..j] == a + b[..j - |a|];
      }
    }
  }

  /** Every interface in the list comes after its own superinterfaces. */
  lemma {:induction false} EnumerationOrder(h: Types, c: Id, n: nat)
    requires c in h.classes && n <= |h.classes[c].interfaces|
    ensures SupersComeFirst(h, EnumerationFirst(h, c, n))
    decreases h.classes[c].rank, n
  {
    if n > 0 {
      assert ClassOk(h, c);
      var i := h.classes[c].interfaces[n - 1];
      EnumerationOrder(h, c, n - 1);
      EnumerationOrder(h, i, |h.classes[i].interfaces|);
      SupersFirstConcat(h, EnumerationFirst(h, c, n - 1), Enumeration(h, i));
      if HasDefaultMethod(h.classes[i].methods) {
        SupersFirstSnoc(h, EnumerationFirst(h, c, n - 1) + Enumeration(h, i), i);
      } else {
        assert EnumerationFirst(h, c, n) == EnumerationFirst(h, c, n - 1) + Enumeration(h, i);
      }
    }
  }

  lemma SupersFirstSnoc(h: Types, a: seq<Id>, i: Id)
    requires SupersComeFirst(h, a) && i in h.classes && forall d :: d in Enumeration(h, i) ==> d in a
    ensures SupersComeFirst(h, a + [i])
  {
    forall j, d | 0 <= j < |a + [i]| && (a + [i])[j] in h.classes && d in Enumeration(h, (a + [i])[j])
      ensures d in (a + [i])[..j]
    {
      assert (a + [i])[..j] == a[..j];
    }
  }

  // ---- what the history shows ----

  /** Nothing happens to a class that was touched before. */
  ghost predicate OnlyUntouched(h: Types, s: State, r: State)
  {
    s.log <= r.log && forall e :: e in r.log[|s.log|..] ==> e.c in Untouched(h, s)
  }

  /** Everything in the list of step 7 has been claimed. */
  ghost predicate SupersClaimed(h: Types, log: seq<Event>, c: Id)
    requires c in h.classes
  {
    forall d :: d in StepSeven(h, c) ==> Claimed(d) in log
  }

  /** The history agrees with the flags. */
  ghost predicate Recorded(s: State)
  {
    && (forall c :: Touched(s, c) <==> Claimed(c) in s.log)
    && (forall c :: c in s.initialized <==> Finished(c) in s.log)
    && (forall e :: e in s.log ==> Touched(s, e.c))
  }

  /** No event happens twice, and no <clinit> starts before everything in the list of step 7 has been claimed. */
  ghost predicate Ordered(h: Types, log: seq<Event>)
  {
    forall i {:trigger EventOk(h, log[..i], log[i])} :: 0 <= i < |log| ==> EventOk(h, log[..i], log[i])
  }

  ghost predicate EventOk(h: Types, before: seq<Event>, e: Event)
  {
    && e.c in h.classes && e !in before
    && match e
       case Claimed(_) => true
       case Started(c) => Claimed(c) in before && SupersClaimed(h, before, c)
       case Finished(c) => Started(c) in before
  }

  ghost predicate Inv(h: Types, s: State)
  {
    Recorded(s) && Ordered(h, s.log)
  }

  lemma AppendKeepsOrdered(h: Types, log: seq<Event>, e: Event)
    requires Ordered(h, log) && EventOk(h, log, e)
    ensures Ordered(h, log + [e])
  {
    var log' := log + [e];
    forall i | 0 <= i < |log'| ensures EventOk(h, log'[..i], log'[i]) {
      assert log'[..i] == log[..i];
      if i < |log| {
        assert log'[i] == log[i];
      } else {
        assert log[..i] == log;
      }
    }
  }

  lemma ClaimKeepsInv(h: Types, s: State, c: Id)
    requires Inv(h, s) && c in Untouched(h, s)
    ensures Inv(h, Claim(s, c))
  {
    AppendKeepsOrdered(h, s.log, Claimed(c));
  }

  lemma StartKeepsInv(h: Types, s: State, c: Id)
    requires Inv(h, s) && c in s.initializing && Started(c) !in s.log
    requires c in h.classes && SupersClaimed(h, s.log, c)
    ensures Inv(h, Start(s, c))
  {
    AppendKeepsOrdered(h, s.log, Started(c));
  }

  lemma FinishKeepsInv(h: Types, s: State, c: Id)
    requires Inv(h, s) && c in s.initializing && Started(c) in s.log && Finished(c) !in s.log && c in h.classes
    ensures Inv(h, Finish(s, c))
  {
    AppendKeepsOrdered(h, s.log, Finished(c));
  }

  lemma OnlyUntouchedTrans(h: Types, s: State, t: State, r: State)
    requires OnlyUntouched(h, s, t) && OnlyUntouched(h, t, r) && Untouched(h, t) <= Untouched(h, s)
    ensures OnlyUntouched(h, s, r)
  {
    assert r.log[|s.log|..] == t.log[|s.log|..] + r.log[|t.log|..];
  }

  lemma AppendUntouched(h: Types, s: State, t: State, r: State, e: Event)
    requires OnlyUntouched(h, s, t) && e.c in Untouched(h, s) && r.log == t.log + [e]
    ensures OnlyUntouched(h, s, r)
  {
    assert r.log[|s.log|..] == t.log[|s.log|..] + [e];
  }

  /** An event of a class that was touched before is not in the later part of the history. */
  lemma NotLater(h: Types, s: State, r: State, e: Event)
    requires OnlyUntouched(h, s, r) && e.c !in Untouched(h, s) && e !in s.log
    ensures e !in r.log
  {
    assert r.log == s.log + r.log[|s.log|..];
  }

  lemma {:induction false} InitAllKeepsInv(h: Types, req: Requests, todo: seq<Id>, s: State)
    requires Known(h, req) && (forall c :: c in todo ==> c in h.classes) && Inv(h, s)
    ensures Inv(h, InitAll(h, req, todo, s)) && OnlyUntouched(h, s, InitAll(h, req, todo, s))
    ensures forall c :: c in todo ==> Touched(InitAll(h, req, todo, s), c)
    decreases |Untouched(h, s)|, |todo| + 1
  {
    if todo != [] {
      var s1 := Init(h, req, todo[0], s);
      InitKeepsInv(h, req, todo[0], s);
      LaterShrinks(h, s, s1);
      InitAllKeepsInv(h, req, todo[1..], s1);
      OnlyUntouchedTrans(h, s, s1, InitAll(h, req, todo[1..], s1));
    }
  }

  lemma ClaimIsNew(h: Types, s: State, c: Id)
    requires c in Untouched(h, s) && Inv(h, s)
    ensures Inv(h, Claim(s, c)) && OnlyUntouched(h, s, Claim(s, c))
    ensures Started(c) !in Claim(s, c).log && Finished(c) !in Claim(s, c).log
    ensures Untouched(h, Claim(s, c)) < Untouched(h, s) && |Untouched(h, Claim(s, c))| < |Untouched(h, s)|
  {
    ClaimKeepsInv(h, s, c);
    ClaimShrinks(h, s, c);
    Smaller(Untouched(h, Claim(s, c)), Untouched(h, s));
    AppendUntouched(h, s, s, Claim(s, c), Claimed(c));
  }

  lemma StartIsNew(h: Types, s: State, s2: State, c: Id)
    requires c in Untouched(h, s) && c in s2.initializing && OnlyUntouched(h, s, s2) && Inv(h, s2)
    requires SupersClaimed(h, s2.log, c) && Started(c) !in s2.log && Finished(c) !in s2.log
    ensures Inv(h, Start(s2, c)) && OnlyUntouched(h, s, Start(s2, c)) && Finished(c) !in Start(s2, c).log
    ensures Untouched(h, Start(s2, c)) == Untouched(h, s2)
  {
    StartKeepsInv(h, s2, c);
    AppendUntouched(h, s, s2, Start(s2, c), Started(c));
  }

  /** Step 7. */
  lemma {:induction false} SupersKeepInv(h: Types, req: Requests, c: Id, s1: State)
    requires Known(h, req) && c in h.classes && c in s1.initializing && Inv(h, s1)
    requires Started(c) !in s1.log && Finished(c) !in s1.log
    ensures forall d :: d in StepSeven(h, c) ==> d in h.classes
    ensures var s2 := InitAll(h, req, StepSeven(h, c), s1);
            && Inv(h, s2) && OnlyUntouched(h, s1, s2)
            && SupersClaimed(h, s2.log, c) && Started(c) !in s2.log && Finished(c) !in s2.log
    decreases |Untouched(h, s1)|, |StepSeven(h, c)| + 2
  {
    StepSevenKnown(h, c);
    var s2 := InitAll(h, req, StepSeven(h, c), s1);
    InitAllKeepsInv(h, req, StepSeven(h, c), s1);
    NotLater(h, s1, s2, Started(c));
    NotLater(h, s1, s2, Finished(c));
  }

  /** Up to the start of the <clinit>. */
  lemma {:induction false} BeginKeepsInv(h: Types, req: Requests, c: Id, s: State) returns (s3: State)
    requires Known(h, req) && c in Untouched(h, s) && Inv(h, s)
    ensures (forall d :: d in StepSeven(h, c) ==> d in h.classes)
            && s3 == Start(InitAll(h, req, StepSeven(h, c), Claim(s, c)), c)
    ensures Inv(h, s3) && OnlyUntouched(h, s, s3) && Started(c) in s3.log && Finished(c) !in s3.log
    ensures Untouched(h, s3) < Untouched(h, s) && |Untouched(h, s3)| < |Untouched(h, s)| && c in s3.initializing
    decreases |Untouched(h, s)|, 0
  {
    var s1 := Claim(s, c);
    ClaimIsNew(h, s, c);
    SupersKeepInv(h, req, c, s1);
    var s2 := InitAll(h, req, StepSeven(h, c), s1);
    LaterShrinks(h, s1, s2);
    OnlyUntouchedTrans(h, s, s1, s2);
    StartIsNew(h, s, s2, c);
    s3 := Start(s2, c);
  }

  /** One request keeps the history consistent, and afterwards the class is initialized or in progress. */
  lemma {:induction false} InitKeepsInv(h: Types, req: Requests, c: Id, s: State)
    requires Known(h, req) && c in h.classes && Inv(h, s)
    ensures Inv(h, Init(h, req, c, s)) && OnlyUntouched(h, s, Init(h, req, c, s))
    ensures Touched(Init(h, req, c, s), c)
    decreases |Untouched(h, s)|, 1
  {
    if !Touched(s, c) {
      var s3 := BeginKeepsInv(h, req, c, s);
      InitAllKeepsInv(h, req, req(c), s3);
      var s4 := InitAll(h, req, req(c), s3);
      NotLater(h, s3, s4, Finished(c));
      FinishKeepsInv(h, s4, c);
      OnlyUntouchedTrans(h, s, s3, s4);
      AppendUntouched(h, s, s4, Finish(s4, c), Finished(c));
    }
  }

  lemma PrefixTrans(a: seq<Event>, b: seq<Event>, c: seq<Event>)
    requires a <= b && b <= c
    ensures a <= c
  {
  }

  /** What step 7 adds to the history comes right after the claim. */
  lemma SupersComeAfterClaim(h: Types, req: Requests, c: Id, s: State)
    requires Known(h, req) && c in Untouched(h, s) && Inv(h, s)
    ensures forall d :: d in StepSeven(h, c) ==> d in h.classes
    ensures Claim(s, c).log <= InitAll(h, req, StepSeven(h, c), Claim(s, c)).log <= Init(h, req, c, s).log
  {
    ClaimIsNew(h, s, c);
    SupersKeepInv(h, req, c, Claim(s, c));
    var s2 := InitAll(h, req, StepSeven(h, c), Claim(s, c));
    var s3 := BeginKeepsInv(h, req, c, s);
    InitAllKeepsInv(h, req, req(c), s3);
    PrefixTrans(s2.log, s3.log, InitAll(h, req, req(c), s3).log);
  }

  lemma InitBegins(h: Types, req: Requests, c: Id, s: State)
    requires Known(h, req) && c in Untouched(h, s) && Inv(h, s)
    ensures s.log + [Claimed(c)] <= Init(h, req, c, s).log
  {
    SupersComeAfterClaim(h, req, c, s);
  }

  /** The state when the first k requests of a list are done. */
  ghost function Midway(h: Types, req: Requests, todo: seq<Id>, s: State, k: nat): State
    requires Known(h, req) && (forall c :: c in todo ==> c in h.classes) && k <= |todo|
  {
    InitAll(h, req, todo[..k], s)
  }

  lemma MidwayKeepsInv(h: Types, req: Requests, todo: seq<Id>, s: State, k: nat)
    requires Known(h, req) && (forall c :: c in todo ==> c in h.classes) && k <= |todo| && Inv(h, s)
    ensures Inv(h, Midway(h, req, todo, s, k)) && s.log <= Midway(h, req, todo, s, k).log
    ensures forall j :: 0 <= j < k ==> Touched(Midway(h, req, todo, s, k), todo[j])
  {
    InitAllKeepsInv(h, req, todo[..k], s);
    forall j | 0 <= j < k ensures todo[j] in todo[..k] {
      assert todo[..k][j] == todo[j];
    }
  }

  lemma MidwayNext(h: Types, req: Requests, todo: seq<Id>, s: State, k: nat)
    requires Known(h, req) && (forall c :: c in todo ==> c in h.classes) && k < |todo|
    ensures Midway(h, req, todo, s, k + 1) == Init(h, req, todo[k], Midway(h, req, todo, s, k))
  {
    assert todo[..k + 1] == todo[..k] + [todo[k]];
    InitAllSnoc(h, req, todo[..k], todo[k], s);
  }

  lemma MidwayIsBefore(h: Types, req: Requests, todo: seq<Id>, s: State, k: nat)
    requires Known(h, req) && (forall c :: c in todo ==> c in h.classes) && k <= |todo| && Inv(h, s)
    ensures Midway(h, req, todo, s, k).log <= InitAll(h, req, todo, s).log
  {
    assert todo == todo[..k] + todo[k..];
    InitAllConcat(h, req, todo[..k], todo[k..], s);
    MidwayKeepsInv(h, req, todo, s, k);
    InitAllKeepsInv(h, req, todo[k..], Midway(h, req, todo, s, k));
  }

  /** A list of requests is worked off in order: when its turn comes, an untouched class is the next to be claimed. */
  lemma RequestsInOrder(h: Types, req: Requests, todo: seq<Id>, s: State, k: nat)
    requires Known(h, req) && (forall c :: c in todo ==> c in h.classes) && k < |todo| && Inv(h, s)
    ensures var now := Midway(h, req, todo, s, k);
            if Touched(now, todo[k]) then Midway(h, req, todo, s, k + 1) == now
            else now.log + [Claimed(todo[k])] <= InitAll(h, req, todo, s).log
  {
    var now := Midway(h, req, todo, s, k);
    MidwayKeepsInv(h, req, todo, s, k);
    MidwayNext(h, req, todo, s, k);
    if !Touched(now, todo[k]) {
      InitBegins(h, req, todo[k], now);
      MidwayIsBefore(h, req, todo, s, k + 1);
      PrefixTrans(now.log + [Claimed(todo[k])], Midway(h, req, todo, s, k + 1).log, InitAll(h, req, todo, s).log);
    }
  }

  /**
   Step 7 follows its list. When the classes before number k have had their turn, which leaves them touched, number k is
   the next to be claimed, unless it is touched already: then nothing happens.
   */
  lemma StepSevenInOrder(h: Types, req: Requests, c: Id, s: State, k: nat)
    requires Known(h, req) && c in Untouched(h, s) && Inv(h, s) && k < |StepSeven(h, c)|
    ensures forall d :: d in StepSeven(h, c) ==> d in h.classes
    ensures var list := StepSeven(h, c);
            var now := Midway(h, req, list, Claim(s, c), k);
            && Claim(s, c).log <= now.log && (forall j :: 0 <= j < k ==> Touched(now, list[j]))
            && if Touched(now, list[k]) then Midway(h, req, list, Claim(s, c), k + 1) == now
               else now.log + [Claimed(list[k])] <= Init(h, req, c, s).log
  {
    var list, s1 := StepSeven(h, c), Claim(s, c);
    SupersComeAfterClaim(h, req, c, s);
    assert Inv(h, s1) by {
      ClaimIsNew(h, s, c);
    }
    MidwayKeepsInv(h, req, list, s1, k);
    RequestsInOrder(h, req, list, s1, k);
    var now := Midway(h, req, list, s1, k);
    if !Touched(now, list[k]) {
      PrefixTrans(now.log + [Claimed(list[k])], InitAll(h, req, list, s1).log, Init(h, req, c, s).log);
    }
  }

  const NothingTouched := State({}, {}, [])

  /** A whole run: any requests, in any order, from a thread that is initializing nothing. */
  ghost function Run(h: Types, req: Requests, todo: seq<Id>): State
    requires Known(h, req) && forall c :: c in todo ==> c in h.classes
  {
    InitAll(h, req, todo, NothingTouched)
  }

  /** At the end of a run all requested classes are initialized and nothing is in progress. */
  lemma RunInitializes(h: Types, req: Requests, todo: seq<Id>)
    requires Known(h, req) && forall c :: c in todo ==> c in h.classes
    ensures Run(h, req, todo).initializing == {}
    ensures forall c :: c in todo ==> c in Run(h, req, todo).initialized
    ensures Inv(h, Run(h, req, todo))
  {
    InitAllKeepsInv(h, req, todo, NothingTouched);
  }

  /** Each initialized class ran through claim, <clinit> and finish, in this order and once. */
  lemma InitializedOnce(h: Types, s: State, i: nat, j: nat)
    requires Inv(h, s) && i < |s.log| && j < |s.log|
    requires s.log[i].Started? && s.log[j].Started? && s.log[i].c == s.log[j].c
    ensures i == j && Claimed(s.log[i].c) in s.log[..i]
  {
    assert EventOk(h, s.log[..i], s.log[i]) && EventOk(h, s.log[..j], s.log[j]);
  }

  lemma InitializedMeansStarted(h: Types, s: State, c: Id)
    requires Inv(h, s) && c in s.initialized
    ensures Started(c) in s.log
  {
    var i :| 0 <= i < |s.log| && s.log[i] == Finished(c);
    assert EventOk(h, s.log[..i], s.log[i]);
  }

  /**
   When a <clinit> starts, the superclass and every superinterface with a default method is initialized, or claimed
   by this thread further up its call stack.
   */
  lemma SupersFirst(h: Types, s: State, i: nat, d: Id)
    requires Inv(h, s) && i < |s.log| && s.log[i].Started?
    ensures var c := s.log[i].c;
            c in h.classes && !h.classes[c].isInterface ==>
              (h.classes[c].super == Some(d)
               || (IsSuperinterface(h, c, |h.classes[c].interfaces|, d) && HasDefaultMethod(h.classes[d].methods)))
              ==> Claimed(d) in s.log[..i]
  {
    assert EventOk(h, s.log[..i], s.log[i]);
    var c := s.log[i].c;
    EnumerationExactly(h, c, |h.classes[c].interfaces|, d);
  }

  // ---- why a class is initialized ----

  /** Initializing b asks for d: by its <clinit>, or in step 7, where an interface asks for nothing. */
  ghost predicate AsksFor(h: Types, req: Requests, b: Id, d: Id)
  {
    && b in h.classes && d in h.classes
    && (|| d in req(b)
        || (&& !h.classes[b].isInterface
            && (h.classes[b].super == Some(d) || IsDefaultSuperinterface(h, b, d))))
  }

  /** d is an interface with a method that is neither abstract nor static, at or above an interface that b names. */
  ghost predicate IsDefaultSuperinterface(h: Types, b: Id, d: Id)
    requires b in h.classes && d in h.classes
  {
    && h.classes[d].isInterface
    && (exists m :: m in h.classes[d].methods && !m.isAbstract && !m.isStatic)
    && exists i :: i in h.classes[b].interfaces && i in h.classes && (i == d || IsSubclassOf(h, i, d))
  }

  lemma StepSevenAsks(h: Types, req: Requests, b: Id, d: Id)
    requires b in h.classes && d in StepSeven(h, b)
    ensures AsksFor(h, req, b, d)
  {
    StepSevenKnown(h, b);
    if h.classes[b].super != Some(d) {
      EnumerationExactly(h, b, |h.classes[b].interfaces|, d);
    }
  }

  /** From a to log, a class is claimed because it is in the list, or because a class claimed before asks for it. */
  ghost predicate Caused(h: Types, req: Requests, todo: seq<Id>, a: seq<Event>, log: seq<Event>)
  {
    && a <= log
    && forall i {:trigger log[i]} :: |a| <= i < |log| && log[i].Claimed? ==>
         log[i].c in todo || CausedBefore(h, req, a, log, i)
  }

  ghost predicate CausedBefore(h: Types, req: Requests, a: seq<Event>, log: seq<Event>, i: nat)
    requires i < |log|
  {
    exists j :: |a| <= j < i && log[j].Claimed? && AsksFor(h, req, log[j].c, log[i].c)
  }

  lemma CausedLater(h: Types, req: Requests, todo: seq<Id>, todo': seq<Id>, a: seq<Event>, b: seq<Event>, c: seq<Event>)
    requires Caused(h, req, todo, a, b) && Caused(h, req, todo', b, c)
    ensures Caused(h, req, todo + todo', a, c)
  {
    forall i {:trigger c[i]} | |a| <= i < |c| && c[i].Claimed?
      ensures c[i].c in todo + todo' || CausedBefore(h, req, a, c, i)
    {
      if i < |b| {
        assert c[i] == b[i];
        if b[i].c !in todo {
          var j :| |a| <= j < i && b[j].Claimed? && AsksFor(h, req, b[j].c, b[i].c);
          assert c[j] == b[j];
        }
      } else if c[i].c !in todo' {
        var j :| |b| <= j < i && c[j].Claimed? && AsksFor(h, req, c[j].c, c[i].c);
        assert |a| <= j;
      }
    }
  }

  /** What a list asks for by the claim of c is caused by that claim. */
  lemma CausedByClaim(h: Types, req: Requests, c: Id, todo: seq<Id>, a: seq<Event>, log: seq<Event>)
    requires Caused(h, req, [c] + todo, a, log) && a + [Claimed(c)] <= log
    requires forall d :: d in todo ==> AsksFor(h, req, c, d)
    ensures Caused(h, req, [c], a, log)
  {
    assert log[|a|] == Claimed(c);
    forall i {:trigger log[i]} | |a| <= i < |log| && log[i].Claimed?
      ensures log[i].c in [c] || CausedBefore(h, req, a, log, i)
    {
      if i > |a| && log[i].c in todo {
        assert AsksFor(h, req, log[|a|].c, log[i].c);
      }
    }
  }

  lemma {:induction false} InitAllCaused(h: Types, req: Requests, todo: seq<Id>, s: State)
    requires Known(h, req) && forall c :: c in todo ==> c in h.classes
    ensures Caused(h, req, todo, s.log, InitAll(h, req, todo, s).log)
    decreases |Untouched(h, s)|, |todo| + 1
  {
    if todo != [] {
      var s1 := Init(h, req, todo[0], s);
      InitCaused(h, req, todo[0], s);
      LaterShrinks(h, s, s1);
      InitAllCaused(h, req, todo[1..], s1);
      CausedLater(h, req, [todo[0]], todo[1..], s.log, s1.log, InitAll(h, req, todo[1..], s1).log);
      assert todo == [todo[0]] + todo[1..];
    }
  }

  /** Each class that one request claims is the requested one, or a class claimed before asks for it. */
  lemma {:induction false} InitCaused(h: Types, req: Requests, c: Id, s: State)
    requires Known(h, req) && c in h.classes
    ensures Caused(h, req, [c], s.log, Init(h, req, c, s).log)
    decreases |Untouched(h, s)|, 0
  {
    if !Touched(s, c) {
      var s1 := Claim(s, c);
      ClaimShrinks(h, s, c);
      Smaller(Untouched(h, s1), Untouched(h, s));
      StepSevenKnown(h, c);
      var s2 := InitAll(h, req, StepSeven(h, c), s1);
      InitAllCaused(h, req, StepSeven(h, c), s1);
      LaterShrinks(h, s1, s2);
      var s3 := Start(s2, c);
      assert Untouched(h, s3) == Untouched(h, s2);
      InitAllCaused(h, req, req(c), s3);
      CausedInParts(h, req, c, s, s2, InitAll(h, req, req(c), s3));
    }
  }

  lemma CausedInParts(h: Types, req: Requests, c: Id, s: State, s2: State, s4: State)
    requires Known(h, req) && c in h.classes
    requires Caused(h, req, StepSeven(h, c), Claim(s, c).log, s2.log)
    requires Caused(h, req, req(c), Start(s2, c).log, s4.log)
    ensures Caused(h, req, [c], s.log, Finish(s4, c).log)
  {
    var a, b, d := s.log, Claim(s, c).log, Start(s2, c).log;
    assert Caused(h, req, [c], a, b);
    CausedLater(h, req, [c], StepSeven(h, c), a, b, s2.log);
    assert Caused(h, req, [], s2.log, d);
    CausedLater(h, req, [c] + StepSeven(h, c), [], a, s2.log, d);
    CausedLater(h, req, [c] + StepSeven(h, c) + [], req(c), a, d, s4.log);
    assert Caused(h, req, [], s4.log, Finish(s4, c).log);
    CausedLater(h, req, [c] + StepSeven(h, c) + [] + req(c), [], a, s4.log, Finish(s4, c).log);
    var todo := StepSeven(h, c) + req(c);
    assert [c] + StepSeven(h, c) + [] + req(c) + [] == [c] + todo;
    forall e | e in todo ensures AsksFor(h, req, c, e) {
      if e in StepSeven(h, c) {
        StepSevenAsks(h, req, c, e);
      }
    }
    CausedByClaim(h, req, c, todo, a, Finish(s4, c).log);
  }

  /** So an interface whose <clinit> asks for nothing is initialized alone: its superinterfaces are left as they are. */
  lemma InterfaceIsInitializedAlone(h: Types, req: Requests, c: Id, s: State)
    requires Known(h, req) && c in Untouched(h, s) && h.classes[c].isInterface && req(c) == []
    ensures Init(h, req, c, s).log == s.log + [Claimed(c), Started(c), Finished(c)]
  {
    ClaimShrinks(h, s, c);
    Smaller(Untouched(h, Claim(s, c)), Untouched(h, s));
  }

  // ---- what a <clinit> asks for is done ----

  /** When the <clinit> of a class is over, what it asked for has been claimed. */
  ghost predicate RequestsDone(req: Requests, a: seq<Event>, log: seq<Event>)
  {
    && a <= log
    && forall i, d {:trigger log[i], d in req(log[i].c)} ::
         |a| <= i < |log| && log[i].Finished? && d in req(log[i].c) ==> Claimed(d) in log[..i]
  }

  lemma RequestsDoneLater(req: Requests, a: seq<Event>, b: seq<Event>, c: seq<Event>)
    requires RequestsDone(req, a, b) && RequestsDone(req, b, c)
    ensures RequestsDone(req, a, c)
  {
    forall i, d {:trigger c[i], d in req(c[i].c)} | |a| <= i < |c| && c[i].Finished? && d in req(c[i].c)
      ensures Claimed(d) in c[..i]
    {
      if i < |b| {
        assert c[i] == b[i] && c[..i] == b[..i];
      }
    }
  }

  lemma {:induction false} InitAllDoesRequests(h: Types, req: Requests, todo: seq<Id>, s: State)
    requires Known(h, req) && (forall c :: c in todo ==> c in h.classes) && Inv(h, s)
    ensures RequestsDone(req, s.log, InitAll(h, req, todo, s).log)
    decreases |Untouched(h, s)|, |todo| + 1
  {
    if todo != [] {
      var s1 := Init(h, req, todo[0], s);
      InitDoesRequests(h, req, todo[0], s);
      InitKeepsInv(h, req, todo[0], s);
      LaterShrinks(h, s, s1);
      InitAllDoesRequests(h, req, todo[1..], s1);
      RequestsDoneLater(req, s.log, s1.log, InitAll(h, req, todo[1..], s1).log);
    }
  }

  lemma RequestsDoneInParts(req: Requests, c: Id, s: State, s2: State, s4: State)
    requires RequestsDone(req, Claim(s, c).log, s2.log) && RequestsDone(req, Start(s2, c).log, s4.log)
    requires forall d :: d in req(c) ==> Claimed(d) in s4.log
    ensures RequestsDone(req, s.log, Finish(s4, c).log)
  {
    var a, b, d, e := s.log, Claim(s, c).log, Start(s2, c).log, Finish(s4, c).log;
    assert RequestsDone(req, a, b);
    RequestsDoneLater(req, a, b, s2.log);
    assert RequestsDone(req, s2.log, d);
    RequestsDoneLater(req, a, s2.log, d);
    RequestsDoneLater(req, a, d, s4.log);
    assert e[..|s4.log|] == s4.log;
    assert RequestsDone(req, s4.log, e);
    RequestsDoneLater(req, a, s4.log, e);
  }

  lemma RequestsAreClaimed(h: Types, req: Requests, todo: seq<Id>, s: State)
    requires Known(h, req) && (forall c :: c in todo ==> c in h.classes) && Inv(h, s)
    ensures forall d :: d in todo ==> Claimed(d) in InitAll(h, req, todo, s).log
  {
    InitAllKeepsInv(h, req, todo, s);
  }

  lemma {:induction false} InitDoesRequests(h: Types, req: Requests, c: Id, s: State)
    requires Known(h, req) && c in h.classes && Inv(h, s)
    ensures RequestsDone(req, s.log, Init(h, req, c, s).log)
    decreases |Untouched(h, s)|, 0
  {
    if !Touched(s, c) {
      var s3 := BeginKeepsInv(h, req, c, s);
      ClaimIsNew(h, s, c);
      InitAllDoesRequests(h, req, StepSeven(h, c), Claim(s, c));
      InitAllDoesRequests(h, req, req(c), s3);
      RequestsAreClaimed(h, req, req(c), s3);
      RequestsDoneInParts(req, c, s, InitAll(h, req, StepSeven(h, c), Claim(s, c)), InitAll(h, req, req(c), s3));
    }
  }

  // ---- the code ----

  lemma {:induction false} InitAllConcat(h: Types, req: Requests, a: seq<Id>, b: seq<Id>, s: State)
    requires Known(h, req) && (forall c :: c in a ==> c in h.classes) && forall c :: c in b ==> c in h.classes
    ensures InitAll(h, req, a + b, s) == InitAll(h, req, b, InitAll(h, req, a, s))
    decreases |a|
  {
    if a == [] {
      assert a + b == b;
    } else {
      assert (a + b)[0] == a[0] && (a + b)[1..] == a[1..] + b;
      InitAllConcat(h, req, a[1..], b, Init(h, req, a[0], s));
    }
  }

  lemma InitAllSnoc(h: Types, req: Requests, a: seq<Id>, c: Id, s: State)
    requires Known(h, req) && (forall d :: d in a ==> d in h.classes) && c in h.classes
    ensures InitAll(h, req, a + [c], s) == Init(h, req, c, InitAll(h, req, a, s))
  {
    InitAllConcat(h, req, a, [c], s);
    assert [c][1..] == [];
  }

  lemma InitStepSeven(h: Types, req: Requests, c: Id, s: State)
    requires Known(h, req) && c in h.classes && !h.classes[c].isInterface
    requires forall d :: d in StepSeven(h, c) ==> d in h.classes
    ensures var super := h.classes[c].super;
            && (super.Some? ==> super.value in h.classes) && (forall d :: d in Enumeration(h, c) ==> d in h.classes)
            && InitAll(h, req, StepSeven(h, c), s)
               == InitAll(h, req, Enumeration(h, c), if super.Some? then Init(h, req, super.value, s) else s)
  {
    var all, super := StepSeven(h, c), h.classes[c].super;
    if super.Some? {
      assert all[0] == super.value && all[1..] == Enumeration(h, c);
      assert super.value in all;
      assert InitAll(h, req, all, s) == InitAll(h, req, all[1..], Init(h, req, super.value, s));
    } else {
      assert all == Enumeration(h, c);
    }
    assert forall d :: d in Enumeration(h, c) ==> d in all;
  }

  /** The flags is_initialized and initializing_thread of all classes, seen by the one thread that runs. */
  class Initializer {
    const h: Types
    const requests: Requests
    var isInitialized: set<Id>
    var initializing: set<Id>
    ghost var log: seq<Event>

    constructor (h: Types, requests: Requests)
      ensures this.h == h && this.requests == requests && Now() == NothingTouched
    {
      this.h, this.requests := h, requests;
      isInitialized, initializing, log := {}, {}, [];
    }

    ghost function Now(): State
      reads this
    {
      State(initializing, isInitialized, log)
    }

    ghost function Left(): nat
      reads this
    {
      |Untouched(h, Now())|
    }

    /** initialize_class */
    method InitializeClass(c: Id)
      requires Known(h, requests) && c in h.classes
      modifies this
      ensures Now() == Init(h, requests, c, old(Now()))
      decreases Left(), 0, 0
    {
      if c in isInitialized {
        return;
      }
      if c in initializing {
        return;
      }
      ClaimShrinks(h, Now(), c);
      Smaller(Untouched(h, Claim(Now(), c)), Untouched(h, Now()));
      StepSevenKnown(h, c);
      initializing, log := initializing + {c}, log + [Claimed(c)];
      ghost var claimed := Now();
      InitializeSupers(c);
      LaterShrinks(h, claimed, Now());
      log := log + [Started(c)];
      assert Untouched(h, Now()) == Untouched(h, InitAll(h, requests, StepSeven(h, c), claimed));
      RunClinit(c);
      initializing, isInitialized, log := initializing - {c}, isInitialized + {c}, log + [Finished(c)];
    }

    method InitializeSupers(c: Id)
      requires Known(h, requests) && c in h.classes && forall d :: d in StepSeven(h, c) ==> d in h.classes
      modifies this
      ensures Now() == InitAll(h, requests, StepSeven(h, c), old(Now()))
      decreases Left(), h.classes[c].rank + 2, 0
    {
      if h.classes[c].isInterface {
        return;
      }
      ghost var s := Now();
      InitStepSeven(h, requests, c, s);
      if h.classes[c].super.Some? {
        InitializeClass(h.classes[c].super.value);
        LaterShrinks(h, s, Now());
      }
      RecursivelyInitializeInterfaces(c);
    }

    /** recursively_initialize_interfaces */
    method RecursivelyInitializeInterfaces(c: Id)
      requires Known(h, requests) && c in h.classes && forall d :: d in Enumeration(h, c) ==> d in h.classes
      modifies this
      ensures Now() == InitAll(h, requests, Enumeration(h, c), old(Now()))
      decreases Left(), h.classes[c].rank + 1, 1
    {
      ghost var s := Now();
      var interfaces := h.classes[c].interfaces;
      var n := 0;
      while n < |interfaces|
        invariant n <= |interfaces| && forall d :: d in EnumerationFirst(h, c, n) ==> d in h.classes
        invariant Now() == InitAll(h, requests, EnumerationFirst(h, c, n), s)
      {
        LaterShrinks(h, s, Now());
        EnumerateOne(c, n, s);
        n := n + 1;
      }
    }

    method EnumerateOne(c: Id, n: nat, ghost s: State)
      requires Known(h, requests) && c in h.classes && n < |h.classes[c].interfaces|
      requires (forall d :: d in EnumerationFirst(h, c, n) ==> d in h.classes)
               && Now() == InitAll(h, requests, EnumerationFirst(h, c, n), s)
      modifies this
      ensures (forall d :: d in EnumerationFirst(h, c, n + 1) ==> d in h.classes)
              && Now() == InitAll(h, requests, EnumerationFirst(h, c, n + 1), s)
      decreases Left(), h.classes[c].rank + 1, 0
    {
      assert ClassOk(h, c);
      var i := h.classes[c].interfaces[n];
      ghost var list := EnumerationFirst(h, c, n) + Enumeration(h, i);
      forall d | d in Enumeration(h, i) ensures d in h.classes {
        EnumerationKnown(h, i, |h.classes[i].interfaces|, d);
      }
      InitAllConcat(h, requests, EnumerationFirst(h, c, n), Enumeration(h, i), s);
      ghost var before := Now();
      RecursivelyInitializeInterfaces(i);
      LaterShrinks(h, before, Now());
      if HasDefaultMethod(h.classes[i].methods) {
        InitAllSnoc(h, requests, list, i, s);
        InitializeClass(i);
      } else {
        assert EnumerationFirst(h, c, n + 1) == list;
      }
    }

    method RunClinit(c: Id)
      requires Known(h, requests) && c in h.classes
      modifies this
      ensures Now() == InitAll(h, requests, requests(c), old(Now()))
      decreases Left(), 0, 1
    {
      ghost var s := Now();
      var todo := requests(c);
      assert forall d :: d in todo ==> d in h.classes;
      for i := 0 to |todo|
        invariant Now() == InitAll(h, requests, todo[..i], s)
      {
        assert todo[..i + 1] == todo[..i] + [todo[i]];
        InitAllSnoc(h, requests, todo[..i], todo[i], s);
        LaterShrinks(h, s, Now());
        InitializeClass(todo[i]);
      }
      assert todo[..|todo|] == todo;
    }
  }
}
