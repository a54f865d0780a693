/** Exactly which programs can deadlock in class initialization: those in which two classes can ask for each other. */
module ClassInitDeadlock {
  import opened Options
  import opened ClassInitThreads
  import opened ClassInitOrder

  /** The classes of a program, their step 7 lists, and the classes that each <clinit> may request. */
  datatype Program = Program(classes: set<Id>, supers: Supers, requests: Id -> set<Id>)

  ghost predicate Complete(p: Program)
  {
    forall c, d :: c in p.classes && Edge(p, c, d) ==> d in p.classes
  }

  /** The initialization of c may request d. */
  ghost predicate Edge(p: Program, c: Id, d: Id)
  {
    d in p.supers(c) || d in p.requests(c)
  }

  /** A class asks for another, at most n requests deep. */
  ghost predicate Within(p: Program, n: nat, c: Id, d: Id)
  {
    c == d || (n > 0 && exists e :: Edge(p, c, e) && Within(p, n - 1, e, d))
  }

  ghost predicate Leads(p: Program, c: Id, d: Id)
  {
    exists n: nat :: Within(p, n, c, d)
  }

  /** Two classes ask for each other, directly or not. */
  ghost predicate Tangled(p: Program)
  {
    exists c, d :: c in p.classes && d in p.classes && c != d && Leads(p, c, d) && Leads(p, d, c)
  }

  lemma {:induction false} WithinTrans(p: Program, n: nat, m: nat, c: Id, d: Id, e: Id)
    requires Within(p, n, c, d) && Within(p, m, d, e)
    ensures Within(p, n + m, c, e)
    decreases n
  {
    if c == d {
      WithinMore(p, m, n + m, d, e);
    } else {
      var b :| Edge(p, c, b) && Within(p, n - 1, b, d);
      WithinTrans(p, n - 1, m, b, d, e);
    }
  }

  lemma {:induction false} WithinMore(p: Program, n: nat, m: nat, c: Id, d: Id)
    requires Within(p, n, c, d) && n <= m
    ensures Within(p, m, c, d)
    decreases n
  {
    if c != d {
      var b :| Edge(p, c, b) && Within(p, n - 1, b, d);
      WithinMore(p, n - 1, m - 1, b, d);
    }
  }

  lemma LeadsTrans(p: Program, c: Id, d: Id, e: Id)
    requires Leads(p, c, d) && Leads(p, d, e)
    ensures Leads(p, c, e)
  {
    var n: nat :| Within(p, n, c, d);
    var m: nat :| Within(p, m, d, e);
    WithinTrans(p, n, m, c, d, e);
  }

  lemma EdgeLeads(p: Program, c: Id, d: Id)
    requires Edge(p, c, d)
    ensures Leads(p, c, d)
  {
    assert Within(p, 0, d, d);
    assert Within(p, 1, c, d);
  }

  lemma SelfLeads(p: Program, c: Id)
    ensures Leads(p, c, c)
  {
    assert Within(p, 0, c, c);
  }

  lemma {:induction false} LeadsInside(p: Program, n: nat, c: Id, d: Id)
    requires Complete(p) && c in p.classes && Within(p, n, c, d)
    ensures d in p.classes
    decreases n
  {
    if c != d {
      var b :| Edge(p, c, b) && Within(p, n - 1, b, d);
      LeadsInside(p, n - 1, b, d);
    }
  }

  // ---- runs of a program ----

  /** A thread may ask for any class, a <clinit> only for those that the program says. */
  ghost predicate MayDo(p: Program, s: State, a: Action)
  {
    a.Request? ==>
      a.c in p.classes && (a.t in s.threads && s.threads[a.t].Call? ==> a.c in p.requests(s.threads[a.t].c))
  }

  ghost predicate Allowed(p: Program, s: State, actions: seq<Action>)
    requires Run(p.supers, s, actions).Some?
    decreases |actions|
  {
    actions != [] ==>
      MayDo(p, s, actions[0]) && Allowed(p, Step(p.supers, s, actions[0]).value, actions[1..])
  }

  ghost predicate IsRunTo(p: Program, s: State, actions: seq<Action>, r: State)
  {
    Run(p.supers, s, actions) == Some(r) && Allowed(p, s, actions)
  }

  ghost predicate CanReach(p: Program, s: State, r: State)
  {
    exists actions :: IsRunTo(p, s, actions, r)
  }

  lemma StaysHere(p: Program, s: State)
    ensures CanReach(p, s, s)
  {
    assert IsRunTo(p, s, [], s);
  }

  lemma DoesStep(p: Program, s: State, a: Action, r: State)
    requires Step(p.supers, s, a) == Some(r) && MayDo(p, s, a)
    ensures CanReach(p, s, r)
  {
    assert [a][1..] == [];
    assert IsRunTo(p, s, [a], r);
  }

  lemma {:induction false} RunsCompose(p: Program, s: State, a: seq<Action>, q: State, b: seq<Action>, r: State)
    requires IsRunTo(p, s, a, q) && IsRunTo(p, q, b, r)
    ensures IsRunTo(p, s, a + b, r)
    decreases |a|
  {
    if a == [] {
      assert a + b == b;
    } else {
      assert (a + b)[0] == a[0] && (a + b)[1..] == a[1..] + b;
      RunsCompose(p, Step(p.supers, s, a[0]).value, a[1..], q, b, r);
    }
  }

  lemma ReachTrans(p: Program, s: State, q: State, r: State)
    requires CanReach(p, s, q) && CanReach(p, q, r)
    ensures CanReach(p, s, r)
  {
    var a :| IsRunTo(p, s, a, q);
    var b :| IsRunTo(p, q, b, r);
    RunsCompose(p, s, a, q, b, r);
  }

  lemma GoesNext(p: Program, s: State, q: State, t: Tid)
    requires CanReach(p, s, q) && CanGoOn(p.supers, q, t)
    ensures CanReach(p, s, Next(p.supers, q, t).value)
  {
    DoesStep(p, q, Advance(t), Next(p.supers, q, t).value);
    ReachTrans(p, s, q, Next(p.supers, q, t).value);
  }

  // ---- whoever is deadlocked is in a tangle ----

  /** The calls of a thread follow the edges. */
  ghost predicate FollowsEdges(p: Program, stack: Stack)
  {
    stack.Call? ==>
      && stack.c in p.classes && (stack.below.Call? ==> Edge(p, stack.below.c, stack.c))
      && FollowsEdges(p, stack.below)
  }

  ghost predicate AllFollow(p: Program, s: State)
  {
    forall t :: t in s.threads ==> FollowsEdges(p, s.threads[t])
  }

  lemma StepFollows(p: Program, s: State, a: Action)
    requires Complete(p) && Inv(s) && AllFollow(p, s) && Step(p.supers, s, a).Some? && MayDo(p, s, a)
    ensures AllFollow(p, Step(p.supers, s, a).value)
  {
    var r := Step(p.supers, s, a).value;
    assert FollowsEdges(p, s.threads[a.t]);
    match a
    case Request(t, c) =>
    case Advance(t) =>
      assert ThreadOk(s.lock, s.initializing, s.starts, t, s.threads[t]);
      OwnMoves(p.supers, s, t);
      forall u | u in r.threads && u != t ensures FollowsEdges(p, r.threads[u]) {
        OthersMove(p.supers, s, t, u);
        assert FollowsEdges(p, s.threads[u]);
      }
    case Spurious(t) =>
  }

  lemma {:induction false} RunFollows(p: Program, s: State, actions: seq<Action>)
    requires Complete(p) && Inv(s) && AllFollow(p, s) && Run(p.supers, s, actions).Some? && Allowed(p, s, actions)
    ensures Inv(Run(p.supers, s, actions).value) && AllFollow(p, Run(p.supers, s, actions).value)
    decreases |actions|
  {
    if actions != [] {
      StepFollows(p, s, actions[0]);
      StepKeepsInv(p.supers, s, actions[0]);
      RunFollows(p, Step(p.supers, s, actions[0]).value, actions[1..]);
    }
  }

  lemma {:induction false} ClaimLeadsToInnermost(p: Program, stack: Stack, c: Id)
    requires FollowsEdges(p, stack) && Claims(stack, c) > 0
    ensures stack.Call? && c in p.classes && Leads(p, c, stack.c)
  {
    if Claims(stack.below, c) > 0 {
      ClaimLeadsToInnermost(p, stack.below, c);
      EdgeLeads(p, stack.below.c, stack.c);
      LeadsTrans(p, c, stack.below.c, stack.c);
    } else {
      SelfLeads(p, c);
    }
  }

  /** The busy threads at another class that the class of t leads to. */
  ghost function Ahead(p: Program, s: State, t: Tid): set<Tid>
    requires t in s.threads && s.threads[t].Call?
  {
    set u | u in s.threads && s.threads[u].Call? && s.threads[u].c != s.threads[t].c
            && Leads(p, s.threads[t].c, s.threads[u].c)
  }

  lemma AheadShrinks(p: Program, s: State, t: Tid, u: Tid)
    requires !Tangled(p) && AllFollow(p, s) && t in s.threads && s.threads[t].Call? && u in Ahead(p, s, t)
    ensures |Ahead(p, s, u)| < |Ahead(p, s, t)|
  {
    assert FollowsEdges(p, s.threads[t]) && FollowsEdges(p, s.threads[u]);
    forall v | v in Ahead(p, s, u) ensures v in Ahead(p, s, t) {
      LeadsTrans(p, s.threads[t].c, s.threads[u].c, s.threads[v].c);
    }
    assert u !in Ahead(p, s, u);
    Smaller(Ahead(p, s, u), Ahead(p, s, t));
  }

  lemma Smaller(a: set<Tid>, b: set<Tid>)
    requires a <= b && a != b
    ensures |a| < |b|
  {
    assert b == a + (b - a);
  }

  /** Whom t waits for is ahead of it. */
  lemma OwnerIsAhead(p: Program, s: State, t: Tid) returns (owner: Tid)
    requires Inv(s) && AllFollow(p, s) && t in s.threads && s.threads[t].Call? && s.threads[t].pc.Asleep?
    ensures owner in s.threads && s.threads[owner].Call?
    ensures Next(p.supers, s, owner).None? && s.threads[owner].pc.Asleep? ==> owner in Ahead(p, s, t)
  {
    assert TopOk(s.initializing, t, s.threads[t]);
    var c := s.threads[t].c;
    owner := s.initializing[c];
    assert ClaimsOk(s.initializing, owner, s.threads[owner]);
    assert Claims(s.threads[owner], c) == 1;
    assert FollowsEdges(p, s.threads[owner]);
    ClaimLeadsToInnermost(p, s.threads[owner], c);
    assert TopOk(s.initializing, owner, s.threads[owner]);
  }

  lemma {:induction false} WaitsForOneThatCan(p: Program, s: State, t: Tid) returns (u: Tid)
    requires !Tangled(p) && Inv(s) && AllFollow(p, s) && t in s.threads && s.threads[t].Call?
    ensures CanGoOn(p.supers, s, u)
    decreases |Ahead(p, s, t)|
  {
    var stack := s.threads[t];
    if Next(p.supers, s, t).Some? {
      u := t;
    } else if stack.pc.Asleep? {
      var owner := OwnerIsAhead(p, s, t);
      if Next(p.supers, s, owner).Some? {
        u := owner;
      } else if s.threads[owner].pc.Asleep? {
        AheadShrinks(p, s, t, owner);
        u := WaitsForOneThatCan(p, s, owner);
      } else {
        LockIsNoObstacle(p.supers, s, s.threads[owner].c);
        u := s.lock[s.threads[owner].c];
      }
    } else {
      LockIsNoObstacle(p.supers, s, stack.c);
      u := s.lock[stack.c];
    }
  }

  /** A thread is inside initialize_class, and no such thread can execute its next line. */
  ghost predicate Deadlocked(p: Program, s: State)
  {
    (exists t :: t in s.threads && s.threads[t].Call?) && forall t :: !CanGoOn(p.supers, s, t)
  }

  lemma UntangledGoesOn(p: Program, s: State, r: State)
    requires Complete(p) && Initial(s) && CanReach(p, s, r) && !Tangled(p)
    ensures !Deadlocked(p, r)
  {
    var actions :| IsRunTo(p, s, actions, r);
    assert Inv(s);
    RunFollows(p, s, actions);
    if t :| t in r.threads && r.threads[t].Call? {
      var u := WaitsForOneThatCan(p, r, t);
    }
  }

  // ---- one thread alone ----

  /** No lock is held, and no thread but u sleeps. */
  ghost predicate Alone(s: State, u: Tid)
  {
    && u in s.threads && s.lock == map[]
    && forall t :: t in s.threads && t != u && s.threads[t].Call? ==> !s.threads[t].pc.Asleep?
  }

  /** Initialized, or in progress in u. */
  predicate Touched(s: State, u: Tid, c: Id)
  {
    c in s.initialized || Is(s.initializing, c, u)
  }

  /** What the <clinit> of each class requests; at most one class. */
  type Plan = Id -> Option<Id>

  ghost predicate Follows(p: Program, plan: Plan, g: iset<Id>)
  {
    forall c :: c in g ==>
      && c in p.classes && (forall d :: d in p.supers(c) ==> d in g)
      && (plan(c).Some? ==> plan(c).value in p.requests(c) && plan(c).value in g)
  }

  /** A class that was initialized from s to r is in g, and whatever its initialization asked for is touched. */
  ghost predicate NewIsClosed(p: Program, plan: Plan, g: iset<Id>, s: State, r: State, u: Tid)
  {
    forall c :: c in r.initialized && c !in s.initialized ==>
      && c in g && (forall d :: d in p.supers(c) ==> Touched(r, u, d))
      && (plan(c).Some? ==> Touched(r, u, plan(c).value))
  }

  /** From s to r only u has moved, and it has only initialized classes. */
  ghost predicate OnlyMoved(s: State, r: State, u: Tid)
  {
    && r.lock == map[] && s.initialized <= r.initialized && r.threads.Keys == s.threads.Keys
    && forall t :: t in s.threads && t != u ==> r.threads[t] == s.threads[t]
  }

  /** The thread is back at `stack`, and has nothing more in progress than before. */
  ghost predicate Returned(s: State, r: State, u: Tid, stack: Stack)
  {
    OnlyMoved(s, r, u) && u in r.threads && r.threads[u] == stack && r.initializing == s.initializing
  }

  /** The thread sleeps on a class that another one had in progress already, and gives up no class. */
  ghost predicate IsStuck(s: State, r: State, u: Tid)
  {
    && OnlyMoved(s, r, u) && u in r.threads && r.threads[u].Call? && r.threads[u].pc.Asleep?
    && r.threads[u].c in s.initializing && s.initializing[r.threads[u].c] != u
    && forall c :: c in s.initializing ==> Is(r.initializing, c, s.initializing[c])
  }

  ghost function Untouched(p: Program, s: State): nat
  {
    |p.classes - s.initialized - s.initializing.Keys|
  }

  lemma UntouchedShrinks(p: Program, s: State, r: State)
    requires s.initialized <= r.initialized && s.initializing.Keys <= r.initializing.Keys
    ensures Untouched(p, r) <= Untouched(p, s)
  {
    var a, b := p.classes - r.initialized - r.initializing.Keys, p.classes - s.initialized - s.initializing.Keys;
    if a != b {
      Smaller(a, b);
    }
  }

  /** The thread has just asked for c, and no lock is held. */
  predicate IsAsking(s: State, u: Tid, c: Id, stack: Stack)
  {
    u in s.threads && s.lock == map[] && s.threads[u] == Call(c, QuickCheck, stack)
  }

  ghost predicate Asks(s: State, u: Tid, c: Id, stack: Stack)
  {
    Alone(s, u) && IsAsking(s, u, c, stack) && MayCall(stack)
  }

  lemma AsksInitialized(p: Program, s: State, u: Tid, c: Id, stack: Stack) returns (r: State)
    requires Asks(s, u, c, stack) && c in s.initialized
    ensures CanReach(p, s, r) && Returned(s, r, u, stack) && r.initialized == s.initialized
  {
    r := Return(s, u);
    StaysHere(p, s);
    GoesNext(p, s, s, u);
  }

  /** The first lines, up to where the flags are tested under the lock. */
  lemma AsksFurther(p: Program, s: State, u: Tid, c: Id, stack: Stack) returns (r: State)
    requires IsAsking(s, u, c, stack) && c !in s.initialized
    ensures CanReach(p, s, r) && r == At(Lock(s, c, u), u, Holding)
  {
    var s1 := At(s, u, Acquire);
    StaysHere(p, s);
    GoesNext(p, s, s, u);
    r := At(Lock(s1, c, u), u, Holding);
    GoesNext(p, s, s1, u);
    assert r.threads == At(Lock(s, c, u), u, Holding).threads;
  }

  lemma AsksOwn(p: Program, s: State, u: Tid, c: Id, stack: Stack) returns (r: State)
    requires Asks(s, u, c, stack) && c !in s.initialized && Is(s.initializing, c, u)
    ensures CanReach(p, s, r) && Returned(s, r, u, stack) && r.initialized == s.initialized
  {
    var q := AsksFurther(p, s, u, c, stack);
    r := Return(Unlock(q, c), u);
    GoesNext(p, s, q, u);
    assert r.lock == map[];
  }

  lemma AsksBlocked(p: Program, s: State, u: Tid, c: Id, stack: Stack) returns (r: State)
    requires IsAsking(s, u, c, stack) && c !in s.initialized && c in s.initializing && s.initializing[c] != u
    ensures CanReach(p, s, r) && IsStuck(s, r, u) && r.initialized == s.initialized && r.threads[u].c == c
  {
    var q := AsksFurther(p, s, u, c, stack);
    var q1 := At(q, u, Testing);
    GoesNext(p, s, q, u);
    r := At(Unlock(q1, c), u, Asleep);
    GoesNext(p, s, q1, u);
    assert r.lock == map[];
  }

  /** The class is claimed, and step 7 begins. */
  function Claimed(s: State, u: Tid, c: Id, stack: Stack): State
  {
    s.(initializing := s.initializing[c := u], threads := s.threads[u := Call(c, Supers(0), stack)])
  }

  lemma AsksFree(p: Program, s: State, u: Tid, c: Id, stack: Stack)
    requires Asks(s, u, c, stack) && c !in s.initialized && c !in s.initializing
    ensures CanReach(p, s, Claimed(s, u, c, stack)) && Alone(Claimed(s, u, c, stack), u)
  {
    var q := AsksFurther(p, s, u, c, stack);
    var q1 := At(q, u, Testing);
    GoesNext(p, s, q, u);
    var q2 := At(q1, u, Granted);
    GoesNext(p, s, q1, u);
    var r := At(Unlock(q2, c).(initializing := q2.initializing[c := u]), u, Supers(0));
    GoesNext(p, s, q2, u);
    assert r.lock == map[] && r.threads == Claimed(s, u, c, stack).threads;
    assert r == Claimed(s, u, c, stack);
  }

  lemma StillAlone(s: State, r: State, u: Tid)
    requires Alone(s, u) && OnlyMoved(s, r, u)
    ensures Alone(r, u)
  {
  }

  ghost predicate TouchedMore(s: State, r: State, u: Tid)
  {
    s.initialized <= r.initialized && forall c :: Touched(s, u, c) ==> Touched(r, u, c)
  }

  lemma ClosedTogether(p: Program, plan: Plan, g: iset<Id>, s: State, q: State, r: State, u: Tid)
    requires NewIsClosed(p, plan, g, s, q, u) && NewIsClosed(p, plan, g, q, r, u) && TouchedMore(q, r, u)
    ensures NewIsClosed(p, plan, g, s, r, u)
  {
  }

  /** Stuck later is stuck from the beginning: what u has claimed meanwhile is not what it waits for. */
  lemma StuckSince(s: State, q: State, r: State, u: Tid)
    requires OnlyMoved(s, q, u) && IsStuck(q, r, u)
    requires forall c :: c in s.initializing ==> Is(q.initializing, c, s.initializing[c])
    requires forall c :: c in q.initializing && q.initializing[c] != u ==> c in s.initializing
    ensures IsStuck(s, r, u)
  {
  }

  lemma ReturnedTwice(s: State, q: State, r: State, u: Tid, stack: Stack, stack': Stack)
    requires Returned(s, q, u, stack) && Returned(q, r, u, stack')
    ensures Returned(s, r, u, stack') && TouchedMore(q, r, u)
  {
  }

  /** The requested class is touched when the call is over; if the thread is stuck, the class is in progress. */
  ghost predicate Visited(p: Program, plan: Plan, g: iset<Id>, s: State, r: State, u: Tid, c: Id, stack: Stack)
  {
    if IsStuck(s, r, u) then c in s.initialized || c in s.initializing || Is(r.initializing, c, u)
    else Returned(s, r, u, stack) && NewIsClosed(p, plan, g, s, r, u) && Touched(r, u, c)
  }

  /** The first k classes of the step 7 list of c are touched. */
  ghost predicate FirstTouched(p: Program, s: State, u: Tid, c: Id, k: nat)
  {
    k <= |p.supers(c)| && forall j :: 0 <= j < k ==> Touched(s, u, p.supers(c)[j])
  }

  /** From s to r the thread has initialized classes, and is where it was but for the line of its innermost call. */
  ghost predicate Advanced(p: Program, plan: Plan, g: iset<Id>, s: State, r: State, u: Tid, stack: Stack)
  {
    Returned(s, r, u, stack) && NewIsClosed(p, plan, g, s, r, u)
  }

  lemma AdvancedTwice(p: Program, plan: Plan, g: iset<Id>, s: State, q: State, r: State, u: Tid, here: Stack,
                      stack: Stack)
    requires Advanced(p, plan, g, s, q, u, here) && Advanced(p, plan, g, q, r, u, stack)
    ensures Advanced(p, plan, g, s, r, u, stack)
  {
    ReturnedTwice(s, q, r, u, here, stack);
    ClosedTogether(p, plan, g, s, q, r, u);
  }

  lemma StuckAfter(p: Program, plan: Plan, g: iset<Id>, s: State, q: State, r: State, u: Tid, here: Stack)
    requires Advanced(p, plan, g, s, q, u, here) && IsStuck(q, r, u)
    ensures IsStuck(s, r, u)
  {
    StuckSince(s, q, r, u);
  }

  /** A thread alone goes through initialize_class, until it is done or blocked. */
  lemma {:induction false} Visit(p: Program, plan: Plan, g: iset<Id>, s: State, u: Tid, c: Id, stack: Stack)
    returns (r: State)
    requires Asks(s, u, c, stack) && Follows(p, plan, g) && c in g
    ensures CanReach(p, s, r) && Visited(p, plan, g, s, r, u, c, stack)
    decreases Untouched(p, s), 0, 0
  {
    if c in s.initialized {
      r := AsksInitialized(p, s, u, c, stack);
    } else if Is(s.initializing, c, u) {
      r := AsksOwn(p, s, u, c, stack);
    } else if c in s.initializing {
      r := AsksBlocked(p, s, u, c, stack);
    } else {
      ClaimShrinks(p, s, u, c, stack);
      r := VisitFree(p, plan, g, s, u, c, stack);
    }
  }

  lemma {:induction false} VisitFree(p: Program, plan: Plan, g: iset<Id>, s: State, u: Tid, c: Id, stack: Stack)
    returns (r: State)
    requires Asks(s, u, c, stack) && Follows(p, plan, g) && c in g && c !in s.initialized && c !in s.initializing
    ensures CanReach(p, s, r) && Visited(p, plan, g, s, r, u, c, stack)
    decreases Untouched(p, Claimed(s, u, c, stack)), 3, 0
  {
    var s1 := Claimed(s, u, c, stack);
    AsksFree(p, s, u, c, stack);
    var q := VisitSupers(p, plan, g, s1, u, c, 0, stack);
    ReachTrans(p, s, s1, q);
    if IsStuck(s1, q, u) {
      StuckAfterClaim(s, u, c, stack, q);
      r := q;
    } else {
      r := VisitClinit(p, plan, g, s, u, c, stack, q);
    }
  }

  lemma ClaimShrinks(p: Program, s: State, u: Tid, c: Id, stack: Stack)
    requires c in p.classes && c !in s.initialized && c !in s.initializing
    ensures Untouched(p, Claimed(s, u, c, stack)) < Untouched(p, s)
  {
    var r := Claimed(s, u, c, stack);
    var a, b := p.classes - r.initialized - r.initializing.Keys, p.classes - s.initialized - s.initializing.Keys;
    assert c in b && c !in a;
    Smaller(a, b);
  }

  lemma StuckAfterClaim(s: State, u: Tid, c: Id, stack: Stack, r: State)
    requires u in s.threads && s.lock == map[] && c !in s.initializing && IsStuck(Claimed(s, u, c, stack), r, u)
    ensures IsStuck(s, r, u) && Is(r.initializing, c, u)
  {
    var s1 := Claimed(s, u, c, stack);
    assert c in s1.initializing && s1.initializing[c] == u;
    StuckSince(s, s1, r, u);
  }

  ghost predicate AtSuper(p: Program, s: State, u: Tid, c: Id, k: nat, stack: Stack)
  {
    Alone(s, u) && s.threads[u] == Call(c, Supers(k), stack) && FirstTouched(p, s, u, c, k)
  }

  lemma {:induction false} VisitSupers(p: Program, plan: Plan, g: iset<Id>, s: State, u: Tid, c: Id, k: nat,
                                       stack: Stack)
    returns (r: State)
    requires Follows(p, plan, g) && c in g && AtSuper(p, s, u, c, k, stack)
    ensures CanReach(p, s, r) && SupersDone(p, plan, g, s, r, u, c, stack)
    decreases Untouched(p, s), 2, |p.supers(c)| - k, 0
  {
    if k == |p.supers(c)| {
      StaysHere(p, s);
      SupersEnd(p, plan, g, s, u, c, stack);
      r := s;
    } else {
      var q := VisitSuper(p, plan, g, s, u, c, k, stack);
      if IsStuck(s, q, u) {
        r := q;
      } else {
        r := VisitLater(p, plan, g, s, q, u, c, k, stack);
      }
    }
  }

  lemma {:induction false} VisitLater(p: Program, plan: Plan, g: iset<Id>, s: State, q: State, u: Tid, c: Id, k: nat,
                                      stack: Stack) returns (r: State)
    requires Follows(p, plan, g) && c in g && CanReach(p, s, q)
    requires AtSuper(p, q, u, c, k + 1, stack) && Advanced(p, plan, g, s, q, u, Call(c, Supers(k + 1), stack))
    ensures CanReach(p, s, r) && SupersDone(p, plan, g, s, r, u, c, stack)
    decreases Untouched(p, q), 2, |p.supers(c)| - k - 1, 1
  {
    r := VisitSupers(p, plan, g, q, u, c, k + 1, stack);
    ReachTrans(p, s, q, r);
    SupersJoin(p, plan, g, s, q, r, u, c, k, stack);
  }

  lemma SupersEnd(p: Program, plan: Plan, g: iset<Id>, s: State, u: Tid, c: Id, stack: Stack)
    requires AtSuper(p, s, u, c, |p.supers(c)|, stack)
    ensures SupersDone(p, plan, g, s, s, u, c, stack)
  {
  }

  lemma SupersJoin(p: Program, plan: Plan, g: iset<Id>, s: State, q: State, r: State, u: Tid, c: Id, k: nat,
                   stack: Stack)
    requires Advanced(p, plan, g, s, q, u, Call(c, Supers(k + 1), stack)) && SupersDone(p, plan, g, q, r, u, c, stack)
    ensures SupersDone(p, plan, g, s, r, u, c, stack)
  {
    var here := Call(c, Supers(k + 1), stack);
    if IsStuck(q, r, u) {
      StuckAfter(p, plan, g, s, q, r, u, here);
    } else {
      AdvancedTwice(p, plan, g, s, q, r, u, here, Call(c, Supers(|p.supers(c)|), stack));
    }
  }

  ghost predicate SupersDone(p: Program, plan: Plan, g: iset<Id>, s: State, r: State, u: Tid, c: Id, stack: Stack)
  {
    IsStuck(s, r, u) || SupersVisited(p, plan, g, s, r, u, c, stack)
  }

  ghost predicate SupersVisited(p: Program, plan: Plan, g: iset<Id>, s: State, r: State, u: Tid, c: Id, stack: Stack)
  {
    && Advanced(p, plan, g, s, r, u, Call(c, Supers(|p.supers(c)|), stack))
    && FirstTouched(p, r, u, c, |p.supers(c)|)
  }

  lemma {:induction false} VisitSuper(p: Program, plan: Plan, g: iset<Id>, s: State, u: Tid, c: Id, k: nat,
                                      stack: Stack)
    returns (r: State)
    requires Follows(p, plan, g) && c in g && AtSuper(p, s, u, c, k, stack) && k < |p.supers(c)|
    ensures CanReach(p, s, r)
    ensures IsStuck(s, r, u) ||
            (&& AtSuper(p, r, u, c, k + 1, stack) && Advanced(p, plan, g, s, r, u, Call(c, Supers(k + 1), stack))
             && Untouched(p, r) <= Untouched(p, s))
    decreases Untouched(p, s), 1, 0
  {
    var d, here := p.supers(c)[k], Call(c, Supers(k + 1), stack);
    var s1 := Asking(s, u, d, here);
    AsksSuper(p, s, u, c, k, stack);
    r := Visit(p, plan, g, s1, u, d, here);
    ReachTrans(p, s, s1, r);
    AskedFrom(p, plan, g, s, u, d, here, r);
    if !IsStuck(s, r, u) {
      OneMore(p, plan, g, s, r, u, c, k, stack);
    }
  }

  lemma AsksSuper(p: Program, s: State, u: Tid, c: Id, k: nat, stack: Stack)
    requires AtSuper(p, s, u, c, k, stack) && k < |p.supers(c)|
    ensures var d, here := p.supers(c)[k], Call(c, Supers(k + 1), stack);
            var s1 := Asking(s, u, d, here);
            CanReach(p, s, s1) && Asks(s1, u, d, here) && Untouched(p, s1) == Untouched(p, s)
  {
    StaysHere(p, s);
    GoesNext(p, s, s, u);
  }

  lemma OneMore(p: Program, plan: Plan, g: iset<Id>, s: State, r: State, u: Tid, c: Id, k: nat, stack: Stack)
    requires AtSuper(p, s, u, c, k, stack) && k < |p.supers(c)|
    requires Advanced(p, plan, g, s, r, u, Call(c, Supers(k + 1), stack)) && TouchedMore(s, r, u)
    requires Touched(r, u, p.supers(c)[k])
    ensures AtSuper(p, r, u, c, k + 1, stack) && Untouched(p, r) <= Untouched(p, s)
  {
    StillAlone(s, r, u);
    UntouchedShrinks(p, s, r);
    FirstStayTouched(p, s, r, u, c, k);
  }

  lemma FirstStayTouched(p: Program, s: State, r: State, u: Tid, c: Id, k: nat)
    requires FirstTouched(p, s, u, c, k) && TouchedMore(s, r, u)
    ensures FirstTouched(p, r, u, c, k)
  {
  }

  function Asking(s: State, u: Tid, d: Id, here: Stack): State
  {
    s.(threads := s.threads[u := Call(d, QuickCheck, here)])
  }

  /** The request itself changes nothing but the stack. */
  lemma AskedFrom(p: Program, plan: Plan, g: iset<Id>, s: State, u: Tid, d: Id, here: Stack, r: State)
    requires u in s.threads && Visited(p, plan, g, Asking(s, u, d, here), r, u, d, here)
    ensures IsStuck(s, r, u) || (Advanced(p, plan, g, s, r, u, here) && Touched(r, u, d) && TouchedMore(s, r, u))
  {
  }

  /** Steps 9 and 10, after step 7. */
  lemma {:induction false} VisitClinit(p: Program, plan: Plan, g: iset<Id>, s: State, u: Tid, c: Id, stack: Stack,
                                       q: State)
    returns (r: State)
    requires Asks(s, u, c, stack) && Follows(p, plan, g) && c in g && c !in s.initialized && c !in s.initializing
    requires CanReach(p, s, q) && SupersVisited(p, plan, g, Claimed(s, u, c, stack), q, u, c, stack)
    ensures CanReach(p, s, r) && Visited(p, plan, g, s, r, u, c, stack)
    decreases Untouched(p, Claimed(s, u, c, stack)), 2, 0
  {
    var s1 := Claimed(s, u, c, stack);
    var q1 := BeginsClinit(p, plan, g, s, u, c, stack, q);
    var q2 := q1;
    if plan(c).Some? {
      q2 := VisitRequest(p, plan, g, s1, u, c, stack, q1);
      ReachTrans(p, s, q1, q2);
    }
    if IsStuck(s1, q2, u) {
      StuckAfterClaim(s, u, c, stack, q2);
      r := q2;
    } else {
      r := Publish(p, s, u, c, stack, q2);
      ClosedAtEnd(p, plan, g, s, q2, u, c, stack);
    }
  }

  lemma BeginsClinit(p: Program, plan: Plan, g: iset<Id>, s: State, u: Tid, c: Id, stack: Stack, q: State)
    returns (r: State)
    requires Asks(s, u, c, stack) && CanReach(p, s, q)
    requires SupersVisited(p, plan, g, Claimed(s, u, c, stack), q, u, c, stack)
    ensures CanReach(p, s, r) && Alone(r, u) && FirstTouched(p, r, u, c, |p.supers(c)|)
    ensures Advanced(p, plan, g, Claimed(s, u, c, stack), r, u, Call(c, Clinit, stack))
    ensures Untouched(p, r) <= Untouched(p, Claimed(s, u, c, stack))
  {
    r := At(q, u, Clinit).(starts := q.starts + [c]);
    StartsNext(p, q, u, c, stack);
    GoesNext(p, s, q, u);
    AtClinit(p, plan, g, Claimed(s, u, c, stack), q, r, u, c, stack);
    StillAlone(Claimed(s, u, c, stack), r, u);
    UntouchedShrinks(p, Claimed(s, u, c, stack), r);
  }

  lemma StartsNext(p: Program, q: State, u: Tid, c: Id, stack: Stack)
    requires u in q.threads && q.threads[u] == Call(c, Supers(|p.supers(c)|), stack)
    ensures Next(p.supers, q, u) == Some(At(q, u, Clinit).(starts := q.starts + [c]))
  {
  }

  lemma AtClinit(p: Program, plan: Plan, g: iset<Id>, s1: State, q: State, r: State, u: Tid, c: Id, stack: Stack)
    requires SupersVisited(p, plan, g, s1, q, u, c, stack)
    requires r == At(q, u, Clinit).(starts := q.starts + [c])
    ensures FirstTouched(p, r, u, c, |p.supers(c)|) && Advanced(p, plan, g, s1, r, u, Call(c, Clinit, stack))
  {
  }

  /** What is known when the <clinit> of c is over. */
  ghost predicate ClinitVisited(p: Program, plan: Plan, g: iset<Id>, s1: State, r: State, u: Tid, c: Id, stack: Stack)
  {
    && Advanced(p, plan, g, s1, r, u, Call(c, Clinit, stack)) && FirstTouched(p, r, u, c, |p.supers(c)|)
    && (plan(c).Some? ==> Touched(r, u, plan(c).value))
  }

  lemma {:induction false} VisitRequest(p: Program, plan: Plan, g: iset<Id>, s1: State, u: Tid, c: Id, stack: Stack,
                                        q: State)
    returns (r: State)
    requires Alone(q, u) && Follows(p, plan, g) && c in g && plan(c).Some?
    requires Advanced(p, plan, g, s1, q, u, Call(c, Clinit, stack)) && FirstTouched(p, q, u, c, |p.supers(c)|)
    ensures CanReach(p, q, r) && (IsStuck(s1, r, u) || ClinitVisited(p, plan, g, s1, r, u, c, stack))
    decreases Untouched(p, q), 1, 0
  {
    var d, here := plan(c).value, Call(c, Clinit, stack);
    var q1 := Asking(q, u, d, here);
    DoesStep(p, q, Request(u, d), q1);
    r := Visit(p, plan, g, q1, u, d, here);
    ReachTrans(p, q, q1, r);
    AskedFrom(p, plan, g, q, u, d, here, r);
    if IsStuck(q, r, u) {
      StuckAfter(p, plan, g, s1, q, r, u, here);
    } else {
      AdvancedTwice(p, plan, g, s1, q, r, u, here, here);
    }
  }

  /** The lock is taken again, the class is initialized and the call returns. */
  function Published(s: State, u: Tid, c: Id, stack: Stack, q: State): State
  {
    q.(initialized := q.initialized + {c}, initializing := s.initializing, threads := q.threads[u := stack])
  }

  lemma Publish(p: Program, s: State, u: Tid, c: Id, stack: Stack, q: State) returns (r: State)
    requires Asks(s, u, c, stack) && c !in s.initialized && c !in s.initializing
    requires CanReach(p, s, q) && Returned(Claimed(s, u, c, stack), q, u, Call(c, Clinit, stack))
    ensures r == Published(s, u, c, stack, q) && CanReach(p, s, r)
  {
    var q1 := At(q, u, Releasing);
    GoesNext(p, s, q, u);
    var q2 := At(Lock(q1, c, u), u, Publishing);
    GoesNext(p, s, q1, u);
    r := Next(p.supers, q2, u).value;
    GoesNext(p, s, q2, u);
    PublishEnds(p, s, u, c, stack, q, q2);
  }

  lemma PublishEnds(p: Program, s: State, u: Tid, c: Id, stack: Stack, q: State, q2: State)
    requires Asks(s, u, c, stack) && c !in s.initialized && c !in s.initializing
    requires Returned(Claimed(s, u, c, stack), q, u, Call(c, Clinit, stack))
    requires q2 == q.(lock := map[c := u], threads := q.threads[u := Call(c, Publishing, stack)])
    ensures Next(p.supers, q2, u) == Some(Published(s, u, c, stack, q))
  {
    var r := Next(p.supers, q2, u).value;
    assert r.lock == map[];
    assert r.initializing == s.initializing;
    forall t | t in q.threads ensures r.threads[t] == q.threads[u := stack][t] {
      assert t != u ==> q.threads[t] == s.threads[t];
    }
    assert r.threads == q.threads[u := stack];
  }

  lemma ClosedAtEnd(p: Program, plan: Plan, g: iset<Id>, s: State, q: State, u: Tid, c: Id, stack: Stack)
    requires Asks(s, u, c, stack) && c in g && c !in s.initialized && c !in s.initializing
    requires ClinitVisited(p, plan, g, Claimed(s, u, c, stack), q, u, c, stack)
    ensures Visited(p, plan, g, s, Published(s, u, c, stack, q), u, c, stack)
  {
    var r := Published(s, u, c, stack, q);
    assert r.threads[u] == stack;
    forall d | Touched(q, u, d) ensures Touched(r, u, d) {
    }
  }

  // ---- every tangle can deadlock ----

  /** Superclasses and superinterfaces have a smaller rank. */
  ghost predicate SupersAreRanked(p: Program, rank: Id -> nat)
  {
    forall c, d :: c in p.classes && d in p.supers(c) ==> rank(d) < rank(c)
  }

  ghost predicate IsTangledAt(p: Program, x: Id)
  {
    x in p.classes && exists d :: d in p.classes && d != x && Leads(p, x, d) && Leads(p, d, x)
  }

  /** A class of a tangle with the smallest rank. */
  lemma {:induction false} LowestTangled(p: Program, rank: Id -> nat, c: Id) returns (x: Id)
    requires IsTangledAt(p, c)
    ensures IsTangledAt(p, x) && forall d :: IsTangledAt(p, d) ==> rank(x) <= rank(d)
    decreases rank(c)
  {
    if d :| IsTangledAt(p, d) && rank(d) < rank(c) {
      x := LowestTangled(p, rank, d);
    } else {
      x := c;
    }
  }

  /** The classes above x that its initialization leads to. */
  ghost function Above(p: Program, rank: Id -> nat, x: Id): iset<Id>
  {
    iset c | c in p.classes && rank(c) < rank(x) && Leads(p, x, c)
  }

  const NOTHING: Plan := c => None

  lemma AboveIsClosed(p: Program, rank: Id -> nat, x: Id)
    requires Complete(p) && SupersAreRanked(p, rank) && x in p.classes
    ensures Follows(p, NOTHING, Above(p, rank, x))
    ensures forall d :: d in p.supers(x) ==> d in Above(p, rank, x)
  {
    forall c, d | (c in Above(p, rank, x) || c == x) && d in p.supers(c) ensures d in Above(p, rank, x) {
      EdgeLeads(p, c, d);
      SelfLeads(p, x);
      LeadsTrans(p, x, c, d);
    }
  }

  /** From a lowest class of a tangle, none of them leads back. */
  lemma NoWayBack(p: Program, rank: Id -> nat, x: Id, c: Id)
    requires IsTangledAt(p, x) && (forall d :: IsTangledAt(p, d) ==> rank(x) <= rank(d)) && c in Above(p, rank, x)
    ensures !Leads(p, c, x)
  {
    if Leads(p, c, x) {
      BackIsTangled(p, x, c);
    }
  }

  lemma BackIsTangled(p: Program, x: Id, c: Id)
    requires x in p.classes && c in p.classes && c != x && Leads(p, x, c) && Leads(p, c, x)
    ensures IsTangledAt(p, c)
  {
  }

  /** The first other class on a path. */
  lemma {:induction false} FirstOther(p: Program, n: nat, x: Id, d: Id) returns (y: Id)
    requires Complete(p) && x in p.classes && Within(p, n, x, d) && d != x
    ensures Edge(p, x, y) && y != x && Leads(p, y, d) && y in p.classes
    decreases n
  {
    var e :| Edge(p, x, e) && Within(p, n - 1, e, d);
    if e == x {
      y := FirstOther(p, n - 1, x, d);
    } else {
      y := e;
    }
  }

  /** So x requests a class y in its <clinit> that leads back to x. */
  lemma TangledRequest(p: Program, rank: Id -> nat, x: Id) returns (y: Id)
    requires Complete(p) && SupersAreRanked(p, rank) && IsTangledAt(p, x)
    requires forall d :: IsTangledAt(p, d) ==> rank(x) <= rank(d)
    ensures y in p.requests(x) && y != x && y in p.classes && Leads(p, y, x) && y !in Above(p, rank, x)
  {
    var d :| d in p.classes && d != x && Leads(p, x, d) && Leads(p, d, x);
    var n: nat :| Within(p, n, x, d);
    y := FirstOther(p, n, x, d);
    LeadsTrans(p, y, d, x);
    if y in Above(p, rank, x) {
      NoWayBack(p, rank, x, y);
    }
    AboveIsClosed(p, rank, x);
  }

  // ---- the way back ----

  ghost function Distance(p: Program, c: Id, x: Id): (n: nat)
    requires Leads(p, c, x)
    ensures Within(p, n, c, x) && forall m: nat :: Within(p, m, c, x) ==> n <= m
  {
    var n: nat :| Within(p, n, c, x);
    Least(p, n, c, x)
  }

  ghost function Least(p: Program, n: nat, c: Id, x: Id): (m: nat)
    requires Within(p, n, c, x)
    ensures Within(p, m, c, x) && forall k: nat :: Within(p, k, c, x) ==> m <= k
    decreases n
  {
    if k: nat :| k < n && Within(p, k, c, x) then Least(p, k, c, x) else n
  }

  /** Each class that leads to x asks for one that is nearer. */
  ghost predicate IsNearer(p: Program, x: Id, c: Id, d: Id)
  {
    Edge(p, c, d) && Leads(p, d, x) && Leads(p, c, x) && Distance(p, d, x) < Distance(p, c, x)
  }

  lemma SomeIsNearer(p: Program, x: Id, c: Id)
    requires Leads(p, c, x) && c != x
    ensures exists d :: IsNearer(p, x, c, d)
  {
    var n := Distance(p, c, x);
    var d :| Edge(p, c, d) && Within(p, n - 1, d, x);
    assert Leads(p, d, x);
    assert IsNearer(p, x, c, d);
  }

  /** Its <clinit> requests that class, if its step 7 list does not hold one. */
  ghost function Nearer(p: Program, x: Id, c: Id): Option<Id>
  {
    if d :| IsNearer(p, x, c, d) && d in p.supers(c) then None
    else if d :| IsNearer(p, x, c, d) && d in p.requests(c) then Some(d)
    else None
  }

  lemma ReachedInv(p: Program, r: State)
    requires CanReach(p, Resting(), r)
    ensures Inv(r)
  {
    var actions :| IsRunTo(p, Resting(), actions, r);
    ReachableInv(p.supers, Resting(), actions);
  }

  /** Thread 0 is executing the <clinit> of x, and nothing is initialized but classes above x. */
  ghost predicate FirstInside(p: Program, rank: Id -> nat, x: Id, s: State)
  {
    && CanReach(p, Resting(), s) && s.threads == map[0 := Call(x, Clinit, Idle), 1 := Idle] && s.lock == map[]
    && s.initializing == map[x := 0] && forall c :: c in s.initialized ==> c in Above(p, rank, x)
  }

  lemma FirstAsks(p: Program, x: Id) returns (s: State)
    requires x in p.classes
    ensures CanReach(p, Resting(), s) && s == Asking(Resting(), 0, x, Idle) && Asks(s, 0, x, Idle)
  {
    s := Asking(Resting(), 0, x, Idle);
    DoesStep(p, Resting(), Request(0, x), s);
  }

  ghost function AtOrAbove(p: Program, rank: Id -> nat, x: Id): iset<Id>
  {
    Above(p, rank, x) + iset{x}
  }

  lemma AtOrAboveIsClosed(p: Program, rank: Id -> nat, x: Id)
    requires Complete(p) && SupersAreRanked(p, rank) && x in p.classes
    ensures Follows(p, NOTHING, AtOrAbove(p, rank, x)) && x in AtOrAbove(p, rank, x)
  {
    AboveIsClosed(p, rank, x);
  }

  lemma FirstGoesIn(p: Program, rank: Id -> nat, x: Id) returns (r: State)
    requires Complete(p) && SupersAreRanked(p, rank) && x in p.classes
    ensures FirstInside(p, rank, x, r)
  {
    var s := FirstAsks(p, x);
    var s1 := Claimed(s, 0, x, Idle);
    var g := AtOrAbove(p, rank, x);
    AsksFree(p, s, 0, x, Idle);
    AtOrAboveIsClosed(p, rank, x);
    var q := VisitSupers(p, NOTHING, g, s1, 0, x, 0, Idle);
    ReachTrans(p, s, s1, q);
    NobodyElse(s1, q, x);
    r := BeginsClinit(p, NOTHING, g, s, 0, x, Idle, q);
    ReachTrans(p, Resting(), s, r);
    ReachedInv(p, r);
    FirstArrives(p, rank, x, r);
  }

  lemma NobodyElse(s1: State, q: State, x: Id)
    requires s1.initializing == map[x := 0]
    ensures !IsStuck(s1, q, 0)
  {
  }

  lemma FirstArrives(p: Program, rank: Id -> nat, x: Id, r: State)
    requires Inv(r) && CanReach(p, Resting(), r)
    requires Advanced(p, NOTHING, AtOrAbove(p, rank, x), Claimed(Asking(Resting(), 0, x, Idle), 0, x, Idle), r, 0,
                      Call(x, Clinit, Idle))
    ensures FirstInside(p, rank, x, r)
  {
    assert x in r.initializing;
    assert r.threads == map[0 := Call(x, Clinit, Idle), 1 := Idle];
  }

  ghost function InProgram(p: Program): iset<Id>
  {
    iset c | c in p.classes
  }

  ghost function WayBack(p: Program, x: Id): Plan
  {
    (c: Id) => Nearer(p, x, c)
  }

  lemma NearerIsTouched(p: Program, x: Id, s: State, r: State, u: Tid, c: Id) returns (d: Id)
    requires NewIsClosed(p, WayBack(p, x), InProgram(p), s, r, u)
    requires c in r.initialized && c !in s.initialized && Leads(p, c, x) && c != x
    ensures IsNearer(p, x, c, d) && Touched(r, u, d)
  {
    SomeIsNearer(p, x, c);
    if e :| IsNearer(p, x, c, e) && e in p.supers(c) {
      d := e;
    } else {
      d := Nearer(p, x, c).value;
    }
  }

  /** Nothing that leads to x is initialized, for it would have asked for x. */
  lemma {:induction false} NothingOnTheWay(p: Program, rank: Id -> nat, x: Id, s: State, r: State, n: nat, c: Id)
    requires IsTangledAt(p, x) && (forall d :: IsTangledAt(p, d) ==> rank(x) <= rank(d)) && x !in r.initialized
    requires forall d :: d in s.initialized ==> d in Above(p, rank, x)
    requires r.initializing == map[x := 0] && NewIsClosed(p, WayBack(p, x), InProgram(p), s, r, 1)
    requires c in r.initialized
    ensures !Within(p, n, c, x)
    decreases n
  {
    if Within(p, n, c, x) {
      assert Leads(p, c, x);
      if c in s.initialized {
        NoWayBack(p, rank, x, c);
      } else {
        var d := NearerIsTouched(p, x, s, r, 1, c);
        NothingOnTheWay(p, rank, x, s, r, Distance(p, d, x), d);
      }
    }
  }

  lemma WayBackIsFollowed(p: Program, x: Id)
    requires Complete(p)
    ensures Follows(p, WayBack(p, x), InProgram(p))
  {
    forall c | c in InProgram(p) && Nearer(p, x, c).Some?
      ensures Nearer(p, x, c).value in p.requests(c) && Nearer(p, x, c).value in p.classes
    {
      assert Edge(p, c, Nearer(p, x, c).value);
    }
    forall c, d | c in InProgram(p) && d in p.supers(c) ensures d in p.classes {
      assert Edge(p, c, d);
    }
  }

  /** Thread 1 asks for y, and goes on until it sleeps on x. */
  lemma SecondFallsAsleep(p: Program, rank: Id -> nat, x: Id, y: Id, s: State) returns (r: State)
    requires Complete(p) && IsTangledAt(p, x) && (forall d :: IsTangledAt(p, d) ==> rank(x) <= rank(d))
    requires FirstInside(p, rank, x, s) && y in p.classes && y != x && Leads(p, y, x) && y !in Above(p, rank, x)
    ensures CanReach(p, s, r) && IsStuck(s, r, 1) && Is(r.initializing, y, 1)
  {
    var s1 := Asking(s, 1, y, Idle);
    DoesStep(p, s, Request(1, y), s1);
    WayBackIsFollowed(p, x);
    r := Visit(p, WayBack(p, x), InProgram(p), s1, 1, y, Idle);
    ReachTrans(p, s, s1, r);
    ReachTrans(p, Resting(), s, r);
    ReachedInv(p, r);
    if !IsStuck(s1, r, 1) {
      assert x in r.initializing;
      var n: nat :| Within(p, n, y, x);
      NothingOnTheWay(p, rank, x, s1, r, n, y);
    }
  }

  /** Then thread 0 asks for y, which thread 1 has in progress. */
  lemma BothSleep(p: Program, rank: Id -> nat, x: Id, y: Id, s: State, q: State) returns (r: State)
    requires FirstInside(p, rank, x, s) && CanReach(p, s, q) && IsStuck(s, q, 1) && Is(q.initializing, y, 1)
    requires y in p.requests(x) && y in p.classes
    ensures CanReach(p, Resting(), r) && Deadlocked(p, r)
  {
    ReachTrans(p, Resting(), s, q);
    ReachedInv(p, q);
    var q1 := Asking(q, 0, y, Call(x, Clinit, Idle));
    DoesStep(p, q, Request(0, y), q1);
    ReachTrans(p, Resting(), q, q1);
    r := AsksBlocked(p, q1, 0, y, Call(x, Clinit, Idle));
    ReachTrans(p, Resting(), q1, r);
    AllSleep(p, s, q, q1, r);
  }

  lemma AllSleep(p: Program, s: State, q: State, q1: State, r: State)
    requires s.threads.Keys == {0, 1} && IsStuck(s, q, 1) && IsStuck(q1, r, 0)
    requires 0 in q1.threads && q1.threads == q.threads[0 := q1.threads[0]]
    ensures Deadlocked(p, r)
  {
    assert r.threads.Keys == {0, 1};
    assert r.threads[1] == q.threads[1];
    assert r.threads[0].Call?;
  }

  lemma TangledDeadlocks(p: Program, rank: Id -> nat) returns (r: State)
    requires Complete(p) && SupersAreRanked(p, rank) && Tangled(p)
    ensures CanReach(p, Resting(), r) && Deadlocked(p, r)
  {
    var c, d :| c in p.classes && d in p.classes && c != d && Leads(p, c, d) && Leads(p, d, c);
    assert IsTangledAt(p, c);
    var x := LowestTangled(p, rank, c);
    var y := TangledRequest(p, rank, x);
    var s := FirstGoesIn(p, rank, x);
    var q := SecondFallsAsleep(p, rank, x, y, s);
    r := BothSleep(p, rank, x, y, s, q);
  }

  // ---- exactly when ----

  ghost predicate CanDeadlock(p: Program)
  {
    exists s, r :: Initial(s) && CanReach(p, s, r) && Deadlocked(p, r)
  }

  /** Some run deadlocks exactly when two classes of the program ask for each other, directly or not. */
  lemma DeadlockIff(p: Program, rank: Id -> nat)
    requires Complete(p) && SupersAreRanked(p, rank)
    ensures CanDeadlock(p) <==> Tangled(p)
  {
    if CanDeadlock(p) && !Tangled(p) {
      var s, r :| Initial(s) && CanReach(p, s, r) && Deadlocked(p, r);
      UntangledGoesOn(p, s, r);
    }
    if Tangled(p) {
      var r := TangledDeadlocks(p, rank);
      assert Initial(Resting());
    }
  }
}
