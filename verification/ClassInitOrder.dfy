/** Initialization by many threads, in every interleaving: supertypes come first, and somebody can always go on. */
module ClassInitOrder {
  import opened Options
  import opened ClassInitThreads

  // ---- supertypes first ----

  /** The class is initialized, or this thread is initializing it in one of these calls. */
  predicate Settled(initialized: set<Id>, stack: Stack, d: Id)
  {
    d in initialized || Claims(stack, d) > 0
  }

  predicate FirstSettled(list: seq<Id>, n: nat, initialized: set<Id>, stack: Stack)
  {
    n <= |list| && forall j :: 0 <= j < n ==> Settled(initialized, stack, list[j])
  }

  predicate PastSupers(pc: Pc)
  {
    pc.Clinit? || pc.Releasing? || pc.Publishing?
  }

  /** What step 7 of the innermost call has done. */
  predicate TopDone(supers: Supers, initialized: set<Id>, stack: Stack)
  {
    stack.Call? ==>
      && (stack.pc.Supers? ==> FirstSettled(supers(stack.c), stack.pc.next, initialized, stack))
      && (PastSupers(stack.pc) ==> FirstSettled(supers(stack.c), |supers(stack.c)|, initialized, stack))
      && BelowDone(supers, initialized, stack.c, stack.below)
  }

  /** A call in step 7 that waits for its last request, which was for d. */
  predicate BelowDone(supers: Supers, initialized: set<Id>, d: Id, stack: Stack)
    decreases stack
  {
    stack.Call? ==>
      && (stack.pc.Supers? ==>
            && 0 < stack.pc.next <= |supers(stack.c)| && supers(stack.c)[stack.pc.next - 1] == d
            && FirstSettled(supers(stack.c), stack.pc.next - 1, initialized, stack))
      && (PastSupers(stack.pc) ==> FirstSettled(supers(stack.c), |supers(stack.c)|, initialized, stack))
      && BelowDone(supers, initialized, stack.c, stack.below)
  }

  ghost predicate SupersOk(supers: Supers, s: State)
  {
    forall t :: t in s.threads ==> TopDone(supers, s.initialized, s.threads[t])
  }

  lemma {:induction false} BelowStaysDone(supers: Supers, initialized: set<Id>, more: set<Id>, d: Id, stack: Stack)
    requires BelowDone(supers, initialized, d, stack) && initialized <= more
    ensures BelowDone(supers, more, d, stack)
    decreases stack
  {
    if stack.Call? {
      BelowStaysDone(supers, initialized, more, stack.c, stack.below);
    }
  }

  lemma TopStaysDone(supers: Supers, initialized: set<Id>, more: set<Id>, stack: Stack)
    requires TopDone(supers, initialized, stack) && initialized <= more
    ensures TopDone(supers, more, stack)
  {
    if stack.Call? {
      BelowStaysDone(supers, initialized, more, stack.c, stack.below);
    }
  }

  lemma OthersStayDone(supers: Supers, s: State, r: State, u: Tid)
    requires SupersOk(supers, s) && u in s.threads && u in r.threads && s.initialized <= r.initialized
    requires r.threads[u] == s.threads[u] || exists c :: r.threads[u] == Notified(s.threads[u], c)
    ensures TopDone(supers, r.initialized, r.threads[u])
  {
    TopStaysDone(supers, s.initialized, r.initialized, s.threads[u]);
  }

  /** When a call for d ends, the caller has one class more settled. */
  lemma ReturnSettles(supers: Supers, initialized: set<Id>, stack: Stack)
    requires stack.Call? && BelowDone(supers, initialized, stack.c, stack.below)
    requires Settled(initialized, stack.below, stack.c)
    ensures TopDone(supers, initialized, stack.below)
  {
  }

  /** The innermost call has reached another line. */
  lemma MoveStaysDone(supers: Supers, initialized: set<Id>, stack: Stack, pc: Pc)
    requires stack.Call? && TopDone(supers, initialized, stack) && Moves(supers, stack, pc)
    ensures TopDone(supers, initialized, stack.(pc := pc))
  {
    ClaimsGrow(stack, pc);
  }

  lemma ClaimsGrow(stack: Stack, pc: Pc)
    requires stack.Call? && (Owning(stack.pc) ==> Owning(pc))
    ensures forall d :: Claims(stack, d) <= Claims(stack.(pc := pc), d)
  {
  }

  lemma RequestStaysDone(supers: Supers, initialized: set<Id>, stack: Stack)
    requires AtRequest(supers, stack) && TopDone(supers, initialized, stack)
    ensures TopDone(supers, initialized, Requesting(supers, stack))
  {
    ClaimsGrow(stack, Supers(stack.pc.next + 1));
  }

  lemma ReturnedIsSettled(supers: Supers, s: State, t: Tid)
    requires Inv(s) && t in s.threads && s.threads[t].Call? && Next(supers, s, t).Some?
    requires t in Next(supers, s, t).value.threads
             && Next(supers, s, t).value.threads[t] == s.threads[t].below
    ensures Settled(Next(supers, s, t).value.initialized, s.threads[t].below, s.threads[t].c)
  {
    var r := Next(supers, s, t).value;
    assert Depth(s.threads[t].below) < Depth(s.threads[t]);
    assert Returns(supers, s, Advance(t), r);
    ReturnMeans(supers, s, t, r);
    StepKeepsInv(supers, s, Advance(t));
    assert ClaimsOk(r.initializing, t, r.threads[t]);
  }

  /** A step of t leaves the other threads where they are, or wakes them up. */
  lemma OthersMove(supers: Supers, s: State, t: Tid, u: Tid)
    requires t in s.threads && s.threads[t].Call? && Next(supers, s, t).Some? && u != t
    ensures var r := Next(supers, s, t).value;
            && (u in r.threads <==> u in s.threads) && s.initialized <= r.initialized
            && (u in s.threads ==>
                  r.threads[u] == s.threads[u] || r.threads[u] == Notified(s.threads[u], s.threads[t].c))
  {
    if s.threads[t].pc.Publishing? {
      OthersWake(supers, s, t, u);
    } else {
      OthersStay(supers, s, t, u);
    }
  }

  lemma OthersWake(supers: Supers, s: State, t: Tid, u: Tid)
    requires t in s.threads && s.threads[t].Call? && s.threads[t].pc.Publishing? && u != t
    ensures var r := Next(supers, s, t).value;
            && (u in r.threads <==> u in s.threads) && s.initialized <= r.initialized
            && (u in s.threads ==> r.threads[u] == Notified(s.threads[u], s.threads[t].c))
  {
  }

  lemma OthersStay(supers: Supers, s: State, t: Tid, u: Tid)
    requires t in s.threads && s.threads[t].Call? && Next(supers, s, t).Some? && !s.threads[t].pc.Publishing? && u != t
    ensures var r := Next(supers, s, t).value;
            && (u in r.threads <==> u in s.threads) && s.initialized == r.initialized
            && (u in s.threads ==> r.threads[u] == s.threads[u])
  {
  }

  predicate AtRequest(supers: Supers, stack: Stack)
  {
    stack.Call? && stack.pc.Supers? && stack.pc.next < |supers(stack.c)|
  }

  function Requesting(supers: Supers, stack: Stack): Stack
    requires AtRequest(supers, stack)
  {
    Call(supers(stack.c)[stack.pc.next], QuickCheck, stack.(pc := Supers(stack.pc.next + 1)))
  }

  /** The innermost call returns, requests a class of its list, or reaches another line. */
  predicate GoesOn(supers: Supers, stack: Stack, stack': Stack)
    requires stack.Call?
  {
    if AtRequest(supers, stack) then stack' == Requesting(supers, stack)
    else stack' == stack.below
         || (stack'.Call? && Moves(supers, stack, stack'.pc) && stack' == stack.(pc := stack'.pc))
  }

  lemma OwnMoves(supers: Supers, s: State, t: Tid)
    requires t in s.threads && s.threads[t].Call? && Next(supers, s, t).Some? && Nested(s.threads[t])
    ensures var r := Next(supers, s, t).value;
            t in r.threads && s.initialized <= r.initialized && GoesOn(supers, s.threads[t], r.threads[t])
  {
    var stack, r := s.threads[t], Next(supers, s, t).value;
    if stack.pc.Publishing? {
      OwnWakes(supers, s, t);
    } else if stack.pc.Supers? {
      assert r.threads[t] == if AtRequest(supers, stack) then Requesting(supers, stack) else stack.(pc := Clinit);
    } else if stack.pc.Clinit? || stack.pc.Releasing? {
      assert r.threads[t].Call? && r.threads[t] == stack.(pc := r.threads[t].pc);
    } else {
      OwnMovesEarly(supers, s, t);
    }
  }

  lemma OwnWakes(supers: Supers, s: State, t: Tid)
    requires t in s.threads && s.threads[t].Call? && s.threads[t].pc.Publishing? && Nested(s.threads[t])
    ensures var r := Next(supers, s, t).value;
            t in r.threads && s.initialized <= r.initialized && r.threads[t] == s.threads[t].below
  {
  }

  lemma OwnMovesEarly(supers: Supers, s: State, t: Tid)
    requires t in s.threads && s.threads[t].Call? && Next(supers, s, t).Some? && !Owning(s.threads[t].pc)
    ensures var stack, r := s.threads[t], Next(supers, s, t).value;
            && t in r.threads && s.initialized == r.initialized
            && (r.threads[t] == stack.below
                || (r.threads[t].Call? && Moves(supers, stack, r.threads[t].pc)
                    && r.threads[t] == stack.(pc := r.threads[t].pc)))
  {
  }

  /** What is known of the line that it reaches. */
  predicate Moves(supers: Supers, stack: Stack, pc: Pc)
    requires stack.Call?
  {
    && (Owning(stack.pc) ==> Owning(pc)) && (pc.Supers? ==> pc.next == 0)
    && (PastSupers(pc) ==> PastSupers(stack.pc) || (stack.pc.Supers? && stack.pc.next >= |supers(stack.c)|))
  }

  lemma NextKeepsSupers(supers: Supers, s: State, t: Tid)
    requires Inv(s) && SupersOk(supers, s) && t in s.threads && s.threads[t].Call? && Next(supers, s, t).Some?
    ensures SupersOk(supers, Next(supers, s, t).value)
  {
    var stack := s.threads[t];
    var r := Next(supers, s, t).value;
    OwnStaysDone(supers, s, t);
    forall u | u in r.threads && u != t ensures TopDone(supers, r.initialized, r.threads[u]) {
      OthersMove(supers, s, t, u);
      OthersStayDone(supers, s, r, u);
    }
  }

  lemma OwnStaysDone(supers: Supers, s: State, t: Tid)
    requires Inv(s) && t in s.threads && s.threads[t].Call? && TopDone(supers, s.initialized, s.threads[t])
    requires Next(supers, s, t).Some?
    ensures var r := Next(supers, s, t).value;
            t in r.threads && TopDone(supers, r.initialized, r.threads[t])
  {
    var stack := s.threads[t];
    var r := Next(supers, s, t).value;
    assert ThreadOk(s.lock, s.initializing, s.starts, t, stack);
    OwnMoves(supers, s, t);
    if AtRequest(supers, stack) {
      RequestStaysDone(supers, s.initialized, stack);
      TopStaysDone(supers, s.initialized, r.initialized, r.threads[t]);
    } else if r.threads[t] == stack.below {
      ReturnedIsSettled(supers, s, t);
      TopStaysDone(supers, s.initialized, r.initialized, stack);
      ReturnSettles(supers, r.initialized, stack);
    } else {
      MoveStaysDone(supers, s.initialized, stack, r.threads[t].pc);
      TopStaysDone(supers, s.initialized, r.initialized, r.threads[t]);
    }
  }

  lemma StepKeepsSupers(supers: Supers, s: State, a: Action)
    requires Inv(s) && SupersOk(supers, s) && Step(supers, s, a).Some?
    ensures SupersOk(supers, Step(supers, s, a).value)
  {
    match a
    case Request(t, c) =>
    case Advance(t) => NextKeepsSupers(supers, s, t);
    case Spurious(t) => MoveStaysDone(supers, s.initialized, s.threads[t], Awake);
  }

  lemma {:induction false} RunKeepsSupers(supers: Supers, s: State, actions: seq<Action>)
    requires Inv(s) && SupersOk(supers, s) && Run(supers, s, actions).Some?
    ensures SupersOk(supers, Run(supers, s, actions).value)
    decreases |actions|
  {
    if actions != [] {
      StepKeepsInv(supers, s, actions[0]);
      StepKeepsSupers(supers, s, actions[0]);
      RunKeepsSupers(supers, Step(supers, s, actions[0]).value, actions[1..]);
    }
  }

  /**
   However the threads interleave: when a <clinit> is started, each class of its step 7 list is initialized, or in
   progress in the same thread.
   */
  lemma SupersFirst(supers: Supers, s: State, actions: seq<Action>, a: Action, r: State, d: Id)
    requires Initial(s) && Run(supers, s, actions).Some? && Step(supers, Run(supers, s, actions).value, a) == Some(r)
    requires r.starts != Run(supers, s, actions).value.starts
    ensures var s1 := Run(supers, s, actions).value;
            && a.t in s1.threads && s1.threads[a.t].Call? && r.starts == s1.starts + [s1.threads[a.t].c]
            && (d in supers(s1.threads[a.t].c) ==> d in r.initialized || Is(r.initializing, d, a.t))
  {
    var s1 := Run(supers, s, actions).value;
    ReachableInv(supers, s, actions);
    RunKeepsSupers(supers, s, actions);
    assert ClaimsOk(s1.initializing, a.t, s1.threads[a.t]);
    assert TopDone(supers, s1.initialized, s1.threads[a.t]);
  }

  // ---- somebody can go on ----

  /** Each nested call is for a class of lower rank. */
  ghost predicate StrictlyDown(rank: Id -> nat, stack: Stack)
  {
    stack.Call? && stack.below.Call? ==> rank(stack.c) < rank(stack.below.c) && StrictlyDown(rank, stack.below)
  }

  /** The innermost call will return without waiting: its class is initialized, or in progress further down. */
  predicate PassesThrough(initialized: set<Id>, stack: Stack)
    requires stack.Call?
  {
    || (stack.pc.QuickCheck? && stack.c in initialized)
    || ((stack.pc.QuickCheck? || stack.pc.Acquire? || stack.pc.Holding?) && Claims(stack.below, stack.c) > 0)
  }

  /** The same, but for an innermost call that passes through. */
  ghost predicate GoesDown(rank: Id -> nat, initialized: set<Id>, stack: Stack)
  {
    stack.Call? ==> StrictlyDown(rank, if PassesThrough(initialized, stack) then stack.below else stack)
  }

  ghost predicate AllGoDown(rank: Id -> nat, s: State)
  {
    forall t :: t in s.threads ==> GoesDown(rank, s.initialized, s.threads[t])
  }

  ghost predicate SupersDown(rank: Id -> nat, supers: Supers)
  {
    forall c, j {:trigger supers(c)[j]} :: 0 <= j < |supers(c)| ==> rank(supers(c)[j]) < rank(c)
  }

  /** Classes have supertypes of lower rank, and what the <clinit> methods of the run request is harmless. */
  ghost predicate IsAcyclic(rank: Id -> nat, supers: Supers, s: State, actions: seq<Action>)
    requires Run(supers, s, actions).Some?
    decreases |actions|
  {
    && SupersDown(rank, supers)
    && (actions != [] ==>
          && RequestsDown(rank, s, actions[0])
          && IsAcyclic(rank, supers, Step(supers, s, actions[0]).value, actions[1..]))
  }

  /** A class of lower rank, or one that is initialized or in progress in the same thread, as its own class is. */
  ghost predicate RequestsDown(rank: Id -> nat, s: State, a: Action)
  {
    a.Request? && a.t in s.threads && s.threads[a.t].Call? ==>
      rank(a.c) < rank(s.threads[a.t].c) || a.c in s.initialized || Claims(s.threads[a.t], a.c) > 0
  }

  /** Each <clinit> is run by interpret, which requests its class once more: whatever the rank, that is harmless. */
  lemma OwnRequestIsHarmless(rank: Id -> nat, s: State, t: Tid)
    requires t in s.threads && s.threads[t].Call? && s.threads[t].pc.Clinit?
    ensures RequestsDown(rank, s, Request(t, s.threads[t].c))
  {
  }

  lemma StepGoesDown(rank: Id -> nat, supers: Supers, s: State, a: Action)
    requires Inv(s) && AllGoDown(rank, s) && Step(supers, s, a).Some? && RequestsDown(rank, s, a)
    requires SupersDown(rank, supers)
    ensures AllGoDown(rank, Step(supers, s, a).value)
  {
    var r := Step(supers, s, a).value;
    assert GoesDown(rank, s.initialized, s.threads[a.t]);
    match a
    case Request(t, c) =>
    case Advance(t) =>
      NextGoesDown(rank, supers, s, t);
      forall u | u in r.threads && u != t ensures GoesDown(rank, r.initialized, r.threads[u]) {
        OthersMove(supers, s, t, u);
        NotifiedGoesDown(rank, s.initialized, r.initialized, s.threads[u], s.threads[t].c);
      }
    case Spurious(t) =>
  }

  lemma NotifiedGoesDown(rank: Id -> nat, initialized: set<Id>, more: set<Id>, stack: Stack, c: Id)
    requires GoesDown(rank, initialized, stack) && initialized <= more
    ensures GoesDown(rank, more, stack) && GoesDown(rank, more, Notified(stack, c))
  {
  }

  lemma NextGoesDown(rank: Id -> nat, supers: Supers, s: State, t: Tid)
    requires Inv(s) && t in s.threads && s.threads[t].Call? && GoesDown(rank, s.initialized, s.threads[t])
    requires Next(supers, s, t).Some? && SupersDown(rank, supers)
    ensures var r := Next(supers, s, t).value;
            t in r.threads && GoesDown(rank, r.initialized, r.threads[t])
  {
    var stack, r := s.threads[t], Next(supers, s, t).value;
    assert ThreadOk(s.lock, s.initializing, s.starts, t, stack);
    OwnMoves(supers, s, t);
    if PassesThrough(s.initialized, stack) {
      PassesOn(supers, s, t);
    }
  }

  /** A call that passes through goes on to do so, or returns. */
  lemma PassesOn(supers: Supers, s: State, t: Tid)
    requires Inv(s) && t in s.threads && s.threads[t].Call? && PassesThrough(s.initialized, s.threads[t])
    requires Next(supers, s, t).Some?
    ensures var stack, r := s.threads[t], Next(supers, s, t).value;
            && t in r.threads && r.initialized == s.initialized
            && (r.threads[t] == stack.below
                || (r.threads[t].Call? && r.threads[t] == stack.(pc := r.threads[t].pc)
                    && PassesThrough(r.initialized, r.threads[t])))
  {
    assert ClaimsOk(s.initializing, t, s.threads[t]);
  }

  lemma {:induction false} RunGoesDown(rank: Id -> nat, supers: Supers, s: State, actions: seq<Action>)
    requires Inv(s) && AllGoDown(rank, s) && Run(supers, s, actions).Some? && IsAcyclic(rank, supers, s, actions)
    ensures AllGoDown(rank, Run(supers, s, actions).value)
    decreases |actions|
  {
    if actions != [] {
      StepGoesDown(rank, supers, s, actions[0]);
      StepKeepsInv(supers, s, actions[0]);
      RunGoesDown(rank, supers, Step(supers, s, actions[0]).value, actions[1..]);
    }
  }

  /** The thread is inside initialize_class, and can execute its next line now. */
  ghost predicate CanGoOn(supers: Supers, s: State, t: Tid)
  {
    t in s.threads && s.threads[t].Call? && Next(supers, s, t).Some?
  }

  /** Whoever holds the lock can go on. */
  lemma LockIsNoObstacle(supers: Supers, s: State, c: Id)
    requires Inv(s) && c in s.lock
    ensures CanGoOn(supers, s, s.lock[c])
  {
    assert LocksOk(s.lock, s.lock[c], s.threads[s.lock[c]]);
    assert Is(s.lock, c, s.lock[c]);
    assert Holds(s.threads[s.lock[c]], c);
  }

  /** A class in progress is in the stack of calls, at or below the innermost one, which has the lowest rank. */
  lemma {:induction false} InnermostIsLowest(rank: Id -> nat, stack: Stack, c: Id)
    requires StrictlyDown(rank, stack) && Claims(stack, c) > 0
    ensures stack.Call? && rank(stack.c) <= rank(c) && (!Owning(stack.pc) ==> rank(stack.c) < rank(c))
  {
    if Claims(stack.below, c) > 0 {
      InnermostIsLowest(rank, stack.below, c);
    }
  }

  /** From a thread that has to wait, those that it waits for lead to one that can go on. */
  lemma {:induction false} SomebodyCanGoOn(rank: Id -> nat, supers: Supers, s: State, t: Tid) returns (u: Tid)
    requires Inv(s) && AllGoDown(rank, s) && t in s.threads && s.threads[t].Call?
    ensures CanGoOn(supers, s, u)
    decreases rank(s.threads[t].c)
  {
    var stack := s.threads[t];
    if Next(supers, s, t).Some? {
      u := t;
    } else if stack.pc.Asleep? {
      assert TopOk(s.initializing, t, stack);
      var owner := s.initializing[stack.c];
      assert ClaimsOk(s.initializing, owner, s.threads[owner]);
      assert Claims(s.threads[owner], stack.c) == 1;
      if Next(supers, s, owner).Some? {
        u := owner;
      } else if s.threads[owner].pc.Asleep? {
        assert GoesDown(rank, s.initialized, s.threads[owner]);
        InnermostIsLowest(rank, s.threads[owner], stack.c);
        u := SomebodyCanGoOn(rank, supers, s, owner);
      } else {
        LockIsNoObstacle(supers, s, s.threads[owner].c);
        u := s.lock[s.threads[owner].c];
      }
    } else {
      LockIsNoObstacle(supers, s, stack.c);
      u := s.lock[stack.c];
    }
  }

  /**
   No deadlock: if requests are acyclic, but for those of initialized classes and of classes that the thread has in
   progress, then in every reachable state in which a thread is busy one can go on.
   */
  lemma NoDeadlock(rank: Id -> nat, supers: Supers, s: State, actions: seq<Action>, t: Tid) returns (u: Tid)
    requires Initial(s) && Run(supers, s, actions).Some? && IsAcyclic(rank, supers, s, actions)
    requires var r := Run(supers, s, actions).value; t in r.threads && r.threads[t].Call?
    ensures CanGoOn(supers, Run(supers, s, actions).value, u)
  {
    ReachableInv(supers, s, actions);
    assert Inv(s);
    RunGoesDown(rank, supers, s, actions);
    u := SomebodyCanGoOn(rank, supers, Run(supers, s, actions).value, t);
  }

  // ---- without the condition ----

  function Advances(t: Tid, n: nat): seq<Action>
  {
    if n == 0 then [] else [Advance(t)] + Advances(t, n - 1)
  }

  lemma RunStep(supers: Supers, s: State, a: Action, rest: seq<Action>)
    requires Step(supers, s, a).Some?
    ensures Run(supers, s, [a] + rest) == Run(supers, Step(supers, s, a).value, rest)
  {
    assert ([a] + rest)[1..] == rest;
  }

  lemma {:induction false} RunConcat(supers: Supers, s: State, a: seq<Action>, b: seq<Action>)
    requires Run(supers, s, a).Some?
    ensures Run(supers, s, a + b) == Run(supers, Run(supers, s, a).value, b)
    decreases |a|
  {
    if a == [] {
      assert a + b == b;
    } else {
      assert (a + b)[0] == a[0] && (a + b)[1..] == a[1..] + b;
      RunConcat(supers, Step(supers, s, a[0]).value, a[1..], b);
    }
  }

  /** One turn of a thread that can go on. */
  lemma RunAdvance(supers: Supers, s: State, t: Tid, n: nat)
    requires CanGoOn(supers, s, t) && n > 0
    ensures Run(supers, s, Advances(t, n)) == Run(supers, Next(supers, s, t).value, Advances(t, n - 1))
  {
    RunStep(supers, s, Advance(t), Advances(t, n - 1));
  }

  /** The state in which t is executing the <clinit> of c, which nobody has asked for before. */
  function Claiming(s: State, t: Tid, c: Id): State
  {
    s.(initializing := s.initializing[c := t],
       threads := s.threads[t := Call(c, Clinit, Idle)],
       starts := s.starts + [c])
  }

  lemma ClaimsFree(supers: Supers, s: State, t: Tid, c: Id)
    requires t in s.threads && s.threads[t].Idle? && supers(c) == []
    requires c !in s.lock && c !in s.initialized && c !in s.initializing
    ensures Run(supers, s, [Request(t, c)] + Advances(t, 6)) == Some(Claiming(s, t, c))
  {
    var s0 := s.(threads := s.threads[t := Call(c, QuickCheck, Idle)]);
    RunStep(supers, s, Request(t, c), Advances(t, 6));
    var s1 := At(s0, t, Acquire);
    RunAdvance(supers, s0, t, 6);
    var s2 := At(Lock(s1, c, t), t, Holding);
    RunAdvance(supers, s1, t, 5);
    RunAdvance(supers, s2, t, 4);
    var s3 := At(s2, t, Testing);
    ClaimsTested(supers, s3, t, c);
    assert Claiming(Unlock(s3, c), t, c).lock == s.lock;
    assert Claiming(Unlock(s3, c), t, c).threads == Claiming(s, t, c).threads;
  }

  lemma ClaimsTested(supers: Supers, s3: State, t: Tid, c: Id)
    requires t in s3.threads && s3.threads[t] == Call(c, Testing, Idle) && supers(c) == []
    requires c !in s3.initialized && c !in s3.initializing
    ensures Run(supers, s3, Advances(t, 3)) == Some(Claiming(Unlock(s3, c), t, c))
  {
    var s4 := At(s3, t, Granted);
    RunAdvance(supers, s3, t, 3);
    var s5 := At(Unlock(s4, c).(initializing := s4.initializing[c := t]), t, Supers(0));
    RunAdvance(supers, s4, t, 2);
    var s6 := At(s5, t, Clinit).(starts := s5.starts + [c]);
    RunAdvance(supers, s5, t, 1);
    assert s6 == Claiming(Unlock(s3, c), t, c);
  }

  /** The state in which t, in a <clinit>, sleeps on c, which another thread has in progress. */
  function Sleeping(s: State, t: Tid, c: Id): State
    requires t in s.threads
  {
    s.(threads := s.threads[t := Call(c, Asleep, s.threads[t])])
  }

  lemma FallsAsleep(supers: Supers, s: State, t: Tid, c: Id)
    requires t in s.threads && s.threads[t].Call? && s.threads[t].pc.Clinit?
    requires c !in s.lock && c !in s.initialized && c in s.initializing && s.initializing[c] != t
    ensures Run(supers, s, [Request(t, c)] + Advances(t, 4)) == Some(Sleeping(s, t, c))
  {
    var s0 := s.(threads := s.threads[t := Call(c, QuickCheck, s.threads[t])]);
    RunStep(supers, s, Request(t, c), Advances(t, 4));
    var s1 := At(s0, t, Acquire);
    RunAdvance(supers, s0, t, 4);
    var s2 := At(Lock(s1, c, t), t, Holding);
    RunAdvance(supers, s1, t, 3);
    var s3 := At(s2, t, Testing);
    RunAdvance(supers, s2, t, 2);
    var s4 := At(Unlock(s3, c), t, Asleep);
    RunAdvance(supers, s3, t, 1);
    assert s4.lock == s.lock;
    assert s4 == Sleeping(s, t, c);
  }

  /** Threads 0 and 1 initialize the classes 0 and 1, and each <clinit> requests the other class. */
  function Crossed(): seq<Action>
  {
    BothRequest() + BothCross()
  }

  function BothRequest(): seq<Action>
  {
    [Request(0, 0)] + Advances(0, 6) + ([Request(1, 1)] + Advances(1, 6))
  }

  function BothCross(): seq<Action>
  {
    [Request(0, 1)] + Advances(0, 4) + ([Request(1, 0)] + Advances(1, 4))
  }

  function Resting(): State
  {
    State(map[], {}, map[], map[0 := Idle, 1 := Idle], [])
  }

  lemma BothClaim(supers: Supers)
    requires supers(0) == [] && supers(1) == []
    ensures Run(supers, Resting(), BothRequest())
            == Some(Claiming(Claiming(Resting(), 0, 0), 1, 1))
  {
    ClaimsFree(supers, Resting(), 0, 0);
    ClaimsFree(supers, Claiming(Resting(), 0, 0), 1, 1);
    RunConcat(supers, Resting(), [Request(0, 0)] + Advances(0, 6), [Request(1, 1)] + Advances(1, 6));
  }

  lemma BothFallAsleep(supers: Supers, s: State)
    requires s.threads.Keys == {0, 1} && s.threads[0] == Call(0, Clinit, Idle) && s.threads[1] == Call(1, Clinit, Idle)
    requires s.lock == map[] && s.initialized == {} && s.initializing == map[0 := 0, 1 := 1]
    ensures Run(supers, s, BothCross())
            == Some(Sleeping(Sleeping(s, 0, 1), 1, 0))
  {
    FallsAsleep(supers, s, 0, 1);
    FallsAsleep(supers, Sleeping(s, 0, 1), 1, 0);
    RunConcat(supers, s, [Request(0, 1)] + Advances(0, 4), [Request(1, 0)] + Advances(1, 4));
  }

  /** Then both are in initialize_class, and none can go on. */
  lemma CrossedRequestsDeadlock(supers: Supers)
    requires supers(0) == [] && supers(1) == []
    ensures Initial(Resting()) && Run(supers, Resting(), Crossed()).Some?
    ensures var r := Run(supers, Resting(), Crossed()).value;
            && r.threads.Keys == {0, 1} && r.threads[0].Call? && r.threads[1].Call?
            && forall t :: !CanGoOn(supers, r, t)
  {
    CrossedEnds(supers);
    NobodyGoesOn(supers);
  }

  function BothAsleep(): State
  {
    Sleeping(Sleeping(Claiming(Claiming(Resting(), 0, 0), 1, 1), 0, 1), 1, 0)
  }

  lemma CrossedEnds(supers: Supers)
    requires supers(0) == [] && supers(1) == []
    ensures Run(supers, Resting(), Crossed()) == Some(BothAsleep())
  {
    BothClaim(supers);
    BothFallAsleep(supers, Claiming(Claiming(Resting(), 0, 0), 1, 1));
    RunConcat(supers, Resting(), BothRequest(), BothCross());
  }

  lemma NobodyGoesOn(supers: Supers)
    ensures BothAsleep().threads.Keys == {0, 1}
    ensures BothAsleep().threads[0].Call? && BothAsleep().threads[1].Call?
    ensures forall t :: !CanGoOn(supers, BothAsleep(), t)
  {
    var r := BothAsleep();
    assert r.threads[0] == Call(1, Asleep, Call(0, Clinit, Idle));
    assert r.threads[1] == Call(0, Asleep, Call(1, Clinit, Idle));
  }
}
