/** Class initialization by many threads, as a state machine of interleaved steps (section 5.5 of JVMS SE 16). */
module ClassInitThreads {
  import opened Options

  type Id = nat

  type Tid = nat

  /**
   Where a thread is in initialize_class. It holds the initialization lock at Holding, Testing, Granted and Publishing.
   Supers is step 7, with the first `next` classes of its list requested, Clinit step 9.
   */
  datatype Pc =
    | QuickCheck
    | Acquire
    | Holding
    | Testing
    | Asleep
    | Awake
    | Granted
    | Supers(next: nat)
    | Clinit
    | Releasing
    | Publishing

  /** The list [SC, SI1, ..., SIn] of step 7 for each class; it is empty for an interface. */
  type Supers = Id -> seq<Id>

  /** The nested calls of initialize_class in one thread, innermost first. */
  datatype Stack = Idle | Call(c: Id, pc: Pc, below: Stack)

  /**
   A class is locked by lock[c], initialized if it is in `initialized`, and in progress in thread initializing[c]. A
   missing key is a free lock, or a null initializing_thread. `starts` lists every <clinit> started so far.
   */
  datatype State = State(
    lock: map<Id, Tid>,
    initialized: set<Id>,
    initializing: map<Id, Tid>,
    threads: map<Tid, Stack>,
    starts: seq<Id>)

  /** Request: a call of initialize_class. Spurious: the wait ends although nobody notified. */
  datatype Action = Request(t: Tid, c: Id) | Advance(t: Tid) | Spurious(t: Tid)

  /** Java code runs. */
  predicate MayRequest(stack: Stack)
  {
    stack.Idle? || stack.pc.Clinit?
  }

  /** notify_all: every thread that sleeps on c wakes up. */
  function Notified(stack: Stack, c: Id): Stack
  {
    if stack.Call? && stack.c == c && stack.pc.Asleep? then stack.(pc := Awake) else stack
  }

  function NotifyAll(threads: map<Tid, Stack>, c: Id): map<Tid, Stack>
  {
    map t | t in threads :: Notified(threads[t], c)
  }

  function At(s: State, t: Tid, pc: Pc): State
    requires t in s.threads && s.threads[t].Call?
  {
    s.(threads := s.threads[t := s.threads[t].(pc := pc)])
  }

  /** return ResultOk */
  function Return(s: State, t: Tid): State
    requires t in s.threads && s.threads[t].Call?
  {
    s.(threads := s.threads[t := s.threads[t].below])
  }

  function Lock(s: State, c: Id, t: Tid): State
  {
    s.(lock := s.lock[c := t])
  }

  function Unlock(s: State, c: Id): State
  {
    s.(lock := s.lock - {c})
  }

  /** The next line of initialize_class; None while the thread has to wait. */
  function Next(supers: Supers, s: State, t: Tid): Option<State>
    requires t in s.threads && s.threads[t].Call?
  {
    var c := s.threads[t].c;
    match s.threads[t].pc
    case QuickCheck => Some(if c in s.initialized then Return(s, t) else At(s, t, Acquire))
    case Acquire => if c in s.lock then None else Some(At(Lock(s, c, t), t, Holding))
    case Holding =>
      Some(if c in s.initializing && s.initializing[c] == t then Return(Unlock(s, c), t) else At(s, t, Testing))
    case Testing => Some(if c in s.initializing then At(Unlock(s, c), t, Asleep) else At(s, t, Granted))
    case Asleep => None
    case Awake => if c in s.lock then None else Some(At(Lock(s, c, t), t, Testing))
    case Granted =>
      Some(if c in s.initialized then Return(Unlock(s, c), t)
           else At(Unlock(s, c).(initializing := s.initializing[c := t]), t, Supers(0)))
    case Supers(k) =>
      if k < |supers(c)| then
        Some(s.(threads := s.threads[t := Call(supers(c)[k], QuickCheck, s.threads[t].(pc := Supers(k + 1)))]))
      else Some(At(s, t, Clinit).(starts := s.starts + [c]))
    case Clinit => Some(At(s, t, Releasing))
    case Releasing => if c in s.lock then None else Some(At(Lock(s, c, t), t, Publishing))
    case Publishing =>
      var r := Return(Unlock(s, c), t);
      Some(r.(initialized := s.initialized + {c}, initializing := s.initializing - {c},
              threads := NotifyAll(r.threads, c)))
  }

  function Step(supers: Supers, s: State, a: Action): Option<State>
  {
    if a.t !in s.threads then None
    else
      var stack := s.threads[a.t];
      match a
      case Request(t, c) =>
        if MayRequest(stack) then Some(s.(threads := s.threads[t := Call(c, QuickCheck, stack)])) else None
      case Advance(t) => if stack.Call? then Next(supers, s, t) else None
      case Spurious(t) => if stack.Call? && stack.pc.Asleep? then Some(At(s, t, Awake)) else None
  }

  function Run(supers: Supers, s: State, actions: seq<Action>): Option<State>
    decreases |actions|
  {
    if actions == [] then Some(s)
    else
      match Step(supers, s, actions[0])
      case None => None
      case Some(s1) => Run(supers, s1, actions[1..])
  }

  // ---- the invariant ----

  /** Between claiming a class and releasing it. */
  predicate Owning(pc: Pc)
  {
    pc.Supers? || pc.Clinit? || pc.Releasing? || pc.Publishing?
  }

  predicate Critical(pc: Pc)
  {
    pc.Holding? || pc.Testing? || pc.Granted? || pc.Publishing?
  }

  /** How many calls in this thread are between claiming and releasing c. */
  function Claims(stack: Stack, c: Id): nat
  {
    if stack.Idle? then 0
    else Claims(stack.below, c) + if stack.c == c && Owning(stack.pc) then 1 else 0
  }

  predicate Holds(stack: Stack, c: Id)
  {
    stack.Call? && stack.c == c && Critical(stack.pc)
  }

  predicate MayCall(stack: Stack)
  {
    stack.Idle? || stack.pc.Supers? || stack.pc.Clinit?
  }

  /** Only a running initialization calls another one. */
  predicate Nested(stack: Stack)
  {
    stack.Call? ==> MayCall(stack.below) && Nested(stack.below)
  }

  /** A <clinit> that a thread is before, or after, has not, or has, been started. */
  predicate StartsOk(stack: Stack, starts: seq<Id>)
  {
    stack.Call? ==>
      && (stack.pc.Supers? ==> stack.c !in starts)
      && (stack.pc.Clinit? || stack.pc.Releasing? || stack.pc.Publishing? ==> stack.c in starts)
      && StartsOk(stack.below, starts)
  }

  predicate Is(m: map<Id, Tid>, c: Id, t: Tid)
  {
    c in m && m[c] == t
  }

  type Owners = map<Id, Tid>

  /** What the innermost call knows. A sleeping thread has somebody to wait for. */
  predicate TopOk(initializing: Owners, t: Tid, stack: Stack)
  {
    stack.Call? ==>
      && (stack.pc.Testing? || stack.pc.Awake? ==> !Is(initializing, stack.c, t))
      && (stack.pc.Granted? ==> stack.c !in initializing)
      && (stack.pc.Asleep? ==> stack.c in initializing && initializing[stack.c] != t)
  }

  ghost predicate ClaimsOk(initializing: Owners, t: Tid, stack: Stack)
  {
    forall c :: Claims(stack, c) == if Is(initializing, c, t) then 1 else 0
  }

  ghost predicate LocksOk(lock: Owners, t: Tid, stack: Stack)
  {
    forall c :: Holds(stack, c) <==> Is(lock, c, t)
  }

  ghost predicate ThreadOk(lock: Owners, initializing: Owners, starts: seq<Id>, t: Tid, stack: Stack)
  {
    && Nested(stack) && ClaimsOk(initializing, t, stack) && LocksOk(lock, t, stack)
    && StartsOk(stack, starts) && TopOk(initializing, t, stack)
  }

  ghost predicate NoRepeats(starts: seq<Id>)
  {
    forall i, j :: 0 <= i < j < |starts| ==> starts[i] != starts[j]
  }

  ghost predicate ClassesOk(s: State)
  {
    && NoRepeats(s.starts)
    && (forall c :: c in s.initializing ==> c !in s.initialized && s.initializing[c] in s.threads)
    && (forall c :: c in s.lock ==> s.lock[c] in s.threads)
    && (forall c :: c in s.initialized ==> c in s.starts)
    && (forall c :: c in s.starts ==> c in s.initialized || c in s.initializing)
  }

  ghost predicate ThreadsOk(s: State)
  {
    forall t :: t in s.threads ==> ThreadOk(s.lock, s.initializing, s.starts, t, s.threads[t])
  }

  ghost predicate Inv(s: State)
  {
    ClassesOk(s) && ThreadsOk(s)
  }

  // ---- every step keeps it ----

  /** Steps that change nothing but the position of one thread. */
  lemma MoveKeepsInv(s: State, t: Tid, stack: Stack)
    requires Inv(s) && t in s.threads && ThreadOk(s.lock, s.initializing, s.starts, t, stack)
    ensures Inv(s.(threads := s.threads[t := stack]))
  {
  }

  /** Who holds which lock, as far as thread u can tell. */
  ghost predicate SameFor(u: Tid, m: Owners, m': Owners)
  {
    forall c :: Is(m, c, u) <==> Is(m', c, u)
  }

  lemma OtherThread(s: State, r: State, u: Tid, stack: Stack)
    requires ThreadOk(s.lock, s.initializing, s.starts, u, stack)
    requires SameFor(u, s.lock, r.lock) && SameFor(u, s.initializing, r.initializing)
    requires StartsOk(stack, r.starts) && TopOk(r.initializing, u, stack)
    ensures ThreadOk(r.lock, r.initializing, r.starts, u, stack)
  {
  }

  lemma LocksGained(lock: Owners, t: Tid, stack: Stack, pc: Pc)
    requires stack.Call? && LocksOk(lock, t, stack) && !Critical(stack.pc) && Critical(pc) && stack.c !in lock
    ensures LocksOk(lock[stack.c := t], t, stack.(pc := pc))
  {
    forall d ensures Holds(stack.(pc := pc), d) <==> Is(lock[stack.c := t], d, t) {
      assert Holds(stack, d) <==> Is(lock, d, t);
    }
  }

  lemma LocksLost(lock: Owners, t: Tid, stack: Stack, stack': Stack)
    requires stack.Call? && LocksOk(lock, t, stack) && Critical(stack.pc) && (stack'.Call? ==> !Critical(stack'.pc))
    ensures Is(lock, stack.c, t) && LocksOk(lock - {stack.c}, t, stack')
  {
    assert Holds(stack, stack.c);
    forall d ensures Holds(stack', d) <==> Is(lock - {stack.c}, d, t) {
      assert Holds(stack, d) <==> Is(lock, d, t);
    }
  }

  lemma AddedForOthers(m: Owners, c: Id, t: Tid, u: Tid)
    requires c !in m && u != t
    ensures SameFor(u, m, m[c := t])
  {
  }

  lemma RemovedForOthers(m: Owners, c: Id, t: Tid, u: Tid)
    requires Is(m, c, t) && u != t
    ensures SameFor(u, m, m - {c})
  {
  }

  /** Taking the lock. */
  lemma LockKeepsInv(s: State, t: Tid, pc: Pc)
    requires Inv(s) && t in s.threads && s.threads[t].Call?
    requires var stack := s.threads[t];
             stack.c !in s.lock && !Critical(stack.pc) && Critical(pc) && Owning(pc) == Owning(stack.pc)
    requires StartsOk(s.threads[t].(pc := pc), s.starts) && TopOk(s.initializing, t, s.threads[t].(pc := pc))
    ensures Inv(At(Lock(s, s.threads[t].c, t), t, pc))
  {
    var c := s.threads[t].c;
    var r := At(Lock(s, c, t), t, pc);
    forall u | u in s.threads && u != t ensures ThreadOk(r.lock, r.initializing, r.starts, u, s.threads[u]) {
      AddedForOthers(s.lock, c, t, u);
      OtherThread(s, r, u, s.threads[u]);
    }
    ClaimsSame(s.threads[t], s.threads[t].(pc := pc));
    LocksGained(s.lock, t, s.threads[t], pc);
  }

  lemma ClaimsSame(stack: Stack, stack': Stack)
    requires stack.Call? && stack'.Call? && stack.c == stack'.c && stack.below == stack'.below
    requires Owning(stack.pc) == Owning(stack'.pc)
    ensures forall c :: Claims(stack, c) == Claims(stack', c)
  {
  }

  /** Giving the lock back without any other change of the flags. */
  lemma UnlockKeepsInv(s: State, t: Tid, stack: Stack)
    requires Inv(s) && t in s.threads && s.threads[t].Call? && Critical(s.threads[t].pc)
    requires Nested(stack) && StartsOk(stack, s.starts) && TopOk(s.initializing, t, stack)
    requires stack.Call? ==> !Critical(stack.pc)
    requires ClaimsOk(s.initializing, t, stack)
    ensures Inv(Unlock(s, s.threads[t].c).(threads := s.threads[t := stack]))
  {
    var c := s.threads[t].c;
    var r := Unlock(s, c).(threads := s.threads[t := stack]);
    LocksLost(s.lock, t, s.threads[t], stack);
    forall u | u in s.threads && u != t ensures ThreadOk(r.lock, r.initializing, r.starts, u, s.threads[u]) {
      RemovedForOthers(s.lock, c, t, u);
      OtherThread(s, r, u, s.threads[u]);
    }
  }

  /** Step 6: the class is claimed and the lock given back. */
  lemma ClaimKeepsInv(s: State, t: Tid)
    requires Inv(s) && t in s.threads && s.threads[t].Call? && s.threads[t].pc.Granted?
    requires s.threads[t].c !in s.initialized
    ensures var c := s.threads[t].c;
            Inv(At(Unlock(s, c).(initializing := s.initializing[c := t]), t, Supers(0)))
  {
    var stack := s.threads[t];
    var c := stack.c;
    var r := At(Unlock(s, c).(initializing := s.initializing[c := t]), t, Supers(0));
    LocksLost(s.lock, t, stack, stack.(pc := Supers(0)));
    forall u | u in s.threads && u != t ensures ThreadOk(r.lock, r.initializing, r.starts, u, s.threads[u]) {
      RemovedForOthers(s.lock, c, t, u);
      AddedForOthers(s.initializing, c, t, u);
      assert !Holds(s.threads[u], c);
      OtherThread(s, r, u, s.threads[u]);
    }
    ClaimsGained(s.initializing, t, stack);
  }

  lemma ClaimsGained(initializing: Owners, t: Tid, stack: Stack)
    requires stack.Call? && ClaimsOk(initializing, t, stack) && stack.pc.Granted? && stack.c !in initializing
    ensures ClaimsOk(initializing[stack.c := t], t, stack.(pc := Supers(0)))
  {
    forall d ensures Claims(stack.(pc := Supers(0)), d) == if Is(initializing[stack.c := t], d, t) then 1 else 0 {
      assert Claims(stack, d) == if Is(initializing, d, t) then 1 else 0;
    }
  }

  /** Step 9: the first and only time. */
  lemma StartKeepsInv(s: State, t: Tid)
    requires Inv(s) && t in s.threads && s.threads[t].Call? && s.threads[t].pc.Supers?
    ensures s.threads[t].c !in s.starts
    ensures Inv(At(s, t, Clinit).(starts := s.starts + [s.threads[t].c]))
  {
    var stack := s.threads[t];
    var c := stack.c;
    var r := At(s, t, Clinit).(starts := s.starts + [c]);
    assert Claims(stack, c) == 1 && Is(s.initializing, c, t);
    forall u | u in s.threads && u != t ensures ThreadOk(r.lock, r.initializing, r.starts, u, s.threads[u]) {
      assert Claims(s.threads[u], c) == 0;
      StartOfOther(s.threads[u], s.starts, c);
    }
    StartOfOther(stack.below, s.starts, c);
    ClaimsSame(stack, stack.(pc := Clinit));
    assert LocksOk(s.lock, t, stack.(pc := Clinit)) by {
      forall d ensures Holds(stack.(pc := Clinit), d) <==> Is(s.lock, d, t) {
        assert Holds(stack, d) <==> Is(s.lock, d, t);
      }
    }
  }

  lemma {:induction false} StartOfOther(stack: Stack, starts: seq<Id>, c: Id)
    requires StartsOk(stack, starts) && Claims(stack, c) == 0
    ensures StartsOk(stack, starts + [c])
  {
    if stack.Call? {
      StartOfOther(stack.below, starts, c);
    }
  }

  /** Step 10: nobody sleeps on the class any more. */
  lemma PublishKeepsInv(supers: Supers, s: State, t: Tid)
    requires Inv(s) && t in s.threads && s.threads[t].Call? && s.threads[t].pc.Publishing?
    ensures Inv(Next(supers, s, t).value)
  {
    var stack := s.threads[t];
    var c := stack.c;
    var r := Next(supers, s, t).value;
    assert Claims(stack, c) == 1 && Is(s.initializing, c, t);
    LocksLost(s.lock, t, stack, stack.below);
    forall u | u in s.threads && u != t ensures ThreadOk(r.lock, r.initializing, r.starts, u, r.threads[u]) {
      RemovedForOthers(s.lock, c, t, u);
      RemovedForOthers(s.initializing, c, t, u);
      NotifiedOther(s, r, u, c);
    }
    ClaimsLost(s.initializing, t, stack);
  }

  lemma NotifiedOther(s: State, r: State, u: Tid, c: Id)
    requires Inv(s) && u in s.threads && SameFor(u, s.lock, r.lock) && SameFor(u, s.initializing, r.initializing)
    requires r.initializing == s.initializing - {c} && r.starts == s.starts
    ensures ThreadOk(r.lock, r.initializing, r.starts, u, Notified(s.threads[u], c))
  {
    var stack := s.threads[u];
    var stack' := Notified(stack, c);
    if stack != stack' {
      ClaimsSame(stack, stack');
      HoldsSame(stack, stack');
    }
    assert ThreadOk(s.lock, s.initializing, s.starts, u, stack);
  }

  lemma HoldsSame(stack: Stack, stack': Stack)
    requires stack.Call? && stack'.Call? && !Critical(stack.pc) && !Critical(stack'.pc)
    ensures forall c :: Holds(stack, c) == Holds(stack', c)
  {
  }

  lemma ClaimsLost(initializing: Owners, t: Tid, stack: Stack)
    requires stack.Call? && ClaimsOk(initializing, t, stack) && stack.pc.Publishing?
    ensures ClaimsOk(initializing - {stack.c}, t, stack.below)
  {
    forall d ensures Claims(stack.below, d) == if Is(initializing - {stack.c}, d, t) then 1 else 0 {
      assert Claims(stack, d) == if Is(initializing, d, t) then 1 else 0;
    }
  }

  /** A step that neither claims nor holds more or less than before. */
  lemma QuietMoveKeepsInv(s: State, t: Tid, stack: Stack)
    requires Inv(s) && t in s.threads && Nested(stack) && StartsOk(stack, s.starts) && TopOk(s.initializing, t, stack)
    requires forall c :: Claims(stack, c) == Claims(s.threads[t], c)
    requires forall c :: Holds(stack, c) == Holds(s.threads[t], c)
    ensures Inv(s.(threads := s.threads[t := stack]))
  {
    assert ThreadOk(s.lock, s.initializing, s.starts, t, s.threads[t]);
    assert LocksOk(s.lock, t, stack);
    MoveKeepsInv(s, t, stack);
  }

  lemma RequestKeepsInv(s: State, t: Tid, c: Id)
    requires Inv(s) && t in s.threads && MayRequest(s.threads[t])
    ensures Inv(s.(threads := s.threads[t := Call(c, QuickCheck, s.threads[t])]))
  {
    QuietMoveKeepsInv(s, t, Call(c, QuickCheck, s.threads[t]));
  }

  lemma SuperKeepsInv(supers: Supers, s: State, t: Tid)
    requires Inv(s) && t in s.threads && s.threads[t].Call? && s.threads[t].pc.Supers?
    requires s.threads[t].pc.next < |supers(s.threads[t].c)|
    ensures Inv(Next(supers, s, t).value)
  {
    var stack := s.threads[t];
    var below := stack.(pc := Supers(stack.pc.next + 1));
    assert ThreadOk(s.lock, s.initializing, s.starts, t, stack);
    ClaimsSame(stack, below);
    QuietMoveKeepsInv(s, t, Call(supers(stack.c)[stack.pc.next], QuickCheck, below));
  }

  lemma QuietNextKeepsInv(supers: Supers, s: State, t: Tid)
    requires Inv(s) && t in s.threads && s.threads[t].Call?
    requires var pc := s.threads[t].pc;
             pc.QuickCheck? || pc.Clinit? || (pc.Testing? && s.threads[t].c !in s.initializing)
             || (pc.Holding? && !Is(s.initializing, s.threads[t].c, t))
    ensures Inv(Next(supers, s, t).value)
  {
    var stack := s.threads[t];
    assert ThreadOk(s.lock, s.initializing, s.starts, t, stack);
    if stack.pc.QuickCheck? && stack.c in s.initialized {
      QuietMoveKeepsInv(s, t, stack.below);
    } else {
      var pc := if stack.pc.QuickCheck? then Acquire else if stack.pc.Clinit? then Releasing
                else if stack.pc.Testing? then Granted else Testing;
      ClaimsSame(stack, stack.(pc := pc));
      QuietMoveKeepsInv(s, t, stack.(pc := pc));
    }
  }

  lemma ReleasingNextKeepsInv(supers: Supers, s: State, t: Tid)
    requires Inv(s) && t in s.threads && s.threads[t].Call?
    requires var c, pc := s.threads[t].c, s.threads[t].pc;
             || (pc.Holding? && Is(s.initializing, c, t))
             || (pc.Testing? && c in s.initializing)
             || (pc.Granted? && c in s.initialized)
    ensures Inv(Next(supers, s, t).value)
  {
    var stack := s.threads[t];
    assert ThreadOk(s.lock, s.initializing, s.starts, t, stack);
    if stack.pc.Testing? {
      ClaimsSame(stack, stack.(pc := Asleep));
      UnlockKeepsInv(s, t, stack.(pc := Asleep));
    } else {
      UnlockKeepsInv(s, t, stack.below);
    }
  }

  lemma NextKeepsInv(supers: Supers, s: State, t: Tid)
    requires Inv(s) && t in s.threads && s.threads[t].Call? && Next(supers, s, t).Some?
    ensures Inv(Next(supers, s, t).value)
  {
    assert ThreadOk(s.lock, s.initializing, s.starts, t, s.threads[t]);
    var c := s.threads[t].c;
    match s.threads[t].pc
    case QuickCheck => QuietNextKeepsInv(supers, s, t);
    case Acquire => LockKeepsInv(s, t, Holding);
    case Holding =>
      if Is(s.initializing, c, t) {
        ReleasingNextKeepsInv(supers, s, t);
      } else {
        QuietNextKeepsInv(supers, s, t);
      }
    case Testing =>
      if c in s.initializing {
        ReleasingNextKeepsInv(supers, s, t);
      } else {
        QuietNextKeepsInv(supers, s, t);
      }
    case Asleep =>
    case Awake => LockKeepsInv(s, t, Testing);
    case Granted =>
      if c in s.initialized {
        ReleasingNextKeepsInv(supers, s, t);
      } else {
        ClaimKeepsInv(s, t);
      }
    case Supers(k) =>
      if k < |supers(c)| {
        SuperKeepsInv(supers, s, t);
      } else {
        StartKeepsInv(s, t);
      }
    case Clinit => QuietNextKeepsInv(supers, s, t);
    case Releasing => LockKeepsInv(s, t, Publishing);
    case Publishing => PublishKeepsInv(supers, s, t);
  }

  lemma StepKeepsInv(supers: Supers, s: State, a: Action)
    requires Inv(s) && Step(supers, s, a).Some?
    ensures Inv(Step(supers, s, a).value)
  {
    match a
    case Request(t, c) => RequestKeepsInv(s, t, c);
    case Advance(t) => NextKeepsInv(supers, s, t);
    case Spurious(t) =>
      assert ThreadOk(s.lock, s.initializing, s.starts, t, s.threads[t]);
      ClaimsSame(s.threads[t], s.threads[t].(pc := Awake));
      QuietMoveKeepsInv(s, t, s.threads[t].(pc := Awake));
  }

  // ---- whole runs ----

  /** Nothing is initialized yet, and all threads run something else. */
  ghost predicate Initial(s: State)
  {
    s.lock == map[] && s.initialized == {} && s.initializing == map[] && s.starts == []
    && forall t :: t in s.threads ==> s.threads[t] == Idle
  }

  lemma {:induction false} RunKeepsInv(supers: Supers, s: State, actions: seq<Action>)
    requires Inv(s) && Run(supers, s, actions).Some?
    ensures Inv(Run(supers, s, actions).value)
    decreases |actions|
  {
    if actions != [] {
      StepKeepsInv(supers, s, actions[0]);
      RunKeepsInv(supers, Step(supers, s, actions[0]).value, actions[1..]);
    }
  }

  lemma ReachableInv(supers: Supers, s: State, actions: seq<Action>)
    requires Initial(s) && Run(supers, s, actions).Some?
    ensures Inv(Run(supers, s, actions).value)
  {
    RunKeepsInv(supers, s, actions);
  }

  /** However the threads interleave, no <clinit> is started twice. */
  lemma StartedAtMostOnce(supers: Supers, s: State, actions: seq<Action>, i: nat, j: nat)
    requires Initial(s) && Run(supers, s, actions).Some?
    ensures var starts := Run(supers, s, actions).value.starts;
            i < j < |starts| ==> starts[i] != starts[j]
  {
    ReachableInv(supers, s, actions);
  }

  /** At any moment at most one call in all threads is between claiming a class and releasing it. */
  lemma OneInitializer(supers: Supers, s: State, actions: seq<Action>, t: Tid, u: Tid, c: Id)
    requires Initial(s) && Run(supers, s, actions).Some?
    ensures var r := Run(supers, s, actions).value;
            && (t in r.threads ==> Claims(r.threads[t], c) <= 1)
            && (t in r.threads && u in r.threads && t != u ==>
                  Claims(r.threads[t], c) + Claims(r.threads[u], c) <= 1)
  {
    ReachableInv(supers, s, actions);
    var r := Run(supers, s, actions).value;
    if t in r.threads && u in r.threads {
      assert ClaimsOk(r.initializing, t, r.threads[t]) && ClaimsOk(r.initializing, u, r.threads[u]);
    }
  }

  /** A class stays initialized. */
  lemma {:induction false} InitializedIsStable(supers: Supers, s: State, actions: seq<Action>)
    requires Run(supers, s, actions).Some?
    ensures s.initialized <= Run(supers, s, actions).value.initialized
    decreases |actions|
  {
    if actions != [] {
      InitializedIsStable(supers, Step(supers, s, actions[0]).value, actions[1..]);
    }
  }

  /** Step a ends the innermost call of its thread, with ResultOk. */
  ghost predicate Returns(supers: Supers, s: State, a: Action, r: State)
  {
    && a.Advance? && a.t in s.threads && s.threads[a.t].Call? && Step(supers, s, a) == Some(r)
    && a.t in r.threads && Depth(r.threads[a.t]) < Depth(s.threads[a.t])
  }

  function Depth(stack: Stack): nat
  {
    if stack.Idle? then 0 else 1 + Depth(stack.below)
  }

  lemma ReturnMeans(supers: Supers, s: State, t: Tid, r: State)
    requires Inv(s) && Returns(supers, s, Advance(t), r)
    ensures var c := s.threads[t].c;
            c in r.initialized || Is(r.initializing, c, t)
  {
  }

  /** Whoever gets ResultOk for a class finds it initialized, or is initializing it itself further up its stack. */
  lemma ResultOkMeans(supers: Supers, s: State, actions: seq<Action>, a: Action, r: State)
    requires Initial(s) && Run(supers, s, actions).Some? && Returns(supers, Run(supers, s, actions).value, a, r)
    ensures var c := Run(supers, s, actions).value.threads[a.t].c;
            c in r.initialized || (Is(r.initializing, c, a.t) && Claims(r.threads[a.t], c) == 1)
  {
    var s1 := Run(supers, s, actions).value;
    ReachableInv(supers, s, actions);
    ReturnMeans(supers, s1, a.t, r);
    StepKeepsInv(supers, s1, a);
    assert ClaimsOk(r.initializing, a.t, r.threads[a.t]);
  }

  /** No wakeup is lost: whoever sleeps on a class waits for another thread that is initializing it. */
  lemma SleepersAreWaiting(supers: Supers, s: State, actions: seq<Action>, t: Tid)
    requires Initial(s) && Run(supers, s, actions).Some?
    requires var r := Run(supers, s, actions).value; t in r.threads && r.threads[t].Call? && r.threads[t].pc.Asleep?
    ensures var r := Run(supers, s, actions).value; var c := r.threads[t].c;
            && c in r.initializing && r.initializing[c] != t && r.initializing[c] in r.threads
            && Claims(r.threads[r.initializing[c]], c) == 1
  {
    ReachableInv(supers, s, actions);
    var r := Run(supers, s, actions).value;
    assert ThreadOk(r.lock, r.initializing, r.starts, t, r.threads[t]);
    var u := r.initializing[r.threads[t].c];
    assert ClaimsOk(r.initializing, u, r.threads[u]);
  }

  /** A lock is held only between two lines that never block, so nobody waits for a lock for ever. */
  lemma LockHoldersCanStep(supers: Supers, s: State, actions: seq<Action>, c: Id)
    requires Initial(s) && Run(supers, s, actions).Some? && c in Run(supers, s, actions).value.lock
    ensures var r := Run(supers, s, actions).value; var t := r.lock[c];
            t in r.threads && Holds(r.threads[t], c) && Step(supers, r, Advance(t)).Some?
  {
    ReachableInv(supers, s, actions);
    var r := Run(supers, s, actions).value;
    var t := r.lock[c];
    assert LocksOk(r.lock, t, r.threads[t]);
    assert Is(r.lock, c, t);
  }

  /** An initialized class has had its <clinit> started, and is in progress nowhere. */
  lemma InitializedMeansStarted(supers: Supers, s: State, actions: seq<Action>, c: Id, t: Tid)
    requires Initial(s) && Run(supers, s, actions).Some? && c in Run(supers, s, actions).value.initialized
    ensures var r := Run(supers, s, actions).value;
            c in r.starts && (t in r.threads ==> Claims(r.threads[t], c) == 0)
  {
    ReachableInv(supers, s, actions);
    var r := Run(supers, s, actions).value;
    if t in r.threads {
      assert ClaimsOk(r.initializing, t, r.threads[t]);
    }
  }
}
