/**
 Balance and the frame rule, over runs that nest calls, native methods, JNI callbacks and initializers to any depth.
 */
module FrameRuns {
  import opened Options
  import opened FrameModel

  // ---- what a region of the stack keeps ----

  ghost predicate SameBelow(mem: seq<Value>, mem': seq<Value>, low: nat)
  {
    && |mem'| == |mem|
    && forall i :: 0 <= i < low && i < |mem| ==> mem'[i] == mem[i]
  }

  /** A frame that touches nothing below `low`, and gives back at least `low` when it is popped. */
  ghost predicate StaysAbove(f: Frame, low: nat)
  {
    low <= f.firstLocal <= f.firstOperand && low <= f.prevUsage
  }

  /**
   The part of a run that begins with a new frame on top of the list `base`, when the memory was `mem`: a whole
   activation of interpret, which ends when its root frame exits, or the execution of one callee, which ends when its
   frame is popped.
   */
  datatype Region = Activation(base: seq<Frame>, used: nat, low: nat, mem: seq<Value>)
                  | Callee(base: seq<Frame>, used: nat, low: nat, mem: seq<Value>)

  /** `frames` and then `cur`, bottom up: only the first of an activation is a root, and it knows `used` and `low`. */
  ghost predicate Roots(g: Region, frames: seq<Frame>, cur: Frame)
  {
    match g
    case Activation(_, used, low, _) =>
      && (forall i :: 0 <= i < |frames| ==> (frames[i].isRoot <==> i == 0))
      && (cur.isRoot <==> frames == [])
      && (if frames == [] then cur else frames[0]).prevUsage == used
      && (if frames == [] then cur else frames[0]).firstLocal == low
    case Callee(_, used, low, _) =>
      && !cur.isRoot && (forall i :: 0 <= i < |frames| ==> !frames[i].isRoot)
      && (if frames == [] then cur else frames[0]).prevUsage == used
      && (if frames == [] then cur else frames[0]).firstLocal == low
  }

  ghost predicate Within(g: Region, s: Loop)
  {
    && g.base <= s.m.frames && g.low <= s.m.used && SameBelow(g.mem, s.m.mem, g.low)
    && (forall i :: |g.base| <= i < |s.m.frames| ==> StaysAbove(s.m.frames[i], g.low))
    && StaysAbove(s.cur, g.low)
    && Roots(g, s.m.frames[|g.base|..], s.cur)
  }

  ghost predicate RegionInv(g: Region, s: Loop)
  {
    if s.exited then
      && g.Activation? && s.m.frames == g.base && s.m.used == g.used && SameBelow(g.mem, s.m.mem, g.low)
      && s.cur.firstLocal == g.low
    else Within(g, s)
  }

  /** The callee's own frame has been popped. */
  ghost predicate Left(g: Region, s: Loop)
  {
    g.Callee? && |s.m.frames| < |g.base|
  }

  lemma PopInnerKeepsInv(g: Region, s: Loop)
    requires Within(g, s) && !s.exited && |s.m.frames| > |g.base|
    ensures !s.cur.isRoot && Within(g, PopFrame(s))
  {
    var n := |s.m.frames| - 1;
    var above := s.m.frames[|g.base|..];
    assert s.m.frames[n] == above[|above| - 1];
    assert s.m.frames[..n][|g.base|..] == above[..|above| - 1];
  }

  lemma PopKeepsInv(g: Region, s: Loop)
    requires Within(g, s) && !s.exited && (g.Callee? ==> g.base != [])
    ensures s.cur.isRoot || s.m.frames != []
    ensures RegionInv(g, PopFrame(s)) || Left(g, PopFrame(s))
  {
    if |s.m.frames| > |g.base| {
      PopInnerKeepsInv(g, s);
    } else {
      assert s.m.frames == g.base;
    }
  }

  lemma {:induction false} HandleThrowKeepsInv(g: Region, s: Loop)
    requires Within(g, s) && !s.exited && (g.Callee? ==> g.base != []) && s.m.exc.Some? && HandleThrow(s).Done?
    ensures RegionInv(g, HandleThrow(s).value) || Left(g, HandleThrow(s).value)
    decreases |s.m.frames|
  {
    if FindHandler(s.cur.info.code.value.handlers, s.cur.pc, s.m.exc.value).None? {
      PopKeepsInv(g, s);
      if !s.cur.isRoot {
        if Left(g, PopFrame(s)) {
          HandleThrowPops(PopFrame(s));
        } else {
          HandleThrowKeepsInv(g, PopFrame(s));
        }
      }
    }
  }

  lemma {:induction false} HandleThrowPops(s: Loop)
    requires s.m.exc.Some? && HandleThrow(s).Done?
    ensures |HandleThrow(s).value.m.frames| <= |s.m.frames|
    decreases |s.m.frames|
  {
    if FindHandler(s.cur.info.code.value.handlers, s.cur.pc, s.m.exc.value).None? && !s.cur.isRoot {
      HandleThrowPops(PopFrame(s));
    }
  }

  lemma SimpleKeepsInv(g: Region, s: Loop, e: Event)
    requires Within(g, s) && !s.exited && e.Execute? && ExecSimple(s, e).Done?
    ensures RegionInv(g, ExecSimple(s, e).value)
  {
  }

  lemma PushKeepsInv(g: Region, s: Loop, callee: Method)
    requires Within(g, s) && !s.exited && PushFrame(s, callee).Done?
    ensures Within(g, PushFrame(s, callee).value) && !PushFrame(s, callee).value.exited
  {
    var s1 := PushFrame(s, callee).value;
    assert s1.m.frames[|g.base|..] == s.m.frames[|g.base|..] + [Suspended(s.cur, callee, InstrAt(s.cur).length)];
  }

  lemma PokeKeepsWithin(g: Region, s: Loop, at: nat, value: Value)
    requires Within(g, s) && !s.exited && g.low <= at < |s.m.mem|
    ensures Within(g, Poke(s, at, value))
  {
  }

  lemma MoveKeepsWithin(g: Region, s: Loop, slots: nat)
    requires Within(g, s) && !s.exited
    requires slots > 0 ==>
               slots <= s.cur.top && s.cur.firstOperand + s.cur.top <= |s.m.mem| && s.cur.firstLocal < |s.m.mem|
    ensures Within(g, MoveResult(s, slots))
  {
    var f := s.cur;
    if slots > 0 {
      PokeKeepsWithin(g, s.(cur := f.(top := f.top - slots)), f.firstLocal, s.m.mem[f.firstOperand + f.top - slots]);
    }
  }

  lemma ReturnKeepsInv(g: Region, s: Loop)
    requires Within(g, s) && !s.exited && (g.Callee? ==> g.base != []) && ExecReturn(s).Done?
    ensures RegionInv(g, ExecReturn(s).value) || Left(g, ExecReturn(s).value)
  {
    var k := InstrAt(s.cur).slots;
    MoveKeepsWithin(g, s, k);
    PopKeepsInv(g, MoveResult(s, k));
  }

  // ---- nested runs ----

  /** What code outside the interpreter leaves behind: the same frames, and the same memory below memory_used. */
  ghost predicate Preserved(m: Machine, m': Machine)
  {
    m'.frames == m.frames && m.used <= m'.used && SameBelow(m.mem, m'.mem, m.used)
  }

  lemma {:induction false} EntriesPreserve(m: Machine, cs: Entries)
    requires ExecEntries(m, cs).Done?
    ensures Preserved(m, ExecEntries(m, cs).value)
    decreases cs, 1
  {
    match cs
    case NoEntries =>
    case Entries(c, rest) =>
      EntryPreserves(m, c);
      EntriesPreserve(ExecEntry(m, c).value, rest);
  }

  lemma {:induction false} EntryPreserves(m: Machine, c: Entry)
    requires ExecEntry(m, c).Done?
    ensures Preserved(m, ExecEntry(m, c).value)
    decreases c, 0
  {
    match c
    case JniCall(info, args, events) => CallHelperPreserves(m, info, args, events);
    case RunInitializer(info, events) => InterpretIsBalanced(m, info, events);
    case SetException(_) =>
  }

  /** CALL_HELPER gives memory_used back exactly when it does not report JNI_ENOMEM (or had no arguments). */
  lemma {:induction false} CallHelperPreserves(m: Machine, info: Method, args: seq<Option<Value>>, es: Events)
    requires CallHelper(m, info, args, es).Done?
    ensures Preserved(m, CallHelper(m, info, args, es).value)
    ensures CallHelper(m, info, args, es).value.used == m.used <==>
      info.paramSlots == 0 || m.used + info.paramSlots <= |m.mem|
    decreases es, 4
  {
    if m.used + info.paramSlots <= |m.mem| {
      InterpretIsBalanced(WithArguments(m, args), info, es);
    }
  }

  /** The leak: without room the call runs nothing, and the slots it asked for stay taken for good. */
  lemma NoMemoryLeaks(m: Machine, info: Method, args: seq<Option<Value>>)
    requires |args| == info.paramSlots && m.used + info.paramSlots > |m.mem|
    ensures CallHelper(m, info, args, NoEvents) == Done(m.(used := m.used + info.paramSlots))
    ensures CallHelper(Machine([7], 1, [], None), Method(1, 0, None), [Some(5)], NoEvents)
            == Done(Machine([7], 2, [], None))
  {
  }

  /** After it every further call fails in the same way, whatever it calls, and takes more. */
  lemma {:induction false} LeakGoesOn(m: Machine, cs: Entries)
    requires m.used > |m.mem| && OnlyCalls(cs)
    ensures ExecEntries(m, cs) == Done(m.(used := m.used + SlotsAsked(cs)))
    decreases cs
  {
    if cs.Entries? {
      NoMemoryLeaks(m, cs.head.info, cs.head.args);
      LeakGoesOn(m.(used := m.used + cs.head.info.paramSlots), cs.tail);
    }
  }

  /** Calls from JNI with as many arguments as their methods have, that run nothing. */
  predicate OnlyCalls(cs: Entries)
  {
    cs.Entries? ==>
      && cs.head.JniCall? && |cs.head.args| == cs.head.info.paramSlots && cs.head.events.NoEvents?
      && OnlyCalls(cs.tail)
  }

  function SlotsAsked(cs: Entries): nat
    requires OnlyCalls(cs)
  {
    if cs.NoEntries? then 0 else cs.head.info.paramSlots + SlotsAsked(cs.tail)
  }

  /**
   Balance: a completed run of interpret, by return or by an uncaught exception, ends with the frame list and the
   memory_used that it started with, and has changed no memory below its arguments.
   */
  lemma {:induction false} InterpretIsBalanced(m: Machine, info: Method, es: Events)
    requires Interpret(m, info, es).Done?
    ensures var m' := Interpret(m, info, es).value;
            && m'.frames == m.frames && m'.used == m.used
            && info.paramSlots <= m.used && SameBelow(m.mem, m'.mem, m.used - info.paramSlots)
    decreases es, 3
  {
    var f := RootFrame(m, info);
    var g := Activation(m.frames, m.used, m.used - info.paramSlots, m.mem);
    var s := Loop(m.(used := UsedBy(f)), f, false);
    assert s.m.frames[|m.frames|..] == [];
    LoopKeepsInv(g, s, es);
  }

  lemma {:induction false} LoopKeepsInv(g: Region, s: Loop, es: Events)
    requires g.Activation? && RegionInv(g, s) && ExecLoop(s, es).Done?
    ensures RegionInv(g, ExecLoop(s, es).value)
    decreases es, if s.m.exc.Some? then 2 else 1
  {
    if s.exited {
    } else if s.m.exc.Some? {
      HandleThrowKeepsInv(g, s);
      if !HandleThrow(s).value.exited {
        LoopKeepsInv(g, HandleThrow(s).value, es);
      }
    } else if es.Events? {
      EventKeepsInv(g, s, es.head);
      LoopKeepsInv(g, ExecEvent(s, es.head).value, es.tail);
    }
  }

  lemma {:induction false} EventKeepsInv(g: Region, s: Loop, e: Event)
    requires Within(g, s) && !s.exited && (g.Callee? ==> g.base != []) && ExecEvent(s, e).Done?
    ensures RegionInv(g, ExecEvent(s, e).value) || Left(g, ExecEvent(s, e).value)
    decreases e, 0
  {
    match e
    case Execute(_, _, _) => SimpleKeepsInv(g, s, e);
    case Call(callee) => PushKeepsInv(g, s, callee);
    case CallNative(callee, calls, result) => NativeKeepsInv(g, s, callee, calls, result);
    case ReturnFrom => ReturnKeepsInv(g, s);
    case Reenter(popped, advance, calls) => ReenterKeepsInv(g, s, popped, advance, calls);
  }

  lemma {:induction false} NativeKeepsInv(g: Region, s: Loop, callee: Method, calls: Entries, result: Value)
    requires Within(g, s) && !s.exited && (g.Callee? ==> g.base != []) && ExecNative(s, callee, calls, result).Done?
    ensures RegionInv(g, ExecNative(s, callee, calls, result).value)
            || Left(g, ExecNative(s, callee, calls, result).value)
    decreases calls, 2
  {
    PushKeepsInv(g, s, callee);
    var s1 := PushFrame(s, callee).value;
    var m1 := s1.m.(frames := s1.m.frames + [s1.cur]);
    EntriesPreserve(m1, calls);
    var m2 := ExecEntries(m1, calls).value;
    AfterEntriesWithin(g, s1, m1, m2);
    LeaveKeepsInv(g, m2, result, Loop(m2.(frames := s1.m.frames), s1.cur, false));
  }

  /** Code outside the interpreter that ran on top of s left the region as it was. */
  lemma AfterEntriesWithin(g: Region, s: Loop, m: Machine, m': Machine)
    requires Within(g, s) && !s.exited && |m.frames| == |s.m.frames| + 1 && m.frames[..|s.m.frames|] == s.m.frames
    requires m.mem == s.m.mem && m.used == s.m.used && Preserved(m, m')
    ensures m'.frames[..|m'.frames| - 1] == s.m.frames && m'.frames[|m'.frames| - 1] == m.frames[|s.m.frames|]
    ensures Within(g, Loop(m'.(frames := s.m.frames), s.cur, false))
  {
  }

  lemma LeaveKeepsInv(g: Region, m: Machine, result: Value, s: Loop)
    requires Within(g, s) && !s.exited && (g.Callee? ==> g.base != []) && LeaveNative(m, result, false).Done?
    requires s == Loop(m.(frames := m.frames[..|m.frames| - 1]), m.frames[|m.frames| - 1], false)
    ensures RegionInv(g, LeaveNative(m, result, false).value) || Left(g, LeaveNative(m, result, false).value)
  {
    if s.cur.info.returnSlots > 0 {
      PokeKeepsWithin(g, s, s.cur.firstLocal, result);
      PopKeepsInv(g, Poke(s, s.cur.firstLocal, result));
    } else {
      PopKeepsInv(g, s);
    }
  }

  lemma {:induction false} ReenterKeepsInv(g: Region, s: Loop, popped: nat, advance: nat, calls: Entries)
    requires Within(g, s) && !s.exited && ExecReenter(s, popped, advance, calls).Done?
    ensures RegionInv(g, ExecReenter(s, popped, advance, calls).value)
    decreases calls, 2
  {
    var f := s.cur.(top := s.cur.top - popped, pc := s.cur.pc + advance);
    var m1 := s.m.(frames := s.m.frames + [f]);
    EntriesPreserve(m1, calls);
    AfterEntriesWithin(g, s, m1, ExecEntries(m1, calls).value);
  }

  // ---- from an invoke to its return ----

  function Operands(mem: seq<Value>, f: Frame): seq<Value>
    requires f.firstOperand + f.top <= |mem|
  {
    mem[f.firstOperand..f.firstOperand + f.top]
  }

  function Locals(mem: seq<Value>, f: Frame): seq<Value>
    requires f.firstLocal <= f.firstOperand <= |mem|
  {
    mem[f.firstLocal..f.firstOperand]
  }

  /** After an invoke, the callee's first locals are the words that the caller pushed, without any copying. */
  lemma ArgumentsBecomeLocals(s: Loop, callee: Method)
    requires PushFrame(s, callee).Done? && s.cur.firstOperand + s.cur.top <= |s.m.mem|
    requires callee.code.Some? && callee.paramSlots <= callee.code.value.maxLocals
    ensures var s1 := PushFrame(s, callee).value;
            && s1.cur.firstOperand <= |s1.m.mem|
            && Locals(s1.m.mem, s1.cur)[..callee.paramSlots] ==
                 Operands(s.m.mem, s.cur)[s.cur.top - callee.paramSlots..]
  {
  }

  /** Running `es` from s, the frame list never gets shorter than `depth` at any turn of the loop. */
  ghost predicate NeverBelow(s: Loop, es: Events, depth: nat)
    decreases es, if s.m.exc.Some? then 2 else 1
  {
    && depth <= |s.m.frames| && !s.exited
    && if s.m.exc.Some? then
         HandleThrow(s).Done? && !HandleThrow(s).value.exited && NeverBelow(HandleThrow(s).value, es, depth)
       else es.Events? ==> ExecEvent(s, es.head).Done? && NeverBelow(ExecEvent(s, es.head).value, es.tail, depth)
  }

  lemma {:induction false} InsideKeepsInv(g: Region, s: Loop, es: Events)
    requires g.Callee? && g.base != [] && Within(g, s) && NeverBelow(s, es, |g.base|)
    ensures ExecLoop(s, es).Done? && !ExecLoop(s, es).value.exited && Within(g, ExecLoop(s, es).value)
    decreases es, if s.m.exc.Some? then 2 else 1
  {
    if s.m.exc.Some? {
      HandleThrowKeepsInv(g, s);
      InsideKeepsInv(g, HandleThrow(s).value, es);
    } else if es.Events? {
      EventKeepsInv(g, s, es.head);
      InsideKeepsInv(g, ExecEvent(s, es.head).value, es.tail);
    }
  }

  /** The windows of the frame lie in the memory, below memory_used. */
  predicate InMemory(m: Machine, f: Frame)
  {
    && f.info.code.Some? && f.firstLocal <= f.firstOperand
    && f.top <= f.info.code.value.maxStack
    && f.firstOperand + f.info.code.value.maxStack <= m.used
    && f.firstOperand + f.info.code.value.maxStack <= |m.mem|
  }

  /** The state in which the callee that was invoked in s is about to return normally, after the events es. */
  ghost predicate RunsUntilReturn(s: Loop, callee: Method, es: Events, t: Loop)
  {
    && PushFrame(s, callee).Done? && callee.code.Some?
    && NeverBelow(PushFrame(s, callee).value, es, |s.m.frames| + 1)
    && ExecLoop(PushFrame(s, callee).value, es) == Done(t)
    && t.m.exc.None? && |t.m.frames| == |s.m.frames| + 1
    && ExecReturn(t).Done? && InstrAt(t.cur).slots == callee.returnSlots
  }

  /**
   The frame rule. Between an invoke and its matching return the callee may run anything; after the return the
   caller is the current frame again, at the next instruction, with its locals and its operands below the arguments
   unchanged.
   */
  lemma FrameRule(s: Loop, callee: Method, es: Events, t: Loop)
    requires !s.exited && InMemory(s.m, s.cur) && RunsUntilReturn(s, callee, es, t)
    requires s.cur.top - callee.paramSlots + callee.returnSlots <= s.cur.info.code.value.maxStack
    ensures var r := ExecReturn(t).value;
            && r.m.frames == s.m.frames && r.m.used == s.m.used && !r.exited && r.m.exc.None?
            && r.cur == Suspended(s.cur, callee, InstrAt(s.cur).length).(pc := s.cur.pc + InstrAt(s.cur).length)
            && InMemory(r.m, r.cur) && SameBelow(s.m.mem, r.m.mem, s.cur.firstOperand + s.cur.top - callee.paramSlots)
  {
    ReturningFrameIsCallee(s, callee, es, t);
    assert t.m.frames[..|t.m.frames| - 1] == s.m.frames;
  }

  /** The frame that returns is the callee's own: its first local is the caller's first argument slot. */
  lemma ReturningFrameIsCallee(s: Loop, callee: Method, es: Events, t: Loop)
    requires !s.exited && InMemory(s.m, s.cur) && RunsUntilReturn(s, callee, es, t)
    ensures t.m.frames == s.m.frames + [Suspended(s.cur, callee, InstrAt(s.cur).length)]
    ensures !t.exited && !t.cur.isRoot && t.cur.prevUsage == s.m.used
    ensures t.cur.firstLocal == s.cur.firstOperand + s.cur.top - callee.paramSlots
    ensures SameBelow(s.m.mem, t.m.mem, t.cur.firstLocal)
  {
    var s1 := PushFrame(s, callee).value;
    var g := Callee(s1.m.frames, s.m.used, s1.cur.firstLocal, s.m.mem);
    assert s1.m.frames[|g.base|..] == [];
    InsideKeepsInv(g, s1, es);
    assert t.m.frames == g.base && t.m.frames[|g.base|..] == [];
  }

  /** The same seen by the caller: old operands without the arguments, then the callee's value. */
  lemma InvokeReturn(s: Loop, callee: Method, es: Events, t: Loop)
    requires !s.exited && InMemory(s.m, s.cur) && RunsUntilReturn(s, callee, es, t)
    requires s.cur.top - callee.paramSlots + callee.returnSlots <= s.cur.info.code.value.maxStack
    ensures var r := ExecReturn(t).value;
            var kept := s.cur.top - callee.paramSlots;
            && InMemory(r.m, r.cur) && Locals(r.m.mem, r.cur) == Locals(s.m.mem, s.cur)
            && |Operands(r.m.mem, r.cur)| == kept + callee.returnSlots
            && Operands(r.m.mem, r.cur)[..kept] == Operands(s.m.mem, s.cur)[..kept]
            && (callee.returnSlots > 0 ==>
                  Operands(r.m.mem, r.cur)[kept] == Operands(t.m.mem, t.cur)[t.cur.top - callee.returnSlots])
  {
    FrameRule(s, callee, es, t);
    var r := ExecReturn(t).value;
    KeptWindow(s.m.mem, r.m.mem, s.cur, r.cur, s.cur.top - callee.paramSlots);
    if callee.returnSlots > 0 {
      ReturnedValue(s, callee, es, t);
    }
  }

  /** Equal words below the kept operands mean equal locals and equal kept operands. */
  lemma KeptWindow(mem: seq<Value>, mem': seq<Value>, f: Frame, f': Frame, kept: nat)
    requires f.firstLocal <= f.firstOperand && f' == f.(top := f'.top, pc := f'.pc, invokeLength := f'.invokeLength)
    requires f.firstOperand + f.top <= |mem| && f'.firstOperand + f'.top <= |mem'| && kept <= f.top && kept <= f'.top
    requires SameBelow(mem, mem', f.firstOperand + kept)
    ensures Locals(mem', f') == Locals(mem, f) && Operands(mem', f')[..kept] == Operands(mem, f)[..kept]
  {
  }

  lemma ReturnedValue(s: Loop, callee: Method, es: Events, t: Loop)
    requires !s.exited && InMemory(s.m, s.cur) && RunsUntilReturn(s, callee, es, t) && callee.returnSlots > 0
    ensures var at := s.cur.firstOperand + s.cur.top - callee.paramSlots;
            && at < |ExecReturn(t).value.m.mem| && t.cur.firstOperand + t.cur.top <= |t.m.mem|
            && callee.returnSlots <= t.cur.top
            && ExecReturn(t).value.m.mem[at] == Operands(t.m.mem, t.cur)[t.cur.top - callee.returnSlots]
  {
    ReturningFrameIsCallee(s, callee, es, t);
  }

  /** The frame rule for a native method: it may call back, and still changes nothing below its arguments. */
  lemma NativeFrameRule(s: Loop, callee: Method, calls: Entries, result: Value)
    requires !s.exited && InMemory(s.m, s.cur) && ExecNative(s, callee, calls, result).Done?
    ensures var r := ExecNative(s, callee, calls, result).value;
            var low := s.cur.firstOperand + s.cur.top - callee.paramSlots;
            && callee.paramSlots <= s.cur.top
            && r.m.frames == s.m.frames && r.m.used == s.m.used && !r.exited
            && SameBelow(s.m.mem, r.m.mem, low)
            && (callee.returnSlots > 0 ==> low < |r.m.mem| && r.m.mem[low] == result)
            && r.cur == Suspended(s.cur, callee, InstrAt(s.cur).length)
                 .(pc := s.cur.pc + if r.m.exc.None? then InstrAt(s.cur).length else 0)
  {
    var s1 := PushFrame(s, callee).value;
    var m1 := s1.m.(frames := s1.m.frames + [s1.cur]);
    EntriesPreserve(m1, calls);
    NativeLeaves(s, callee, ExecEntries(m1, calls).value, result);
  }

  /** Whatever the native code calls, the words of its arguments stay as the caller pushed them. */
  lemma NativeArgumentsStay(s: Loop, callee: Method, calls: Entries, i: nat)
    requires PushFrame(s, callee).Done? && callee.code.None? && i < callee.paramSlots
    requires s.cur.firstOperand + s.cur.top <= |s.m.mem|
    requires var s1 := PushFrame(s, callee).value;
             ExecEntries(s1.m.(frames := s1.m.frames + [s1.cur]), calls).Done?
    ensures var s1 := PushFrame(s, callee).value;
            var m := ExecEntries(s1.m.(frames := s1.m.frames + [s1.cur]), calls).value;
            var at := s.cur.firstOperand + s.cur.top - callee.paramSlots + i;
            && callee.paramSlots <= s.cur.top && at < |m.mem| && m.mem[at] == s.m.mem[at]
            && s1.cur.firstLocal + i == at && s1.cur.firstLocal + callee.paramSlots <= m.used
  {
    var s1 := PushFrame(s, callee).value;
    EntriesPreserve(s1.m.(frames := s1.m.frames + [s1.cur]), calls);
  }

  lemma NativeLeaves(s: Loop, callee: Method, m: Machine, result: Value)
    requires InMemory(s.m, s.cur) && PushFrame(s, callee).Done? && LeaveNative(m, result, false).Done?
    requires m.frames == PushFrame(s, callee).value.m.frames + [PushFrame(s, callee).value.cur]
    requires SameBelow(s.m.mem, m.mem, s.cur.firstOperand + s.cur.top - callee.paramSlots)
    ensures var r := LeaveNative(m, result, false).value;
            var low := s.cur.firstOperand + s.cur.top - callee.paramSlots;
            && r.m.frames == s.m.frames && r.m.used == s.m.used && !r.exited && r.m.exc == m.exc
            && SameBelow(s.m.mem, r.m.mem, low)
            && (callee.returnSlots > 0 ==> low < |r.m.mem| && r.m.mem[low] == result)
            && r.cur == Suspended(s.cur, callee, InstrAt(s.cur).length)
                 .(pc := s.cur.pc + if r.m.exc.None? then InstrAt(s.cur).length else 0)
  {
    var s1 := PushFrame(s, callee).value;
    assert m.frames[..|m.frames| - 1] == s1.m.frames && m.frames[|m.frames| - 1] == s1.cur;
    assert s1.m.frames[..|s1.m.frames| - 1] == s.m.frames;
  }

  /**
   An instruction that has the VM run other code finds its frame, its locals and all its operands as they were; if that
   code throws, the frame's pc is still inside the instruction.
   */
  lemma ReenterRule(s: Loop, popped: nat, advance: nat, calls: Entries)
    requires !s.exited && ExecReenter(s, popped, advance, calls).Done?
    ensures var r := ExecReenter(s, popped, advance, calls).value;
            && r.m.frames == s.m.frames && !r.exited && SameBelow(s.m.mem, r.m.mem, s.m.used)
            && (r.m.exc.None? ==> r.cur == s.cur)
            && (r.m.exc.Some? ==>
                  && r.cur == s.cur.(top := r.cur.top, pc := r.cur.pc) && r.cur.top <= s.cur.top
                  && s.cur.pc <= r.cur.pc < s.cur.pc + LengthOf(InstrAt(s.cur)))
  {
    var f := s.cur.(top := s.cur.top - popped, pc := s.cur.pc + advance);
    var m1 := s.m.(frames := s.m.frames + [f]);
    EntriesPreserve(m1, calls);
    var m2 := ExecEntries(m1, calls).value;
    assert m2.frames[..|m2.frames| - 1] == s.m.frames && m2.frames[|m2.frames| - 1] == f;
  }

  // ---- one instruction, one new frame ----

  /** No later store is to the same local. */
  predicate IsLastStore(stores: seq<(nat, Value)>, k: nat)
  {
    k < |stores| && forall j :: k < j < |stores| ==> stores[j].0 != stores[k].0
  }

  lemma {:induction false} StoresStay(mem: seq<Value>, firstLocal: nat, stores: seq<(nat, Value)>, a: nat)
    requires (forall st :: st in stores ==> firstLocal + st.0 < |mem|) && a < |mem|
    requires forall st :: st in stores ==> firstLocal + st.0 != a
    ensures WriteLocals(mem, firstLocal, stores)[a] == mem[a]
    decreases |stores|
  {
    if stores != [] {
      assert stores[0] in stores;
      StoresStay(mem[firstLocal + stores[0].0 := stores[0].1], firstLocal, stores[1..], a);
    }
  }

  lemma {:induction false} LastStoreStays(mem: seq<Value>, firstLocal: nat, stores: seq<(nat, Value)>, k: nat)
    requires (forall st :: st in stores ==> firstLocal + st.0 < |mem|) && IsLastStore(stores, k)
    ensures stores[k] in stores && WriteLocals(mem, firstLocal, stores)[firstLocal + stores[k].0] == stores[k].1
    decreases |stores|
  {
    var mem1 := mem[firstLocal + stores[0].0 := stores[0].1];
    if k == 0 {
      StoresStay(mem1, firstLocal, stores[1..], firstLocal + stores[0].0);
    } else {
      LastStoreStays(mem1, firstLocal, stores[1..], k - 1);
    }
  }

  /** After an instruction that works on its frame, each local holds the last value stored in it. */
  lemma SimpleStores(s: Loop, e: Event, k: nat)
    requires e.Execute? && ExecSimple(s, e).Done? && IsLastStore(e.stores, k)
    ensures var r, a := ExecSimple(s, e).value, s.cur.firstLocal + e.stores[k].0;
            a < |r.m.mem| && r.m.mem[a] == e.stores[k].1
  {
    var i, f := InstrAt(s.cur), s.cur;
    LastStoreStays(Write(s.m.mem, f.firstOperand + f.top - i.pops, e.pushed), f.firstLocal, e.stores, k);
  }

  /** It pops its operands, pushes its results and goes on where it says; nothing else of the machine changes. */
  lemma SimpleMoves(s: Loop, e: Event)
    requires e.Execute? && ExecSimple(s, e).Done?
    ensures var r, i, f := ExecSimple(s, e).value, InstrAt(s.cur), s.cur;
            && i.Simple? && i.pops <= f.top && |e.pushed| == i.pushes && e.next in i.next
            && r.cur == f.(top := f.top - i.pops + |e.pushed|, pc := e.next)
            && r.m == s.m.(mem := r.m.mem) && |r.m.mem| == |s.m.mem| && r.exited == s.exited
  {
  }

  /** It reads and writes only operands and locals of its frame, and those inside the memory. */
  lemma SimpleStaysInside(s: Loop, e: Event)
    requires e.Execute? && ExecSimple(s, e).Done?
    ensures s.cur.info.code.Some?
    ensures var r, f, code := ExecSimple(s, e).value, s.cur, s.cur.info.code.value;
            && f.firstOperand + f.top <= |s.m.mem|
            && r.cur.top <= code.maxStack && r.cur.firstOperand + r.cur.top <= |r.m.mem|
            && forall st :: st in e.stores ==> st.0 < code.maxLocals && f.firstLocal + st.0 < |r.m.mem|
  {
  }

  /** The values that it pushes are the top operands, in order. */
  lemma SimplePushes(s: Loop, e: Event, k: nat)
    requires e.Execute? && ExecSimple(s, e).Done? && k < |e.pushed|
    requires s.cur.firstLocal + s.cur.info.code.value.maxLocals <= s.cur.firstOperand
    ensures var r, i, f := ExecSimple(s, e).value, InstrAt(s.cur), s.cur;
            var a := f.firstOperand + f.top - i.pops + k;
            i.pops <= f.top && a < |r.m.mem| && r.m.mem[a] == e.pushed[k]
  {
    var i, f := InstrAt(s.cur), s.cur;
    var at := f.firstOperand + f.top - i.pops;
    forall st | st in e.stores ensures f.firstLocal + st.0 != at + k {
      assert st.0 < i.locals;
    }
    StoresStay(Write(s.m.mem, at, e.pushed), f.firstLocal, e.stores, at + k);
  }

  /** No other word changes. */
  lemma SimpleKeeps(s: Loop, e: Event, a: nat)
    requires e.Execute? && ExecSimple(s, e).Done? && a < |s.m.mem|
    requires var at := s.cur.firstOperand + s.cur.top - InstrAt(s.cur).pops; a < at || at + |e.pushed| <= a
    requires forall st :: st in e.stores ==> s.cur.firstLocal + st.0 != a
    ensures var r := ExecSimple(s, e).value;
            |r.m.mem| == |s.m.mem| && r.m.mem[a] == s.m.mem[a]
  {
    var i, f := InstrAt(s.cur), s.cur;
    StoresStay(Write(s.m.mem, f.firstOperand + f.top - i.pops, e.pushed), f.firstLocal, e.stores, a);
  }

  /** An invoke overflows exactly when the windows of the callee do not fit behind the caller's operands. */
  lemma OverflowIff(s: Loop, callee: Method)
    requires Invokes(s.cur, callee) && callee.paramSlots <= s.cur.top
    ensures var low := s.cur.firstOperand + s.cur.top - callee.paramSlots;
            var end := match callee.code
                       case None => low + callee.paramSlots
                       case Some(code) => low + code.maxLocals + code.maxStack;
            && (PushFrame(s, callee) == Halt || PushFrame(s, callee).Done?)
            && (PushFrame(s, callee) == Halt <==> end > |s.m.mem|)
            && (PushFrame(s, callee).Done? ==>
                  var r := PushFrame(s, callee).value;
                  && r.m.used == end && r.m.mem == s.m.mem && r.m.exc == s.m.exc && |r.m.frames| == |s.m.frames| + 1
                  && r.cur.info == callee && r.cur.firstLocal == low && r.cur.top == 0 && r.cur.pc == 0 && !r.cur.isRoot
                  && (callee.code.Some? ==> r.cur.firstOperand == low + callee.code.value.maxLocals))
  {
  }

  // ---- calls from native code ----

  /** The arguments of a call from JNI are the first locals of the method it runs. */
  lemma JniArgumentsBecomeLocals(m: Machine, info: Method, args: seq<Option<Value>>)
    requires |args| == info.paramSlots && m.used + |args| <= |m.mem| && HasRoom(WithArguments(m, args), info)
    requires info.paramSlots <= info.code.value.maxLocals
    ensures var m1 := WithArguments(m, args);
            && (forall i :: 0 <= i < |args| && args[i].Some? ==>
                  i < |Locals(m1.mem, RootFrame(m1, info))| && Locals(m1.mem, RootFrame(m1, info))[i] == args[i].value)
            && SameBelow(m.mem, m1.mem, m.used)
  {
  }

  function Then(es: Events, e: Event): Events
  {
    match es
    case NoEvents => Events(e, NoEvents)
    case Events(head, tail) => Events(head, Then(tail, e))
  }

  /** A run can be cut where no exception is pending. */
  lemma {:induction false} RunThen(s: Loop, es: Events, e: Event, t: Loop)
    requires ExecLoop(s, es) == Done(t) && !t.exited && t.m.exc.None?
    ensures ExecLoop(s, Then(es, e)) == ExecLoop(t, Events(e, NoEvents))
    decreases es, if s.m.exc.Some? then 2 else 1
  {
    if s.m.exc.Some? {
      RunThen(HandleThrow(s).value, es, e, t);
    } else if es.Events? {
      RunThen(ExecEvent(s, es.head).value, es.tail, e, t);
    }
  }

  /** The root frame is about to return normally, after the events es. */
  ghost predicate RunsUntilRootReturns(m: Machine, info: Method, es: Events, t: Loop)
  {
    && m.exc.None? && HasRoom(m, info)
    && ExecLoop(Loop(m.(used := UsedBy(RootFrame(m, info))), RootFrame(m, info), false), es) == Done(t)
    && !t.exited && t.m.exc.None? && t.cur.isRoot
    && ExecReturn(t).Done? && InstrAt(t.cur).slots == info.returnSlots
  }

  /** interpret returns the value that the method returned, whatever ran in between. */
  lemma InterpretReturnsValue(m: Machine, info: Method, es: Events, t: Loop)
    requires RunsUntilRootReturns(m, info, es, t)
    ensures Interpret(m, info, Then(es, ReturnFrom)).Done?
    ensures var m' := Interpret(m, info, Then(es, ReturnFrom)).value;
            && m'.exc.None? && |m'.mem| == |m.mem|
            && (info.returnSlots > 0 ==>
                  t.cur.firstOperand + t.cur.top <= |t.m.mem| && info.returnSlots <= t.cur.top
                  && ReturnValue(m', m.used, info) ==
                       Operands(t.m.mem, t.cur)[t.cur.top - info.returnSlots])
  {
    var f := RootFrame(m, info);
    ReturningFrameIsRoot(m, info, es, t);
    RunThen(Loop(m.(used := UsedBy(f)), f, false), es, ReturnFrom, t);
    RootReturns(t);
    if info.returnSlots > 0 {
      ReturnMovesResult(t);
    }
  }

  lemma RootReturns(t: Loop)
    requires !t.exited && t.m.exc.None? && t.cur.isRoot && ExecReturn(t).Done?
    ensures var r := ExecReturn(t).value;
            && ExecLoop(t, Events(ReturnFrom, NoEvents)) == Done(r)
            && r.exited && r.m.exc.None? && |r.m.mem| == |t.m.mem|
  {
    var r := ExecReturn(t).value;
    assert ExecEvent(t, ReturnFrom) == Done(r);
    assert ExecLoop(r, NoEvents) == Done(r);
  }

  lemma ReturnMovesResult(t: Loop)
    requires ExecReturn(t).Done? && InstrAt(t.cur).slots > 0
    ensures var r, k := ExecReturn(t).value, InstrAt(t.cur).slots;
            && k <= t.cur.top && t.cur.firstOperand + t.cur.top <= |t.m.mem| && t.cur.firstLocal < |r.m.mem|
            && r.m.mem[t.cur.firstLocal] == Operands(t.m.mem, t.cur)[t.cur.top - k]
  {
  }

  lemma ReturningFrameIsRoot(m: Machine, info: Method, es: Events, t: Loop)
    requires RunsUntilRootReturns(m, info, es, t)
    ensures t.cur.firstLocal == m.used - info.paramSlots && t.m.frames == m.frames && |t.m.mem| == |m.mem|
  {
    var f := RootFrame(m, info);
    var s := Loop(m.(used := UsedBy(f)), f, false);
    var g := Activation(m.frames, m.used, m.used - info.paramSlots, m.mem);
    assert s.m.frames[|g.base|..] == [];
    LoopKeepsInv(g, s, es);
    RootIsAtBase(g, t);
  }

  lemma RootIsAtBase(g: Region, t: Loop)
    requires g.Activation? && Within(g, t) && t.cur.isRoot
    ensures t.cur.firstLocal == g.low && t.m.frames == g.base && |t.m.mem| == |g.mem|
  {
    assert t.m.frames == g.base + t.m.frames[|g.base|..];
  }
}
