/** Exception unwinding against section 2.10 of the Java Virtual Machine Specification, SE 16. */
module FrameUnwind {
  import opened Options
  import opened FrameModel
  import opened FrameRuns

  // ---- the exception table ----

  /** The handler that is found is the first matching entry of the table. */
  lemma {:induction false} FindHandlerIsFirst(hs: seq<Handler>, pc: nat, exc: Exc, i: nat)
    requires i < |hs| && Matches(hs[i], pc, exc)
    requires forall j :: 0 <= j < i ==> !Matches(hs[j], pc, exc)
    ensures FindHandler(hs, pc, exc) == Some(hs[i])
  {
    if i > 0 {
      assert !Matches(hs[0], pc, exc);
      FindHandlerIsFirst(hs[1..], pc, exc, i - 1);
    }
  }

  /** None is found exactly when no entry matches. */
  lemma {:induction false} NoHandlerIffNoMatch(hs: seq<Handler>, pc: nat, exc: Exc)
    ensures FindHandler(hs, pc, exc).None? <==> forall h :: h in hs ==> !Matches(h, pc, exc)
  {
    if hs != [] {
      NoHandlerIffNoMatch(hs[1..], pc, exc);
      assert hs == [hs[0]] + hs[1..];
    }
  }

  /** The first entry whose range covers pc and that catches anything, or a class of the exception, is found. */
  lemma FirstToCatchIsFound(hs: seq<Handler>, pc: nat, exc: Exc, i: nat)
    requires i < |hs| && hs[i].startPc <= pc < hs[i].endPc
    requires hs[i].catchType == None || hs[i].catchType.value in exc.classes
    requires forall j :: 0 <= j < i ==>
      pc < hs[j].startPc || hs[j].endPc <= pc || (hs[j].catchType.Some? && hs[j].catchType.value !in exc.classes)
    ensures FindHandler(hs, pc, exc) == Some(hs[i])
  {
    FindHandlerIsFirst(hs, pc, exc, i);
  }

  /** None is found exactly when each entry is for other instructions or for other exceptions. */
  lemma NoneIsFoundIff(hs: seq<Handler>, pc: nat, exc: Exc)
    ensures FindHandler(hs, pc, exc) == None <==>
      forall h :: h in hs ==>
        pc < h.startPc || h.endPc <= pc || (h.catchType.Some? && h.catchType.value !in exc.classes)
  {
    NoHandlerIffNoMatch(hs, pc, exc);
  }

  /** Neither bound of the range lies strictly inside the instruction at pc. */
  predicate OnBoundary(h: Handler, pc: nat, length: nat)
  {
    !(pc < h.startPc < pc + length) && !(pc < h.endPc < pc + length)
  }

  /** A pc that an instruction has advanced inside itself finds the same handler as the start of the instruction. */
  lemma {:induction false} AdvancedPcFindsSameHandler(hs: seq<Handler>, pc: nat, length: nat, advance: nat, exc: Exc)
    requires advance < length && forall h :: h in hs ==> OnBoundary(h, pc, length)
    ensures FindHandler(hs, pc + advance, exc) == FindHandler(hs, pc, exc)
  {
    if hs != [] {
      assert OnBoundary(hs[0], pc, length);
      AdvancedPcFindsSameHandler(hs[1..], pc, length, advance, exc);
    }
  }

  // ---- unwinding ----

  /** The k-th frame from the top: the current one, then the suspended ones. */
  function FrameAt(s: Loop, k: nat): Frame
    requires k <= |s.m.frames|
  {
    if k == 0 then s.cur else s.m.frames[|s.m.frames| - k]
  }

  /** The frame has a matching entry for its pc; a suspended frame's pc is that of its invoke. */
  predicate Catches(f: Frame, exc: Exc)
    requires f.info.code.Some?
  {
    exists h :: h in f.info.code.value.handlers && Matches(h, f.pc, exc)
  }

  /** The first k frames from the top are passed over: none of them catches, none of them is a root. */
  ghost predicate PassesOver(s: Loop, k: nat)
    requires s.m.exc.Some? && k <= |s.m.frames|
  {
    forall j :: 0 <= j < k ==>
      var f := FrameAt(s, j);
      f.info.code.Some? && !f.isRoot && !Catches(f, s.m.exc.value)
  }

  /** memory_used when k frames have been removed. */
  function UsedAfter(s: Loop, k: nat): nat
    requires k <= |s.m.frames| + 1
  {
    if k == 0 then s.m.used else FrameAt(s, k - 1).prevUsage
  }

  lemma PassesOverRest(s: Loop, k: nat)
    requires s.m.exc.Some? && 0 < k <= |s.m.frames| && !s.cur.isRoot && PassesOver(s, k)
    ensures var s1 := PopFrame(s);
            && s1.m.exc == s.m.exc && |s1.m.frames| == |s.m.frames| - 1
            && (forall j :: 0 <= j < k ==> FrameAt(s1, j) == FrameAt(s, j + 1))
            && PassesOver(s1, k - 1)
            && UsedAfter(s1, k - 1) == UsedAfter(s, k) && UsedAfter(s1, k) == UsedAfter(s, k + 1)
            && s1.m.frames[..|s1.m.frames| - (k - 1)] == s.m.frames[..|s.m.frames| - k]
  {
    var s1 := PopFrame(s);
    forall j | 0 <= j < k ensures FrameAt(s1, j) == FrameAt(s, j + 1) {
    }
    forall j | 0 <= j < k - 1
      ensures var f := FrameAt(s1, j);
              f.info.code.Some? && !f.isRoot && !Catches(f, s.m.exc.value)
    {
      assert FrameAt(s1, j) == FrameAt(s, j + 1);
    }
  }

  /**
   Control goes to the first matching entry of the innermost frame that has one, at or above the nearest root; the
   frames above it are discarded, and its operand stack holds only the exception.
   */
  lemma {:induction false} UnwindsToHandler(s: Loop, k: nat, i: nat)
    requires s.m.exc.Some? && k <= |s.m.frames| && PassesOver(s, k)
    requires FrameAt(s, k).info.code.Some? && FrameAt(s, k).info.code.value.maxStack >= 1
    requires FrameAt(s, k).firstOperand < |s.m.mem|
    requires i < |FrameAt(s, k).info.code.value.handlers|
    requires Matches(FrameAt(s, k).info.code.value.handlers[i], FrameAt(s, k).pc, s.m.exc.value)
    requires forall j :: 0 <= j < i ==>
      !Matches(FrameAt(s, k).info.code.value.handlers[j], FrameAt(s, k).pc, s.m.exc.value)
    ensures var f := FrameAt(s, k);
            HandleThrow(s) == Done(Loop(
              Machine(s.m.mem[f.firstOperand := s.m.exc.value.reference], UsedAfter(s, k),
                      s.m.frames[..|s.m.frames| - k], None),
              f.(top := 1, pc := f.info.code.value.handlers[i].handlerPc), s.exited))
    decreases k
  {
    assert FrameAt(s, 0) == s.cur && s.m.frames[..|s.m.frames|] == s.m.frames;
    if k == 0 {
      FindHandlerIsFirst(s.cur.info.code.value.handlers, s.cur.pc, s.m.exc.value, i);
    } else {
      NoHandlerIffNoMatch(s.cur.info.code.value.handlers, s.cur.pc, s.m.exc.value);
      var s1 := PopFrame(s);
      PassesOverRest(s, k);
      UnwindsToHandler(s1, k - 1, i);
    }
  }

  /** No entry of the frame's table is for its pc and for the exception. */
  ghost predicate HasNoEntryFor(f: Frame, exc: Exc)
  {
    f.info.code.Some? && forall h :: h in f.info.code.value.handlers ==>
      f.pc < h.startPc || h.endPc <= f.pc || (h.catchType.Some? && h.catchType.value !in exc.classes)
  }

  lemma NoEntryPasses(s: Loop, k: nat)
    requires s.m.exc.Some? && k <= |s.m.frames|
    requires forall j :: 0 <= j < k ==> !FrameAt(s, j).isRoot && HasNoEntryFor(FrameAt(s, j), s.m.exc.value)
    ensures PassesOver(s, k)
  {
    forall j | 0 <= j < k
      ensures var f := FrameAt(s, j);
              f.info.code.Some? && !f.isRoot && !Catches(f, s.m.exc.value)
    {
      NoneIsFoundIff(FrameAt(s, j).info.code.value.handlers, FrameAt(s, j).pc, s.m.exc.value);
      NoHandlerIffNoMatch(FrameAt(s, j).info.code.value.handlers, FrameAt(s, j).pc, s.m.exc.value);
    }
  }

  /** Control goes to entry i of frame k: the first that catches it there, when no frame above has one. */
  lemma ThrowIsCaught(s: Loop, k: nat, i: nat)
    requires s.m.exc.Some? && k <= |s.m.frames|
    requires forall j :: 0 <= j < k ==> !FrameAt(s, j).isRoot && HasNoEntryFor(FrameAt(s, j), s.m.exc.value)
    requires FrameAt(s, k).info.code.Some? && FrameAt(s, k).info.code.value.maxStack >= 1
    requires FrameAt(s, k).firstOperand < |s.m.mem| && i < |FrameAt(s, k).info.code.value.handlers|
    requires var h := FrameAt(s, k).info.code.value.handlers[i];
             && h.startPc <= FrameAt(s, k).pc < h.endPc
             && (h.catchType == None || h.catchType.value in s.m.exc.value.classes)
    requires forall j :: 0 <= j < i ==>
      var h := FrameAt(s, k).info.code.value.handlers[j];
      || FrameAt(s, k).pc < h.startPc || h.endPc <= FrameAt(s, k).pc
      || (h.catchType.Some? && h.catchType.value !in s.m.exc.value.classes)
    ensures HandleThrow(s).Done?
    ensures var r, f := HandleThrow(s).value, FrameAt(s, k);
            && r.m.exc == None && r.m.frames == s.m.frames[..|s.m.frames| - k] && r.exited == s.exited
            && r.cur == f.(top := 1, pc := f.info.code.value.handlers[i].handlerPc)
            && r.m.mem == s.m.mem[f.firstOperand := s.m.exc.value.reference]
            && r.m.used == if k == 0 then s.m.used else FrameAt(s, k - 1).prevUsage
    ensures !s.exited ==> forall es :: ExecLoop(s, es) == ExecLoop(HandleThrow(s).value, es)
  {
    NoEntryPasses(s, k);
    UnwindsToHandler(s, k, i);
  }

  /** The exception leaves the run of the nearest root when no frame up to the root has an entry for it. */
  lemma ThrowLeaves(s: Loop, k: nat)
    requires s.m.exc.Some? && k <= |s.m.frames| && FrameAt(s, k).isRoot
    requires forall j :: 0 <= j < k ==> !FrameAt(s, j).isRoot
    requires forall j :: 0 <= j <= k ==> HasNoEntryFor(FrameAt(s, j), s.m.exc.value)
    ensures HandleThrow(s).Done?
    ensures var r := HandleThrow(s).value;
            && r.exited && r.m.exc == s.m.exc && r.m.mem == s.m.mem && r.cur == FrameAt(s, k)
            && r.m.frames == s.m.frames[..|s.m.frames| - k] && r.m.used == FrameAt(s, k).prevUsage
    ensures !s.exited ==> ExecLoop(s, NoEvents) == HandleThrow(s)
  {
    NoEntryPasses(s, k);
    NoneIsFoundIff(FrameAt(s, k).info.code.value.handlers, FrameAt(s, k).pc, s.m.exc.value);
    NoHandlerIffNoMatch(FrameAt(s, k).info.code.value.handlers, FrameAt(s, k).pc, s.m.exc.value);
    UnwindsToRoot(s, k);
  }

  /** Otherwise the run of the nearest root frame exits, with the exception still pending. */
  lemma {:induction false} UnwindsToRoot(s: Loop, k: nat)
    requires s.m.exc.Some? && k <= |s.m.frames| && PassesOver(s, k)
    requires FrameAt(s, k).info.code.Some? && FrameAt(s, k).isRoot && !Catches(FrameAt(s, k), s.m.exc.value)
    ensures HandleThrow(s) == Done(Loop(
              s.m.(used := UsedAfter(s, k + 1), frames := s.m.frames[..|s.m.frames| - k]), FrameAt(s, k), true))
    decreases k
  {
    assert FrameAt(s, 0) == s.cur && s.m.frames[..|s.m.frames|] == s.m.frames;
    NoHandlerIffNoMatch(s.cur.info.code.value.handlers, s.cur.pc, s.m.exc.value);
    if k > 0 {
      var s1 := PopFrame(s);
      PassesOverRest(s, k);
      UnwindsToRoot(s1, k - 1);
    }
  }

  /** One of the two happens: below the nearest root no frame is looked at. */
  lemma {:induction false} SomeFrameStopsUnwinding(s: Loop, root: nat) returns (k: nat)
    requires s.m.exc.Some? && root <= |s.m.frames| && FrameAt(s, root).isRoot
    requires forall j :: 0 <= j <= root ==> FrameAt(s, j).info.code.Some?
    ensures k <= root && PassesOver(s, k)
    ensures Catches(FrameAt(s, k), s.m.exc.value) || FrameAt(s, k).isRoot
  {
    k := 0;
    while k < root && !FrameAt(s, k).isRoot && !Catches(FrameAt(s, k), s.m.exc.value)
      invariant k <= root && PassesOver(s, k)
    {
      k := k + 1;
    }
  }

  // ---- an exception that leaves a callee ----

  /** The callee invoked in s runs the events es, and then e throws an exception that no frame above s catches. */
  ghost predicate ThrowsToCaller(s: Loop, callee: Method, es: Events, e: Event, t: Loop)
  {
    && PushFrame(s, callee).Done? && callee.code.Some?
    && NeverBelow(PushFrame(s, callee).value, es, |s.m.frames| + 1)
    && ExecLoop(PushFrame(s, callee).value, es).Done?
    && ExecEvent(ExecLoop(PushFrame(s, callee).value, es).value, e) == Done(t)
    && t.m.exc.Some? && !t.exited && |s.m.frames| < |t.m.frames|
    && PassesOver(t, |t.m.frames| - |s.m.frames|)
  }

  lemma CallerIsBelow(s: Loop, callee: Method, es: Events, e: Event, t: Loop)
    requires !s.exited && InMemory(s.m, s.cur) && ThrowsToCaller(s, callee, es, e, t)
    ensures var k := |t.m.frames| - |s.m.frames|;
            && FrameAt(t, k) == Suspended(s.cur, callee, InstrAt(s.cur).length)
            && t.m.frames[..|s.m.frames|] == s.m.frames
            && UsedAfter(t, k) == s.m.used
            && SameBelow(s.m.mem, t.m.mem, s.cur.firstOperand + s.cur.top - callee.paramSlots)
  {
    var s1 := PushFrame(s, callee).value;
    var g := Callee(s1.m.frames, s.m.used, s1.cur.firstLocal, s.m.mem);
    assert s1.m.frames[|g.base|..] == [];
    InsideKeepsInv(g, s1, es);
    EventKeepsInv(g, ExecLoop(s1, es).value, e);
    var n := |s.m.frames|;
    assert t.m.frames[n] == g.base[n] && t.m.frames[..n] == g.base[..n];
    assert |t.m.frames| > n + 1 ==> t.m.frames[n + 1..][0] == t.m.frames[n + 1];
  }

  /**
   If the caller catches it, at its invoke, the caller is the current frame again with its locals as they were, the
   exception alone on its operand stack, and the stack of frames as before the call.
   */
  lemma CaughtByCaller(s: Loop, callee: Method, es: Events, e: Event, t: Loop, i: nat)
    requires !s.exited && InMemory(s.m, s.cur) && ThrowsToCaller(s, callee, es, e, t)
    requires s.cur.info.code.value.maxStack >= 1 && i < |s.cur.info.code.value.handlers|
    requires Matches(s.cur.info.code.value.handlers[i], s.cur.pc, t.m.exc.value)
    requires forall j :: 0 <= j < i ==> !Matches(s.cur.info.code.value.handlers[j], s.cur.pc, t.m.exc.value)
    ensures HandleThrow(t).Done?
    ensures var r := HandleThrow(t).value;
            && r.m.frames == s.m.frames && r.m.used == s.m.used && r.m.exc.None? && !r.exited
            && r.cur.pc == s.cur.info.code.value.handlers[i].handlerPc && r.cur.info == s.cur.info
            && InMemory(r.m, r.cur) && Locals(r.m.mem, r.cur) == Locals(s.m.mem, s.cur)
            && Operands(r.m.mem, r.cur) == [t.m.exc.value.reference]
  {
    CallerIsBelow(s, callee, es, e, t);
    UnwindsToHandler(t, |t.m.frames| - |s.m.frames|, i);
    var r := HandleThrow(t).value;
    forall k | s.cur.firstLocal <= k < s.cur.firstOperand ensures r.m.mem[k] == s.m.mem[k] {
      assert t.m.mem[k] == s.m.mem[k];
    }
  }
}
