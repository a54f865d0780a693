/** The stack of overlapping activation records: a callee's locals begin where the caller pushed the arguments. */
module FrameModel {
  import opened Options

  type Value = int

  type ClassName = nat

  /** An exception object, with the names of its class and of the superclasses of that. */
  datatype Exc = Exc(reference: Value, classes: seq<ClassName>)

  /** catchType is None for "any". */
  datatype Handler = Handler(startPc: nat, endPc: nat, handlerPc: nat, catchType: Option<ClassName>)

  /**
   An instruction by its slot effect: operands popped and pushed, a bound for the locals it touches, its length and
   the instructions that can follow it.
   */
  datatype Instr =
    | Simple(pops: nat, pushes: nat, locals: nat, length: nat, next: set<nat>)
    | Invoke(paramSlots: nat, returnSlots: nat, length: nat)
    | Return(slots: nat)
    | Athrow

  datatype Code = Code(maxLocals: nat, maxStack: nat, instructions: map<nat, Instr>, handlers: seq<Handler>)

  /** A method without code is native. */
  datatype Method = Method(paramSlots: nat, returnSlots: nat, code: Option<Code>)

  datatype Frame = Frame(
    info: Method,
    firstLocal: nat,
    firstOperand: nat,
    top: nat,
    prevUsage: nat,
    pc: nat,
    invokeLength: nat,
    isRoot: bool)

  /** The parts of Thread and Stack that the interpreter shares with native code. */
  datatype Machine = Machine(mem: seq<Value>, used: nat, frames: seq<Frame>, exc: Option<Exc>)

  /** One activation of the interpret loop: the machine, the current frame and should_exit. */
  datatype Loop = Loop(m: Machine, cur: Frame, exited: bool)

  /**
   What happens in one run, with all that the model leaves open as data: the values computed, the branch taken, the
   method selected, and the runs nested in native methods, class initialization and exception creation.
   */
  datatype Event =
    | Execute(pushed: seq<Value>, stores: seq<(nat, Value)>, next: nat)
    | Call(callee: Method)
    | CallNative(callee: Method, calls: Entries, result: Value)
    | ReturnFrom
    | Reenter(popped: nat, advance: nat, calls: Entries)

  datatype Events = NoEvents | Events(head: Event, tail: Events)

  /** What code outside the interpreter does: call back through JNI, run a <clinit>, throw or clear an exception. */
  datatype Entry =
    | JniCall(info: Method, args: seq<Option<Value>>, events: Events)
    | RunInitializer(info: Method, events: Events)
    | SetException(exc: Option<Exc>)

  datatype Entries = NoEntries | Entries(head: Entry, tail: Entries)

  /**
   Fault: an access outside the frame's window or the memory. BadEntry: interpret was entered for a frame that the
   memory has no room for, or for a native method, which the code does not check. Halt: the VM stops by itself
   (stack overflow, failed assertion). NotARun: the event does not fit the instruction.
   */
  datatype Outcome<+T> = Done(value: T) | Fault | BadEntry | Halt | NotARun {
    predicate IsFailure() {
      !Done?
    }

    function PropagateFailure<U>(): Outcome<U>
      requires !Done?
    {
      match this
      case Fault => Fault
      case BadEntry => BadEntry
      case Halt => Halt
      case NotARun => NotARun
    }

    function Extract(): T
      requires Done?
    {
      value
    }
  }

  // ---- frames ----

  /** Frame::Frame */
  function NewFrame(used: nat, m: Method, operandTop: nat, isRoot: bool): Frame
    requires m.paramSlots <= operandTop
  {
    var firstLocal := operandTop - m.paramSlots;
    var firstOperand := if m.code.Some? then firstLocal + m.code.value.maxLocals else operandTop;
    Frame(m, firstLocal, firstOperand, 0, used, 0, 0, isRoot)
  }

  /** stack.memory_used after Frame::Frame */
  function UsedBy(f: Frame): nat
  {
    if f.info.code.Some? then f.firstOperand + f.info.code.value.maxStack else f.firstOperand
  }

  /** What the caller looks like while the callee runs, and after it returned: Stack::push_frame. */
  function Suspended(f: Frame, m: Method, invokeLength: nat): Frame
    requires m.paramSlots <= f.top
  {
    f.(top := f.top - m.paramSlots + m.returnSlots, invokeLength := invokeLength)
  }

  function Write(mem: seq<Value>, at: nat, values: seq<Value>): (r: seq<Value>)
    requires at + |values| <= |mem|
    ensures |r| == |mem|
  {
    mem[..at] + values + mem[at + |values|..]
  }

  function WriteLocals(mem: seq<Value>, firstLocal: nat, stores: seq<(nat, Value)>): (r: seq<Value>)
    requires forall s :: s in stores ==> firstLocal + s.0 < |mem|
    ensures |r| == |mem|
    ensures forall i :: 0 <= i < firstLocal && i < |mem| ==> r[i] == mem[i]
    decreases |stores|
  {
    if stores == [] then mem
    else WriteLocals(mem[firstLocal + stores[0].0 := stores[0].1], firstLocal, stores[1..])
  }

  /** The static function pop_frame of the interpreter. */
  function PopFrame(s: Loop): Loop
    requires s.cur.isRoot || s.m.frames != []
  {
    var used := s.cur.prevUsage;
    if s.cur.isRoot then s.(m := s.m.(used := used), exited := true)
    else
      var n := |s.m.frames| - 1;
      var f := s.m.frames[n];
      Loop(s.m.(used := used, frames := s.m.frames[..n]),
           if s.m.exc.None? then f.(pc := f.pc + f.invokeLength) else f,
           s.exited)
  }

  // ---- exceptions ----

  predicate Matches(h: Handler, pc: nat, exc: Exc)
  {
    h.startPc <= pc < h.endPc && (h.catchType.None? || h.catchType.value in exc.classes)
  }

  /** std::find_if over the exception table. */
  function FindHandler(handlers: seq<Handler>, pc: nat, exc: Exc): Option<Handler>
  {
    if handlers == [] then None
    else if Matches(handlers[0], pc, exc) then Some(handlers[0])
    else FindHandler(handlers[1..], pc, exc)
  }

  /** The frame continues at the handler with only the exception on its operand stack. */
  function EnterHandler(s: Loop, h: Handler): Outcome<Loop>
    requires s.cur.info.code.Some? && s.m.exc.Some?
  {
    if s.cur.info.code.value.maxStack < 1 || |s.m.mem| <= s.cur.firstOperand then Fault
    else Done(Loop(s.m.(mem := s.m.mem[s.cur.firstOperand := s.m.exc.value.reference], exc := None),
                   s.cur.(top := 1, pc := h.handlerPc), s.exited))
  }

  function HandleThrow(s: Loop): (r: Outcome<Loop>)
    requires s.m.exc.Some?
    ensures r.Done? ==> r.value.exited || r.value.m.exc.None?
    decreases |s.m.frames|
  {
    if s.cur.info.code.None? then Fault
    else
      match FindHandler(s.cur.info.code.value.handlers, s.cur.pc, s.m.exc.value)
      case Some(h) => EnterHandler(s, h)
      case None =>
        if s.cur.isRoot then Done(PopFrame(s))
        else if s.m.frames == [] then Fault
        else HandleThrow(PopFrame(s))
  }

  // ---- instructions ----

  predicate HasInstr(f: Frame)
  {
    f.info.code.Some? && f.pc in f.info.code.value.instructions
  }

  function InstrAt(f: Frame): Instr
    requires HasInstr(f)
  {
    f.info.code.value.instructions[f.pc]
  }

  function LengthOf(i: Instr): nat
  {
    match i
    case Simple(_, _, _, length, _) => length
    case Invoke(_, _, length) => length
    case Return(_) => 1
    case Athrow => 1
  }

  /** What an instruction may have popped when it throws; an invoke only peeks at the receiver. */
  function PopsOf(i: Instr): nat
  {
    match i
    case Simple(pops, _, _, _, _) => pops
    case Invoke(_, _, _) => 0
    case Return(_) => 0
    case Athrow => 1
  }

  /** The event is one that the instruction allows. */
  predicate Allows(i: Instr, e: Event)
    requires e.Execute?
  {
    i.Simple? && |e.pushed| == i.pushes && e.next in i.next && forall st :: st in e.stores ==> st.0 < i.locals
  }

  /** The instruction stays inside the frame's window, and the window inside a memory of `size` words. */
  predicate StaysInside(f: Frame, i: Instr, size: nat)
    requires f.info.code.Some? && i.Simple?
  {
    var code := f.info.code.value;
    && i.pops <= f.top && f.top - i.pops + i.pushes <= code.maxStack && i.locals <= code.maxLocals
    && f.firstOperand + f.top <= size
    && f.firstOperand + f.top - i.pops + i.pushes <= size
    && f.firstLocal + i.locals <= size
  }

  function ExecSimple(s: Loop, e: Event): Outcome<Loop>
    requires e.Execute?
  {
    if !HasInstr(s.cur) || !Allows(InstrAt(s.cur), e) then NotARun
    else
      var i, f := InstrAt(s.cur), s.cur;
      if !StaysInside(f, i, |s.m.mem|) then Fault
      else
        var mem := Write(s.m.mem, f.firstOperand + f.top - i.pops, e.pushed);
        Done(s.(m := s.m.(mem := WriteLocals(mem, f.firstLocal, e.stores)),
                cur := f.(top := f.top - i.pops + i.pushes, pc := e.next)))
  }

  /** The current frame executes an invoke of a method with the slot counts of `callee`. */
  predicate Invokes(f: Frame, callee: Method)
  {
    HasInstr(f) && InstrAt(f).Invoke?
    && InstrAt(f).paramSlots == callee.paramSlots && InstrAt(f).returnSlots == callee.returnSlots
  }

  function CalleeFrame(s: Loop, callee: Method): Frame
    requires callee.paramSlots <= s.cur.top
  {
    NewFrame(s.m.used, callee, s.cur.firstOperand + s.cur.top, false)
  }

  /** push_frame: the caller is suspended and the callee's frame becomes current. */
  function PushFrame(s: Loop, callee: Method): Outcome<Loop>
  {
    if !Invokes(s.cur, callee) then NotARun
    else if s.cur.top < callee.paramSlots then Fault
    else
      var f := CalleeFrame(s, callee);
      if UsedBy(f) > |s.m.mem| then Halt
      else Done(Loop(s.m.(used := UsedBy(f),
                          frames := s.m.frames + [Suspended(s.cur, callee, InstrAt(s.cur).length)]), f, s.exited))
  }

  function Poke(s: Loop, at: nat, value: Value): Loop
    requires at < |s.m.mem|
  {
    s.(m := s.m.(mem := s.m.mem[at := value]))
  }

  /** The value of a ?return moves to the first local, which is the caller's first argument slot. */
  function MoveResult(s: Loop, slots: nat): Loop
    requires slots > 0 ==>
               slots <= s.cur.top && s.cur.firstOperand + s.cur.top <= |s.m.mem| && s.cur.firstLocal < |s.m.mem|
  {
    var f := s.cur;
    if slots == 0 then s
    else Poke(s.(cur := f.(top := f.top - slots)), f.firstLocal, s.m.mem[f.firstOperand + f.top - slots])
  }

  /** ?return: the value is moved; then pop_frame. */
  function ExecReturn(s: Loop): Outcome<Loop>
  {
    if !HasInstr(s.cur) || !InstrAt(s.cur).Return? || InstrAt(s.cur).slots > 2 then NotARun
    else
      var k, f := InstrAt(s.cur).slots, s.cur;
      if f.top < k || |s.m.mem| < f.firstOperand + f.top || (k > 0 && |s.m.mem| <= f.firstLocal)
         || (!f.isRoot && s.m.frames == [])
      then Fault
      else
        Done(PopFrame(MoveResult(s, k)))
  }

  /** The end of native_call: store the result, take back the native frame, remove it. */
  function LeaveNative(m: Machine, result: Value, exited: bool): Outcome<Loop>
  {
    if |m.frames| < 2 then Fault
    else
      var n := |m.frames| - 1;
      var f := m.frames[n];
      if f.info.returnSlots > 0 && |m.mem| <= f.firstLocal then Fault
      else
        var s := Loop(m.(frames := m.frames[..n]), f, exited);
        Done(PopFrame(if f.info.returnSlots == 0 then s else Poke(s, f.firstLocal, result)))
  }

  // ---- runs ----

  /** native_call, given what the native function does. */
  function ExecNative(s: Loop, callee: Method, calls: Entries, result: Value): Outcome<Loop>
    decreases calls, 2
  {
    if callee.code.Some? then NotARun
    else
      var s1 :- PushFrame(s, callee);
      var m2 :- ExecEntries(s1.m.(frames := s1.m.frames + [s1.cur]), calls);
      LeaveNative(m2, result, s.exited)
  }

  /**
   An instruction that has moved pc and popped operands when it has the VM run other code: the frame is saved on the
   list meanwhile. If an exception is pending afterwards the instruction ends there, otherwise it goes on.
   */
  function ExecReenter(s: Loop, popped: nat, advance: nat, calls: Entries): Outcome<Loop>
    decreases calls, 2
  {
    if !HasInstr(s.cur) || advance >= LengthOf(InstrAt(s.cur)) || popped > PopsOf(InstrAt(s.cur)) then NotARun
    else if s.cur.top < popped then Fault
    else
      var f := s.cur.(top := s.cur.top - popped, pc := s.cur.pc + advance);
      var m2 :- ExecEntries(s.m.(frames := s.m.frames + [f]), calls);
      if m2.frames == [] then Fault
      else
        var n := |m2.frames| - 1;
        Done(Loop(m2.(frames := m2.frames[..n]), if m2.exc.Some? then m2.frames[n] else s.cur, s.exited))
  }

  function ExecEvent(s: Loop, e: Event): Outcome<Loop>
    decreases e, 0
  {
    match e
    case Execute(_, _, _) => ExecSimple(s, e)
    case Call(callee) => if callee.code.None? then NotARun else PushFrame(s, callee)
    case CallNative(callee, calls, result) => ExecNative(s, callee, calls, result)
    case ReturnFrom => ExecReturn(s)
    case Reenter(popped, advance, calls) => ExecReenter(s, popped, advance, calls)
  }

  /** The while loop of interpret, for as many turns as there are events. */
  function ExecLoop(s: Loop, es: Events): Outcome<Loop>
    decreases es, if s.m.exc.Some? then 2 else 1
  {
    if s.exited then (if es.NoEvents? then Done(s) else NotARun)
    else if s.m.exc.Some? then
      var s1 :- HandleThrow(s);
      if s1.exited then (if es.NoEvents? then Done(s1) else NotARun) else ExecLoop(s1, es)
    else
      match es
      case NoEvents => Done(s)
      case Events(e, rest) =>
        var s1 :- ExecEvent(s, e);
        ExecLoop(s1, rest)
  }

  function RootFrame(m: Machine, info: Method): Frame
    requires info.paramSlots <= m.used
  {
    NewFrame(m.used, info, m.used, true)
  }

  /** A memory of `size` words has room for the window of a root frame. The code does not check it. */
  predicate Fits(used: nat, size: nat, info: Method)
  {
    info.code.Some? && info.paramSlots <= used
    && used - info.paramSlots + info.code.value.maxLocals + info.code.value.maxStack <= size
    && (info.returnSlots > 0 ==> used - info.paramSlots < size)
  }

  predicate HasRoom(m: Machine, info: Method)
  {
    Fits(m.used, |m.mem|, info)
  }

  function Interpret(m: Machine, info: Method, es: Events): Outcome<Machine>
    decreases es, 3
  {
    if m.exc.Some? then Halt
    else if !HasRoom(m, info) then BadEntry
    else
      var f := RootFrame(m, info);
      var s :- ExecLoop(Loop(m.(used := UsedBy(f)), f, false), es);
      if s.exited then Done(s.m) else NotARun
  }

  /** The value that interpret returns when it leaves m behind: the first local of the root frame. */
  function ReturnValue(m: Machine, used: nat, info: Method): Value
    requires info.paramSlots <= used && (info.returnSlots > 0 ==> used - info.paramSlots < |m.mem|)
  {
    if info.returnSlots == 0 then 0 else m.mem[used - info.paramSlots]
  }

  /** None is the dummy slot after a long or double: it keeps its word. */
  function Place(mem: seq<Value>, at: nat, args: seq<Option<Value>>): (r: seq<Value>)
    requires at + |args| <= |mem|
    ensures |r| == |mem|
  {
    seq(|mem|, i requires 0 <= i < |mem| => if at <= i < at + |args| then args[i - at].GetOr(mem[i]) else mem[i])
  }

  /** A call from JNI puts its arguments where the operand stack of the caller ends. */
  function WithArguments(m: Machine, args: seq<Option<Value>>): Machine
    requires m.used + |args| <= |m.mem|
  {
    m.(used := m.used + |args|, mem := Place(m.mem, m.used, args))
  }

  /** CALL_HELPER: on JNI_ENOMEM it returns without giving the argument slots back. */
  function CallHelper(m: Machine, info: Method, args: seq<Option<Value>>, es: Events): Outcome<Machine>
    decreases es, 4
  {
    if |args| != info.paramSlots then NotARun
    else if m.used + info.paramSlots > |m.mem| then
      if es.NoEvents? then Done(m.(used := m.used + info.paramSlots)) else NotARun
    else
      var m1 :- Interpret(WithArguments(m, args), info, es);
      Done(m1.(used := m.used))
  }

  function ExecEntry(m: Machine, c: Entry): Outcome<Machine>
    decreases c, 0
  {
    match c
    case JniCall(info, args, events) => CallHelper(m, info, args, events)
    case RunInitializer(info, events) =>
      if info.paramSlots != 0 || info.returnSlots != 0 then NotARun else Interpret(m, info, events)
    case SetException(exc) => Done(m.(exc := exc))
  }

  function ExecEntries(m: Machine, cs: Entries): Outcome<Machine>
    decreases cs, 1
  {
    match cs
    case NoEntries => Done(m)
    case Entries(c, rest) =>
      var m1 :- ExecEntry(m, c);
      ExecEntries(m1, rest)
  }
}
