/** The three users of the descriptor tokenizer: the class file parser, native methods and calls from JNI. */
module ArgumentSlots {
  import opened Options
  import opened Descriptor

  /** A conversion to u1: 256 is taken away as often as it fits. */
  function ToU1(n: nat): nat
  {
    if n < 0x100 then n else ToU1(n - 0x100)
  }

  /** A conversion to u2. */
  function ToU2(n: nat): nat
  {
    if n < 0x1_0000 then n else ToU2(n - 0x1_0000)
  }

  /** That is the remainder, and the number itself exactly when it fits. */
  lemma {:induction false} ToU2IsRemainder(n: nat)
    ensures ToU2(n) == n % 0x1_0000 && ToU2(n) < 0x1_0000
    decreases n
  {
    if n >= 0x1_0000 {
      ToU2IsRemainder(n - 0x1_0000);
    }
  }

  lemma {:induction false} ToU1IsRemainder(n: nat)
    ensures ToU1(n) == n % 0x100
    decreases n
  {
    if n >= 0x100 {
      ToU1IsRemainder(n - 0x100);
    }
  }

  /** Slots of these parameters. */
  function Slots(ts: seq<Type>): nat
  {
    if ts == [] then 0 else Slots(ts[..|ts| - 1]) + Category(ts[|ts| - 1])
  }

  /** The receiver is not in the descriptor. */
  function Receiver(isStatic: bool): nat
  {
    if isStatic then 0 else 1
  }

  /** The first slot of parameter k: the prefix sum of the categories before it. */
  function OffsetOf(ts: seq<Type>, isStatic: bool, k: nat): nat
    requires k <= |ts|
  {
    Receiver(isStatic) + Slots(ts[..k])
  }

  lemma {:induction false} SlotsGrow(ts: seq<Type>, k: nat)
    requires k <= |ts|
    ensures Slots(ts[..k]) <= Slots(ts)
    ensures k <= Slots(ts[..k]) <= 2 * k
    decreases |ts| - k, k
  {
    if k < |ts| {
      assert ts[..k + 1][..k] == ts[..k];
      SlotsGrow(ts, k + 1);
    } else {
      assert ts[..k] == ts;
      if k > 0 {
        SlotsBound(ts);
      }
    }
    SlotsBound(ts[..k]);
  }

  lemma {:induction false} SlotsBound(ts: seq<Type>)
    ensures |ts| <= Slots(ts) <= 2 * |ts|
  {
    if ts != [] {
      SlotsBound(ts[..|ts| - 1]);
    }
  }

  // ---- in terms of the text of the types ----

  predicate IsLongOrDouble(t: Type)
  {
    Print(t) == "J" || Print(t) == "D"
  }

  /** How many of these parameters are printed as J or D; arrays of them are not. */
  function LongsAndDoubles(ts: seq<Type>): nat
  {
    if ts == [] then 0 else (if IsLongOrDouble(ts[0]) then 1 else 0) + LongsAndDoubles(ts[1..])
  }

  lemma {:induction false} LongsAndDoublesNext(ts: seq<Type>, t: Type)
    ensures LongsAndDoubles(ts + [t]) == LongsAndDoubles(ts) + if IsLongOrDouble(t) then 1 else 0
  {
    if ts == [] {
      assert ts + [t] == [t] && [t][1..] == [];
    } else {
      assert (ts + [t])[0] == ts[0] && (ts + [t])[1..] == ts[1..] + [t];
      LongsAndDoublesNext(ts[1..], t);
    }
  }

  /** One slot for each parameter, and one more for each long or double. */
  lemma {:induction false} SlotsAreCounted(ts: seq<Type>)
    ensures Slots(ts) == |ts| + LongsAndDoubles(ts)
  {
    if ts != [] {
      var front, t := ts[..|ts| - 1], ts[|ts| - 1];
      SlotsAreCounted(front);
      LongsAndDoublesNext(front, t);
      assert ts == front + [t];
      CategoryOfText(t);
    }
  }

  /** The slot of parameter k, from the receiver and the parameters before it. */
  lemma OffsetIsCounted(ts: seq<Type>, isStatic: bool, k: nat)
    requires k <= |ts|
    ensures OffsetOf(ts, isStatic, k) == (if isStatic then 0 else 1) + k + LongsAndDoubles(ts[..k])
  {
    SlotsAreCounted(ts[..k]);
  }

  lemma SlotsNext(ts: seq<Type>, t: Type)
    ensures Slots(ts + [t]) == Slots(ts) + Category(t)
  {
    assert (ts + [t])[..|ts|] == ts;
  }

  /** An addition in narrow arithmetic is the addition, made narrow. */
  lemma {:induction false} AddNarrow(a: nat, c: nat)
    ensures ToU2(ToU2(a) + c) == ToU2(a + c)
    decreases a
  {
    if a >= 0x1_0000 {
      AddNarrow(a - 0x1_0000, c);
    }
  }

  lemma {:induction false} CountNarrow(a: nat)
    ensures ToU1(ToU1(a) + 1) == ToU1(a + 1)
    decreases a
  {
    if a >= 0x100 {
      CountNarrow(a - 0x100);
    }
  }

  // ---- the parser ----

  /** parameter_count has 8 bits, stack_slots_for_parameters 16. */
  datatype Counts = Counts(parameterCount: nat, slots: nat, returnCategory: nat)

  function CountsOf(d: Descriptor, isStatic: bool): Counts
  {
    Counts(ToU1(|d.params|), ToU2(OffsetOf(d.params, isStatic, |d.params|)), ResultPart(d.result).category)
  }

  lemma CountsAreCounted(d: Descriptor, isStatic: bool)
    ensures var c := CountsOf(d, isStatic);
            && c.parameterCount == |d.params| % 0x100
            && c.slots == ((if isStatic then 0 else 1) + |d.params| + LongsAndDoubles(d.params)) % 0x1_0000
            && c.returnCategory == (if d.result.None? then 0 else if IsLongOrDouble(d.result.value) then 2 else 1)
  {
    ToU1IsRemainder(|d.params|);
    ToU2IsRemainder(OffsetOf(d.params, isStatic, |d.params|));
    OffsetIsCounted(d.params, isStatic, |d.params|);
    assert d.params[..|d.params|] == d.params;
    if d.result.Some? {
      CategoryOfText(d.result.value);
    }
  }

  /** The size check of the parser rejects nothing that the tokenizer accepts. */
  lemma AcceptedIsLongEnough(s: string, d: Descriptor)
    requires ReadDescriptor(s) == Some(d)
    ensures |s| >= 3
  {
    AcceptedIffPrinted(s, d);
  }

  /** The part of Parser::parse that reads a descriptor; None is a ParseError. */
  method ParseCounts(s: string, isStatic: bool) returns (r: Option<Counts>)
    ensures r == match ReadDescriptor(s) case None => None case Some(d) => Some(CountsOf(d, isStatic))
    ensures r.Some? ==>
              var d, c := ReadDescriptor(s).value, r.value;
              && c.parameterCount == |d.params| % 0x100
              && c.slots == ((if isStatic then 0 else 1) + |d.params| + LongsAndDoubles(d.params)) % 0x1_0000
              && c.returnCategory == (if d.result.None? then 0 else if IsLongOrDouble(d.result.value) then 2 else 1)
  {
    if ReadDescriptor(s).Some? {
      CountsAreCounted(ReadDescriptor(s).value, isStatic);
      AcceptedIsLongEnough(s, ReadDescriptor(s).value);
    }
    if |s| < 3 {
      return None;
    }
    r := CountParts(s, isStatic);
  }

  method CountParts(s: string, isStatic: bool) returns (r: Option<Counts>)
    ensures r == match ReadDescriptor(s) case None => None case Some(d) => Some(CountsOf(d, isStatic))
  {
    var count, slots := 0, Receiver(isStatic);
    var parts := new MethodDescriptorParts(s);
    var ok := parts.Begin();
    while ok && !parts.part.isReturn
      invariant fresh(parts) && parts.text == s && (ok ==> parts.Valid()) && (!ok ==> ReadDescriptor(s).None?)
      invariant count == ToU1(|parts.passed|) && slots == ToU2(Receiver(isStatic) + Slots(parts.passed))
      decreases ok, |s| - parts.End()
    {
      SlotsNext(parts.passed, parts.current.value);
      AddNarrow(Receiver(isStatic) + Slots(parts.passed), parts.part.category);
      CountNarrow(|parts.passed|);
      count, slots := ToU1(count + 1), ToU2(slots + parts.part.category);
      ok := parts.Next();
    }
    assert parts.passed[..|parts.passed|] == parts.passed;
    r := if ok then Some(Counts(count, slots, parts.part.category)) else None;
  }

  // ---- native methods ----

  /** m_argument_offsets: the offsets of the receiver and of the parameters, in 16 bits. */
  function NativeOffsets(ts: seq<Type>, isStatic: bool): (r: seq<nat>)
    ensures |r| == Receiver(isStatic) + |ts|
  {
    if ts == [] then (if isStatic then [] else [0])
    else
      var front := ts[..|ts| - 1];
      NativeOffsets(front, isStatic) + [ToU2(Receiver(isStatic) + Slots(front))]
  }

  lemma NativeOffsetsNext(ts: seq<Type>, t: Type, isStatic: bool)
    ensures NativeOffsets(ts + [t], isStatic) ==
            NativeOffsets(ts, isStatic) + [ToU2(Receiver(isStatic) + Slots(ts))]
  {
    assert (ts + [t])[..|ts|] == ts;
  }

  lemma {:induction false} NativeOffsetAt(ts: seq<Type>, isStatic: bool, k: nat)
    requires k < |ts|
    ensures NativeOffsets(ts, isStatic)[Receiver(isStatic) + k] == ToU2(OffsetOf(ts, isStatic, k))
    decreases |ts|
  {
    var front := ts[..|ts| - 1];
    assert front[..k] == ts[..k];
    if k < |front| {
      NativeOffsetAt(front, isStatic, k);
    } else if k > 0 {
      NativeOffsetAt(front, isStatic, k - 1);
    }
  }

  /** The constructor of NativeFunction; None stands for abort(). */
  method ArgumentOffsets(s: string, isStatic: bool) returns (r: Option<seq<nat>>)
    ensures r == match ReadDescriptor(s)
                 case None => None
                 case Some(d) => Some(NativeOffsets(d.params, isStatic))
  {
    var offset := 0;
    var offsets := [];
    if !isStatic {
      offsets := offsets + [offset];
      offset := offset + 1;
    }
    var parts := new MethodDescriptorParts(s);
    var ok := parts.Begin();
    while ok && !parts.part.isReturn
      invariant fresh(parts) && parts.text == s && (ok ==> parts.Valid()) && (!ok ==> ReadDescriptor(s).None?)
      invariant offset == ToU2(Receiver(isStatic) + Slots(parts.passed))
      invariant offsets == NativeOffsets(parts.passed, isStatic)
      decreases ok, |s| - parts.End()
    {
      ghost var before, t := parts.passed, parts.current.value;
      SlotsNext(before, t);
      AddNarrow(Receiver(isStatic) + Slots(before), Category(t));
      NativeOffsetsNext(before, t, isStatic);
      offsets := offsets + [offset];
      offset := ToU2(offset + parts.part.category);
      ok := parts.Next();
    }
    r := if ok then Some(offsets) else None;
  }

  /** What an argument of a native function points to. */
  datatype Argument = Environment | ClassObject | Local(slot: nat)

  /** prepare_argument_pointers */
  method PrepareArgumentPointers(offsets: seq<nat>, useClass: bool) returns (arguments: seq<Argument>)
    ensures |arguments| == |offsets| + 1 + (if useClass then 1 else 0)
    ensures arguments[0] == Environment && (useClass ==> arguments[1] == ClassObject)
    ensures forall k :: 0 <= k < |offsets| ==> arguments[|arguments| - |offsets| + k] == Local(offsets[k])
  {
    arguments := [Environment];
    if useClass {
      arguments := arguments + [ClassObject];
    }
    ghost var first := |arguments|;
    for i := 0 to |offsets|
      invariant |arguments| == first + i && arguments[0] == Environment && (useClass ==> arguments[1] == ClassObject)
      invariant forall k :: 0 <= k < i ==> arguments[first + k] == Local(offsets[k])
    {
      arguments := arguments + [Local(offsets[i])];
    }
  }

  /** Every native method gets the environment, its class or receiver, and then its parameters in order. */
  method NativeArguments(s: string, isStatic: bool) returns (r: Option<seq<Argument>>)
    ensures r.None? <==> ReadDescriptor(s).None?
    ensures r.Some? ==>
              var ts := ReadDescriptor(s).value.params;
              && |r.value| == 2 + |ts| && r.value[0] == Environment
              && r.value[1] == (if isStatic then ClassObject else Local(0))
              && forall k :: 0 <= k < |ts| ==>
                   r.value[2 + k] == Local(((if isStatic then 0 else 1) + k + LongsAndDoubles(ts[..k])) % 0x1_0000)
  {
    var offsets := ArgumentOffsets(s, isStatic);
    if offsets.None? {
      return None;
    }
    var arguments := PrepareArgumentPointers(offsets.value, isStatic);
    ghost var ts := ReadDescriptor(s).value.params;
    forall k | 0 <= k < |ts|
      ensures arguments[2 + k] == Local(((if isStatic then 0 else 1) + k + LongsAndDoubles(ts[..k])) % 0x1_0000)
    {
      NativeOffsetAt(ts, isStatic, k);
      OffsetIsCounted(ts, isStatic, k);
      ToU2IsRemainder(OffsetOf(ts, isStatic, k));
      assert arguments[2 + k] == Local(offsets.value[Receiver(isStatic) + k]);
    }
    ReceiverIsFirst(ts, isStatic);
    r := Some(arguments);
  }

  lemma {:induction false} ReceiverIsFirst(ts: seq<Type>, isStatic: bool)
    ensures !isStatic ==> NativeOffsets(ts, isStatic)[0] == 0
  {
    if ts != [] {
      ReceiverIsFirst(ts[..|ts| - 1], isStatic);
    }
  }

  // ---- calls from JNI ----

  type Value = int

  /** The words of the locals after the receiver and the arguments have been placed; every other word is as before. */
  ghost predicate Placed(mem: seq<Value>, mem': seq<Value>, at: nat, ts: seq<Type>, isStatic: bool, receiver: Value,
                         args: seq<Value>)
  {
    && |mem'| == |mem| && |args| == |ts|
    && (!isStatic ==> ArgumentAt(mem', at, receiver))
    && (forall k {:trigger OffsetOf(ts, isStatic, k)} :: 0 <= k < |ts| ==>
          ArgumentAt(mem', at + OffsetOf(ts, isStatic, k), args[k]))
    && forall i :: 0 <= i < |mem| && !IsTarget(at, ts, isStatic, i) ==> mem'[i] == mem[i]
  }

  /** The word i of the memory takes the receiver or an argument. */
  ghost predicate IsTarget(at: nat, ts: seq<Type>, isStatic: bool, i: nat)
  {
    || (!isStatic && i == at)
    || exists k {:trigger OffsetOf(ts, isStatic, k)} :: 0 <= k < |ts| && i == at + OffsetOf(ts, isStatic, k)
  }

  /** Every word that is written is one of the first `size`. */
  ghost predicate AllInside(size: nat, at: nat, ts: seq<Type>, isStatic: bool)
  {
    && (!isStatic ==> at < size)
    && forall k {:trigger OffsetOf(ts, isStatic, k)} :: 0 <= k < |ts| ==> at + OffsetOf(ts, isStatic, k) < size
  }

  predicate ArgumentAt(mem: seq<Value>, i: nat, v: Value)
  {
    i < |mem| && mem[i] == v
  }

  /** Where argument k belongs: behind the receiver, k slots, and the second slots of longs and doubles before it. */
  function PlaceOf(at: nat, ts: seq<Type>, isStatic: bool, k: nat): nat
    requires k <= |ts|
  {
    at + (if isStatic then 0 else 1) + k + LongsAndDoubles(ts[..k])
  }

  /** The receiver and the arguments are where they belong, and all other words, dummy slots included, as in `was`. */
  ghost predicate ArgumentsAt(was: seq<Value>, mem: seq<Value>, at: nat, ts: seq<Type>, isStatic: bool,
                              receiver: Value, args: seq<Value>)
  {
    && |args| == |ts| && |mem| == |was| && (!isStatic ==> at < |mem| && mem[at] == receiver)
    && (forall k :: 0 <= k < |ts| ==>
          PlaceOf(at, ts, isStatic, k) < |mem| && mem[PlaceOf(at, ts, isStatic, k)] == args[k])
    && forall i :: 0 <= i < |mem| && IsFree(at, ts, isStatic, i) ==> mem[i] == was[i]
  }

  ghost predicate IsFree(at: nat, ts: seq<Type>, isStatic: bool, i: nat)
  {
    (isStatic || i != at) && forall k :: 0 <= k < |ts| ==> i != PlaceOf(at, ts, isStatic, k)
  }

  lemma AllInsideIff(size: nat, at: nat, ts: seq<Type>, isStatic: bool)
    ensures AllInside(size, at, ts, isStatic) <==>
      (!isStatic ==> at < size) && forall k :: 0 <= k < |ts| ==> PlaceOf(at, ts, isStatic, k) < size
  {
    forall k | 0 <= k < |ts| ensures at + OffsetOf(ts, isStatic, k) == PlaceOf(at, ts, isStatic, k) {
      OffsetIsCounted(ts, isStatic, k);
    }
  }

  lemma PlacedIsAt(mem: seq<Value>, mem': seq<Value>, at: nat, ts: seq<Type>, isStatic: bool, receiver: Value,
                   args: seq<Value>)
    requires Placed(mem, mem', at, ts, isStatic, receiver, args)
    ensures ArgumentsAt(mem, mem', at, ts, isStatic, receiver, args)
  {
    forall k | 0 <= k < |ts|
      ensures PlaceOf(at, ts, isStatic, k) == at + OffsetOf(ts, isStatic, k)
      ensures PlaceOf(at, ts, isStatic, k) < |mem'| && mem'[PlaceOf(at, ts, isStatic, k)] == args[k]
    {
      OffsetIsCounted(ts, isStatic, k);
      assert ArgumentAt(mem', at + OffsetOf(ts, isStatic, k), args[k]);
    }
    forall i: nat | i < |mem| && IsFree(at, ts, isStatic, i) ensures !IsTarget(at, ts, isStatic, i) {
    }
  }

  lemma OffsetOfNext(ts: seq<Type>, t: Type, isStatic: bool, k: nat)
    requires k <= |ts|
    ensures OffsetOf(ts + [t], isStatic, k) == OffsetOf(ts, isStatic, k)
    ensures OffsetOf(ts + [t], isStatic, |ts| + 1) == OffsetOf(ts, isStatic, |ts|) + Category(t)
    ensures k < |ts| ==> OffsetOf(ts, isStatic, k) < OffsetOf(ts, isStatic, |ts|)
  {
    assert (ts + [t])[..k] == ts[..k] && (ts + [t])[..|ts| + 1] == ts + [t] && (ts + [t])[..|ts|] == ts[..|ts|] == ts;
    if k < |ts| {
      assert ts[..k + 1][..k] == ts[..k];
      SlotsGrow(ts, k + 1);
    }
  }

  lemma PlaceNext(mem: seq<Value>, mem1: seq<Value>, at: nat, ts: seq<Type>, t: Type, isStatic: bool,
                  receiver: Value, args: seq<Value>, v: Value)
    requires Placed(mem, mem1, at, ts, isStatic, receiver, args)
    requires at + OffsetOf(ts, isStatic, |ts|) < |mem|
    ensures Placed(mem, mem1[at + OffsetOf(ts, isStatic, |ts|) := v], at, ts + [t], isStatic, receiver, args + [v])
  {
    OffsetOfNext(ts, t, isStatic, |ts|);
    ArgumentsNext(mem1, at, ts, t, isStatic, args, v);
    RestStays(mem, mem1, at, ts, t, isStatic, v);
  }

  lemma ArgumentsNext(mem1: seq<Value>, at: nat, ts: seq<Type>, t: Type, isStatic: bool, args: seq<Value>, v: Value)
    requires |args| == |ts| && at + OffsetOf(ts, isStatic, |ts|) < |mem1|
    requires forall k {:trigger OffsetOf(ts, isStatic, k)} :: 0 <= k < |ts| ==>
      ArgumentAt(mem1, at + OffsetOf(ts, isStatic, k), args[k])
    ensures var mem' := mem1[at + OffsetOf(ts, isStatic, |ts|) := v];
            forall k {:trigger OffsetOf(ts + [t], isStatic, k)} :: 0 <= k < |ts + [t]| ==>
              ArgumentAt(mem', at + OffsetOf(ts + [t], isStatic, k), (args + [v])[k])
  {
    var mem' := mem1[at + OffsetOf(ts, isStatic, |ts|) := v];
    forall k {:trigger OffsetOf(ts + [t], isStatic, k)} | 0 <= k < |ts + [t]|
      ensures ArgumentAt(mem', at + OffsetOf(ts + [t], isStatic, k), (args + [v])[k])
    {
      OffsetOfNext(ts, t, isStatic, k);
      if k < |ts| {
        assert ArgumentAt(mem1, at + OffsetOf(ts, isStatic, k), args[k]);
      }
    }
  }

  lemma RestStays(mem: seq<Value>, mem1: seq<Value>, at: nat, ts: seq<Type>, t: Type, isStatic: bool, v: Value)
    requires |mem1| == |mem| && at + OffsetOf(ts, isStatic, |ts|) < |mem|
    requires forall i :: 0 <= i < |mem| && !IsTarget(at, ts, isStatic, i) ==> mem1[i] == mem[i]
    ensures var mem' := mem1[at + OffsetOf(ts, isStatic, |ts|) := v];
            forall i :: 0 <= i < |mem| && !IsTarget(at, ts + [t], isStatic, i) ==> mem'[i] == mem[i]
  {
    forall i: nat | i < |mem| && !IsTarget(at, ts + [t], isStatic, i)
      ensures !IsTarget(at, ts, isStatic, i) && i != at + OffsetOf(ts, isStatic, |ts|)
    {
      if IsTarget(at, ts, isStatic, i) || i == at + OffsetOf(ts, isStatic, |ts|) {
        TargetStays(at, ts, t, isStatic, i);
      }
    }
  }

  lemma TargetStays(at: nat, ts: seq<Type>, t: Type, isStatic: bool, i: nat)
    requires IsTarget(at, ts, isStatic, i) || i == at + OffsetOf(ts, isStatic, |ts|)
    ensures IsTarget(at, ts + [t], isStatic, i)
  {
    OffsetOfNext(ts, t, isStatic, |ts|);
    if k :| 0 <= k < |ts| && i == at + OffsetOf(ts, isStatic, k) {
      OffsetOfNext(ts, t, isStatic, k);
    }
  }

  lemma PlaceReceiver(mem: seq<Value>, mem': seq<Value>, at: nat, isStatic: bool, receiver: Value)
    requires |mem'| == |mem| && (!isStatic ==> at < |mem|)
    requires mem' == if isStatic then mem else mem[at := receiver]
    ensures Placed(mem, mem', at, [], isStatic, receiver, [])
  {
  }

  lemma PlaceStep(mem: seq<Value>, mem1: seq<Value>, at: nat, all: seq<Type>, i: nat, isStatic: bool, receiver: Value,
                  args: seq<Value>)
    requires i < |all| == |args| && Placed(mem, mem1, at, all[..i], isStatic, receiver, args[..i])
    requires at + OffsetOf(all, isStatic, i) < |mem|
    ensures Placed(mem, mem1[at + OffsetOf(all, isStatic, i) := args[i]], at, all[..i + 1], isStatic, receiver,
                   args[..i + 1])
  {
    OffsetOfFront(all, i, isStatic);
    PlaceNext(mem, mem1, at, all[..i], all[i], isStatic, receiver, args[..i], args[i]);
    assert args[..i + 1] == args[..i] + [args[i]] && all[..i + 1] == all[..i] + [all[i]];
  }

  /** The write of one argument; false if its word is not in the memory. */
  method PlaceOne(memory: array<Value>, ghost mem: seq<Value>, saved: nat, ghost all: seq<Type>, isStatic: bool,
                  receiver: Value, args: seq<Value>, i: nat, offset: nat) returns (inside: bool)
    requires i < |all| == |args| && Placed(mem, memory[..], saved, all[..i], isStatic, receiver, args[..i])
    requires offset == saved + OffsetOf(all, isStatic, i)
    modifies memory
    ensures inside <==> offset < |mem|
    ensures inside ==> Placed(mem, memory[..], saved, all[..i + 1], isStatic, receiver, args[..i + 1])
  {
    if offset >= memory.Length {
      return false;
    }
    PlaceStep(mem, memory[..], saved, all, i, isStatic, receiver, args);
    memory[offset] := args[i];
    inside := true;
  }

  /** The loop of CALL_HELPER, when the receiver has been placed and the tokenizer stands on its first part. */
  method PlaceParameters(parts: MethodDescriptorParts, ghost all: seq<Type>, isStatic: bool, memory: array<Value>,
                         ghost mem: seq<Value>, saved: nat, start: nat, receiver: Value, args: seq<Value>)
    returns (inside: bool)
    requires parts.Valid() && parts.passed == []
    requires ReadDescriptor(parts.text).Some? && ReadDescriptor(parts.text).value.params == all
    requires |args| == |all| && start == saved + Receiver(isStatic)
    requires Placed(mem, memory[..], saved, [], isStatic, receiver, [])
    modifies parts, memory
    ensures inside <==> AllInside(|mem|, saved, all, isStatic)
    ensures inside ==> Placed(mem, memory[..], saved, all, isStatic, receiver, args)
  {
    var offset, i := start, 0;
    assert args[..0] == [] && all[..0] == [];
    while !parts.part.isReturn
      invariant parts.Valid() && i <= |args| && parts.passed == all[..i]
      invariant offset == saved + OffsetOf(all, isStatic, i)
      invariant Placed(mem, memory[..], saved, all[..i], isStatic, receiver, args[..i])
      decreases |parts.text| - parts.End()
    {
      CurrentIsNext(parts, all);
      inside := PlaceOne(memory, mem, saved, all, isStatic, receiver, args, i, offset);
      if !inside {
        return;
      }
      OffsetOfStep(all, isStatic, i);
      offset := offset + parts.part.category;
      var _ := parts.Next();
      i := i + 1;
    }
    assert i == |args| && args[..i] == args && all[..i] == all;
    PlacedMeansInside(mem, memory[..], saved, all, isStatic, receiver, args);
    inside := true;
  }

  lemma PlacedMeansInside(mem: seq<Value>, mem': seq<Value>, at: nat, ts: seq<Type>, isStatic: bool, receiver: Value,
                          args: seq<Value>)
    requires Placed(mem, mem', at, ts, isStatic, receiver, args)
    ensures AllInside(|mem|, at, ts, isStatic)
  {
  }

  lemma OffsetOfStep(ts: seq<Type>, isStatic: bool, k: nat)
    requires k < |ts|
    ensures OffsetOf(ts, isStatic, k + 1) == OffsetOf(ts, isStatic, k) + Category(ts[k])
  {
    assert ts[..k + 1] == ts[..k] + [ts[k]];
    SlotsNext(ts[..k], ts[k]);
  }

  /** The receiver and the arguments, for a descriptor that the parser has accepted; false if a write is outside. */
  method PlaceArguments(s: string, isStatic: bool, memory: array<Value>, saved: nat, receiver: Value, args: seq<Value>)
    returns (inside: bool)
    requires ReadDescriptor(s).Some? && |args| == |ReadDescriptor(s).value.params|
    modifies memory
    ensures inside <==> AllInside(memory.Length, saved, ReadDescriptor(s).value.params, isStatic)
    ensures inside ==>
              Placed(old(memory[..]), memory[..], saved, ReadDescriptor(s).value.params, isStatic, receiver, args)
    ensures inside ==>
              ArgumentsAt(old(memory[..]), memory[..], saved, ReadDescriptor(s).value.params, isStatic, receiver, args)
  {
    ghost var mem := memory[..];
    var offset := saved;
    if !isStatic {
      if offset >= memory.Length {
        return false;
      }
      memory[offset] := receiver;
      offset := offset + 1;
    }
    PlaceReceiver(mem, memory[..], saved, isStatic, receiver);
    var parts := new MethodDescriptorParts(s);
    var _ := parts.Begin();
    inside := PlaceParameters(parts, ReadDescriptor(s).value.params, isStatic, memory, mem, saved, offset, receiver,
                              args);
    if inside {
      PlacedIsAt(mem, memory[..], saved, ReadDescriptor(s).value.params, isStatic, receiver, args);
    }
  }

  /** NoMemory is JNI_ENOMEM; Outside is a write behind the memory. */
  datatype PushResult = Pushed | NoMemory | Outside

  /** CALL_HELPER up to the call of interpret, with the number of slots that the parser has computed. */
  method PushArguments(s: string, isStatic: bool, slots: nat, memory: array<Value>, used: nat, receiver: Value,
                       args: seq<Value>) returns (r: PushResult, used': nat)
    requires ReadDescriptor(s).Some? && |args| == |ReadDescriptor(s).value.params|
    requires slots == CountsOf(ReadDescriptor(s).value, isStatic).slots
    modifies memory
    ensures used' == used + slots
    ensures r.NoMemory? <==> used + slots > memory.Length
    ensures r.Outside? <==> !r.NoMemory? && !AllInside(memory.Length, used, ReadDescriptor(s).value.params, isStatic)
    ensures r.Pushed? ==>
              var ts := ReadDescriptor(s).value.params;
              && Placed(old(memory[..]), memory[..], used, ts, isStatic, receiver, args)
              && ArgumentsAt(old(memory[..]), memory[..], used, ts, isStatic, receiver, args)
  {
    used' := used + slots;
    if used' > memory.Length {
      return NoMemory, used';
    }
    var inside := PlaceArguments(s, isStatic, memory, used, receiver, args);
    r := if inside then Pushed else Outside;
  }

  lemma CurrentIsNext(parts: MethodDescriptorParts, all: seq<Type>)
    requires parts.Valid() && !parts.part.isReturn
    requires ReadDescriptor(parts.text).Some? && ReadDescriptor(parts.text).value.params == all
    ensures |parts.passed| < |all| && parts.passed == all[..|parts.passed|]
    ensures parts.current.value == all[|parts.passed|]
  {
  }

  lemma FitsNext(ts: seq<Type>, k: nat, isStatic: bool)
    requires k < |ts|
    ensures OffsetOf(ts[..k], isStatic, k) + Category(ts[k]) <= OffsetOf(ts, isStatic, |ts|)
  {
    assert ts[..k][..k] == ts[..k] && ts[..k + 1][..k] == ts[..k] && ts[..|ts|] == ts;
    SlotsGrow(ts, k + 1);
  }

  // ---- do they agree? ----

  /** The slots that JNI fills: all offsets in unbounded arithmetic, as its size_t offset computes them. */
  function JniSlots(d: Descriptor, isStatic: bool): nat
  {
    OffsetOf(d.params, isStatic, |d.params|)
  }

  /** The parser's total is the number of slots that JNI fills exactly when that number fits in 16 bits. */
  lemma ParserAgreesIff(d: Descriptor, isStatic: bool)
    ensures CountsOf(d, isStatic).slots == JniSlots(d, isStatic) <==> JniSlots(d, isStatic) < 0x1_0000
  {
    ToU2IsRemainder(JniSlots(d, isStatic));
  }

  /** The native offset of every parameter is where JNI puts it exactly when the last one fits in 16 bits. */
  lemma NativeAgreesIff(d: Descriptor, isStatic: bool)
    requires d.params != []
    ensures (forall k :: 0 <= k < |d.params| ==>
              NativeOffsets(d.params, isStatic)[Receiver(isStatic) + k] == OffsetOf(d.params, isStatic, k))
            <==> OffsetOf(d.params, isStatic, |d.params| - 1) < 0x1_0000
  {
    var n := |d.params| - 1;
    ToU2IsRemainder(OffsetOf(d.params, isStatic, n));
    forall k | 0 <= k <= n
      ensures NativeOffsets(d.params, isStatic)[Receiver(isStatic) + k] == ToU2(OffsetOf(d.params, isStatic, k))
      ensures OffsetOf(d.params, isStatic, k) <= OffsetOf(d.params, isStatic, n)
    {
      NativeOffsetAt(d.params, isStatic, k);
      assert d.params[..n][..k] == d.params[..k];
      SlotsGrow(d.params[..n], k);
    }
  }

  /** CALL_HELPER checks that the parser's total fits; that keeps every write inside exactly when the total is exact. */
  lemma RoomCheckIsEnoughIff(d: Descriptor, isStatic: bool)
    ensures (forall used: nat, size: nat {:trigger AllInside(size, used, d.params, isStatic)} ::
              used + CountsOf(d, isStatic).slots <= size ==> AllInside(size, used, d.params, isStatic))
            <==> JniSlots(d, isStatic) < 0x1_0000
  {
    ParserAgreesIff(d, isStatic);
    if JniSlots(d, isStatic) >= 0x1_0000 {
      WrappedRoomIsTooSmall(d, isStatic);
    } else {
      forall used: nat, size: nat | used + CountsOf(d, isStatic).slots <= size
        ensures AllInside(size, used, d.params, isStatic)
      {
        RoomMeansInside(d.params, isStatic, used, size);
      }
    }
  }

  lemma RoomMeansInside(ts: seq<Type>, isStatic: bool, at: nat, size: nat)
    requires at + OffsetOf(ts, isStatic, |ts|) <= size
    ensures AllInside(size, at, ts, isStatic)
  {
    forall k {:trigger OffsetOf(ts, isStatic, k)} | 0 <= k < |ts| ensures at + OffsetOf(ts, isStatic, k) < size {
      OffsetIsBelow(ts, isStatic, k);
    }
  }

  lemma WrappedRoomIsTooSmall(d: Descriptor, isStatic: bool)
    requires JniSlots(d, isStatic) >= 0x1_0000
    ensures !AllInside(CountsOf(d, isStatic).slots, 0, d.params, isStatic)
  {
    var n := |d.params| - 1;
    ToU2IsRemainder(JniSlots(d, isStatic));
    assert d.params != [];
    OffsetOfStep(d.params, isStatic, n);
    assert OffsetOf(d.params, isStatic, n) >= CountsOf(d, isStatic).slots;
  }

  /** Within the limit of 255 slots (section 4.3.3 of JVMS SE 16) the users agree, and the parameter count is exact. */
  lemma AgreeWithinLimit(d: Descriptor, isStatic: bool)
    requires JniSlots(d, isStatic) <= 255
    ensures CountsOf(d, isStatic).slots == JniSlots(d, isStatic) && CountsOf(d, isStatic).parameterCount == |d.params|
    ensures forall k :: 0 <= k < |d.params| ==>
              NativeOffsets(d.params, isStatic)[Receiver(isStatic) + k] == OffsetOf(d.params, isStatic, k)
  {
    SlotsGrow(d.params, |d.params|);
    forall k | 0 <= k < |d.params|
      ensures NativeOffsets(d.params, isStatic)[Receiver(isStatic) + k] == OffsetOf(d.params, isStatic, k)
    {
      NativeOffsetAt(d.params, isStatic, k);
      OffsetIsBelow(d.params, isStatic, k);
    }
  }

  lemma OffsetIsBelow(ts: seq<Type>, isStatic: bool, k: nat)
    requires k < |ts|
    ensures OffsetOf(ts, isStatic, k) < OffsetOf(ts, isStatic, |ts|)
  {
    FitsNext(ts, k, isStatic);
    OffsetOfFront(ts, k, isStatic);
  }

  lemma OffsetOfFront(ts: seq<Type>, k: nat, isStatic: bool)
    requires k <= |ts|
    ensures OffsetOf(ts[..k], isStatic, k) == OffsetOf(ts, isStatic, k)
  {
    assert ts[..k][..k] == ts[..k];
  }

  function Longs(n: nat): seq<Type>
  {
    seq(n, i => Base('J'))
  }

  lemma {:induction false} LongSlots(n: nat)
    ensures Slots(Longs(n)) == 2 * n
  {
    if n > 0 {
      assert Longs(n)[..n - 1] == Longs(n - 1);
      LongSlots(n - 1);
    }
  }

  lemma LongsAreRead(n: nat)
    ensures ReadDescriptor(PrintDescriptor(Descriptor(Longs(n), None))) == Some(Descriptor(Longs(n), None))
    ensures |PrintDescriptor(Descriptor(Longs(n), None))| == n + 3
    ensures OffsetOf(Longs(n), true, n) == 2 * n
  {
    RoundTrip(Descriptor(Longs(n), None));
    LongSlots(n);
    LongsPrint(n);
    assert Longs(n)[..n] == Longs(n);
  }

  /** The parser does not enforce that limit: a method of 32768 longs is accepted, with 0 slots for its parameters. */
  lemma LongDescriptorWraps(n: nat)
    requires n == 32768
    ensures var d := Descriptor(Longs(n), None);
            && ReadDescriptor(PrintDescriptor(d)) == Some(d) && |PrintDescriptor(d)| < 0x1_0000
            && CountsOf(d, true).slots == 0 && JniSlots(d, true) == 65536
  {
    LongsAreRead(n);
    ToU2IsRemainder(0x1_0000);
  }

  /** With one long more the last native offset wraps to 0, and the argument is read from where the first one lies. */
  lemma NativeOffsetWraps(n: nat)
    requires n == 32769
    ensures ReadDescriptor(PrintDescriptor(Descriptor(Longs(n), None))) == Some(Descriptor(Longs(n), None))
    ensures NativeOffsets(Longs(n), true)[n - 1] == 0 && OffsetOf(Longs(n), true, n - 1) == 65536
    ensures |PrintDescriptor(Descriptor(Longs(n), None))| < 0x1_0000
  {
    LongsAreRead(n);
    LongSlots(n - 1);
    assert Longs(n)[..n - 1] == Longs(n - 1);
    NativeOffsetAt(Longs(n), true, n - 1);
    ToU2IsRemainder(0x1_0000);
  }

  lemma {:induction false} LongsPrint(n: nat)
    ensures |PrintAll(Longs(n))| == n
  {
    if n > 0 {
      assert Longs(n)[1..] == Longs(n - 1);
      LongsPrint(n - 1);
    }
  }
}
