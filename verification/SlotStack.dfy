/** The untyped stack instructions on slots against the typed operand stack of section 6.5 of JVMS SE 16. */
module SlotStack {
  import opened Options
  import opened FrameModel

  /**
   Dup(n, m) copies the n top slots below the m slots under them: dup, dup_x1, dup_x2 have n = 1, dup2, dup2_x1, dup2_x2
   have n = 2, and m is 0, 1, 2. Discard(n) is pop or pop2.
   */
  datatype StackOp = Push(value: Value) | Push2(value: Value) | Discard(n: nat) | Dup(n: nat, m: nat) | Swap

  predicate IsOpcode(op: StackOp)
  {
    match op
    case Discard(n) => 1 <= n <= 2
    case Dup(n, m) => 1 <= n <= 2 && m <= 2
    case _ => true
  }

  // ---- slots ----

  /** How many slots an instruction reads. */
  function Needs(op: StackOp): nat
  {
    match op
    case Push(_) => 0
    case Push2(_) => 0
    case Discard(n) => n
    case Dup(n, m) => n + m
    case Swap => 2
  }

  /** What the instruction leaves in place of those; `stale` is the old word in the dummy slot that push2 skips. */
  function Leaves(op: StackOp, slots: seq<Value>, stale: Value): seq<Value>
    requires Needs(op) <= |slots|
  {
    var k := |slots|;
    match op
    case Push(v) => [v]
    case Push2(v) => [v, stale]
    case Discard(_) => []
    case Dup(n, m) => slots[k - n..] + slots[k - n - m..k - n] + slots[k - n..]
    case Swap => [slots[k - 1], slots[k - 2]]
  }

  /** The slots after an instruction, bottom first. */
  function SlotStep(op: StackOp, slots: seq<Value>, stale: Value): seq<Value>
    requires Needs(op) <= |slots|
  {
    slots[..|slots| - Needs(op)] + Leaves(op, slots, stale)
  }

  lemma DupLeaves10(slots: seq<Value>, v: Value)
    requires 1 <= |slots| && slots[|slots| - 1] == v
    ensures Leaves(Dup(1, 0), slots, 0) == [v, v]
  {
  }

  lemma DupLeaves11(slots: seq<Value>, v1: Value, v2: Value)
    requires 2 <= |slots| && slots[|slots| - 2] == v2 && slots[|slots| - 1] == v1
    ensures Leaves(Dup(1, 1), slots, 0) == [v1, v2, v1]
  {
  }

  lemma DupLeaves12(slots: seq<Value>, v1: Value, v2: Value, v3: Value)
    requires 3 <= |slots| && slots[|slots| - 3] == v3 && slots[|slots| - 2] == v2 && slots[|slots| - 1] == v1
    ensures Leaves(Dup(1, 2), slots, 0) == [v1, v3, v2, v1]
  {
  }

  lemma DupLeaves20(slots: seq<Value>, v1: Value, v2: Value)
    requires 2 <= |slots| && slots[|slots| - 2] == v2 && slots[|slots| - 1] == v1
    ensures Leaves(Dup(2, 0), slots, 0) == [v2, v1, v2, v1]
  {
  }

  lemma DupLeaves21(slots: seq<Value>, v1: Value, v2: Value, v3: Value)
    requires 3 <= |slots| && slots[|slots| - 3] == v3 && slots[|slots| - 2] == v2 && slots[|slots| - 1] == v1
    ensures Leaves(Dup(2, 1), slots, 0) == [v2, v1, v3, v2, v1]
  {
  }

  lemma DupLeaves22(slots: seq<Value>, v1: Value, v2: Value, v3: Value, v4: Value)
    requires 4 <= |slots| && slots[|slots| - 4] == v4 && slots[|slots| - 3] == v3
    requires slots[|slots| - 2] == v2 && slots[|slots| - 1] == v1
    ensures Leaves(Dup(2, 2), slots, 0) == [v2, v1, v4, v3, v2, v1]
  {
  }

  // ---- typed values ----

  /** A value of computational category 1, or one of category 2 with the word that its dummy slot happens to hold. */
  datatype Typed = C1(value: Value) | C2(value: Value, dummy: Value)

  /** Equal as typed values, whatever the dummies are. */
  predicate SameValue(t: Typed, u: Typed)
  {
    t.value == u.value && (t.C1? <==> u.C1?)
  }

  predicate SameValues(ts: seq<Typed>, us: seq<Typed>)
  {
    |ts| == |us| && forall i :: 0 <= i < |ts| ==> SameValue(ts[i], us[i])
  }

  /** How many values on top fill exactly w slots (w is at most 2), if the slots do not split a category 2 value. */
  function Group(ts: seq<Typed>, w: nat): Option<nat>
  {
    var n := |ts|;
    if w == 0 then Some(0)
    else if n >= 1 && w == 1 && ts[n - 1].C1? then Some(1)
    else if n >= 1 && w == 2 && ts[n - 1].C2? then Some(1)
    else if n >= 2 && w == 2 && ts[n - 1].C1? && ts[n - 2].C1? then Some(2)
    else None
  }

  /** Where the group that goes below, and the top group over it, begin. */
  function DupGroups(ts: seq<Typed>, n: nat, m: nat): (r: Option<(nat, nat)>)
    ensures r.Some? ==> r.value.0 <= r.value.1 <= |ts|
  {
    match Group(ts, n)
    case None => None
    case Some(i) =>
      var b := |ts| - i;
      match Group(ts[..b], m)
      case None => None
      case Some(j) => Some((b - j, b))
  }

  function DupAt(ts: seq<Typed>, a: nat, b: nat): seq<Typed>
    requires a <= b <= |ts|
  {
    ts[..a] + ts[b..] + ts[a..b] + ts[b..]
  }

  /** What an instruction does to typed values; None where JVMS has no form for them. */
  function TypedStep(op: StackOp, ts: seq<Typed>, stale: Value): Option<seq<Typed>>
  {
    var k := |ts|;
    match op
    case Push(v) => Some(ts + [C1(v)])
    case Push2(v) => Some(ts + [C2(v, stale)])
    case Discard(n) => (match Group(ts, n) case None => None case Some(i) => Some(ts[..k - i]))
    case Dup(n, m) => (match DupGroups(ts, n, m) case None => None case Some((a, b)) => Some(DupAt(ts, a, b)))
    case Swap => if Group(ts, 2) == Some(2) then Some(ts[..k - 2] + [ts[k - 1], ts[k - 2]]) else None
  }

  /** A stack that is made of exactly w slots: nothing, one value, or two values of category 1. */
  predicate Fills(ts: seq<Typed>, w: nat)
  {
    if w == 0 then ts == []
    else if w == 1 then |ts| == 1 && ts[0].C1?
    else w == 2 && ((|ts| == 1 && ts[0].C2?) || (|ts| == 2 && ts[0].C1? && ts[1].C1?))
  }

  /** Every form of every dup instruction: the top group ys goes below the group zs under it. */
  lemma DupForm(n: nat, m: nat, xs: seq<Typed>, zs: seq<Typed>, ys: seq<Typed>, stale: Value)
    requires 1 <= n <= 2 && m <= 2 && Fills(ys, n) && Fills(zs, m)
    ensures TypedStep(Dup(n, m), xs + zs + ys, stale) == Some(xs + ys + zs + ys)
  {
    var ts := xs + zs + ys;
    assert ts[..|ts| - |ys|] == xs + zs && ts[|ts| - |ys|..] == ys;
    assert Group(ts, n) == Some(|ys|);
    assert Group(xs + zs, m) == Some(|zs|);
    assert ts[..|ts| - |ys| - |zs|] == xs && ts[|ts| - |ys| - |zs|..|ts| - |ys|] == zs;
  }

  lemma SameGroup(ts: seq<Typed>, us: seq<Typed>, w: nat)
    requires SameValues(ts, us)
    ensures Group(ts, w) == Group(us, w)
  {
  }

  lemma SameSlice(ts: seq<Typed>, us: seq<Typed>, a: nat, b: nat)
    requires SameValues(ts, us) && a <= b <= |ts|
    ensures SameValues(ts[a..b], us[a..b])
  {
  }

  lemma SameConcat(xs: seq<Typed>, xs': seq<Typed>, ys: seq<Typed>, ys': seq<Typed>)
    requires SameValues(xs, xs') && SameValues(ys, ys')
    ensures SameValues(xs + ys, xs' + ys')
  {
  }

  lemma SameDup(ts: seq<Typed>, us: seq<Typed>, a: nat, b: nat)
    requires SameValues(ts, us) && a <= b <= |ts|
    ensures SameValues(DupAt(ts, a, b), DupAt(us, a, b))
  {
    SameSlice(ts, us, 0, a);
    SameSlice(ts, us, a, b);
    SameSlice(ts, us, b, |ts|);
    SameConcat(ts[..a], us[..a], ts[b..], us[b..]);
    SameConcat(ts[..a] + ts[b..], us[..a] + us[b..], ts[a..b], us[a..b]);
    SameConcat(ts[..a] + ts[b..] + ts[a..b], us[..a] + us[b..] + us[a..b], ts[b..], us[b..]);
  }

  lemma SameDupGroups(ts: seq<Typed>, us: seq<Typed>, n: nat, m: nat)
    requires SameValues(ts, us)
    ensures DupGroups(ts, n, m) == DupGroups(us, n, m)
  {
    SameGroup(ts, us, n);
    if Group(ts, n).Some? {
      var b := |ts| - Group(ts, n).value;
      SameSlice(ts, us, 0, b);
      SameGroup(ts[..b], us[..b], m);
    }
  }

  ghost predicate SameResult(r: Option<seq<Typed>>, r': Option<seq<Typed>>)
  {
    if r.Some? then r'.Some? && SameValues(r.value, r'.value) else r'.None?
  }

  lemma DupIgnoresDummies(n: nat, m: nat, ts: seq<Typed>, us: seq<Typed>, stale: Value, stale': Value)
    requires SameValues(ts, us)
    ensures SameResult(TypedStep(Dup(n, m), ts, stale), TypedStep(Dup(n, m), us, stale'))
  {
    SameDupGroups(ts, us, n, m);
    if DupGroups(ts, n, m).Some? {
      SameDup(ts, us, DupGroups(ts, n, m).value.0, DupGroups(ts, n, m).value.1);
    }
  }

  /** No instruction looks at a dummy. */
  lemma StepIgnoresDummies(op: StackOp, ts: seq<Typed>, us: seq<Typed>, stale: Value, stale': Value)
    requires SameValues(ts, us)
    ensures SameResult(TypedStep(op, ts, stale), TypedStep(op, us, stale'))
  {
    match op
    case Push(v) => SameConcat(ts, us, [C1(v)], [C1(v)]);
    case Push2(v) => SameConcat(ts, us, [C2(v, stale)], [C2(v, stale')]);
    case Discard(n) =>
      SameGroup(ts, us, n);
      if Group(ts, n).Some? {
        SameSlice(ts, us, 0, |ts| - Group(ts, n).value);
      }
    case Dup(n, m) => DupIgnoresDummies(n, m, ts, us, stale, stale');
    case Swap => SwapIgnoresDummies(ts, us);
  }

  lemma SwapIgnoresDummies(ts: seq<Typed>, us: seq<Typed>)
    requires SameValues(ts, us)
    ensures SameResult(TypedStep(Swap, ts, 0), TypedStep(Swap, us, 0))
  {
    SameGroup(ts, us, 2);
    var k := |ts|;
    if Group(ts, 2) == Some(2) {
      SameSlice(ts, us, 0, k - 2);
      SameConcat(ts[..k - 2], us[..k - 2], [ts[k - 1], ts[k - 2]], [us[k - 1], us[k - 2]]);
    }
  }

  // ---- refinement ----

  function Words(t: Typed): seq<Value>
  {
    if t.C1? then [t.value] else [t.value, t.dummy]
  }

  /** The slots of a stack of typed values, bottom first. */
  function Flat(ts: seq<Typed>): seq<Value>
  {
    if ts == [] then [] else Words(ts[0]) + Flat(ts[1..])
  }

  lemma Concat(a: seq<Value>, b: seq<Value>, c: seq<Value>)
    ensures (a + b) + c == a + (b + c)
  {
  }

  lemma {:induction false} FlatAppend(xs: seq<Typed>, ys: seq<Typed>)
    ensures Flat(xs + ys) == Flat(xs) + Flat(ys)
    decreases |xs|
  {
    if xs == [] {
      assert xs + ys == ys;
    } else {
      assert (xs + ys)[0] == xs[0] && (xs + ys)[1..] == xs[1..] + ys;
      FlatAppend(xs[1..], ys);
      Concat(Words(xs[0]), Flat(xs[1..]), Flat(ys));
    }
  }

  lemma FlatOne(t: Typed)
    ensures Flat([t]) == Words(t)
  {
    assert [t][1..] == [];
  }

  lemma FlatPair(a: Typed, b: Typed)
    ensures Flat([a, b]) == Words(a) + Words(b)
  {
    FlatAppend([a], [b]);
    FlatOne(a);
    FlatOne(b);
    assert [a] + [b] == [a, b];
  }

  lemma FillsWidth(ts: seq<Typed>, w: nat)
    requires Fills(ts, w)
    ensures |Flat(ts)| == w
  {
    if |ts| == 1 {
      FlatOne(ts[0]);
      assert ts == [ts[0]];
    } else if |ts| == 2 {
      FlatPair(ts[0], ts[1]);
      assert ts == [ts[0], ts[1]];
    }
  }

  lemma GroupFills(ts: seq<Typed>, w: nat)
    requires w <= 2 && Group(ts, w).Some?
    ensures Group(ts, w).value <= |ts| && Fills(ts[|ts| - Group(ts, w).value..], w)
  {
  }

  lemma DupFlat(n: nat, m: nat, xs: seq<Typed>, zs: seq<Typed>, ys: seq<Typed>, stale: Value)
    requires |Flat(ys)| == n && |Flat(zs)| == m
    ensures Flat(xs + zs + ys) == Flat(xs) + Flat(zs) + Flat(ys)
    ensures SlotStep(Dup(n, m), Flat(xs + zs + ys), stale) == Flat(xs + ys + zs + ys)
  {
    FlatAppend(xs + zs, ys);
    FlatAppend(xs, zs);
    FlatAppend(xs + ys + zs, ys);
    FlatAppend(xs + ys, zs);
    FlatAppend(xs, ys);
    DupSlots(n, m, Flat(xs), Flat(zs), Flat(ys), stale);
  }

  lemma DupSlots(n: nat, m: nat, base: seq<Value>, mid: seq<Value>, top: seq<Value>, stale: Value)
    requires |top| == n && |mid| == m
    ensures SlotStep(Dup(n, m), base + mid + top, stale) == base + top + mid + top
  {
    var slots := base + mid + top;
    var k := |slots|;
    assert slots[..k - n - m] == base && slots[k - n..] == top && slots[k - n - m..k - n] == mid;
  }

  /** A stack on which an instruction finds the groups it needs. */
  lemma SplitGroups(n: nat, m: nat, ts: seq<Typed>, stale: Value)
    returns (xs: seq<Typed>, zs: seq<Typed>, ys: seq<Typed>)
    requires n <= 2 && m <= 2 && TypedStep(Dup(n, m), ts, stale).Some?
    ensures ts == xs + zs + ys && Fills(zs, m) && Fills(ys, n)
  {
    var b := |ts| - Group(ts, n).value;
    GroupFills(ts, n);
    var a := b - Group(ts[..b], m).value;
    GroupFills(ts[..b], m);
    xs, zs, ys := ts[..b][..a], ts[..b][a..], ts[b..];
  }

  lemma DupRefines(n: nat, m: nat, ts: seq<Typed>, stale: Value)
    requires 1 <= n <= 2 && m <= 2 && TypedStep(Dup(n, m), ts, stale).Some?
    ensures n + m <= |Flat(ts)|
    ensures SlotStep(Dup(n, m), Flat(ts), stale) == Flat(TypedStep(Dup(n, m), ts, stale).value)
  {
    var xs, zs, ys := SplitGroups(n, m, ts, stale);
    FillsWidth(ys, n);
    FillsWidth(zs, m);
    DupFlat(n, m, xs, zs, ys, stale);
    DupForm(n, m, xs, zs, ys, stale);
  }

  lemma DropTop(base: seq<Value>, top: seq<Value>, n: nat)
    requires |top| == n
    ensures (base + top)[..|base + top| - n] == base
  {
  }

  /** pop and pop2 drop the values on top that fill one or two slots. */
  lemma DiscardForm(n: nat, xs: seq<Typed>, ys: seq<Typed>)
    requires Fills(ys, n) && n <= 2
    ensures n <= |Flat(xs + ys)| && Flat(xs + ys)[..|Flat(xs + ys)| - n] == Flat(xs)
    ensures TypedStep(Discard(n), xs + ys, 0) == Some(xs) && SlotStep(Discard(n), Flat(xs + ys), 0) == Flat(xs)
  {
    FlatAppend(xs, ys);
    FillsWidth(ys, n);
    DropTop(Flat(xs), Flat(ys), n);
    assert (xs + ys)[..|xs|] == xs;
    assert Group(xs + ys, n) == Some(|ys|);
  }

  lemma DiscardRefines(n: nat, ts: seq<Typed>)
    requires n <= 2 && Group(ts, n).Some?
    ensures n <= |Flat(ts)| && Flat(ts)[..|Flat(ts)| - n] == Flat(ts[..|ts| - Group(ts, n).value])
  {
    GroupFills(ts, n);
    var b := |ts| - Group(ts, n).value;
    assert ts == ts[..b] + ts[b..];
    DiscardForm(n, ts[..b], ts[b..]);
  }

  lemma SwapSlots(base: seq<Value>, a: Value, b: Value, stale: Value)
    ensures SlotStep(Swap, base + [a, b], stale) == base + [b, a]
  {
    var slots := base + [a, b];
    assert slots[..|slots| - 2] == base;
  }

  /** swap exchanges two values of category 1. */
  lemma SwapForm(xs: seq<Typed>, a: Typed, b: Typed, stale: Value)
    requires a.C1? && b.C1?
    ensures TypedStep(Swap, xs + [a, b], stale) == Some(xs + [b, a])
    ensures 2 <= |Flat(xs + [a, b])|
    ensures SlotStep(Swap, Flat(xs + [a, b]), stale) == Flat(xs + [b, a])
  {
    var ts := xs + [a, b];
    assert ts[..|ts| - 2] == xs && ts[|ts| - 1] == b && ts[|ts| - 2] == a;
    FlatPair(a, b);
    FlatPair(b, a);
    FlatAppend(xs, [a, b]);
    FlatAppend(xs, [b, a]);
    SwapSlots(Flat(xs), a.value, b.value, stale);
  }

  lemma SwapRefines(ts: seq<Typed>, stale: Value)
    requires TypedStep(Swap, ts, stale).Some?
    ensures 2 <= |Flat(ts)|
    ensures SlotStep(Swap, Flat(ts), stale) == Flat(TypedStep(Swap, ts, stale).value)
  {
    var k := |ts|;
    assert ts == ts[..k - 2] + [ts[k - 2], ts[k - 1]];
    SwapForm(ts[..k - 2], ts[k - 2], ts[k - 1], stale);
  }

  lemma FlatStep(op: StackOp, ts: seq<Typed>, stale: Value)
    requires IsOpcode(op) && TypedStep(op, ts, stale).Some?
    ensures Needs(op) <= |Flat(ts)| && SlotStep(op, Flat(ts), stale) == Flat(TypedStep(op, ts, stale).value)
  {
    match op
    case Push(v) =>
      FlatOne(C1(v));
      FlatAppend(ts, [C1(v)]);
    case Push2(v) =>
      FlatOne(C2(v, stale));
      FlatAppend(ts, [C2(v, stale)]);
    case Discard(n) => DiscardRefines(n, ts);
    case Dup(n, m) => DupRefines(n, m, ts, stale);
    case Swap => SwapRefines(ts, stale);
  }

  /** The slots hold these typed values in order, with anything in the dummy slots. */
  ghost predicate Represents(slots: seq<Value>, us: seq<Typed>)
  {
    exists ts :: SameValues(ts, us) && Flat(ts) == slots
  }

  /** Every form of every stack instruction does on slots what it does on typed values, and never underflows. */
  lemma StepRefines(op: StackOp, slots: seq<Value>, us: seq<Typed>, stale: Value)
    requires IsOpcode(op) && Represents(slots, us) && TypedStep(op, us, 0).Some?
    ensures Needs(op) <= |slots| && Represents(SlotStep(op, slots, stale), TypedStep(op, us, 0).value)
  {
    var ts :| SameValues(ts, us) && Flat(ts) == slots;
    StepIgnoresDummies(op, ts, us, stale, 0);
    FlatStep(op, ts, stale);
  }

  // ---- sequences of instructions ----

  /** The dummies of the typed machine are 0; no instruction looks at them. */
  function TypedRun(ops: seq<StackOp>, ts: seq<Typed>): Option<seq<Typed>>
  {
    if ops == [] then Some(ts)
    else
      match TypedStep(ops[0], ts, 0)
      case None => None
      case Some(ts1) => TypedRun(ops[1..], ts1)
  }

  /** `stale` gives the word that each push2 leaves in its dummy slot. */
  function SlotRun(ops: seq<StackOp>, slots: seq<Value>, stale: seq<Value>): Option<seq<Value>>
    requires |stale| == |ops|
  {
    if ops == [] then Some(slots)
    else if |slots| < Needs(ops[0]) then None
    else SlotRun(ops[1..], SlotStep(ops[0], slots, stale[0]), stale[1..])
  }

  /** Whatever code the typed machine can run, the slot machine runs with the same values, whatever the dummies are. */
  lemma {:induction false} RunRefines(ops: seq<StackOp>, slots: seq<Value>, ts: seq<Typed>, stale: seq<Value>)
    requires |stale| == |ops| && Represents(slots, ts) && TypedRun(ops, ts).Some?
    requires forall op :: op in ops ==> IsOpcode(op)
    ensures SlotRun(ops, slots, stale).Some?
    ensures Represents(SlotRun(ops, slots, stale).value, TypedRun(ops, ts).value)
    decreases |ops|
  {
    if ops != [] {
      StepRefines(ops[0], slots, ts, stale[0]);
      RunRefines(ops[1..], SlotStep(ops[0], slots, stale[0]), TypedStep(ops[0], ts, 0).value, stale[1..]);
    }
  }
}
