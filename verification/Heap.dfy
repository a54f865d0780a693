/** The collector itself: the mark queue, the sweep and the polarity of the mark bit. */
module Collector {
  import opened Options
  import opened Reachability
  import opened HeapModel
  import opened Mutator
  import opened HeapClasses

  type Bits = map<Addr, bool>

  function MarkedSet(bits: Bits, marked: bool): (r: set<Addr>)
    ensures forall a :: a in r <==> a in bits && bits[a] == marked
  {
    set a | a in bits && bits[a] == marked
  }

  /** All of `targets` are marked now, and exactly those that were not marked before joined the queue. */
  ghost predicate Enqueued(bits: Bits, bits': Bits, queue: seq<Addr>, queue': seq<Addr>, targets: iset<Addr>,
                           marked: bool)
  {
    && bits'.Keys == bits.Keys
    && (forall a :: a in bits ==> bits'[a] == if a in targets then marked else bits[a])
    && queue <= queue'
    && forall a :: a in queue'[|queue|..] <==> a in targets && a in bits && bits[a] != marked
  }

  lemma EnqueuedTrans(bits: Bits, bits': Bits, bits'': Bits, queue: seq<Addr>, queue': seq<Addr>, queue'': seq<Addr>,
                      targets: iset<Addr>, targets': iset<Addr>, all: iset<Addr>, marked: bool)
    requires Enqueued(bits, bits', queue, queue', targets, marked)
    requires Enqueued(bits', bits'', queue', queue'', targets', marked)
    requires forall a :: a in all <==> a in targets || a in targets'
    ensures Enqueued(bits, bits'', queue, queue'', all, marked)
  {
    assert queue''[|queue|..] == queue'[|queue|..] + queue''[|queue'|..];
  }

  /** Between two calls of MarkRecursively: the marked objects are closed, and `live` bounds them. */
  ghost predicate Tracing(g: Graph, bits: Bits, marked: bool, live: set<Addr>)
  {
    && live <= g.Keys && Closed(g, live)
    && MarkedSet(bits, marked) <= live && Closed(g, MarkedSet(bits, marked))
  }

  /** Every marked object is in the queue or has all its successors marked. */
  ghost predicate NoBlackToWhite(bits: Bits, queue: seq<Addr>, g: Graph, marked: bool)
    requires bits.Keys <= g.Keys
  {
    forall a, b {:trigger b in g[a]} ::
      a in MarkedSet(bits, marked) && a !in queue && b in g[a] ==> b in MarkedSet(bits, marked)
  }

  /** What one turn of the mark queue does to the tri-colour invariant and to the termination measure. */
  lemma TurnKeepsInvariant(bits: Bits, bits': Bits, queue: seq<Addr>, queue': seq<Addr>, g: Graph, live: set<Addr>,
                           marked: bool)
    requires g.Keys == bits.Keys && NoDanglingEdge(g) && queue != [] && queue[0] in g
    requires Enqueued(bits, bits', queue[1..], queue', g[queue[0]], marked)
    requires MarkedSet(bits, marked) <= live && Closed(g, live)
    requires forall a :: a in queue ==> a in MarkedSet(bits, marked)
    requires NoBlackToWhite(bits, queue, g, marked)
    ensures forall a :: a in queue' ==> a in MarkedSet(bits', marked)
    ensures MarkedSet(bits, marked) <= MarkedSet(bits', marked) <= live
    ensures NoBlackToWhite(bits', queue', g, marked)
    ensures || MarkedSet(bits', !marked) < MarkedSet(bits, !marked)
            || (MarkedSet(bits', !marked) == MarkedSet(bits, !marked) && queue' == queue[1..])
  {
    var o, rest := queue[0], queue[1..];
    var joined := queue'[|rest|..];
    assert queue == [o] + rest && queue' == rest + joined;
    if joined != [] {
      assert joined[0] in MarkedSet(bits, !marked) && joined[0] !in MarkedSet(bits', !marked);
    } else {
      assert forall a :: a in bits ==> bits'[a] == bits[a];
    }
  }

  /** What the first n declared fields of a class contribute when the fields are read from `words`. */
  ghost function FieldTargets(fields: seq<Field>, isStatic: bool, words: seq<Addr>, n: nat): iset<Addr>
    requires n <= |fields|
  {
    iset f | f in fields[..n] && f.isStatic == isStatic && f.isReference && f.index < |words| :: words[f.index]
  }

  lemma FieldTargetsStep(fields: seq<Field>, isStatic: bool, words: seq<Addr>, n: nat)
    requires n < |fields|
    ensures forall a :: a in FieldTargets(fields, isStatic, words, n + 1) <==>
      || a in FieldTargets(fields, isStatic, words, n)
      || (fields[n].isStatic == isStatic && fields[n].isReference && fields[n].index < |words|
          && a == words[fields[n].index])
  {
    assert fields[..n + 1] == fields[..n] + [fields[n]];
  }

  ghost function Members(xs: seq<Addr>): iset<Addr>
  {
    iset b | b in xs
  }

  ghost function DataTargets(h: SoundHeap, o: Addr): iset<Addr>
    requires o in h.objects
  {
    iset b | DataRefersTo(h.objects, h.ctx, o, b)
  }

  ghost function StaticTargets(file: ClassFile): iset<Addr>
  {
    iset b | StaticsReferTo(file, b)
  }

  ghost function ClassTargets(file: ClassFile): iset<Addr>
  {
    iset b | ClassRefersTo(file, b)
  }

  /** The data of o holds b in a slot that class c or a superclass of it declares. */
  ghost predicate FromChain(h: SoundHeap, data: seq<Addr>, c: Addr, b: Addr)
    requires c == NULL || IsClass(h.objects, c)
  {
    exists i: nat :: IsInstanceSlot(h.objects, h.ctx.rank, c, i) && i < |data| && data[i] == b
  }

  lemma FromChainStep(h: SoundHeap, data: seq<Addr>, c: Addr, b: Addr)
    requires IsClass(h.objects, c) && c != NULL
    ensures var file := File(h.objects, c);
            FromChain(h, data, c, b) <==>
              b in FieldTargets(file.fields, false, data, |file.fields|) || FromChain(h, data, file.superClass, b)
  {
    var file := File(h.objects, c);
    assert file.fields[..|file.fields|] == file.fields;
    if b in FieldTargets(file.fields, false, data, |file.fields|) {
      var f :| f in file.fields && !f.isStatic && f.isReference && f.index < |data| && data[f.index] == b;
      assert IsInstanceSlot(h.objects, h.ctx.rank, c, f.index);
    }
    if FromChain(h, data, file.superClass, b) {
      var i: nat :| IsInstanceSlot(h.objects, h.ctx.rank, file.superClass, i) && i < |data| && data[i] == b;
      assert IsInstanceSlot(h.objects, h.ctx.rank, c, i);
    }
  }

  /** Every entry that the sweep looks at refers to memory that is still there. */
  ghost predicate Sweepable(objects: Objects, allocations: seq<Addr>, classes: seq<Addr>, interned: map<string, Addr>)
  {
    && (forall k :: k in interned ==> interned[k] in objects)
    && (forall a :: a in objects <==> a in allocations || a in classes)
  }

  lemma RegisteredIsSweepable(s: HeapState)
    requires Registered(s)
    ensures Sweepable(s.objects, s.allocations, s.classes, s.interned)
  {
  }

  lemma SweptIgnoresBits(s: HeapState, s': HeapState, live: set<Addr>)
    requires s' == s.(gcBit := s'.gcBit)
    ensures Swept(s', live) == Swept(s, live)
  {
  }

  lemma {:induction false} KeepNext(xs: seq<Addr>, i: nat, live: set<Addr>)
    requires i < |xs|
    ensures Keep(xs[..i + 1], live) == Keep(xs[..i], live) + if xs[i] in live then [xs[i]] else []
    decreases i
  {
    if i > 0 {
      assert xs[..i + 1][1..] == xs[1..][..i] && xs[..i][1..] == xs[1..][..i - 1];
      KeepNext(xs[1..], i - 1, live);
    }
  }

  /** The objects of the list whose bit says unmarked. */
  function Freed(allocations: seq<Addr>, bits: Bits, unmarked: bool): set<Addr>
  {
    set a | a in allocations && a in bits && bits[a] == unmarked
  }

  /** What the three passes of the sweep leave. */
  lemma SweepIsSwept(s: HeapState, s': HeapState, unmarked: bool)
    requires Sweepable(s.objects, s.allocations, s.classes, s.interned)
    requires s.gcBit.Keys == s.objects.Keys && unmarked == s.unmarked
    requires forall c :: c in s.classes ==> c in MarkedSet(s.gcBit, !unmarked)
    requires s'.interned == LiveStrings(s.interned, MarkedSet(s.gcBit, !unmarked))
    requires s'.allocations == Keep(s.allocations, MarkedSet(s.gcBit, !unmarked)) && s'.classes == s.classes
    requires s'.objects == s.objects - Freed(s.allocations, s.gcBit, unmarked)
    requires s'.gcBit == s.gcBit - Freed(s.allocations, s.gcBit, unmarked)
    requires s'.unmarked == s.unmarked && s'.nextSerial == s.nextSerial
    ensures s' == Swept(s, MarkedSet(s.gcBit, !unmarked)).(unmarked := unmarked)
  {
    KeepAll(s.classes, MarkedSet(s.gcBit, !unmarked));
    assert s'.objects == Restrict(s.objects, MarkedSet(s.gcBit, !unmarked));
    assert s'.gcBit == UniformBits(s.objects, MarkedSet(s.gcBit, !unmarked), !unmarked);
  }

  class Heap {
    var objects: Objects
    var gcBit: Bits
    var allocations: seq<Addr>
    var classes: seq<Addr>
    var internedStrings: map<string, Addr>
    var gcBitUnmarked: bool
    var nextSerial: nat
    const javaLangClass: Addr
    ghost const rank: Addr -> nat

    ghost function Ctx(): Context
    {
      Context(javaLangClass, rank)
    }

    ghost function State(): HeapState
      reads this
    {
      HeapState(objects, gcBit, allocations, classes, internedStrings, gcBitUnmarked, nextSerial)
    }

    ghost predicate Valid()
      reads this
    {
      WellFormed(State(), Ctx())
    }

    /** The heap has shape h, and a mark bit for every object. */
    ghost predicate HasShape(h: SoundHeap)
      reads this
    {
      h == Shape(objects, Ctx()) && gcBit.Keys == objects.Keys
    }

    /** The lambda of mark_recursively: an object joins the queue only when its bit flips, so at most once. */
    method Enqueue(queue: seq<Addr>, reference: Addr, marked: bool) returns (queue': seq<Addr>)
      requires reference == NULL || reference in gcBit
      requires NULL !in gcBit
      modifies this`gcBit
      ensures Enqueued(old(gcBit), gcBit, queue, queue', iset{reference}, marked)
    {
      queue' := queue;
      if reference != NULL {
        if gcBit[reference] != marked {
          gcBit := gcBit[reference := marked];
          queue' := queue' + [reference];
        }
      }
    }

    /** Enqueues one reference that the marker follows out of the object at o. */
    method EnqueueReference(queue: seq<Addr>, o: Addr, reference: Addr, marked: bool, ghost h: SoundHeap)
      returns (queue': seq<Addr>)
      requires HasShape(h) && o in objects
      requires reference == NULL || RefersTo(h.objects, h.ctx, o, reference)
      modifies this`gcBit
      ensures Enqueued(old(gcBit), gcBit, queue, queue', iset{reference}, marked)
    {
      assert reference == NULL || reference in Edges(h)[o];
      queue' := Enqueue(queue, reference, marked);
    }

    /** The loop over the fields that one class of the superclass chain declares. */
    method EnqueueOwnFields(queue: seq<Addr>, o: Addr, current: Addr, marked: bool, ghost h: SoundHeap)
      returns (queue': seq<Addr>)
      requires HasShape(h) && o in objects && IsClass(objects, current)
      requires forall i: nat :: DeclaresSlot(File(objects, current), false, i) ==> IsRefSlot(h.objects, h.ctx, o, i)
      modifies this`gcBit
      ensures var fields := File(objects, current).fields;
              Enqueued(old(gcBit), gcBit, queue, queue',
                       FieldTargets(fields, false, objects[o].data, |fields|), marked)
    {
      queue' := queue;
      var fields := File(objects, current).fields;
      for f := 0 to |fields|
        invariant HasShape(h)
        invariant Enqueued(old(gcBit), gcBit, queue, queue', FieldTargets(fields, false, objects[o].data, f), marked)
      {
        FieldTargetsStep(fields, false, objects[o].data, f);
        if !fields[f].isStatic && fields[f].isReference {
          var slot := fields[f].index;
          assert DeclaresSlot(File(objects, current), false, slot);
          var reference := objects[o].data[slot];
          ghost var bits, queue0 := gcBit, queue';
          queue' := EnqueueReference(queue', o, reference, marked, h);
          EnqueuedTrans(old(gcBit), bits, gcBit, queue, queue0, queue',
                        FieldTargets(fields, false, objects[o].data, f), iset{reference},
                        FieldTargets(fields, false, objects[o].data, f + 1), marked);
        }
      }
    }

    /** The loop over the superclass chain of an instance. */
    method EnqueueInstanceFields(queue: seq<Addr>, o: Addr, marked: bool, ghost h: SoundHeap)
      returns (queue': seq<Addr>)
      requires HasShape(h) && o in objects && !File(objects, objects[o].clazz).isArray
      modifies this`gcBit
      ensures Enqueued(old(gcBit), gcBit, queue, queue', DataTargets(h, o), marked)
    {
      queue' := queue;
      var current := objects[o].clazz;
      ghost var data, targets: iset<Addr> := objects[o].data, iset{};
      while current != NULL
        invariant HasShape(h)
        invariant current == NULL || IsClass(objects, current)
        invariant forall i: nat ::
                    IsInstanceSlot(h.objects, h.ctx.rank, current, i) ==> IsRefSlot(h.objects, h.ctx, o, i)
        invariant forall b :: DataRefersTo(h.objects, h.ctx, o, b) <==> b in targets || FromChain(h, data, current, b)
        invariant Enqueued(old(gcBit), gcBit, queue, queue', targets, marked)
        decreases if current == NULL then 0 else h.ctx.rank(current) + 1
      {
        ghost var own := FieldTargets(File(objects, current).fields, false, data, |File(objects, current).fields|);
        ghost var all := targets + own;
        ghost var bits, queue0 := gcBit, queue';
        queue' := EnqueueOwnFields(queue', o, current, marked, h);
        EnqueuedTrans(old(gcBit), bits, gcBit, queue, queue0, queue', targets, own, all, marked);
        forall b ensures FromChain(h, data, current, b) <==>
                           b in own || FromChain(h, data, File(objects, current).superClass, b)
        {
          FromChainStep(h, data, current, b);
        }
        targets := all;
        current := File(objects, current).superClass;
      }
      assert targets == DataTargets(h, o);
    }

    /** The loop over the elements of an array of references. */
    method EnqueueElements(queue: seq<Addr>, o: Addr, marked: bool, ghost h: SoundHeap)
      returns (queue': seq<Addr>)
      requires HasShape(h) && o in objects
      requires forall i: nat :: IsRefSlot(h.objects, h.ctx, o, i) <==> i < |objects[o].data|
      modifies this`gcBit
      ensures Enqueued(old(gcBit), gcBit, queue, queue', DataTargets(h, o), marked)
    {
      queue' := queue;
      ghost var data := objects[o].data;
      for i := 0 to |objects[o].data|
        invariant HasShape(h)
        invariant Enqueued(old(gcBit), gcBit, queue, queue', Members(data[..i]), marked)
      {
        var reference := objects[o].data[i];
        assert IsRefSlot(h.objects, h.ctx, o, i);
        ghost var bits, queue0 := gcBit, queue';
        queue' := EnqueueReference(queue', o, reference, marked, h);
        EnqueuedTrans(old(gcBit), bits, gcBit, queue, queue0, queue', Members(data[..i]), iset{reference},
                      Members(data[..i + 1]), marked);
      }
      forall b ensures b in data[..|data|] <==> DataRefersTo(h.objects, h.ctx, o, b) {
        if i: nat :| i < |data| && data[i] == b {
          assert IsRefSlot(h.objects, h.ctx, o, i);
        }
      }
      assert Members(data[..|data|]) == DataTargets(h, o);
    }

    method EnqueueInterfaces(queue: seq<Addr>, c: Addr, marked: bool, ghost h: SoundHeap)
      returns (queue': seq<Addr>)
      requires HasShape(h) && IsClass(objects, c)
      modifies this`gcBit
      ensures Enqueued(old(gcBit), gcBit, queue, queue', Members(File(objects, c).interfaces), marked)
    {
      queue' := queue;
      var interfaces := File(objects, c).interfaces;
      for i := 0 to |interfaces|
        invariant HasShape(h)
        invariant Enqueued(old(gcBit), gcBit, queue, queue', Members(interfaces[..i]), marked)
      {
        ghost var bits, queue0 := gcBit, queue';
        queue' := EnqueueReference(queue', c, interfaces[i], marked, h);
        EnqueuedTrans(old(gcBit), bits, gcBit, queue, queue0, queue', Members(interfaces[..i]),
                      iset{interfaces[i]}, Members(interfaces[..i + 1]), marked);
      }
      assert interfaces[..|interfaces|] == interfaces;
    }

    method EnqueueStatics(queue: seq<Addr>, c: Addr, marked: bool, ghost h: SoundHeap) returns (queue': seq<Addr>)
      requires HasShape(h) && IsClass(objects, c) && File(objects, c).resolved
      modifies this`gcBit
      ensures Enqueued(old(gcBit), gcBit, queue, queue', StaticTargets(File(objects, c)), marked)
    {
      queue' := queue;
      var file := File(objects, c);
      var fields := file.fields;
      for f := 0 to |fields|
        invariant HasShape(h)
        invariant Enqueued(old(gcBit), gcBit, queue, queue', FieldTargets(fields, true, file.statics, f), marked)
      {
        FieldTargetsStep(fields, true, file.statics, f);
        if fields[f].isStatic && fields[f].isReference {
          var slot := fields[f].index;
          assert DeclaresSlot(file, true, slot);
          var reference := file.statics[slot];
          assert StaticsReferTo(file, reference);
          ghost var bits, queue0 := gcBit, queue';
          queue' := EnqueueReference(queue', c, reference, marked, h);
          EnqueuedTrans(old(gcBit), bits, gcBit, queue, queue0, queue', FieldTargets(fields, true, file.statics, f),
                        iset{reference}, FieldTargets(fields, true, file.statics, f + 1), marked);
        }
      }
      assert fields[..|fields|] == fields;
      assert StaticTargets(file) == FieldTargets(fields, true, file.statics, |fields|);
    }

    /** The extra references of a java.lang.Class object: superclass, interfaces, static fields. */
    method EnqueueClass(queue: seq<Addr>, c: Addr, marked: bool, ghost h: SoundHeap) returns (queue': seq<Addr>)
      requires HasShape(h) && IsClass(objects, c)
      modifies this`gcBit
      ensures Enqueued(old(gcBit), gcBit, queue, queue', ClassTargets(File(objects, c)), marked)
    {
      var file := File(objects, c);
      queue' := EnqueueReference(queue, c, file.superClass, marked, h);
      ghost var bits, queue0 := gcBit, queue';
      queue' := EnqueueInterfaces(queue', c, marked, h);
      ghost var direct := iset{file.superClass} + Members(file.interfaces);
      EnqueuedTrans(old(gcBit), bits, gcBit, queue, queue0, queue', iset{file.superClass},
                    Members(file.interfaces), direct, marked);
      ghost var all := ClassTargets(file);
      if file.resolved {
        ghost var bits', queue1 := gcBit, queue';
        queue' := EnqueueStatics(queue', c, marked, h);
        EnqueuedTrans(old(gcBit), bits', gcBit, queue, queue1, queue', direct, StaticTargets(file), all,
                      marked);
      } else {
        assert all == direct;
      }
    }

    /** The first half of a turn of the queue loop: the class of o, then its fields or elements. */
    method EnqueueData(queue: seq<Addr>, o: Addr, marked: bool, ghost h: SoundHeap) returns (queue': seq<Addr>)
      requires HasShape(h) && o in objects
      modifies this`gcBit
      ensures Enqueued(old(gcBit), gcBit, queue, queue',
                       iset{objects[o].clazz} + DataTargets(h, o), marked)
    {
      var clazz := objects[o].clazz;
      queue' := EnqueueReference(queue, o, clazz, marked, h);
      ghost var bits, queue0 := gcBit, queue';
      ghost var data := DataTargets(h, o);
      if !File(objects, clazz).isArray {
        queue' := EnqueueInstanceFields(queue', o, marked, h);
      } else if !File(objects, File(objects, clazz).arrayElement).isPrimitive {
        queue' := EnqueueElements(queue', o, marked, h);
      } else {
        assert data == iset{};
      }
      EnqueuedTrans(old(gcBit), bits, gcBit, queue, queue0, queue', iset{clazz}, data,
                    iset{clazz} + data, marked);
    }

    /** One turn of the queue loop: everything o refers to becomes marked. */
    method EnqueueSuccessors(queue: seq<Addr>, o: Addr, marked: bool, ghost h: SoundHeap)
      returns (queue': seq<Addr>)
      requires HasShape(h) && o in objects
      modifies this`gcBit
      ensures Enqueued(old(gcBit), gcBit, queue, queue', Edges(h)[o], marked)
    {
      queue' := EnqueueData(queue, o, marked, h);
      ghost var targets := iset{objects[o].clazz} + DataTargets(h, o);
      if objects[o].clazz == javaLangClass {
        ghost var bits, queue0 := gcBit, queue';
        queue' := EnqueueClass(queue', o, marked, h);
        ghost var extra := ClassTargets(File(objects, o));
        EnqueuedTrans(old(gcBit), bits, gcBit, queue, queue0, queue', targets, extra, targets + extra, marked);
        targets := targets + extra;
      }
      assert forall b :: b in Edges(h)[o] <==> b in targets && b != NULL;
    }

    /** The body of the queue loop: takes the front object and enqueues what it refers to. */
    method MarkNext(queue: seq<Addr>, marked: bool, ghost live: set<Addr>, ghost h: SoundHeap)
      returns (queue': seq<Addr>)
      requires HasShape(h) && queue != []
      requires forall a :: a in queue ==> a in MarkedSet(gcBit, marked)
      requires MarkedSet(gcBit, marked) <= live && Closed(Edges(h), live)
      requires NoBlackToWhite(gcBit, queue, Edges(h), marked)
      modifies this`gcBit
      ensures HasShape(h)
      ensures forall a :: a in queue' ==> a in MarkedSet(gcBit, marked)
      ensures MarkedSet(old(gcBit), marked) <= MarkedSet(gcBit, marked) <= live
      ensures NoBlackToWhite(gcBit, queue', Edges(h), marked)
      ensures || MarkedSet(gcBit, !marked) < MarkedSet(old(gcBit), !marked)
              || (MarkedSet(gcBit, !marked) == MarkedSet(old(gcBit), !marked) && |queue'| < |queue|)
    {
      var o := queue[0];
      assert o in MarkedSet(gcBit, marked);
      queue' := EnqueueSuccessors(queue[1..], o, marked, h);
      TurnKeepsInvariant(old(gcBit), gcBit, queue, queue', Edges(h), live, marked);
    }

    /** Marks `toMark` and all it leads to, and nothing outside a closed set `live` that holds `toMark`. */
    method MarkRecursively(toMark: Addr, marked: bool, ghost live: set<Addr>, ghost h: SoundHeap)
      requires HasShape(h) && Tracing(Edges(h), gcBit, marked, live)
      requires toMark == NULL || toMark in live
      modifies this`gcBit
      ensures HasShape(h) && Tracing(Edges(h), gcBit, marked, live)
      ensures MarkedSet(old(gcBit), marked) <= MarkedSet(gcBit, marked)
      ensures toMark == NULL || toMark in MarkedSet(gcBit, marked)
    {
      var queue := Enqueue([], toMark, marked);
      assert forall a :: a in MarkedSet(gcBit, marked) <==> a in MarkedSet(old(gcBit), marked) || a == toMark != NULL;
      while queue != []
        invariant HasShape(h)
        invariant forall a :: a in queue ==> a in MarkedSet(gcBit, marked)
        invariant MarkedSet(old(gcBit), marked) <= MarkedSet(gcBit, marked) <= live
        invariant toMark == NULL || toMark in MarkedSet(gcBit, marked)
        invariant NoBlackToWhite(gcBit, queue, Edges(h), marked)
        decreases MarkedSet(gcBit, !marked), |queue|
      {
        queue := MarkNext(queue, marked, live, h);
      }
    }

    /** The loops over the locals and over the live operands of a frame. */
    method MarkWords(slots: seq<Slot>, allObjectPointers: set<Addr>, marked: bool, ghost live: set<Addr>,
                     ghost h: SoundHeap)
      requires HasShape(h) && Tracing(Edges(h), gcBit, marked, live)
      requires allObjectPointers == objects.Keys && SlotRoots(objects, slots) <= live
      modifies this`gcBit
      ensures HasShape(h) && Tracing(Edges(h), gcBit, marked, live)
      ensures MarkedSet(old(gcBit), marked) <= MarkedSet(gcBit, marked)
      ensures SlotRoots(objects, slots) <= MarkedSet(gcBit, marked)
    {
      for i := 0 to |slots|
        invariant HasShape(h) && Tracing(Edges(h), gcBit, marked, live)
        invariant MarkedSet(old(gcBit), marked) <= MarkedSet(gcBit, marked)
        invariant forall j :: 0 <= j < i && IsPotentialPointer(slots[j].word) && slots[j].word in objects ==>
                    slots[j].word in MarkedSet(gcBit, marked)
      {
        var word := slots[i].word;
        if IsPotentialPointer(word) && word in allObjectPointers {
          assert word in SlotRoots(objects, slots);
          MarkRecursively(word, marked, live, h);
        }
      }
    }

    method MarkFrame(frame: Frame, allObjectPointers: set<Addr>, marked: bool, ghost live: set<Addr>,
                     ghost h: SoundHeap)
      requires HasShape(h) && Tracing(Edges(h), gcBit, marked, live)
      requires allObjectPointers == objects.Keys
      requires frame.top <= |frame.operands| && FrameRoots(objects, frame) <= live
      modifies this`gcBit
      ensures HasShape(h) && Tracing(Edges(h), gcBit, marked, live)
      ensures MarkedSet(old(gcBit), marked) <= MarkedSet(gcBit, marked)
      ensures FrameRoots(objects, frame) <= MarkedSet(gcBit, marked)
    {
      MarkWords(frame.locals, allObjectPointers, marked, live, h);
      MarkWords(frame.operands[..frame.top], allObjectPointers, marked, live, h);
    }

    method MarkThread(thread: Thread, allObjectPointers: set<Addr>, marked: bool, ghost live: set<Addr>,
                      ghost h: SoundHeap)
      requires HasShape(h) && Tracing(Edges(h), gcBit, marked, live)
      requires allObjectPointers == objects.Keys
      requires ThreadOk(thread) && ThreadRoots(objects, thread) <= live
      modifies this`gcBit
      ensures HasShape(h) && Tracing(Edges(h), gcBit, marked, live)
      ensures MarkedSet(old(gcBit), marked) <= MarkedSet(gcBit, marked)
      ensures ThreadRoots(objects, thread) <= MarkedSet(gcBit, marked)
    {
      MarkRecursively(thread.exception, marked, live, h);
      MarkRecursively(thread.threadObject, marked, live, h);
      for i := 0 to |thread.frames|
        invariant HasShape(h) && Tracing(Edges(h), gcBit, marked, live)
        invariant MarkedSet(old(gcBit), marked) <= MarkedSet(gcBit, marked)
        invariant thread.exception == NULL || thread.exception in MarkedSet(gcBit, marked)
        invariant thread.threadObject == NULL || thread.threadObject in MarkedSet(gcBit, marked)
        invariant forall j :: 0 <= j < i ==> FrameRoots(objects, thread.frames[j]) <= MarkedSet(gcBit, marked)
      {
        assert FrameRoots(objects, thread.frames[i]) <= ThreadRoots(objects, thread);
        MarkFrame(thread.frames[i], allObjectPointers, marked, live, h);
      }
    }

    /** The set of all known allocations that tells pointers from other words, with the checks of its loops. */
    method AllObjectPointers() returns (pointers: set<Addr>)
      requires forall a :: a in objects <==> a in classes || a in allocations
      requires forall a :: a in objects ==> IsPotentialPointer(a)
      requires forall c :: c in classes ==> objects[c].clazz == javaLangClass
      requires forall a :: a in allocations ==> objects[a].clazz != javaLangClass
      ensures pointers == objects.Keys
    {
      pointers := {};
      for i := 0 to |classes|
        invariant forall a :: a in pointers <==> a in classes[..i]
      {
        assert IsPotentialPointer(classes[i]);
        assert objects[classes[i]].clazz == javaLangClass;
        pointers := pointers + {classes[i]};
      }
      for i := 0 to |allocations|
        invariant forall a :: a in pointers <==> a in classes || a in allocations[..i]
      {
        assert IsPotentialPointer(allocations[i]);
        assert objects[allocations[i]].clazz != javaLangClass;
        pointers := pointers + {allocations[i]};
      }
    }

    method MarkClasses(marked: bool, ghost live: set<Addr>, ghost h: SoundHeap)
      requires HasShape(h) && Tracing(Edges(h), gcBit, marked, live)
      requires forall c :: c in classes ==> c in live
      modifies this`gcBit
      ensures HasShape(h) && Tracing(Edges(h), gcBit, marked, live)
      ensures MarkedSet(old(gcBit), marked) <= MarkedSet(gcBit, marked)
      ensures forall c :: c in classes ==> c in MarkedSet(gcBit, marked)
    {
      for i := 0 to |classes|
        invariant HasShape(h) && Tracing(Edges(h), gcBit, marked, live)
        invariant MarkedSet(old(gcBit), marked) <= MarkedSet(gcBit, marked)
        invariant forall c :: c in classes[..i] ==> c in MarkedSet(gcBit, marked)
      {
        MarkRecursively(classes[i], marked, live, h);
      }
    }

    method MarkThreads(threads: seq<Thread>, allObjectPointers: set<Addr>, marked: bool, ghost live: set<Addr>,
                       ghost h: SoundHeap)
      requires HasShape(h) && Tracing(Edges(h), gcBit, marked, live)
      requires allObjectPointers == objects.Keys
      requires forall t :: t in threads ==> ThreadOk(t) && ThreadRoots(objects, t) <= live
      modifies this`gcBit
      ensures HasShape(h) && Tracing(Edges(h), gcBit, marked, live)
      ensures MarkedSet(old(gcBit), marked) <= MarkedSet(gcBit, marked)
      ensures forall t :: t in threads ==> ThreadRoots(objects, t) <= MarkedSet(gcBit, marked)
    {
      for i := 0 to |threads|
        invariant HasShape(h) && Tracing(Edges(h), gcBit, marked, live)
        invariant MarkedSet(old(gcBit), marked) <= MarkedSet(gcBit, marked)
        invariant forall t :: t in threads[..i] ==> ThreadRoots(objects, t) <= MarkedSet(gcBit, marked)
      {
        MarkThread(threads[i], allObjectPointers, marked, live, h);
      }
    }

    method MarkRoots(threads: seq<Thread>, allObjectPointers: set<Addr>, marked: bool, ghost live: set<Addr>,
                     ghost h: SoundHeap)
      requires HasShape(h) && Tracing(Edges(h), gcBit, marked, live) && allObjectPointers == objects.Keys
      requires ThreadsOk(objects, threads) && Roots(State(), threads) <= live
      modifies this`gcBit
      ensures HasShape(h) && Tracing(Edges(h), gcBit, marked, live)
      ensures Roots(State(), threads) <= MarkedSet(gcBit, marked)
      ensures forall c :: c in classes ==> c in MarkedSet(gcBit, marked)
    {
      ghost var roots := Roots(State(), threads);
      assert forall c :: c in classes ==> c in roots;
      MarkClasses(marked, live, h);
      forall t | t in threads ensures ThreadRoots(objects, t) <= live {
        assert ThreadRoots(objects, t) <= roots;
      }
      MarkThreads(threads, allObjectPointers, marked, live, h);
    }

    /** Entered with nothing marked, marks exactly the live objects. */
    method Mark(threads: seq<Thread>, marked: bool)
      requires Valid() && ThreadsOk(objects, threads) && MarkedSet(gcBit, marked) == {}
      modifies this`gcBit
      ensures gcBit.Keys == objects.Keys
      ensures MarkedSet(gcBit, marked) == Live(old(State()), Ctx(), threads)
      ensures forall c :: c in classes ==> c in MarkedSet(gcBit, marked)
    {
      ghost var h: SoundHeap := Shape(objects, Ctx());
      ghost var live := Live(State(), Ctx(), threads);
      LiveIsClosed(State(), Ctx(), threads);
      var allObjectPointers := AllObjectPointers();
      MarkRoots(threads, allObjectPointers, marked, live, h);
    }

    /** erase_if on interned_strings: the entries whose string still has the bit `unmarked`. */
    method EraseStrings(unmarked: bool)
      requires forall k :: k in internedStrings ==> internedStrings[k] in gcBit
      modifies this`internedStrings
      ensures internedStrings == LiveStrings(old(internedStrings), MarkedSet(gcBit, !unmarked))
    {
      var was, todo := internedStrings, internedStrings.Keys;
      var kept: map<string, Addr> := map[];
      while todo != {}
        invariant todo <= was.Keys
        invariant forall k :: k in kept <==> k in was && k !in todo && gcBit[was[k]] != unmarked
        invariant forall k :: k in kept ==> kept[k] == was[k]
        decreases |todo|
      {
        var k :| k in todo;
        if gcBit[was[k]] != unmarked {
          kept := kept[k := was[k]];
        }
        todo := todo - {k};
      }
      internedStrings := kept;
    }

    /** erase_if on allocations: the erased objects are freed when the pass is over. */
    method EraseAllocations(unmarked: bool) returns (erased: nat)
      requires forall a :: a in allocations ==> a in gcBit
      modifies this`allocations, this`objects, this`gcBit
      ensures allocations == Keep(old(allocations), MarkedSet(old(gcBit), !unmarked))
      ensures erased == |old(allocations)| - |allocations|
      ensures objects == old(objects) - Freed(old(allocations), old(gcBit), unmarked)
      ensures gcBit == old(gcBit) - Freed(old(allocations), old(gcBit), unmarked)
    {
      var was, bits := allocations, gcBit;
      var kept: seq<Addr> := [];
      var freed: set<Addr> := {};
      for i := 0 to |was|
        invariant objects == old(objects) && gcBit == bits
        invariant kept == Keep(was[..i], MarkedSet(bits, !unmarked)) && |kept| <= i
        invariant forall a :: a in freed <==> a in was[..i] && bits[a] == unmarked
      {
        KeepNext(was, i, MarkedSet(bits, !unmarked));
        assert was[..i + 1] == was[..i] + [was[i]];
        if bits[was[i]] == unmarked {
          freed := freed + {was[i]};
        } else {
          kept := kept + [was[i]];
        }
      }
      assert was[..|was|] == was;
      assert freed == Freed(was, bits, unmarked);
      erased := |was| - |kept|;
      allocations, objects, gcBit := kept, objects - freed, gcBit - freed;
    }

    /** erase_if on classes, with its assertion: nothing is erased. */
    method EraseClasses(unmarked: bool) returns (erased: nat)
      requires forall c :: c in classes ==> c in gcBit && gcBit[c] != unmarked
      modifies this`classes
      ensures classes == old(classes) && erased == 0
    {
      var was := classes;
      var kept: seq<Addr> := [];
      for i := 0 to |was|
        invariant kept == was[..i]
      {
        assert gcBit[was[i]] != unmarked;
        if gcBit[was[i]] != unmarked {
          kept := kept + [was[i]];
        }
      }
      erased := |was| - |kept|;
      classes := kept;
    }

    /**
     Drops every intern entry, then every allocation and class, whose object still has the bit `unmarked`; returns
     how many allocations and classes that were. The table is weak: its entries are not roots.
     */
    method Sweep(unmarked: bool) returns (erased: nat)
      requires Sweepable(objects, allocations, classes, internedStrings)
      requires gcBit.Keys == objects.Keys && unmarked == gcBitUnmarked
      requires forall c :: c in classes ==> c in MarkedSet(gcBit, !unmarked)
      modifies this
      ensures State() == Swept(old(State()), MarkedSet(old(gcBit), !unmarked)).(unmarked := unmarked)
      ensures erased == |old(allocations)| + |old(classes)| - |allocations| - |classes|
    {
      ghost var s := State();
      EraseStrings(unmarked);
      erased := EraseAllocations(unmarked);
      var erasedClasses := EraseClasses(unmarked);
      erased := erased + erasedClasses;
      SweepIsSwept(s, State(), unmarked);
    }

    /** The body of garbage_collection, between its two assertions. */
    method MarkAndSweep(threads: seq<Thread>) returns (deleted: nat)
      requires Valid() && ThreadsOk(objects, threads) && AllUnmarked(State())
      modifies this
      ensures State() == Collected(old(State()), Ctx(), threads)
      ensures deleted == |old(allocations)| + |old(classes)| - |allocations| - |classes|
    {
      ghost var s := State();
      RegisteredIsSweepable(s);
      Mark(threads, !gcBitUnmarked);
      SweptIgnoresBits(s, State(), Live(s, Ctx(), threads));
      deleted := Sweep(gcBitUnmarked);
      gcBitUnmarked := !gcBitUnmarked;
    }

    /** One collection. Its entry assertion is the second precondition, its exit assertion the last postcondition. */
    method GarbageCollection(threads: seq<Thread>) returns (deleted: nat)
      requires Valid() && ThreadsOk(objects, threads)
      requires AllUnmarked(State())
      modifies this
      ensures State() == Collected(old(State()), Ctx(), threads)
      ensures deleted == |old(allocations)| + |old(classes)| - |allocations| - |classes|
      ensures Valid() && ThreadsOk(objects, threads)
      ensures AllUnmarked(State())
    {
      CollectionKeepsInvariant(State(), Ctx(), threads);
      deleted := MarkAndSweep(threads);
    }

    /** JVM_GC: a collection, and a second one that must find nothing. */
    method JvmGc(threads: seq<Thread>)
      requires Valid() && ThreadsOk(objects, threads)
      requires AllUnmarked(State())
      modifies this
      ensures State() == AfterGc(old(State()), Live(old(State()), Ctx(), threads))
      ensures Valid() && ThreadsOk(objects, threads) && AllUnmarked(State())
    {
      ghost var s := State();
      var deleted := GarbageCollection(threads);
      SecondCollectionFreesNothing(s, Ctx(), threads);
      deleted := GarbageCollection(threads);
      assert deleted == 0;
    }

    /** allocate_array, given the address that operator new returned. */
    method AllocateArray(address: Addr, clazz: Addr, length: nat) returns (reference: Addr)
      requires Valid() && CanAllocate(State(), Ctx(), address, clazz, length)
      modifies this
      ensures reference == address && State() == Allocated(old(State()), address, clazz, length)
    {
      var o := NewObject(clazz, length, nextSerial);
      objects, gcBit := objects[address := o], gcBit[address := false];
      allocations, nextSerial := allocations + [address], nextSerial + 1;
      reference := address;
    }

    /** allocate_class, with what the parser or make_builtin_class then writes into the object. */
    method AllocateClass(address: Addr, file: ClassFile, data: seq<Addr>) returns (reference: Addr)
      requires Valid() && CanLoadClass(State(), Ctx(), address, file, data)
      modifies this
      ensures reference == address && State() == LoadedClass(old(State()), Ctx(), address, file, data)
    {
      objects := objects[address := Object(javaLangClass, data, Some(file), nextSerial)];
      gcBit := gcBit[address := false];
      classes, nextSerial := classes + [address], nextSerial + 1;
      reference := address;
    }

    method StoreData(o: Addr, slot: nat, word: nat)
      requires o in objects && slot < |objects[o].data|
      modifies this`objects
      ensures State() == Stored(old(State()), o, slot, word)
    {
      objects := objects[o := objects[o].(data := objects[o].data[slot := word])];
    }

    /** make_string for UTF-16 text of `length` bytes, given the addresses of the two allocations. */
    method MakeString(cs: StringClasses, chars: Addr, str: Addr, length: nat) returns (reference: Addr)
      requires Valid() && CanLoadString(State(), Ctx(), cs, chars, str, length)
      modifies this
      ensures reference == str && State() == MadeString(old(State()), cs, chars, str, length)
    {
      TwoAllocationsAreSafe(State(), Ctx(), cs, chars, str, length);
      ghost var s := State();
      ghost var o := NewObject(cs.javaString, cs.fieldCount, s.nextSerial + 1);
      AllocatableLater(s, Ctx(), chars, cs.byteArray, length, o);
      AllocationIsSafe(s, Ctx(), chars, cs.byteArray, length);
      var charArray := AllocateArray(chars, cs.byteArray, length);
      reference := AllocateArray(str, cs.javaString, cs.fieldCount);
      StoreData(reference, VALUE_SLOT, charArray);
      StoreData(reference, CODER_SLOT, UTF16);
    }

    /** load_string: a literal that is in the table gives the entry, any other a new String that becomes the entry. */
    method LoadString(literal: string, cs: StringClasses, chars: Addr, str: Addr, length: nat)
      returns (reference: Addr)
      requires Valid() && CanLoadString(State(), Ctx(), cs, chars, str, length)
      modifies this
      ensures State() == LoadedString(old(State()), cs, literal, chars, str, length)
      ensures literal in internedStrings && reference == internedStrings[literal]
      ensures literal in old(internedStrings) ==> reference == old(internedStrings)[literal]
    {
      if literal in internedStrings {
        return internedStrings[literal];
      }
      reference := MakeString(cs, chars, str, length);
      internedStrings := internedStrings[literal := reference];
    }
  }
}
