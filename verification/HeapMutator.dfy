/** What the running program does to the heap between collections: allocation, stores and string literals. */
module Mutator {
  import opened Options
  import opened Reachability
  import opened HeapModel

  // ---- allocation ----

  /** An object that may be allocated: not a class, and long enough for every reference slot of its class. */
  ghost predicate Allocatable(objects: Objects, ctx: Context, o: Object)
    requires Shaped(objects, ctx)
  {
    && o.file == None && IsClass(objects, o.clazz) && o.clazz != ctx.javaLangClass
    && var file := File(objects, o.clazz);
       if file.isArray then IsClass(objects, file.arrayElement)
       else file.resolved && forall i: nat :: IsInstanceSlot(objects, ctx.rank, o.clazz, i) ==> i < |o.data|
  }

  /** A zeroed object. */
  function NewObject(clazz: Addr, length: nat, serial: nat): Object
  {
    Object(clazz, seq(length, _ => NULL), None, serial)
  }

  /** operator new returned the fresh address a. */
  ghost predicate CanAllocate(s: HeapState, ctx: Context, a: Addr, clazz: Addr, length: nat)
    requires Shaped(s.objects, ctx)
  {
    a !in s.objects && IsPotentialPointer(a) && Allocatable(s.objects, ctx, NewObject(clazz, length, s.nextSerial))
  }

  /** The mark bit of a new object is false whatever the polarity is. */
  function Allocated(s: HeapState, a: Addr, clazz: Addr, length: nat): HeapState
  {
    s.(objects := s.objects[a := NewObject(clazz, length, s.nextSerial)],
       gcBit := s.gcBit[a := false],
       allocations := s.allocations + [a],
       nextSerial := s.nextSerial + 1)
  }

  // ---- stores ----

  function StoredObject(o: Object, i: nat, word: nat): Object
    requires i < |o.data|
  {
    o.(data := o.data[i := word])
  }

  function Stored(s: HeapState, a: Addr, i: nat, word: nat): HeapState
    requires a in s.objects && i < |s.objects[a].data|
  {
    s.(objects := s.objects[a := StoredObject(s.objects[a], i, word)])
  }

  function StaticStoredObject(o: Object, i: nat, word: nat): Object
    requires o.file.Some? && i < |o.file.value.statics|
  {
    o.(file := Some(o.file.value.(statics := o.file.value.statics[i := word])))
  }

  function StaticStored(s: HeapState, c: Addr, i: nat, word: nat): HeapState
    requires IsClass(s.objects, c) && i < |File(s.objects, c).statics|
  {
    s.(objects := s.objects[c := StaticStoredObject(s.objects[c], i, word)])
  }

  /** A new object is the only change, and all its words are zero. */
  lemma NewObjectIsZeroed(s: HeapState, a: Addr, clazz: Addr, length: nat)
    requires a !in s.objects
    ensures var s' := Allocated(s, a, clazz, length);
            && a in s'.objects && s'.objects - {a} == s.objects
            && s'.allocations == s.allocations + [a] && s'.classes == s.classes && s'.interned == s.interned
            && s'.objects[a].clazz == clazz && s'.objects[a].file.None? && |s'.objects[a].data| == length
            && forall i :: 0 <= i < length ==> s'.objects[a].data[i] == 0
  {
    assert Allocated(s, a, clazz, length).objects - {a} == s.objects;
  }

  /** A store changes one word of one object. */
  lemma StoreChangesOneWord(s: HeapState, a: Addr, i: nat, word: nat, b: Addr, j: nat)
    requires a in s.objects && i < |s.objects[a].data| && b in s.objects && j < |s.objects[b].data|
    ensures var s' := Stored(s, a, i, word);
            && s'.(objects := s.objects) == s && s'.objects.Keys == s.objects.Keys
            && s'.objects[b].(data := s.objects[b].data) == s.objects[b] && |s'.objects[b].data| == |s.objects[b].data|
            && s'.objects[b].data[j] == if b == a && j == i then word else s.objects[b].data[j]
  {
  }

  lemma StaticStoreChangesOneWord(s: HeapState, c: Addr, i: nat, word: nat, b: Addr, j: nat)
    requires c in s.objects && s.objects[c].file.Some? && i < |s.objects[c].file.value.statics|
    requires b in s.objects && s.objects[b].file.Some? && j < |s.objects[b].file.value.statics|
    ensures var s' := StaticStored(s, c, i, word);
            && s'.(objects := s.objects) == s && s'.objects.Keys == s.objects.Keys
            && s'.objects[b].(file := s.objects[b].file) == s.objects[b] && s'.objects[b].file.Some?
            && var statics := s'.objects[b].file.value.statics;
               && s'.objects[b].file.value.(statics := s.objects[b].file.value.statics) == s.objects[b].file.value
               && |statics| == |s.objects[b].file.value.statics|
               && statics[j] == if b == c && j == i then word else s.objects[b].file.value.statics[j]
  {
  }

  // ---- one changed or added object ----

  /** o' may take the place of o: same class, same length, same file up to static values. */
  predicate SameForm(o: Object, o': Object)
  {
    && o'.clazz == o.clazz && |o'.data| == |o.data|
    && (o.file.Some? <==> o'.file.Some?)
    && (o.file.Some? ==>
          && o'.file.value == o.file.value.(statics := o'.file.value.statics)
          && |o'.file.value.statics| == |o.file.value.statics|)
  }

  lemma UpdateKeepsClasses(objects: Objects, a: Addr, o: Object)
    requires if a in objects then SameForm(objects[a], o) else o.file == None
    ensures SameClasses(objects, objects[a := o])
  {
  }

  lemma UpdateKeepsTyped(objects: Objects, ctx: Context, a: Addr, o: Object)
    requires Shaped(objects, ctx) && a != NULL
    requires if a in objects then SameForm(objects[a], o) else Allocatable(objects, ctx, o)
    ensures Typed(objects[a := o], ctx) && SameClasses(objects, objects[a := o])
  {
    UpdateKeepsClasses(objects, a, o);
  }

  lemma UpdateKeepsShape(objects: Objects, ctx: Context, a: Addr, o: Object)
    requires Shaped(objects, ctx) && a != NULL
    requires if a in objects then SameForm(objects[a], o) else Allocatable(objects, ctx, o)
    ensures Shaped(objects[a := o], ctx)
    ensures forall b, i: nat :: b in objects ==>
      IsRefSlot(objects[a := o], ctx, b, i) == IsRefSlot(objects, ctx, b, i)
  {
    var objects' := objects[a := o];
    UpdateKeepsTyped(objects, ctx, a, o);
    forall b, i: nat | b in objects ensures IsRefSlot(objects', ctx, b, i) == IsRefSlot(objects, ctx, b, i) {
      RefSlotSame(objects, objects', ctx, b, i);
    }
    forall c, i: nat | IsClass(objects', c) && File(objects', c).resolved && DeclaresSlot(File(objects', c), true, i)
      ensures i < |File(objects', c).statics|
    {
      assert DeclaresSlot(File(objects, c), true, i);
    }
    if a !in objects {
      forall i: nat | IsRefSlot(objects', ctx, a, i) ensures i < |o.data| {
        InstanceSlotSame(objects, objects', ctx.rank, o.clazz, i);
      }
    }
  }

  /** The edges out of the other objects stay, so only those out of a are left to check. */
  lemma UpdateIsSafe(h: SoundHeap, a: Addr, o: Object)
    requires a != NULL
    requires if a in h.objects then SameForm(h.objects[a], o) else Allocatable(h.objects, h.ctx, o)
    requires Shaped(h.objects[a := o], h.ctx)
    requires forall b :: RefersTo(h.objects[a := o], h.ctx, a, b) ==> b in h.objects || b == a
    ensures Sound(Shape(h.objects[a := o], h.ctx))
  {
    var objects' := h.objects[a := o];
    UpdateKeepsClasses(h.objects, a, o);
    forall b, c | b in objects' && RefersTo(objects', h.ctx, b, c) ensures c in objects' {
      if b != a {
        RefersToSame(h.objects, objects', h.ctx, b, c);
        assert c in Edges(h)[b];
      }
    }
  }

  /** A set that is closed under the edges stays so, with a in it, if the new edges of a lead into it. */
  lemma ClosedAfterUpdate(h: SoundHeap, a: Addr, o: Object, known: set<Addr>)
    requires a != NULL && Closed(Edges(h), known)
    requires if a in h.objects then SameForm(h.objects[a], o) else Allocatable(h.objects, h.ctx, o)
    requires Shaped(h.objects[a := o], h.ctx)
    requires forall b :: RefersTo(h.objects[a := o], h.ctx, a, b) ==> b in known || b == a
    ensures Closed(EdgeGraph(h.objects[a := o], h.ctx), known + {a})
  {
    var objects' := h.objects[a := o];
    UpdateKeepsClasses(h.objects, a, o);
    forall b, c | b in known + {a} && b in objects' && RefersTo(objects', h.ctx, b, c) ensures c in known + {a} {
      if b != a {
        RefersToSame(h.objects, objects', h.ctx, b, c);
        assert c in Edges(h)[b];
      }
    }
  }

  // ---- the three operations ----

  /** A new object refers to its class alone. */
  lemma AllocationTargets(h: SoundHeap, a: Addr, clazz: Addr, length: nat, serial: nat, b: Addr)
    requires a !in h.objects && a != NULL && Allocatable(h.objects, h.ctx, NewObject(clazz, length, serial))
    requires Shaped(h.objects[a := NewObject(clazz, length, serial)], h.ctx)
    requires RefersTo(h.objects[a := NewObject(clazz, length, serial)], h.ctx, a, b)
    ensures b == clazz
  {
  }

  /** A store adds no edge but one to the word, if the slot is one for references. */
  lemma StoreTargets(h: SoundHeap, a: Addr, i: nat, word: nat, b: Addr)
    requires a in h.objects && i < |h.objects[a].data|
    requires Shaped(h.objects[a := StoredObject(h.objects[a], i, word)], h.ctx)
    requires RefersTo(h.objects[a := StoredObject(h.objects[a], i, word)], h.ctx, a, b)
    ensures b in Edges(h)[a] || (b == word != NULL && IsRefSlot(h.objects, h.ctx, a, i))
  {
    var o := StoredObject(h.objects[a], i, word);
    UpdateKeepsShape(h.objects, h.ctx, a, o);
    if DataRefersTo(h.objects[a := o], h.ctx, a, b) {
      var j: nat :| IsRefSlot(h.objects[a := o], h.ctx, a, j) && o.data[j] == b;
      if j != i {
        assert DataRefersTo(h.objects, h.ctx, a, b);
      }
    }
  }

  lemma StaticStoreTargets(h: SoundHeap, c: Addr, i: nat, word: nat, b: Addr)
    requires IsClass(h.objects, c) && i < |File(h.objects, c).statics|
    requires Shaped(h.objects[c := StaticStoredObject(h.objects[c], i, word)], h.ctx)
    requires RefersTo(h.objects[c := StaticStoredObject(h.objects[c], i, word)], h.ctx, c, b)
    ensures b in Edges(h)[c] || (b == word != NULL && DeclaresSlot(File(h.objects, c), true, i))
  {
    var o := StaticStoredObject(h.objects[c], i, word);
    UpdateKeepsShape(h.objects, h.ctx, c, o);
    if b == o.clazz || DataRefersTo(h.objects[c := o], h.ctx, c, b) {
      assert DataRefersTo(h.objects[c := o], h.ctx, c, b) ==> DataRefersTo(h.objects, h.ctx, c, b);
    } else {
      StaticStoreTarget(File(h.objects, c), o.file.value, i, word, b);
    }
  }

  lemma AllocationIsSound(h: SoundHeap, a: Addr, clazz: Addr, length: nat, serial: nat)
    requires a !in h.objects && a != NULL && Allocatable(h.objects, h.ctx, NewObject(clazz, length, serial))
    ensures Sound(Shape(h.objects[a := NewObject(clazz, length, serial)], h.ctx))
  {
    var o := NewObject(clazz, length, serial);
    UpdateKeepsShape(h.objects, h.ctx, a, o);
    forall b | RefersTo(h.objects[a := o], h.ctx, a, b) ensures b in h.objects {
      AllocationTargets(h, a, clazz, length, serial, b);
    }
    UpdateIsSafe(h, a, o);
  }

  /** A word stored in a reference slot is null or an object; a store makes no other new edge. */
  lemma StoreIsSound(h: SoundHeap, a: Addr, i: nat, word: nat)
    requires a in h.objects && i < |h.objects[a].data|
    requires IsRefSlot(h.objects, h.ctx, a, i) ==> word == NULL || word in h.objects
    ensures Sound(Shape(h.objects[a := StoredObject(h.objects[a], i, word)], h.ctx))
  {
    var o := StoredObject(h.objects[a], i, word);
    UpdateKeepsShape(h.objects, h.ctx, a, o);
    forall b | RefersTo(h.objects[a := o], h.ctx, a, b) ensures b in h.objects {
      StoreTargets(h, a, i, word, b);
    }
    UpdateIsSafe(h, a, o);
  }

  lemma StaticStoreIsSound(h: SoundHeap, c: Addr, i: nat, word: nat)
    requires IsClass(h.objects, c) && i < |File(h.objects, c).statics|
    requires DeclaresSlot(File(h.objects, c), true, i) ==> word == NULL || word in h.objects
    ensures Sound(Shape(h.objects[c := StaticStoredObject(h.objects[c], i, word)], h.ctx))
  {
    var o := StaticStoredObject(h.objects[c], i, word);
    UpdateKeepsShape(h.objects, h.ctx, c, o);
    forall b | RefersTo(h.objects[c := o], h.ctx, c, b) ensures b in h.objects {
      StaticStoreTargets(h, c, i, word, b);
    }
    UpdateIsSafe(h, c, o);
  }

  lemma StaticStoreTarget(file: ClassFile, file': ClassFile, i: nat, word: nat, b: Addr)
    requires i < |file.statics| && file' == file.(statics := file.statics[i := word])
    requires ClassRefersTo(file', b)
    ensures ClassRefersTo(file, b) || (b == word && DeclaresSlot(file, true, i))
  {
    if file.resolved && StaticsReferTo(file', b) {
      var j: nat :| DeclaresSlot(file', true, j) && j < |file'.statics| && file'.statics[j] == b;
      assert DeclaresSlot(file, true, j);
    }
  }

  // ---- the heap invariant ----

  lemma AllocationIsRegistered(s: HeapState, a: Addr, clazz: Addr, length: nat)
    requires Registered(s) && a !in s.objects && IsPotentialPointer(a)
    ensures Registered(Allocated(s, a, clazz, length))
  {
    var s' := Allocated(s, a, clazz, length);
    forall b ensures b in s'.allocations <==> b in s'.objects && !IsClass(s'.objects, b) {
    }
  }

  lemma UpdateIsRegistered(s: HeapState, a: Addr, o: Object)
    requires Registered(s) && a in s.objects && SameForm(s.objects[a], o) && o.serial == s.objects[a].serial
    ensures Registered(s.(objects := s.objects[a := o]))
  {
    var s' := s.(objects := s.objects[a := o]);
    assert forall b :: IsClass(s'.objects, b) == IsClass(s.objects, b);
  }

  lemma AllocationIsSafe(s: HeapState, ctx: Context, a: Addr, clazz: Addr, length: nat)
    requires WellFormed(s, ctx) && CanAllocate(s, ctx, a, clazz, length)
    ensures WellFormed(Allocated(s, a, clazz, length), ctx)
  {
    AllocationIsSound(Shape(s.objects, ctx), a, clazz, length, s.nextSerial);
    AllocationIsRegistered(s, a, clazz, length);
  }

  lemma StoreIsSafe(s: HeapState, ctx: Context, a: Addr, i: nat, word: nat)
    requires WellFormed(s, ctx) && a in s.objects && i < |s.objects[a].data|
    requires IsRefSlot(s.objects, ctx, a, i) ==> word == NULL || word in s.objects
    ensures WellFormed(Stored(s, a, i, word), ctx)
  {
    StoreIsSound(Shape(s.objects, ctx), a, i, word);
    UpdateIsRegistered(s, a, StoredObject(s.objects[a], i, word));
  }

  lemma StaticStoreIsSafe(s: HeapState, ctx: Context, c: Addr, i: nat, word: nat)
    requires WellFormed(s, ctx) && IsClass(s.objects, c) && i < |File(s.objects, c).statics|
    requires DeclaresSlot(File(s.objects, c), true, i) ==> word == NULL || word in s.objects
    ensures WellFormed(StaticStored(s, c, i, word), ctx)
  {
    StaticStoreIsSound(Shape(s.objects, ctx), c, i, word);
    UpdateIsRegistered(s, c, StaticStoredObject(s.objects[c], i, word));
  }

  // ---- string literals ----

  /** The classes that make_string needs, and the number of instance fields of java.lang.String. */
  datatype StringClasses = StringClasses(byteArray: Addr, javaString: Addr, fieldCount: nat)

  const VALUE_SLOT: nat := 0
  const CODER_SLOT: nat := 1

  /** JavaString::Utf16 */
  const UTF16: nat := 1

  /** load_string may have to allocate: slot 0 of String is a reference, slot 1 (the coder) is not. */
  ghost predicate CanLoadString(s: HeapState, ctx: Context, cs: StringClasses, chars: Addr, str: Addr, length: nat)
    requires Shaped(s.objects, ctx)
  {
    && chars != str && 2 <= cs.fieldCount
    && CanAllocate(s, ctx, chars, cs.byteArray, length)
    && CanAllocate(s, ctx, str, cs.javaString, cs.fieldCount)
    && !File(s.objects, cs.javaString).isArray
    && !IsInstanceSlot(s.objects, ctx.rank, cs.javaString, CODER_SLOT)
  }

  /** make_string: the character array, then the String that refers to it. */
  function MadeString(s: HeapState, cs: StringClasses, chars: Addr, str: Addr, length: nat): HeapState
    requires chars != str && 2 <= cs.fieldCount
  {
    var s1 := Allocated(s, chars, cs.byteArray, length);
    var s2 := Allocated(s1, str, cs.javaString, cs.fieldCount);
    Stored(Stored(s2, str, VALUE_SLOT, chars), str, CODER_SLOT, UTF16)
  }

  /** load_string: the table entry if there is one, otherwise a new String that becomes the entry. */
  function LoadedString(s: HeapState, cs: StringClasses, literal: string, chars: Addr, str: Addr, length: nat)
    : HeapState
    requires chars != str && 2 <= cs.fieldCount
  {
    if literal in s.interned then s
    else
      var s' := MadeString(s, cs, chars, str, length);
      s'.(interned := s'.interned[literal := str])
  }

  lemma AllocatableLater(s: HeapState, ctx: Context, a: Addr, clazz: Addr, length: nat, o: Object)
    requires WellFormed(s, ctx) && CanAllocate(s, ctx, a, clazz, length) && Allocatable(s.objects, ctx, o)
    ensures Shaped(Allocated(s, a, clazz, length).objects, ctx)
    ensures Allocatable(Allocated(s, a, clazz, length).objects, ctx, o)
  {
    var objects' := s.objects[a := NewObject(clazz, length, s.nextSerial)];
    UpdateKeepsShape(s.objects, ctx, a, NewObject(clazz, length, s.nextSerial));
    UpdateKeepsClasses(s.objects, a, NewObject(clazz, length, s.nextSerial));
    forall i: nat
      ensures IsInstanceSlot(objects', ctx.rank, o.clazz, i) == IsInstanceSlot(s.objects, ctx.rank, o.clazz, i)
    {
      InstanceSlotSame(s.objects, objects', ctx.rank, o.clazz, i);
    }
  }

  lemma CoderIsNoReference(s: HeapState, ctx: Context, a: Addr, o: Object, clazz: Addr)
    requires Shaped(s.objects, ctx) && a != NULL && IsClass(s.objects, clazz)
    requires if a in s.objects then SameForm(s.objects[a], o) else Allocatable(s.objects, ctx, o)
    requires !IsInstanceSlot(s.objects, ctx.rank, clazz, CODER_SLOT)
    ensures Shaped(s.objects[a := o], ctx) && !IsInstanceSlot(s.objects[a := o], ctx.rank, clazz, CODER_SLOT)
  {
    UpdateKeepsShape(s.objects, ctx, a, o);
    UpdateKeepsClasses(s.objects, a, o);
    InstanceSlotSame(s.objects, s.objects[a := o], ctx.rank, clazz, CODER_SLOT);
  }

  lemma TwoAllocationsAreSafe(s: HeapState, ctx: Context, cs: StringClasses, chars: Addr, str: Addr, length: nat)
    requires WellFormed(s, ctx) && CanLoadString(s, ctx, cs, chars, str, length)
    ensures var s2 := Allocated(Allocated(s, chars, cs.byteArray, length), str, cs.javaString, cs.fieldCount);
            && WellFormed(s2, ctx) && IsClass(s2.objects, cs.javaString) && !File(s2.objects, cs.javaString).isArray
            && !IsInstanceSlot(s2.objects, ctx.rank, cs.javaString, CODER_SLOT)
  {
    var s1 := Allocated(s, chars, cs.byteArray, length);
    var o := NewObject(cs.javaString, cs.fieldCount, s1.nextSerial);
    AllocationIsSafe(s, ctx, chars, cs.byteArray, length);
    CoderIsNoReference(s, ctx, chars, NewObject(cs.byteArray, length, s.nextSerial), cs.javaString);
    AllocatableLater(s, ctx, chars, cs.byteArray, length, o);
    AllocationIsSafe(s1, ctx, str, cs.javaString, cs.fieldCount);
    CoderIsNoReference(s1, ctx, str, o, cs.javaString);
  }

  lemma MadeStringIsSafe(s: HeapState, ctx: Context, cs: StringClasses, chars: Addr, str: Addr, length: nat)
    requires WellFormed(s, ctx) && CanLoadString(s, ctx, cs, chars, str, length)
    ensures WellFormed(MadeString(s, cs, chars, str, length), ctx)
  {
    TwoAllocationsAreSafe(s, ctx, cs, chars, str, length);
    var s2 := Allocated(Allocated(s, chars, cs.byteArray, length), str, cs.javaString, cs.fieldCount);
    StoreIsSafe(s2, ctx, str, VALUE_SLOT, chars);
    var o := StoredObject(s2.objects[str], VALUE_SLOT, chars);
    CoderIsNoReference(s2, ctx, str, o, cs.javaString);
    StoreIsSafe(Stored(s2, str, VALUE_SLOT, chars), ctx, str, CODER_SLOT, UTF16);
  }

  lemma LoadedStringIsSafe(s: HeapState, ctx: Context, cs: StringClasses, literal: string, chars: Addr, str: Addr,
                           length: nat)
    requires WellFormed(s, ctx) && CanLoadString(s, ctx, cs, chars, str, length)
    ensures WellFormed(LoadedString(s, cs, literal, chars, str, length), ctx)
  {
    MadeStringIsSafe(s, ctx, cs, chars, str, length);
  }

  /** The two new objects; everything else is as before. */
  lemma MadeObjects(s: HeapState, cs: StringClasses, chars: Addr, str: Addr, length: nat)
    requires chars != str && chars !in s.objects && str !in s.objects && 2 <= cs.fieldCount
    ensures var objects' := MadeString(s, cs, chars, str, length).objects;
            && chars in objects' && str in objects'
            && |objects'[chars].data| == length && objects'[chars].clazz == cs.byteArray && objects'[chars].file.None?
            && 2 <= |objects'[str].data| && objects'[str].data[VALUE_SLOT] == chars
            && objects'[str].data[CODER_SLOT] == UTF16
            && objects'[str].clazz == cs.javaString && objects'[str].file.None?
            && (forall a :: a in s.objects ==> a in objects' && objects'[a] == s.objects[a])
            && forall a :: a in objects' ==> a in s.objects || a == chars || a == str
  {
  }

  /** A new String holds its characters in a reference slot, so they live as long as it does. */
  lemma StringKeepsItsCharacters(s: HeapState, ctx: Context, cs: StringClasses, chars: Addr, str: Addr, length: nat)
    requires WellFormed(s, ctx) && CanLoadString(s, ctx, cs, chars, str, length)
    requires IsInstanceSlot(s.objects, ctx.rank, cs.javaString, VALUE_SLOT)
    ensures var s' := MadeString(s, cs, chars, str, length);
            WellFormed(s', ctx) && chars in s'.objects && str in s'.objects && RefersTo(s'.objects, ctx, str, chars)
  {
    MadeStringIsSafe(s, ctx, cs, chars, str, length);
    MadeObjects(s, cs, chars, str, length);
    CharactersAreReferred(s.objects, MadeString(s, cs, chars, str, length).objects, ctx, cs, chars, str);
  }

  lemma CharactersAreReferred(objects: Objects, objects': Objects, ctx: Context, cs: StringClasses, chars: Addr,
                              str: Addr)
    requires Shaped(objects, ctx) && Shaped(objects', ctx) && IsClass(objects, cs.javaString)
    requires str in objects' && objects'[str].clazz == cs.javaString && chars != NULL
    requires !File(objects, cs.javaString).isArray
    requires |objects'[str].data| > 0 && objects'[str].data[VALUE_SLOT] == chars
    requires IsInstanceSlot(objects, ctx.rank, cs.javaString, VALUE_SLOT)
    requires forall a :: a in objects ==> a in objects' && objects'[a] == objects[a]
    ensures RefersTo(objects', ctx, str, chars)
  {
    StringClassSame(objects, objects', ctx, cs.javaString);
    assert IsRefSlot(objects', ctx, str, VALUE_SLOT);
  }

  lemma {:induction false} StringClassSame(objects: Objects, objects': Objects, ctx: Context, c: Addr)
    requires Shaped(objects, ctx) && Shaped(objects', ctx) && IsClass(objects, c)
    requires forall a :: a in objects ==> a in objects' && objects'[a] == objects[a]
    ensures IsInstanceSlot(objects', ctx.rank, c, VALUE_SLOT) == IsInstanceSlot(objects, ctx.rank, c, VALUE_SLOT)
    decreases ctx.rank(c)
  {
    if File(objects, c).superClass != NULL {
      StringClassSame(objects, objects', ctx, File(objects, c).superClass);
    }
  }
}
