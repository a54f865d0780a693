/** Method resolution and selection: the super chain first, then one pass over all superinterfaces. */
module MethodSearch {
  import opened Options
  import opened ClassGraph

  /** A method_info pointer. */
  datatype Ref = Ref(clazz: Id, index: nat)

  /** The two out-parameters of resolve_method_interfaces. */
  datatype Found = Found(maxSpecific: Option<Ref>, fallback: Option<Ref>)

  /** NotFound is the exception that both operations end with. */
  datatype Lookup = Selected(m: Ref) | NotFound

  predicate Valid(h: Types, m: Ref)
  {
    m.clazz in h.classes && m.index < |h.classes[m.clazz].methods|
  }

  function InfoOf(h: Types, m: Ref): Method
    requires Valid(h, m)
  {
    h.classes[m.clazz].methods[m.index]
  }

  predicate AllValid(h: Types, ms: seq<Ref>)
  {
    forall m :: m in ms ==> Valid(h, m)
  }

  predicate Matches(m: Method, sig: Signature)
  {
    m.signature == sig && !m.access.Private? && !m.isStatic
  }

  /** A matching non-private, non-static method of an interface. */
  predicate IsCandidate(h: Types, m: Ref, sig: Signature)
  {
    Valid(h, m) && h.classes[m.clazz].isInterface && Matches(InfoOf(h, m), sig)
  }

  predicate IsDefault(h: Types, m: Ref, sig: Signature)
  {
    IsCandidate(h, m, sig) && !InfoOf(h, m).isAbstract
  }

  // ---- the pass ----

  function Consider(h: Types, m: Ref, sig: Signature, found: Found): Found
    requires Valid(h, m) && FoundOk(h, found)
  {
    if !IsCandidate(h, m, sig) then found
    else if InfoOf(h, m).isAbstract then found.(fallback := Some(m))
    else if found.maxSpecific.None? || IsSubclassOf(h, m.clazz, found.maxSpecific.value.clazz)
    then Found(Some(m), Some(m))
    else found.(fallback := Some(m))
  }

  /** What is known after these methods have been considered. */
  ghost predicate Best(h: Types, sig: Signature, seen: seq<Ref>, found: Found)
  {
    && (found.fallback.Some? ==> found.fallback.value in seen && IsCandidate(h, found.fallback.value, sig))
    && (found.fallback.None? ==> forall m :: m in seen ==> !IsCandidate(h, m, sig))
    && (found.maxSpecific.Some? ==>
          found.maxSpecific.value in seen && IsMinimal(h, sig, seen, found.maxSpecific.value))
    && (found.maxSpecific.None? ==> forall m :: m in seen ==> !IsDefault(h, m, sig))
  }

  /** A non-abstract candidate such that no other is declared in a subinterface. */
  ghost predicate IsMinimal(h: Types, sig: Signature, seen: seq<Ref>, m: Ref)
  {
    && IsDefault(h, m, sig)
    && forall n :: n in seen && IsDefault(h, n, sig) ==> !IsSubclassOf(h, n.clazz, m.clazz)
  }

  lemma ConsiderKeepsBest(h: Types, sig: Signature, seen: seq<Ref>, found: Found, m: Ref)
    requires Best(h, sig, seen, found) && Valid(h, m)
    ensures Best(h, sig, seen + [m], Consider(h, m, sig, found))
  {
    if IsDefault(h, m, sig) {
      SubclassIrreflexive(h, m.clazz);
      if found.maxSpecific.Some? && IsSubclassOf(h, m.clazz, found.maxSpecific.value.clazz) {
        forall n | n in seen && IsDefault(h, n, sig) ensures !IsSubclassOf(h, n.clazz, m.clazz) {
          if IsSubclassOf(h, n.clazz, m.clazz) {
            SubclassTransitive(h, n.clazz, m.clazz, found.maxSpecific.value.clazz);
          }
        }
      }
    }
  }

  lemma SubclassIrreflexive(h: Types, c: Id)
    requires c in h.classes
    ensures !IsSubclassOf(h, c, c)
  {
    if IsSubclassOf(h, c, c) {
      SubclassIsStrict(h, c, c);
    }
  }

  /** The classes above c and c itself. */
  ghost predicate AtOrAbove(h: Types, c: Id, d: Id)
    requires c in h.classes
  {
    d in h.classes && (c == d || IsSubclassOf(h, c, d))
  }

  /** The methods in the order of the pass: those of c, then its interfaces in order, then its superclass. */
  function Visited(h: Types, c: Id): (ms: seq<Ref>)
    requires c in h.classes
    ensures AllValid(h, ms)
    decreases h.classes[c].rank, 1, 0
  {
    assert ClassOk(h, c);
    VisitedFirst(h, c, |h.classes[c].interfaces|)
    + match h.classes[c].super { case None => [] case Some(s) => Visited(h, s) }
  }

  function Own(h: Types, c: Id): (ms: seq<Ref>)
    requires c in h.classes
    ensures AllValid(h, ms)
  {
    seq(|h.classes[c].methods|, i requires 0 <= i => Ref(c, i))
  }

  /** Those of c and of its first n interfaces. */
  function VisitedFirst(h: Types, c: Id, n: nat): (ms: seq<Ref>)
    requires c in h.classes && n <= |h.classes[c].interfaces|
    ensures AllValid(h, ms)
    decreases h.classes[c].rank, 0, n
  {
    if n == 0 then Own(h, c)
    else
      assert ClassOk(h, c);
      VisitedFirst(h, c, n - 1) + Visited(h, h.classes[c].interfaces[n - 1])
  }

  lemma InterfaceIsBelow(h: Types, c: Id, i: nat)
    requires c in h.classes && i < |h.classes[c].interfaces|
    ensures h.classes[c].interfaces[i] in h.classes && h.classes[h.classes[c].interfaces[i]].rank < h.classes[c].rank
  {
    assert ClassOk(h, c);
  }

  /** The pass visits exactly the methods of c and of everything above it. */
  lemma {:induction false} VisitedExactly(h: Types, c: Id, m: Ref)
    requires c in h.classes
    ensures m in Visited(h, c) <==> Valid(h, m) && AtOrAbove(h, c, m.clazz)
    decreases h.classes[c].rank, 1, 0
  {
    var k := h.classes[c];
    assert ClassOk(h, c);
    VisitedFirstExactly(h, c, |k.interfaces|, m);
    if k.super.Some? {
      VisitedExactly(h, k.super.value, m);
    }
    if Valid(h, m) {
      AboveSplits(h, c, m.clazz);
    }
  }

  lemma {:induction false} VisitedFirstExactly(h: Types, c: Id, n: nat, m: Ref)
    requires c in h.classes && n <= |h.classes[c].interfaces|
    ensures m in VisitedFirst(h, c, n) <==> Valid(h, m) && (m.clazz == c || AboveFirst(h, c, n, m.clazz))
    decreases h.classes[c].rank, 0, n
  {
    if n > 0 {
      var direct := h.classes[c].interfaces[n - 1];
      InterfaceIsBelow(h, c, n - 1);
      VisitedFirstExactly(h, c, n - 1, m);
      VisitedExactly(h, direct, m);
      InNext(h, c, n, m);
      AboveNext(h, c, n, m.clazz);
    } else if Valid(h, m) && m.clazz == c {
      assert Own(h, c)[m.index] == m;
    }
  }

  lemma InNext(h: Types, c: Id, n: nat, m: Ref)
    requires c in h.classes && 0 < n <= |h.classes[c].interfaces| && h.classes[c].interfaces[n - 1] in h.classes
    ensures m in VisitedFirst(h, c, n) <==>
            m in VisitedFirst(h, c, n - 1) || m in Visited(h, h.classes[c].interfaces[n - 1])
  {
  }

  ghost predicate AboveFirst(h: Types, c: Id, n: nat, d: Id)
    requires c in h.classes && n <= |h.classes[c].interfaces|
  {
    var direct := h.classes[c].interfaces;
    exists i {:trigger direct[i]} :: 0 <= i < n && direct[i] in h.classes && AtOrAbove(h, direct[i], d)
  }

  lemma AboveNext(h: Types, c: Id, n: nat, d: Id)
    requires c in h.classes && 0 < n <= |h.classes[c].interfaces| && h.classes[c].interfaces[n - 1] in h.classes
    ensures AboveFirst(h, c, n, d) <==> AboveFirst(h, c, n - 1, d) || AtOrAbove(h, h.classes[c].interfaces[n - 1], d)
  {
  }

  lemma AboveSplits(h: Types, c: Id, d: Id)
    requires c in h.classes && d in h.classes
    ensures ClassOk(h, c)
    ensures AtOrAbove(h, c, d) <==>
      || c == d
      || (h.classes[c].super.Some? && AtOrAbove(h, h.classes[c].super.value, d))
      || AboveFirst(h, c, |h.classes[c].interfaces|, d)
  {
    var k := h.classes[c];
    assert ClassOk(h, c);
    if k.super.Some? && AtOrAbove(h, k.super.value, d) {
      SubclassStep(h, c, k.super.value, d);
    }
    if i :| 0 <= i < |k.interfaces| && AtOrAbove(h, k.interfaces[i], d) {
      SubclassStep(h, c, k.interfaces[i], d);
    }
  }

  /** The whole pass, from what earlier passes have found. */
  function Pass(h: Types, ms: seq<Ref>, sig: Signature, found: Found): (r: Found)
    requires AllValid(h, ms) && FoundOk(h, found)
    ensures FoundOk(h, r)
  {
    if ms == [] then found
    else
      var last := ms[|ms| - 1];
      Consider(h, last, sig, Pass(h, ms[..|ms| - 1], sig, found))
  }

  predicate FoundOk(h: Types, found: Found)
  {
    (found.maxSpecific.Some? ==> Valid(h, found.maxSpecific.value))
    && (found.fallback.Some? ==> Valid(h, found.fallback.value))
  }

  lemma {:induction false} PassConcat(h: Types, ms: seq<Ref>, ns: seq<Ref>, sig: Signature, found: Found)
    requires AllValid(h, ms) && AllValid(h, ns) && FoundOk(h, found)
    ensures Pass(h, ms + ns, sig, found) == Pass(h, ns, sig, Pass(h, ms, sig, found))
    decreases |ns|
  {
    if ns == [] {
      assert ms + ns == ms;
    } else {
      var front := ns[..|ns| - 1];
      assert (ms + ns)[..|ms + ns| - 1] == ms + front;
      PassConcat(h, ms, front, sig, found);
    }
  }

  /** After the pass: the fallback is a candidate if there is one, the result is minimal if there is a default. */
  lemma {:induction false} PassIsBest(h: Types, ms: seq<Ref>, sig: Signature)
    requires AllValid(h, ms)
    ensures Best(h, sig, ms, Pass(h, ms, sig, Found(None, None)))
    decreases |ms|
  {
    if ms != [] {
      var front, last := ms[..|ms| - 1], ms[|ms| - 1];
      PassIsBest(h, front, sig);
      ConsiderKeepsBest(h, sig, front, Pass(h, front, sig, Found(None, None)), last);
      assert ms == front + [last];
    }
  }

  lemma {:induction false} ClassesHaveNoCandidates(h: Types, c: Id, n: nat, sig: Signature, found: Found)
    requires c in h.classes && !h.classes[c].isInterface && n <= |Own(h, c)| && FoundOk(h, found)
    ensures Pass(h, Own(h, c)[..n], sig, found) == found
  {
    if n > 0 {
      assert Own(h, c)[..n][..n - 1] == Own(h, c)[..n - 1];
      ClassesHaveNoCandidates(h, c, n - 1, sig, found);
    }
  }

  /** resolve_method_interfaces */
  method ResolveMethodInterfaces(h: Types, c: Id, sig: Signature, found: Found) returns (r: Found)
    requires c in h.classes && FoundOk(h, found)
    ensures r == Pass(h, Visited(h, c), sig, found)
    decreases h.classes[c].rank
  {
    var k := h.classes[c];
    r := VisitOwn(h, c, sig, found);
    var i := 0;
    while i < |k.interfaces|
      invariant i <= |k.interfaces|
      invariant r == Pass(h, VisitedFirst(h, c, i), sig, found)
    {
      InterfaceIsBelow(h, c, i);
      PassInterface(h, c, i, sig, found);
      r := ResolveMethodInterfaces(h, k.interfaces[i], sig, r);
      i := i + 1;
    }
    PassSuper(h, c, sig, found);
    if k.super.Some? {
      r := ResolveMethodInterfaces(h, k.super.value, sig, r);
    }
  }

  lemma PassInterface(h: Types, c: Id, i: nat, sig: Signature, found: Found)
    requires c in h.classes && i < |h.classes[c].interfaces| && h.classes[c].interfaces[i] in h.classes
    requires FoundOk(h, found)
    ensures Pass(h, VisitedFirst(h, c, i + 1), sig, found)
            == Pass(h, Visited(h, h.classes[c].interfaces[i]), sig, Pass(h, VisitedFirst(h, c, i), sig, found))
  {
    PassConcat(h, VisitedFirst(h, c, i), Visited(h, h.classes[c].interfaces[i]), sig, found);
  }

  lemma PassSuper(h: Types, c: Id, sig: Signature, found: Found)
    requires c in h.classes && FoundOk(h, found)
    ensures var k := h.classes[c];
            var first := Pass(h, VisitedFirst(h, c, |k.interfaces|), sig, found);
            && (k.super.Some? ==> k.super.value in h.classes && h.classes[k.super.value].rank < k.rank)
            && Pass(h, Visited(h, c), sig, found) ==
                 if k.super.None? then first else Pass(h, Visited(h, k.super.value), sig, first)
  {
    var k := h.classes[c];
    var first := VisitedFirst(h, c, |k.interfaces|);
    assert ClassOk(h, c);
    if k.super.Some? {
      PassConcat(h, first, Visited(h, k.super.value), sig, found);
    } else {
      assert first + [] == first;
    }
  }

  method VisitOwn(h: Types, c: Id, sig: Signature, found: Found) returns (r: Found)
    requires c in h.classes && FoundOk(h, found)
    ensures r == Pass(h, Own(h, c), sig, found)
  {
    var k := h.classes[c];
    r := found;
    if k.isInterface {
      for i := 0 to |k.methods|
        invariant FoundOk(h, r) && r == Pass(h, Own(h, c)[..i], sig, found)
      {
        assert Own(h, c)[..i + 1][..i] == Own(h, c)[..i];
        var m := k.methods[i];
        if Matches(m, sig) {
          r := r.(fallback := Some(Ref(c, i)));
          if !m.isAbstract {
            if r.maxSpecific.None? {
              r := r.(maxSpecific := Some(Ref(c, i)));
            } else if IsSubclassOf(h, c, r.maxSpecific.value.clazz) {
              r := r.(maxSpecific := Some(Ref(c, i)));
            }
          }
        }
      }
    } else {
      ClassesHaveNoCandidates(h, c, |Own(h, c)|, sig, found);
    }
    assert Own(h, c)[..|Own(h, c)|] == Own(h, c);
  }

  // ---- the super chain ----

  /** c, its superclass, and so on up to Object. */
  function Chain(h: Types, c: Id): (cs: seq<Id>)
    requires c in h.classes
    ensures |cs| > 0 && forall d :: d in cs ==> d in h.classes
    decreases h.classes[c].rank
  {
    assert ClassOk(h, c);
    [c] + match h.classes[c].super { case None => [] case Some(s) => Chain(h, s) }
  }

  /** The k-th superclass. */
  function Ancestor(h: Types, c: Id, k: nat): (r: Option<Id>)
    requires c in h.classes
    ensures r.Some? ==> r.value in h.classes
    decreases k
  {
    if k == 0 then Some(c)
    else
      match Ancestor(h, c, k - 1)
      case None => None
      case Some(d) =>
        assert ClassOk(h, d);
        h.classes[d].super
  }

  lemma {:induction false} AncestorOfSuper(h: Types, c: Id, k: nat)
    requires c in h.classes && h.classes[c].super.Some?
    ensures h.classes[c].super.value in h.classes
    ensures Ancestor(h, c, k + 1) == Ancestor(h, h.classes[c].super.value, k)
  {
    assert ClassOk(h, c);
    if k > 0 {
      AncestorOfSuper(h, c, k - 1);
    } else {
      assert Ancestor(h, c, 0) == Some(c);
    }
  }

  /** The chain lists all of them, the class itself first. */
  lemma {:induction false} ChainIsAncestors(h: Types, c: Id, k: nat)
    requires c in h.classes
    ensures Ancestor(h, c, k) == if k < |Chain(h, c)| then Some(Chain(h, c)[k]) else None
    decreases h.classes[c].rank
  {
    assert ClassOk(h, c);
    if k > 0 {
      if h.classes[c].super.Some? {
        AncestorOfSuper(h, c, k - 1);
        ChainIsAncestors(h, h.classes[c].super.value, k - 1);
      } else {
        NoAncestors(h, c, k);
      }
    }
  }

  lemma {:induction false} NoAncestors(h: Types, c: Id, k: nat)
    requires c in h.classes && h.classes[c].super.None? && k > 0
    ensures Ancestor(h, c, k) == None
  {
    if k > 1 {
      NoAncestors(h, c, k - 1);
    } else {
      assert Ancestor(h, c, 0) == Some(c);
    }
  }

  ghost predicate NoneIn(h: Types, c: Id, test: (Id, Method) -> bool, n: nat)
    requires c in h.classes && n <= |h.classes[c].methods|
  {
    forall i :: 0 <= i < n ==> !test(c, h.classes[c].methods[i])
  }

  /** The first method that passes the test in the first class of the chain that has one. */
  ghost predicate IsNearest(h: Types, c: Id, test: (Id, Method) -> bool, m: Ref)
    requires c in h.classes
  {
    && Valid(h, m) && test(m.clazz, InfoOf(h, m)) && NoneIn(h, m.clazz, test, m.index)
    && exists k :: 0 <= k < |Chain(h, c)| && Chain(h, c)[k] == m.clazz && NoneBefore(h, c, test, k)
  }

  ghost predicate NoneBefore(h: Types, c: Id, test: (Id, Method) -> bool, k: nat)
    requires c in h.classes && k <= |Chain(h, c)|
  {
    forall d :: d in Chain(h, c)[..k] ==> NoneIn(h, d, test, |h.classes[d].methods|)
  }

  method FindInClass(h: Types, c: Id, test: (Id, Method) -> bool) returns (r: Option<Ref>)
    requires c in h.classes
    ensures r.Some? ==> Valid(h, r.value) && r.value.clazz == c && test(c, InfoOf(h, r.value))
                        && NoneIn(h, c, test, r.value.index)
    ensures r.None? ==> NoneIn(h, c, test, |h.classes[c].methods|)
  {
    for i := 0 to |h.classes[c].methods|
      invariant NoneIn(h, c, test, i)
    {
      if test(c, h.classes[c].methods[i]) {
        return Some(Ref(c, i));
      }
    }
    r := None;
  }

  method FindInChain(h: Types, c: Id, test: (Id, Method) -> bool) returns (r: Option<Ref>)
    requires c in h.classes
    ensures r.Some? ==> IsNearest(h, c, test, r.value)
    ensures r.None? ==> NoneBefore(h, c, test, |Chain(h, c)|)
  {
    var d := Some(c);
    ghost var k := 0;
    while d.Some?
      invariant k <= |Chain(h, c)| && NoneBefore(h, c, test, k) && (d.None? ==> k == |Chain(h, c)|)
      invariant d.Some? ==> d.value in h.classes && Chain(h, c)[k..] == Chain(h, d.value)
      decreases |Chain(h, c)| - k
    {
      assert ClassOk(h, d.value) && Chain(h, c)[k..][0] == d.value;
      r := FindInClass(h, d.value, test);
      if r.Some? {
        return;
      }
      assert Chain(h, c)[k..][1..] == Chain(h, c)[k + 1..] && Chain(h, c)[..k + 1] == Chain(h, c)[..k] + [d.value];
      k := k + 1;
      d := h.classes[d.value].super;
    }
    r := None;
  }

  // ---- resolution and selection ----

  /** What the search of the superinterfaces may return: sections 5.4.3.3 and 5.4.6 of JVMS SE 16, for defaults only. */
  ghost predicate InterfaceResult(h: Types, c: Id, sig: Signature, r: Lookup)
    requires c in h.classes
  {
    match r
    case Selected(m) =>
      && Above(h, c, m)
      && (IsMostSpecific(h, c, sig, m) || (NoDefaultAbove(h, c, sig) && IsCandidate(h, m, sig)))
    case NotFound => NoCandidateAbove(h, c, sig)
  }

  /** A method of c or of a class or interface above it. */
  ghost predicate Above(h: Types, c: Id, m: Ref)
    requires c in h.classes
  {
    Valid(h, m) && AtOrAbove(h, c, m.clazz)
  }

  ghost predicate IsMostSpecific(h: Types, c: Id, sig: Signature, m: Ref)
    requires c in h.classes
  {
    && Above(h, c, m) && IsDefault(h, m, sig)
    && forall n :: Above(h, c, n) && IsDefault(h, n, sig) ==> !IsSubclassOf(h, n.clazz, m.clazz)
  }

  ghost predicate NoDefaultAbove(h: Types, c: Id, sig: Signature)
    requires c in h.classes
  {
    forall m :: Above(h, c, m) ==> !IsDefault(h, m, sig)
  }

  ghost predicate NoCandidateAbove(h: Types, c: Id, sig: Signature)
    requires c in h.classes
  {
    forall m :: Above(h, c, m) ==> !IsCandidate(h, m, sig)
  }

  /** The methods of c and of everything above it, in any order and as often as one likes. */
  ghost predicate Enumerates(h: Types, c: Id, ms: seq<Ref>)
    requires c in h.classes
  {
    forall m :: m in ms <==> Above(h, c, m)
  }

  lemma VisitedEnumerates(h: Types, c: Id)
    requires c in h.classes
    ensures Enumerates(h, c, Visited(h, c))
  {
    forall m ensures m in Visited(h, c) <==> Above(h, c, m) {
      VisitedExactly(h, c, m);
    }
  }

  /** What a pass from scratch finds. */
  function Result(h: Types, ms: seq<Ref>, sig: Signature): Found
    requires AllValid(h, ms)
  {
    Pass(h, ms, sig, Found(None, None))
  }

  /** Most specific default, else any candidate, else nothing, whatever the order. */
  lemma PassIsMostSpecific(h: Types, c: Id, ms: seq<Ref>, sig: Signature)
    requires c in h.classes && Enumerates(h, c, ms)
    ensures AllValid(h, ms)
    ensures var found := Result(h, ms, sig);
            && (found.maxSpecific.Some? ==> IsMostSpecific(h, c, sig, found.maxSpecific.value))
            && (found.maxSpecific.None? ==> NoDefaultAbove(h, c, sig))
            && (found.fallback.Some? ==>
                  Above(h, c, found.fallback.value) && IsCandidate(h, found.fallback.value, sig))
            && (found.fallback.None? ==> NoCandidateAbove(h, c, sig))
  {
    PassIsBest(h, ms, sig);
  }

  /** So it is for the order in which the code visits them. */
  lemma SearchIsMostSpecific(h: Types, c: Id, sig: Signature)
    requires c in h.classes
    ensures var found := Result(h, Visited(h, c), sig);
            && (found.maxSpecific.Some? ==> IsMostSpecific(h, c, sig, found.maxSpecific.value))
            && (found.maxSpecific.None? ==> NoDefaultAbove(h, c, sig))
            && (found.fallback.Some? ==>
                  Above(h, c, found.fallback.value) && IsCandidate(h, found.fallback.value, sig))
            && (found.fallback.None? ==> NoCandidateAbove(h, c, sig))
  {
    VisitedEnumerates(h, c);
    PassIsMostSpecific(h, c, Visited(h, c), sig);
  }

  /** A default that is declared below all the others. */
  ghost predicate IsLeastDefault(h: Types, c: Id, sig: Signature, m: Ref)
    requires c in h.classes
  {
    && Above(h, c, m) && IsDefault(h, m, sig)
    && forall n :: Above(h, c, n) && IsDefault(h, n, sig) ==> n == m || IsSubclassOf(h, m.clazz, n.clazz)
  }

  /** It is the result, in whatever order the methods are visited. */
  lemma LeastDefaultIsFound(h: Types, c: Id, ms: seq<Ref>, sig: Signature, m: Ref)
    requires c in h.classes && Enumerates(h, c, ms) && IsLeastDefault(h, c, sig, m)
    ensures AllValid(h, ms) && Result(h, ms, sig).maxSpecific == Some(m)
  {
    PassIsMostSpecific(h, c, ms, sig);
  }

  // ---- what sections 5.4.3.3 and 5.4.6 of JVMS SE 16 choose ----

  /** A maximally specific superinterface method: abstract methods count too. */
  ghost predicate IsMaximallySpecific(h: Types, c: Id, sig: Signature, m: Ref)
    requires c in h.classes
  {
    && Above(h, c, m) && IsCandidate(h, m, sig)
    && forall n :: Above(h, c, n) && IsCandidate(h, n, sig) ==> !IsSubclassOf(h, n.clazz, m.clazz)
  }

  /**
   m is the one maximally specific method that is not abstract. Selection gives m, and nothing if there is no such
   method; resolution gives m, and any candidate if there is no such method.
   */
  ghost predicate IsChosen(h: Types, c: Id, sig: Signature, m: Ref)
    requires c in h.classes
  {
    && IsMaximallySpecific(h, c, sig, m) && !InfoOf(h, m).isAbstract
    && forall n :: IsMaximallySpecific(h, c, sig, n) && !InfoOf(h, n).isAbstract ==> n == m
  }

  /** An interface between c and the one that declares m declares it again, as abstract. */
  ghost predicate IsRedeclared(h: Types, c: Id, sig: Signature, m: Ref)
    requires c in h.classes && Valid(h, m)
  {
    exists n :: Above(h, c, n) && IsCandidate(h, n, sig) && InfoOf(h, n).isAbstract && IsSubclassOf(h, n.clazz, m.clazz)
  }

  /** The least default is chosen exactly when it is not redeclared; if it is, nothing is. */
  lemma LeastIsChosenIff(h: Types, c: Id, sig: Signature, m: Ref)
    requires c in h.classes && IsLeastDefault(h, c, sig, m)
    ensures IsChosen(h, c, sig, m) <==> !IsRedeclared(h, c, sig, m)
    ensures IsRedeclared(h, c, sig, m) ==> forall n :: !IsChosen(h, c, sig, n)
  {
    SubclassIrreflexive(h, m.clazz);
    if IsRedeclared(h, c, sig, m) {
      var a :| Above(h, c, a) && IsCandidate(h, a, sig) && InfoOf(h, a).isAbstract && IsSubclassOf(h, a.clazz, m.clazz);
      assert IsCandidate(h, m, sig) && !IsMaximallySpecific(h, c, sig, m);
    } else {
      forall n | Above(h, c, n) && IsCandidate(h, n, sig) ensures !IsSubclassOf(h, n.clazz, m.clazz) {
        if IsSubclassOf(h, n.clazz, m.clazz) {
          SubclassIsStrict(h, n.clazz, m.clazz);
        }
      }
    }
  }

  /** A pass only goes down from what it has found. */
  lemma {:induction false} PassGoesDown(h: Types, ms: seq<Ref>, sig: Signature, found: Found)
    requires AllValid(h, ms) && FoundOk(h, found) && found.maxSpecific.Some?
    ensures var r, m := Pass(h, ms, sig, found).maxSpecific, found.maxSpecific.value;
            r.Some? && (r.value == m || IsSubclassOf(h, r.value.clazz, m.clazz))
    decreases |ms|
  {
    if ms != [] {
      var front, last := ms[..|ms| - 1], ms[|ms| - 1];
      PassGoesDown(h, front, sig, found);
      var r := Pass(h, front, sig, found).maxSpecific.value;
      assert Valid(h, last) && Valid(h, r);
      if IsSubclassOf(h, last.clazz, r.clazz) && IsSubclassOf(h, r.clazz, found.maxSpecific.value.clazz) {
        SubclassTransitive(h, last.clazz, r.clazz, found.maxSpecific.value.clazz);
      }
    }
  }

  // ---- a hierarchy where they go wrong ----

  /**
   interface I { default m }, J extends I { abstract m }, K { default m };
   class C implements J, K; class D implements J; class E extends D implements K
   */
  function Redeclaration(): Hierarchy
  {
    var base := Minimal();
    var sig := ("m", "()V");
    var i := Class(1, true, Some(0), [], None, "p", [Method(sig, Public, false, false)]);
    var j := Class(2, true, Some(0), [3], None, "p", [Method(sig, Public, false, true)]);
    var k := Class(1, true, Some(0), [], None, "p", [Method(sig, Public, false, false)]);
    var c := Class(3, false, Some(0), [4, 5], None, "p", []);
    var d := Class(3, false, Some(0), [4], None, "p", []);
    var e := Class(4, false, Some(7), [5], None, "p", []);
    base.(classes := base.classes[3 := i][4 := j][5 := k][6 := c][7 := d][8 := e])
  }

  lemma FirstClassesOk(h: Hierarchy, c: Id)
    requires h == Redeclaration() && c < 4
    ensures c in h.classes && ClassOk(h, c)
  {
  }

  lemma MiddleClassesOk(h: Hierarchy, c: Id)
    requires h == Redeclaration() && 4 <= c < 6
    ensures c in h.classes && ClassOk(h, c)
  {
  }

  lemma LastClassesOk(h: Hierarchy, c: Id)
    requires h == Redeclaration() && 6 <= c < 9
    ensures c in h.classes && ClassOk(h, c)
  {
  }

  lemma RedeclarationIsWellFormed()
    ensures WellFormed(Redeclaration())
  {
    var h := Redeclaration();
    forall c {:trigger ClassOk(h, c)} | c in h.classes ensures ClassOk(h, c) {
      if c < 4 {
        FirstClassesOk(h, c);
      } else if c < 6 {
        MiddleClassesOk(h, c);
      } else {
        LastClassesOk(h, c);
      }
    }
  }

  const EXAMPLE: Signature := ("m", "()V")

  lemma VisitedBelow(h: Types)
    requires h == Redeclaration()
    ensures Visited(h, 0) == [] && Visited(h, 3) == [Ref(3, 0)] && Visited(h, 5) == [Ref(5, 0)]
    ensures Visited(h, 4) == [Ref(4, 0), Ref(3, 0)]
  {
    assert Own(h, 0) == [] && Own(h, 3) == [Ref(3, 0)] && Own(h, 4) == [Ref(4, 0)] && Own(h, 5) == [Ref(5, 0)];
    assert VisitedFirst(h, 4, 1) == VisitedFirst(h, 4, 0) + Visited(h, 3);
  }

  lemma VisitedFromC(h: Types)
    requires h == Redeclaration()
    ensures Visited(h, 6) == [Ref(4, 0), Ref(3, 0), Ref(5, 0)]
  {
    VisitedBelow(h);
    assert Own(h, 6) == [];
    assert VisitedFirst(h, 6, 1) == VisitedFirst(h, 6, 0) + Visited(h, 4);
    assert VisitedFirst(h, 6, 2) == VisitedFirst(h, 6, 1) + Visited(h, 5);
  }

  /** JVMS resolves m in C to the method of K; the code finds that of I, because it forgets that J redeclares it. */
  lemma RedeclarationMisleads()
    ensures WellFormed(Redeclaration())
    ensures var h: Types := Redeclaration();
            && Result(h, Visited(h, 6), EXAMPLE).maxSpecific == Some(Ref(3, 0))
            && IsChosen(h, 6, EXAMPLE, Ref(5, 0))
  {
    RedeclarationIsWellFormed();
    var h: Types := Redeclaration();
    VisitedFromC(h);
    FoundInC(h);
    ChosenInC(h);
  }

  lemma FoundInC(h: Types)
    requires h == Redeclaration()
    ensures AllValid(h, [Ref(4, 0), Ref(3, 0), Ref(5, 0)])
    ensures Result(h, [Ref(4, 0), Ref(3, 0), Ref(5, 0)], EXAMPLE).maxSpecific == Some(Ref(3, 0))
  {
    var one, two := [Ref(4, 0)], [Ref(4, 0), Ref(3, 0)];
    PassNext(h, [], Ref(4, 0), EXAMPLE);
    PassNext(h, one, Ref(3, 0), EXAMPLE);
    PassNext(h, two, Ref(5, 0), EXAMPLE);
    assert [] + [Ref(4, 0)] == one && one + [Ref(3, 0)] == two;
    assert two + [Ref(5, 0)] == [Ref(4, 0), Ref(3, 0), Ref(5, 0)];
    SubclassesInExample(h);
  }

  lemma PassNext(h: Types, ms: seq<Ref>, m: Ref, sig: Signature)
    requires AllValid(h, ms) && Valid(h, m)
    ensures AllValid(h, ms + [m]) && Result(h, ms + [m], sig) == Consider(h, m, sig, Result(h, ms, sig))
  {
    assert (ms + [m])[..|ms|] == ms;
  }

  lemma AboveC(h: Types, m: Ref)
    requires h == Redeclaration()
    ensures Above(h, 6, m) <==> m == Ref(4, 0) || m == Ref(3, 0) || m == Ref(5, 0)
  {
    VisitedFromC(h);
    VisitedExactly(h, 6, m);
  }

  lemma SubclassesInExample(h: Types)
    requires h == Redeclaration()
    ensures IsSubclassOf(h, 4, 3)
    ensures !IsSubclassOf(h, 3, 5) && !IsSubclassOf(h, 4, 5) && !IsSubclassOf(h, 5, 5) && !IsSubclassOf(h, 5, 3)
  {
    SubclassStep(h, 4, 3, 3);
  }

  lemma ChosenInC(h: Types)
    requires h == Redeclaration()
    ensures IsChosen(h, 6, EXAMPLE, Ref(5, 0))
  {
    assert IsMaximallySpecific(h, 6, EXAMPLE, Ref(5, 0)) by {
      NothingIsBelowK(h);
    }
    forall n | IsMaximallySpecific(h, 6, EXAMPLE, n) && !InfoOf(h, n).isAbstract ensures n == Ref(5, 0) {
      AboveC(h, n);
      MethodOfIIsNotMaximal(h);
    }
  }

  lemma NothingIsBelowK(h: Types)
    requires h == Redeclaration()
    ensures Above(h, 6, Ref(5, 0)) && IsCandidate(h, Ref(5, 0), EXAMPLE)
    ensures forall n :: Above(h, 6, n) ==> !IsSubclassOf(h, n.clazz, 5)
  {
    SubclassesInExample(h);
    AboveC(h, Ref(5, 0));
    forall n | Above(h, 6, n) ensures !IsSubclassOf(h, n.clazz, 5) {
      AboveC(h, n);
    }
  }

  lemma MethodOfIIsNotMaximal(h: Types)
    requires h == Redeclaration()
    ensures !IsMaximallySpecific(h, 6, EXAMPLE, Ref(3, 0))
  {
    SubclassesInExample(h);
    AboveC(h, Ref(4, 0));
    assert IsCandidate(h, Ref(4, 0), EXAMPLE);
  }

  /** In D nothing is selected by JVMS; the code selects the method of I. */
  lemma RedeclarationIsIgnored()
    ensures WellFormed(Redeclaration())
    ensures var h: Types := Redeclaration();
            && Result(h, Visited(h, 7), EXAMPLE).maxSpecific == Some(Ref(3, 0))
            && forall m :: !IsChosen(h, 7, EXAMPLE, m)
  {
    RedeclarationIsWellFormed();
    var h: Types := Redeclaration();
    LeastInD(h);
    VisitedEnumerates(h, 7);
    LeastDefaultIsFound(h, 7, Visited(h, 7), EXAMPLE, Ref(3, 0));
    LeastIsChosenIff(h, 7, EXAMPLE, Ref(3, 0));
  }

  lemma AboveD(h: Types, m: Ref)
    requires h == Redeclaration()
    ensures Above(h, 7, m) <==> m == Ref(4, 0) || m == Ref(3, 0)
  {
    VisitedFromD(h);
    VisitedExactly(h, 7, m);
  }

  lemma LeastInD(h: Types)
    requires h == Redeclaration()
    ensures IsLeastDefault(h, 7, EXAMPLE, Ref(3, 0)) && IsRedeclared(h, 7, EXAMPLE, Ref(3, 0))
  {
    SubclassesInExample(h);
    forall m ensures Above(h, 7, m) <==> m == Ref(4, 0) || m == Ref(3, 0) {
      AboveD(h, m);
    }
    assert Above(h, 7, Ref(4, 0)) && IsCandidate(h, Ref(4, 0), EXAMPLE);
  }

  lemma VisitedFromD(h: Types)
    requires h == Redeclaration()
    ensures Visited(h, 7) == [Ref(4, 0), Ref(3, 0)]
  {
    VisitedBelow(h);
    assert Own(h, 7) == [];
    assert VisitedFirst(h, 7, 1) == VisitedFirst(h, 7, 0) + Visited(h, 4);
  }

  method SearchInterfaces(h: Types, c: Id, sig: Signature) returns (r: Lookup)
    requires c in h.classes
    ensures InterfaceResult(h, c, sig, r)
  {
    var found := ResolveMethodInterfaces(h, c, sig, Found(None, None));
    SearchIsMostSpecific(h, c, sig);
    if found.maxSpecific.Some? {
      r := Selected(found.maxSpecific.value);
    } else if found.fallback.Some? {
      r := Selected(found.fallback.value);
    } else {
      r := NotFound;
    }
  }

  /** A method found in the super chain wins; otherwise the superinterfaces are searched. */
  ghost predicate ChainThenInterfaces(h: Types, c: Id, sig: Signature, test: (Id, Method) -> bool, r: Lookup)
    requires c in h.classes
  {
    || (r.Selected? && IsNearest(h, c, test, r.m))
    || (NoneBefore(h, c, test, |Chain(h, c)|) && InterfaceResult(h, c, sig, r))
  }

  function Declares(sig: Signature): (Id, Method) -> bool
  {
    (c: Id, m: Method) => m.signature == sig
  }

  /** "Can override" of section 5.4.5 of JVMS SE 16, without its transitive last case. */
  function CanOverride(h: Types, declared: Ref): (Id, Method) -> bool
    requires Valid(h, declared)
  {
    (c: Id, m: Method) =>
      && Matches(m, InfoOf(h, declared).signature)
      && (m.access.Protected? || m.access.Public?
          || (c in h.classes && h.classes[declared.clazz].package == h.classes[c].package))
  }

  // ---- what that means for the methods ----

  /** What the search of the superinterfaces may return: a method of an interface, abstract only if all of them are. */
  lemma InterfaceResultIs(h: Types, c: Id, sig: Signature, r: Lookup, m: Ref)
    requires c in h.classes && InterfaceResult(h, c, sig, r)
    requires m.clazz in h.classes && (m.clazz == c || IsSubclassOf(h, c, m.clazz)) && h.classes[m.clazz].isInterface
    requires m.index < |h.classes[m.clazz].methods| && IsVirtual(h.classes[m.clazz].methods[m.index], sig)
    ensures r.Selected? && r.m.clazz in h.classes && r.m.index < |h.classes[r.m.clazz].methods|
    ensures var k, n := h.classes[r.m.clazz], h.classes[r.m.clazz].methods[r.m.index];
            && k.isInterface && n.signature == sig && n.access != Private && !n.isStatic
            && (r.m.clazz == c || IsSubclassOf(h, c, r.m.clazz))
            && (!h.classes[m.clazz].methods[m.index].isAbstract ==>
                  !n.isAbstract && !IsSubclassOf(h, m.clazz, r.m.clazz))
  {
    assert IsCandidate(h, m, sig) && Above(h, c, m);
  }

  lemma NearestIsUnique(h: Types, c: Id, test: (Id, Method) -> bool, m: Ref, k: nat, i: nat)
    requires c in h.classes && IsNearest(h, c, test, m)
    requires k < |Chain(h, c)| && i < |h.classes[Chain(h, c)[k]].methods|
    requires var d := Chain(h, c)[k];
             test(d, h.classes[d].methods[i]) && NoneIn(h, d, test, i) && NoneBefore(h, c, test, k)
    ensures m == Ref(Chain(h, c)[k], i)
  {
    var cs := Chain(h, c);
    var j: nat :| j < |cs| && cs[j] == m.clazz && NoneBefore(h, c, test, j);
    if j < k {
      InPrefix(cs, j, k);
    } else if k < j {
      InPrefix(cs, k, j);
    }
  }

  lemma InPrefix(cs: seq<Id>, j: nat, k: nat)
    requires j < k <= |cs|
    ensures cs[j] in cs[..k]
  {
    assert cs[..k][j] == cs[j];
  }

  /** If some method of the chain passes the test, the nearest of them is selected. */
  lemma ChainDecides(h: Types, c: Id, sig: Signature, test: (Id, Method) -> bool, r: Lookup, k: nat, i: nat)
    requires c in h.classes && ChainThenInterfaces(h, c, sig, test, r)
    requires k < |Chain(h, c)| && i < |h.classes[Chain(h, c)[k]].methods|
    requires var d := Chain(h, c)[k];
             test(d, h.classes[d].methods[i]) && NoneIn(h, d, test, i) && NoneBefore(h, c, test, k)
    ensures r == Selected(Ref(Chain(h, c)[k], i))
  {
    var d := Chain(h, c)[k];
    assert d in Chain(h, c)[..|Chain(h, c)|];
    assert !NoneIn(h, d, test, |h.classes[d].methods|);
    NearestIsUnique(h, c, test, r.m, k, i);
  }

  /** The method is not private and not static, and has the name and descriptor. */
  predicate IsVirtual(m: Method, sig: Signature)
  {
    m.signature == sig && m.access != Private && !m.isStatic
  }

  /** Method i of class k of the chain is the first with that name and descriptor that is neither private nor static. */
  ghost predicate IsNearestVirtual(h: Types, c: Id, sig: Signature, k: nat, i: nat)
    requires c in h.classes
  {
    && k < |Chain(h, c)| && i < |h.classes[Chain(h, c)[k]].methods|
    && IsVirtual(h.classes[Chain(h, c)[k]].methods[i], sig)
    && (forall j :: 0 <= j < i ==> !IsVirtual(h.classes[Chain(h, c)[k]].methods[j], sig))
    && forall l, j :: 0 <= l < k && 0 <= j < |h.classes[Chain(h, c)[l]].methods| ==>
         !IsVirtual(h.classes[Chain(h, c)[l]].methods[j], sig)
  }

  /** It is selected: if it is public or protected whatever the packages are, otherwise in the declared one's. */
  lemma VirtualIsSelected(h: Types, c: Id, declared: Ref, r: Lookup, k: nat, i: nat)
    requires c in h.classes && Valid(h, declared)
    requires ChainThenInterfaces(h, c, InfoOf(h, declared).signature, CanOverride(h, declared), r)
    requires IsNearestVirtual(h, c, InfoOf(h, declared).signature, k, i)
    requires var d := h.classes[Chain(h, c)[k]];
             || d.methods[i].access == Public || d.methods[i].access == Protected
             || d.package == h.classes[declared.clazz].package
    ensures r == Selected(Ref(Chain(h, c)[k], i))
  {
    NoneVirtualBefore(h, c, declared, k);
    ChainDecides(h, c, InfoOf(h, declared).signature, CanOverride(h, declared), r, k, i);
  }

  lemma NoneVirtualBefore(h: Types, c: Id, declared: Ref, k: nat)
    requires c in h.classes && Valid(h, declared) && k <= |Chain(h, c)|
    requires forall l, j :: 0 <= l < k && 0 <= j < |h.classes[Chain(h, c)[l]].methods| ==>
      !IsVirtual(h.classes[Chain(h, c)[l]].methods[j], InfoOf(h, declared).signature)
    ensures NoneBefore(h, c, CanOverride(h, declared), k)
  {
    forall d | d in Chain(h, c)[..k] ensures NoneIn(h, d, CanOverride(h, declared), |h.classes[d].methods|) {
      var l :| 0 <= l < k && Chain(h, c)[l] == d;
    }
  }

  /** A package-private method of the chain is selected in its own package only. */
  lemma OtherPackageIsNotSelected(h: Types, c: Id, declared: Ref, m: Ref)
    requires c in h.classes && Valid(h, declared)
    requires ChainThenInterfaces(h, c, InfoOf(h, declared).signature, CanOverride(h, declared), Selected(m))
    ensures Valid(h, m) && (InfoOf(h, m).access == Package && !h.classes[m.clazz].isInterface ==>
              h.classes[m.clazz].package == h.classes[declared.clazz].package)
  {
  }

  /** r is the nearest method of the chain that is public, protected or in the package of the declared method. */
  ghost predicate SelectsNearest(h: Types, c: Id, declared: Ref, r: Lookup)
    requires c in h.classes && Valid(h, declared)
  {
    forall k: nat, i: nat {:trigger IsNearestVirtual(h, c, InfoOf(h, declared).signature, k, i)} ::
      && IsNearestVirtual(h, c, InfoOf(h, declared).signature, k, i)
      && (var d := h.classes[Chain(h, c)[k]];
          || d.methods[i].access == Public || d.methods[i].access == Protected
          || d.package == h.classes[declared.clazz].package)
      ==> r == Selected(Ref(Chain(h, c)[k], i))
  }

  lemma NearestIsSelected(h: Types, c: Id, declared: Ref, r: Lookup)
    requires c in h.classes && Valid(h, declared)
    requires ChainThenInterfaces(h, c, InfoOf(h, declared).signature, CanOverride(h, declared), r)
    ensures SelectsNearest(h, c, declared, r)
  {
    forall k: nat, i: nat {:trigger IsNearestVirtual(h, c, InfoOf(h, declared).signature, k, i)} |
      && IsNearestVirtual(h, c, InfoOf(h, declared).signature, k, i)
      && (var d := h.classes[Chain(h, c)[k]];
          || d.methods[i].access == Public || d.methods[i].access == Protected
          || d.package == h.classes[declared.clazz].package)
      ensures r == Selected(Ref(Chain(h, c)[k], i))
    {
      VirtualIsSelected(h, c, declared, r, k, i);
    }
  }

  /** method_resolution */
  method MethodResolution(h: Types, c: Id, sig: Signature) returns (r: Lookup)
    requires c in h.classes
    ensures ChainThenInterfaces(h, c, sig, Declares(sig), r)
    ensures r.Selected? ==> Valid(h, r.m) && InfoOf(h, r.m).signature == sig
    ensures r.NotFound? ==> forall d, i {:trigger h.classes[d].methods[i]} ::
              d in Chain(h, c) && 0 <= i < |h.classes[d].methods| ==> h.classes[d].methods[i].signature != sig
  {
    var m := FindInChain(h, c, Declares(sig));
    if m.Some? {
      return Selected(m.value);
    }
    r := SearchInterfaces(h, c, sig);
  }

  /** method_selection */
  method MethodSelection(h: Types, c: Id, declared: Ref) returns (r: Lookup)
    requires c in h.classes && Valid(h, declared) && !InfoOf(h, declared).isStatic
    ensures InfoOf(h, declared).access.Private? ==> r == Selected(declared)
    ensures !InfoOf(h, declared).access.Private? ==>
              ChainThenInterfaces(h, c, InfoOf(h, declared).signature, CanOverride(h, declared), r)
    ensures r.Selected? ==>
              && Valid(h, r.m) && InfoOf(h, r.m).signature == InfoOf(h, declared).signature && !InfoOf(h, r.m).isStatic
              && (InfoOf(h, r.m).access == Private ==> r.m == declared)
              && (InfoOf(h, r.m).access == Package && !h.classes[r.m.clazz].isInterface ==>
                    h.classes[r.m.clazz].package == h.classes[declared.clazz].package)
    ensures !InfoOf(h, declared).access.Private? ==> SelectsNearest(h, c, declared, r)
  {
    var d := InfoOf(h, declared);
    if d.access.Private? {
      return Selected(declared);
    }
    var m := FindInChain(h, c, CanOverride(h, declared));
    if m.Some? {
      r := Selected(m.value);
    } else {
      r := SearchInterfaces(h, c, d.signature);
    }
    NearestIsSelected(h, c, declared, r);
  }
}
