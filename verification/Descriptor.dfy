/** Method descriptors (section 4.3.3 of the Java Virtual Machine Specification, SE 16): the tokenizer and its users. */
module Descriptor {
  import opened Options

  const NUL: char := '\0'

  // ---- the grammar ----

  datatype Type = Base(c: char) | Object(name: string) | Array(element: Type)

  /** returns is None for void. */
  datatype Descriptor = Descriptor(params: seq<Type>, result: Option<Type>)

  predicate IsWide(c: char)
  {
    c == 'D' || c == 'J'
  }

  predicate IsNarrow(c: char)
  {
    c == 'B' || c == 'C' || c == 'F' || c == 'I' || c == 'S' || c == 'Z'
  }

  /** A class name is any text without a semicolon. */
  predicate ValidType(t: Type)
  {
    match t
    case Base(c) => IsWide(c) || IsNarrow(c)
    case Object(name) => ';' !in name && NUL !in name
    case Array(element) => ValidType(element)
  }

  ghost predicate Valid(d: Descriptor)
  {
    (forall t :: t in d.params ==> ValidType(t)) && (d.result.Some? ==> ValidType(d.result.value))
  }

  function Print(t: Type): (r: string)
    ensures |r| > 0
  {
    match t
    case Base(c) => [c]
    case Object(name) => "L" + name + ";"
    case Array(element) => "[" + Print(element)
  }

  function PrintAll(ts: seq<Type>): string
  {
    if ts == [] then "" else Print(ts[0]) + PrintAll(ts[1..])
  }

  function PrintResult(t: Option<Type>): string
  {
    match t case None => "V" case Some(r) => Print(r)
  }

  function PrintDescriptor(d: Descriptor): string
  {
    "(" + PrintAll(d.params) + ")" + PrintResult(d.result)
  }

  // ---- parts ----

  /** Category 0 is void. */
  datatype Part = Part(typeName: string, dimensions: nat, category: nat, isReturn: bool)

  function Dimensions(t: Type): nat
  {
    match t case Array(element) => 1 + Dimensions(element) case _ => 0
  }

  function Category(t: Type): nat
  {
    match t case Base(c) => (if IsWide(c) then 2 else 1) case _ => 1
  }

  function PartOf(t: Type, isReturn: bool): Part
  {
    Part(Print(t), Dimensions(t), Category(t), isReturn)
  }

  function ResultPart(t: Option<Type>): Part
  {
    match t case None => Part("V", 0, 0, true) case Some(r) => PartOf(r, true)
  }

  /** Long and double have category 2, every other type has 1, and so have arrays of them. */
  lemma CategoryOfText(t: Type)
    ensures Category(t) == if Print(t) == "J" || Print(t) == "D" then 2 else 1
  {
    match t
    case Base(c) =>
    case Object(name) => assert |Print(t)| >= 2;
    case Array(element) => assert |Print(t)| >= 2;
  }

  /** The dimensions are the brackets in front. */
  lemma {:induction false} DimensionsOfText(t: Type)
    requires ValidType(t)
    ensures var n := Dimensions(t);
            n < |Print(t)| && Print(t)[n] != '[' && forall i :: 0 <= i < n ==> Print(t)[i] == '['
  {
    match t
    case Base(c) =>
    case Object(name) =>
    case Array(element) => DimensionsOfText(element);
  }

  /** The return type is the last part; void has category 0. */
  lemma ResultOfText(r: Option<Type>)
    ensures var p, text := ResultPart(r), PrintResult(r);
            && p.typeName == text && p.isReturn
            && p.category == (if r == None then 0 else if text == "J" || text == "D" then 2 else 1)
            && p.dimensions == (if r == None then 0 else Dimensions(r.value))
            && (r == None ==> text == "V")
  {
    if r.Some? {
      CategoryOfText(r.value);
    }
  }

  /** The base types of section 4.3.2 of JVMS SE 16. */
  lemma BaseTypesAre(c: char)
    ensures ValidType(Base(c)) <==> c in "BCDFIJSZ"
  {
  }

  // ---- reading a C string ----

  /** The character at i; the text ends at the first NUL. */
  function At(s: string, i: nat): char
  {
    if i < |s| then s[i] else NUL
  }

  function SemicolonFrom(s: string, i: nat): Option<nat>
    decreases |s| - i
  {
    if At(s, i) == NUL then None
    else if At(s, i) == ';' then Some(i)
    else SemicolonFrom(s, i + 1)
  }

  /** The type that starts at i and the position after it. */
  function ReadType(s: string, i: nat): (r: Option<(Type, nat)>)
    ensures r.Some? ==> i < r.value.1 <= |s|
    decreases |s| - i
  {
    var c := At(s, i);
    if c == '[' then
      match ReadType(s, i + 1)
      case None => None
      case Some((t, end)) => Some((Array(t), end))
    else if c == 'L' then
      match SemicolonFrom(s, i + 1)
      case None => None
      case Some(k) => if i + 1 <= k < |s| then Some((Object(s[i + 1..k]), k + 1)) else None
    else if IsWide(c) || IsNarrow(c) then Some((Base(c), i + 1))
    else None
  }

  lemma {:induction false} SemicolonIsFirst(s: string, i: nat)
    ensures SemicolonFrom(s, i).Some? ==>
              var k := SemicolonFrom(s, i).value;
              i <= k < |s| && s[k] == ';' && ';' !in s[i..k] && NUL !in s[i..k]
    decreases |s| - i
  {
    if At(s, i) != NUL && At(s, i) != ';' {
      SemicolonIsFirst(s, i + 1);
      if SemicolonFrom(s, i).Some? {
        var k := SemicolonFrom(s, i).value;
        assert s[i..k] == [s[i]] + s[i + 1..k];
      }
    }
  }

  lemma {:induction false} SemicolonAfterName(s: string, i: nat, k: nat)
    requires i <= k < |s| && s[k] == ';' && ';' !in s[i..k] && NUL !in s[i..k]
    ensures SemicolonFrom(s, i) == Some(k)
    decreases k - i
  {
    if i < k {
      assert s[i] in s[i..k];
      assert s[i + 1..k] == s[i..k][1..];
      SemicolonAfterName(s, i + 1, k);
    }
  }

  /** Whatever is read as a type is the printed form of that type. */
  lemma {:induction false} ReadIsPrinted(s: string, i: nat)
    ensures ReadType(s, i).Some? ==>
              var (t, end) := ReadType(s, i).value;
              ValidType(t) && s[i..end] == Print(t)
    decreases |s| - i
  {
    if At(s, i) == '[' {
      ReadIsPrinted(s, i + 1);
      if ReadType(s, i + 1).Some? {
        var (t, end) := ReadType(s, i + 1).value;
        assert s[i..end] == "[" + s[i + 1..end];
      }
    } else if At(s, i) == 'L' {
      SemicolonIsFirst(s, i + 1);
      if SemicolonFrom(s, i + 1).Some? {
        var k := SemicolonFrom(s, i + 1).value;
        assert s[i..k + 1] == "L" + s[i + 1..k] + ";";
      }
    }
  }

  /** A printed type is read back, whatever follows it. */
  lemma {:induction false} PrintedIsRead(t: Type, s: string, i: nat)
    requires ValidType(t) && i + |Print(t)| <= |s| && s[i..i + |Print(t)|] == Print(t)
    ensures ReadType(s, i) == Some((t, i + |Print(t)|))
    decreases t
  {
    var end := i + |Print(t)|;
    assert s[i] == s[i..end][0];
    match t
    case Base(c) =>
    case Object(name) =>
      assert Print(t)[1..|name| + 1] == name;
      assert s[i + 1..end - 1] == s[i..end][1..end - 1 - i];
      assert s[end - 1] == s[i..end][end - 1 - i];
      SemicolonAfterName(s, i + 1, end - 1);
    case Array(element) =>
      assert s[i + 1..end] == s[i..end][1..];
      PrintedIsRead(element, s, i + 1);
  }

  /** The return type that starts after the ")" at i, with nothing behind it. */
  function ReadResult(s: string, i: nat): Option<Option<Type>>
  {
    if At(s, i) == 'V' then (if At(s, i + 1) == NUL then Some(None) else None)
    else
      match ReadType(s, i)
      case None => None
      case Some((t, end)) => if At(s, end) == NUL then Some(Some(t)) else None
  }

  /** The parameters from i on and the return type. */
  function ReadRest(s: string, i: nat): Option<Descriptor>
    decreases |s| - i
  {
    if At(s, i) == ')' then
      match ReadResult(s, i + 1)
      case None => None
      case Some(r) => Some(Descriptor([], r))
    else
      match ReadType(s, i)
      case None => None
      case Some((t, end)) =>
        match ReadRest(s, end)
        case None => None
        case Some(d) => Some(Descriptor([t] + d.params, d.result))
  }

  function ReadDescriptor(s: string): Option<Descriptor>
  {
    if At(s, 0) == '(' then ReadRest(s, 1) else None
  }

  /** What a C string holds: everything up to the first NUL. */
  function Text(s: string): (t: string)
    ensures t <= s && NUL !in t && At(s, |t|) == NUL
  {
    if s == [] || s[0] == NUL then "" else [s[0]] + Text(s[1..])
  }

  lemma {:induction false} TextUpTo(s: string, n: nat)
    requires n <= |s| && NUL !in s[..n] && At(s, n) == NUL
    ensures Text(s) == s[..n]
    decreases n
  {
    if n > 0 {
      assert s[0] in s[..n];
      assert s[1..][..n - 1] == s[..n][1..];
      TextUpTo(s[1..], n - 1);
    }
  }

  lemma {:induction false} PrintHasNoNul(t: Type)
    requires ValidType(t)
    ensures NUL !in Print(t)
  {
    if t.Array? {
      PrintHasNoNul(t.element);
    }
  }

  function PrintRest(d: Descriptor): string
  {
    PrintAll(d.params) + ")" + PrintResult(d.result)
  }

  lemma PrintRestCons(t: Type, rest: Descriptor)
    ensures PrintRest(Descriptor([t] + rest.params, rest.result)) == Print(t) + PrintRest(rest)
  {
    assert ([t] + rest.params)[1..] == rest.params;
  }

  lemma SliceJoins(s: string, i: nat, j: nat, k: nat)
    requires i <= j <= k <= |s|
    ensures s[i..k] == s[i..j] + s[j..k]
  {
  }

  lemma SliceSplits(s: string, i: nat, k: nat, a: string, b: string)
    requires i <= k <= |s| && s[i..k] == a + b
    ensures k == i + |a| + |b| && s[i..i + |a|] == a && s[i + |a|..k] == b
  {
    assert s[i..k][..|a|] == a && s[i..k][|a|..] == b;
  }

  lemma {:induction false} ResultIsPrinted(s: string, i: nat)
    requires ReadResult(s, i).Some?
    ensures var r := ReadResult(s, i).value; var end := i + |PrintResult(r)|;
            && (r.Some? ==> ValidType(r.value)) && end <= |s| && s[i..end] == PrintResult(r) && At(s, end) == NUL
  {
    if At(s, i) != 'V' {
      ReadIsPrinted(s, i);
    }
  }

  /** From i to the end s is the printed rest of d. */
  ghost predicate PrintedAt(s: string, i: nat, d: Descriptor)
  {
    var end := i + |PrintRest(d)|;
    end <= |s| && s[i..end] == PrintRest(d) && At(s, end) == NUL
  }

  function More(t: Type, rest: Descriptor): Descriptor
  {
    Descriptor([t] + rest.params, rest.result)
  }

  lemma PrintedAtMore(s: string, i: nat, t: Type, rest: Descriptor)
    ensures PrintedAt(s, i, More(t, rest)) <==>
      && i + |Print(t)| <= |s| && s[i..i + |Print(t)|] == Print(t)
      && PrintedAt(s, i + |Print(t)|, rest)
  {
    var mid, end := i + |Print(t)|, i + |PrintRest(More(t, rest))|;
    PrintRestCons(t, rest);
    if PrintedAt(s, i, More(t, rest)) {
      SliceSplits(s, i, end, Print(t), PrintRest(rest));
    }
    if mid <= |s| && s[i..mid] == Print(t) && PrintedAt(s, mid, rest) {
      SliceJoins(s, i, mid, end);
    }
  }

  lemma ValidMore(t: Type, rest: Descriptor)
    ensures Valid(More(t, rest)) <==> ValidType(t) && Valid(rest)
  {
    assert More(t, rest).params[0] == t;
    forall u | u in rest.params ensures u in More(t, rest).params {
    }
  }

  lemma ReadMore(s: string, i: nat, t: Type, end: nat)
    requires At(s, i) != ')' && ReadType(s, i) == Some((t, end))
    ensures ReadRest(s, i) == match ReadRest(s, end) case None => None case Some(rest) => Some(More(t, rest))
  {
  }

  lemma {:induction false} RestIsPrinted(s: string, i: nat)
    requires ReadRest(s, i).Some?
    ensures Valid(ReadRest(s, i).value) && PrintedAt(s, i, ReadRest(s, i).value)
    decreases |s| - i
  {
    if At(s, i) == ')' {
      EmptyRestIsPrinted(s, i);
    } else {
      var (t, end) := ReadType(s, i).value;
      ReadIsPrinted(s, i);
      ReadMore(s, i, t, end);
      RestIsPrinted(s, end);
      PrintedAtMore(s, i, t, ReadRest(s, end).value);
      ValidMore(t, ReadRest(s, end).value);
    }
  }

  lemma EmptyRestIsPrinted(s: string, i: nat)
    requires At(s, i) == ')' && ReadResult(s, i + 1).Some?
    ensures var d := Descriptor([], ReadResult(s, i + 1).value); Valid(d) && PrintedAt(s, i, d)
  {
    var d := Descriptor([], ReadResult(s, i + 1).value);
    ResultIsPrinted(s, i + 1);
    SliceJoins(s, i, i + 1, i + |PrintRest(d)|);
    assert PrintRest(d) == ")" + PrintResult(d.result);
  }

  lemma PrintedResultIsRead(r: Option<Type>, s: string, i: nat)
    requires (r.Some? ==> ValidType(r.value)) && i + |PrintResult(r)| <= |s| && At(s, i + |PrintResult(r)|) == NUL
    requires s[i..i + |PrintResult(r)|] == PrintResult(r)
    ensures ReadResult(s, i) == Some(r)
  {
    assert s[i] == s[i..i + |PrintResult(r)|][0];
    if r.Some? {
      PrintedIsRead(r.value, s, i);
      NotV(r.value);
    }
  }

  lemma EmptyRestIsRead(d: Descriptor, s: string, i: nat)
    requires d.params == [] && Valid(d) && PrintedAt(s, i, d)
    ensures ReadRest(s, i) == Some(d)
  {
    var end := i + |PrintRest(d)|;
    assert s[i] == s[i..end][0];
    SliceSplits(s, i, end, ")", PrintResult(d.result));
    PrintedResultIsRead(d.result, s, i + 1);
  }

  lemma {:induction false} PrintedRestIsRead(d: Descriptor, s: string, i: nat)
    requires Valid(d) && PrintedAt(s, i, d)
    ensures ReadRest(s, i) == Some(d)
    decreases |d.params|
  {
    if d.params == [] {
      EmptyRestIsRead(d, s, i);
    } else {
      var t, rest := d.params[0], Descriptor(d.params[1..], d.result);
      assert d == More(t, rest);
      PrintedAtMore(s, i, t, rest);
      ValidMore(t, rest);
      PrintedIsRead(t, s, i);
      FirstIsNoParenthesis(t, s, i);
      ReadMore(s, i, t, i + |Print(t)|);
      PrintedRestIsRead(rest, s, i + |Print(t)|);
    }
  }

  lemma FirstIsNoParenthesis(t: Type, s: string, i: nat)
    requires ValidType(t) && i + |Print(t)| <= |s| && s[i..i + |Print(t)|] == Print(t)
    ensures At(s, i) != ')'
  {
    NotV(t);
    assert s[i] == s[i..i + |Print(t)|][0];
  }

  lemma NotV(t: Type)
    requires ValidType(t)
    ensures Print(t)[0] != 'V' && Print(t)[0] != ')'
  {
  }

  lemma PrintsParenthesisFirst(d: Descriptor)
    ensures PrintDescriptor(d) == "(" + PrintRest(d)
  {
  }

  lemma TextIsPrintedAt(s: string, text: string, d: Descriptor)
    requires text <= s && At(s, |text|) == NUL && text == "(" + PrintRest(d)
    ensures At(s, 0) == '(' && PrintedAt(s, 1, d)
  {
    assert s[1..|text|] == text[1..] == PrintRest(d);
  }

  lemma PrintedAtIsText(s: string, d: Descriptor)
    requires At(s, 0) == '(' && PrintedAt(s, 1, d) && NUL !in "(" + PrintRest(d)
    ensures Text(s) == "(" + PrintRest(d)
  {
    var end := 1 + |PrintRest(d)|;
    SliceJoins(s, 0, 1, end);
    assert s[0..end] == s[..end] == "(" + PrintRest(d);
    TextUpTo(s, end);
  }

  lemma AcceptedIsPrinted(s: string, d: Descriptor)
    requires ReadDescriptor(s) == Some(d)
    ensures Valid(d) && Text(s) == PrintDescriptor(d)
  {
    RestIsPrinted(s, 1);
    PrintedHasNoNul(d);
    PrintsParenthesisFirst(d);
    PrintedAtIsText(s, d);
  }

  lemma PrintedIsAccepted(s: string, d: Descriptor)
    requires Valid(d) && Text(s) == PrintDescriptor(d)
    ensures ReadDescriptor(s) == Some(d)
  {
    PrintsParenthesisFirst(d);
    TextIsPrintedAt(s, Text(s), d);
    PrintedRestIsRead(d, s, 1);
  }

  /** The tokenizer accepts a string exactly when it is the printed form of a descriptor. */
  lemma AcceptedIffPrinted(s: string, d: Descriptor)
    ensures ReadDescriptor(s) == Some(d) <==> Valid(d) && Text(s) == PrintDescriptor(d)
  {
    if ReadDescriptor(s) == Some(d) {
      AcceptedIsPrinted(s, d);
    }
    if Valid(d) && Text(s) == PrintDescriptor(d) {
      PrintedIsAccepted(s, d);
    }
  }

  lemma {:induction false} PrintAllHasNoNul(ts: seq<Type>)
    requires forall t :: t in ts ==> ValidType(t)
    ensures NUL !in PrintAll(ts)
  {
    if ts != [] {
      PrintHasNoNul(ts[0]);
      PrintAllHasNoNul(ts[1..]);
    }
  }

  lemma PrintedHasNoNul(d: Descriptor)
    requires Valid(d)
    ensures NUL !in PrintDescriptor(d)
  {
    PrintAllHasNoNul(d.params);
    if d.result.Some? {
      PrintHasNoNul(d.result.value);
    }
  }

  /** Printing a descriptor and reading it back gives the same tree; no two descriptors print alike. */
  lemma RoundTrip(d: Descriptor)
    requires Valid(d)
    ensures ReadDescriptor(PrintDescriptor(d)) == Some(d)
  {
    PrintedHasNoNul(d);
    TextUpTo(PrintDescriptor(d), |PrintDescriptor(d)|);
    AcceptedIffPrinted(PrintDescriptor(d), d);
  }

  /** A descriptor in full. */
  lemma Example()
    ensures ReadDescriptor("(ID[J[[Lp/Q;Z)V") ==
            Some(Descriptor([Base('I'), Base('D'), Array(Base('J')), Array(Array(Object("p/Q"))), Base('Z')], None))
  {
    var a, b := Array(Base('J')), Array(Array(Object("p/Q")));
    var ts := [Base('I'), Base('D'), a, b, Base('Z')];
    ExampleText(ts);
    RoundTrip(Descriptor(ts, None));
  }

  lemma ResultExample()
    ensures ReadDescriptor("()[I") == Some(Descriptor([], Some(Array(Base('I')))))
  {
    RoundTrip(Descriptor([], Some(Array(Base('I')))));
  }

  lemma ExampleText(ts: seq<Type>)
    requires ts == [Base('I'), Base('D'), Array(Base('J')), Array(Array(Object("p/Q"))), Base('Z')]
    ensures "(" + PrintAll(ts) + ")" + "V" == "(ID[J[[Lp/Q;Z)V"
  {
    assert ts[1..][1..] == ts[2..] && ts[2..][1..] == ts[3..] && ts[3..][1..] == ts[4..] && ts[4..][1..] == [];
    assert PrintAll(ts[4..]) == "Z" && PrintAll(ts[3..]) == "[[Lp/Q;" + "Z";
    assert PrintAll(ts[2..]) == "[J" + ("[[Lp/Q;" + "Z");
    assert PrintAll(ts[1..]) == "D" + ("[J" + ("[[Lp/Q;" + "Z"));
  }

  // ---- the tokenizer ----

  function Prepend(ts: seq<Type>, d: Option<Descriptor>): Option<Descriptor>
  {
    match d case None => None case Some(r) => Some(Descriptor(ts + r.params, r.result))
  }

  lemma PrependNothing(d: Option<Descriptor>, ts: seq<Type>, r: Option<Type>)
    ensures Prepend([], d) == d && Prepend(ts, Some(Descriptor([], r))) == Some(Descriptor(ts, r))
  {
    assert ts + [] == ts;
    if d.Some? {
      assert [] + d.value.params == d.value.params;
    }
  }

  lemma PrependMore(ts: seq<Type>, t: Type, d: Option<Descriptor>)
    ensures Prepend(ts, Prepend([t], d)) == Prepend(ts + [t], d)
  {
    if d.Some? {
      assert ts + ([t] + d.value.params) == ts + [t] + d.value.params;
    }
  }

  /** MethodDescriptorParts; false from a method stands for a ParseError. */
  class MethodDescriptorParts {
    const text: string
    var start: nat
    var length: nat
    var part: Part
    ghost var passed: seq<Type>
    ghost var current: Option<Type>

    constructor (text: string)
      ensures this.text == text && start == 0 && length == 0 && part == Part("", 0, 0, false) && passed == []
    {
      this.text, start, length, part, passed := text, 0, 0, Part("", 0, 0, false), [];
    }

    ghost function End(): nat
      reads this
    {
      start + length
    }

    /** Standing on a part: the parameters before it, the part itself, and what is still to be read. */
    ghost predicate Valid()
      reads this
    {
      if part.isReturn then
        ReadDescriptor(text) == Some(Descriptor(passed, current)) && part == ResultPart(current)
      else
        && current.Some? && part == PartOf(current.value, false) && End() <= |text|
        && ReadDescriptor(text) == Prepend(passed + [current.value], ReadRest(text, End()))
    }

    method ClassName() returns (ok: bool)
      modifies this`length
      ensures ok <==> SemicolonFrom(text, old(End())).Some?
      ensures ok ==> End() == SemicolonFrom(text, old(End())).value
    {
      while At(text, start + length) != NUL && At(text, start + length) != ';'
        invariant SemicolonFrom(text, End()) == SemicolonFrom(text, old(End()))
        decreases |text| - End()
      {
        length := length + 1;
      }
      ok := At(text, start + length) != NUL;
    }

    /** token(), where a parameter or the element type of an array starts. */
    method TypeToken() returns (ok: bool)
      modifies this`length, this`part
      ensures ok <==> ReadType(text, old(End())).Some?
      ensures ok ==>
                var (t, end) := ReadType(text, old(End())).value;
                && End() == end
                && part == old(part).(category := Category(t), dimensions := old(part.dimensions) + Dimensions(t))
      decreases |text| - End()
    {
      var c := At(text, start + length);
      if c == '[' {
        length := length + 1;
        ok := TypeToken();
        part := part.(category := 1, dimensions := part.dimensions + 1);
      } else if c == 'L' {
        SemicolonIsFirst(text, End() + 1);
        length := length + 1;
        ok := ClassName();
        if ok {
          length := length + 1;
          part := part.(category := 1);
        }
      } else if c == 'D' || c == 'J' {
        length := length + 1;
        part := part.(category := 2);
        ok := true;
      } else if c == 'B' || c == 'C' || c == 'F' || c == 'I' || c == 'S' || c == 'Z' {
        length := length + 1;
        part := part.(category := 1);
        ok := true;
      } else {
        ok := false;
      }
    }

    /** token(), where a ")" starts the return type. */
    method ReturnToken() returns (ok: bool)
      requires length == 0 && !part.isReturn && part.dimensions == 0
      modifies this`start, this`length, this`part
      ensures ok <==> ReadResult(text, old(start) + 1).Some?
      ensures ok ==>
                var r := ReadResult(text, old(start) + 1).value;
                && start == old(start) + 1 && End() <= |text| && text[start..End()] == PrintResult(r)
                && part == ResultPart(r).(typeName := old(part).typeName)
    {
      start := start + 1;
      part := part.(isReturn := true);
      if At(text, start) == 'V' {
        length := length + 1;
        part := part.(category := 0);
      } else {
        ReadIsPrinted(text, start);
        ok := TypeToken();
        if !ok {
          return;
        }
      }
      ok := At(text, start + length) == NUL;
    }

    method ReturnPart() returns (ok: bool)
      requires length == 0 && part == Part("", 0, 0, false) && At(text, start) == ')'
      requires ReadDescriptor(text) == Prepend(passed, ReadRest(text, start))
      modifies this
      ensures passed == old(passed) && (ok ==> Valid() && old(start) < End())
      ensures !ok ==> ReadDescriptor(text).None?
    {
      ok := ReturnToken();
      if ok {
        part := part.(typeName := text[start..start + length]);
        current := ReadResult(text, old(start) + 1).value;
        PrependNothing(None, passed, current);
      }
    }

    method ParameterPart() returns (ok: bool)
      requires length == 0 && part == Part("", 0, 0, false) && At(text, start) != ')'
      requires ReadDescriptor(text) == Prepend(passed, ReadRest(text, start))
      modifies this
      ensures passed == old(passed) && (ok ==> Valid() && old(start) < End())
      ensures !ok ==> ReadDescriptor(text).None?
    {
      ReadIsPrinted(text, start);
      ok := TypeToken();
      if ok {
        part := part.(typeName := text[start..start + length]);
        ghost var t := ReadType(text, start).value.0;
        current := Some(t);
        assert ReadRest(text, start) == Prepend([t], ReadRest(text, End()));
        PrependMore(passed, t, ReadRest(text, End()));
      }
    }

    /** token() at the start of a part, and the type name. */
    method Token() returns (ok: bool)
      requires length == 0 && part == Part("", 0, 0, false)
      requires ReadDescriptor(text) == Prepend(passed, ReadRest(text, start))
      modifies this
      ensures passed == old(passed) && (ok ==> Valid() && old(start) < End())
      ensures !ok ==> ReadDescriptor(text).None?
    {
      if At(text, start) == ')' {
        ok := ReturnPart();
      } else {
        ok := ParameterPart();
      }
    }

    /** The constructor of the tokenizer. */
    method Begin() returns (ok: bool)
      requires start == 0 && length == 0 && part == Part("", 0, 0, false) && passed == []
      modifies this
      ensures passed == [] && (ok ==> Valid())
      ensures !ok ==> ReadDescriptor(text).None?
    {
      if At(text, 0) != '(' {
        return false;
      }
      start := start + 1;
      PrependNothing(ReadRest(text, 1), [], None);
      ok := Token();
    }

    /** operator++ */
    method Next() returns (ok: bool)
      requires Valid() && !part.isReturn
      modifies this
      ensures passed == old(passed) + [old(current).value]
      ensures ok ==> Valid() && old(End()) < End()
      ensures !ok ==> ReadDescriptor(text).None?
    {
      start, length, part, passed := start + length, 0, Part("", 0, 0, false), passed + [current.value];
      ok := Token();
    }
  }
}
