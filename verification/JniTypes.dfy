/** Exactly which overloads share the full symbol name of a native method. */
module JniTypes {
  import opened Options
  import opened Descriptor
  import opened JniNames

  // ---- reading the text of parameter types ----

  /** Before a type, behind a bracket, inside a class name, or not the text of parameter types. */
  datatype State = Start | Element | Inside | Bad

  predicate IsBase(c: char)
  {
    IsWide(c) || IsNarrow(c)
  }

  function Step(st: State, c: char): State
  {
    match st
    case Inside => if c == ';' then Start else if c == NUL then Bad else Inside
    case Bad => Bad
    case _ => if IsBase(c) then Start else if c == '[' then Element else if c == 'L' then Inside else Bad
  }

  function Final(s: string, st: State): State
  {
    if s == "" then st else Final(s[1..], Step(st, s[0]))
  }

  predicate Reads(s: string)
  {
    Final(s, Start) == Start
  }

  ghost predicate AllTypes(ts: seq<Type>)
  {
    forall t :: t in ts ==> ValidType(t)
  }

  lemma {:induction false} FinalConcat(a: string, b: string, st: State)
    ensures Final(a + b, st) == Final(b, Final(a, st))
    decreases |a|
  {
    if a == "" {
      assert a + b == b;
    } else {
      assert (a + b)[0] == a[0] && (a + b)[1..] == a[1..] + b;
      FinalConcat(a[1..], b, Step(st, a[0]));
    }
  }

  lemma {:induction false} FinalBad(s: string)
    ensures Final(s, Bad) == Bad
  {
    if s != "" {
      FinalBad(s[1..]);
    }
  }

  lemma {:induction false} StaysInside(name: string)
    requires ';' !in name && NUL !in name
    ensures Final(name, Inside) == Inside
  {
    if name != "" {
      assert name[0] in name;
      StaysInside(name[1..]);
    }
  }

  lemma {:induction false} PrintReads(t: Type, st: State)
    requires ValidType(t) && (st.Start? || st.Element?)
    ensures Final(Print(t), st) == Start
  {
    match t
    case Base(c) => assert [c][1..] == "";
    case Object(name) =>
      StaysInside(name);
      FinalConcat("L", name, st);
      FinalConcat("L" + name, ";", st);
      OneStep("L", st);
      OneStep(";", Inside);
    case Array(element) =>
      PrintReads(element, Element);
      FinalConcat("[", Print(element), st);
      OneStep("[", st);
  }

  lemma OneStep(s: string, st: State)
    requires |s| == 1
    ensures Final(s, st) == Step(st, s[0])
  {
    assert s[1..] == "";
  }

  lemma {:induction false} PrintAllReads(ts: seq<Type>)
    requires AllTypes(ts)
    ensures Reads(PrintAll(ts))
  {
    if ts != [] {
      PrintReads(ts[0], Start);
      PrintAllReads(ts[1..]);
      FinalConcat(Print(ts[0]), PrintAll(ts[1..]), Start);
    }
  }

  /** The end of a class name. */
  lemma {:induction false} NameEnds(s: string) returns (k: nat)
    requires Final(s, Inside) == Start
    ensures k < |s| && s[k] == ';' && ';' !in s[..k] && NUL !in s[..k] && Final(s[k + 1..], Start) == Start
  {
    if s[0] == ';' {
      k := 0;
    } else {
      FinalBad(s[1..]);
      var k' := NameEnds(s[1..]);
      k := k' + 1;
      assert s[..k] == [s[0]] + s[1..][..k'];
      assert s[1..][k' + 1..] == s[k + 1..];
    }
  }

  lemma NameAndRest(s: string) returns (name: string, more: string)
    requires s != "" && s[0] == 'L' && Final(s[1..], Inside) == Start
    ensures s == "L" + name + ";" + more && |more| < |s|
    ensures ';' !in name && NUL !in name && Final(more, Start) == Start
  {
    var k := NameEnds(s[1..]);
    name, more := s[1..][..k], s[1..][k + 1..];
    assert s == "L" + name + ";" + more;
  }

  lemma PrintAllCons(t: Type, ts: seq<Type>)
    ensures PrintAll([t] + ts) == Print(t) + PrintAll(ts)
  {
    assert ([t] + ts)[1..] == ts;
  }

  /** Whatever reads as parameter types is the text of some; behind a bracket there is at least one. */
  lemma {:induction false} ParametersOf(s: string, st: State) returns (ts: seq<Type>)
    requires (st.Start? || st.Element?) && Final(s, st) == Start
    ensures AllTypes(ts) && PrintAll(ts) == s && (st.Element? ==> ts != [])
    decreases |s|
  {
    if s == "" {
      return [];
    }
    FinalBad(s[1..]);
    if IsBase(s[0]) {
      var rest := ParametersOf(s[1..], Start);
      ts := Prepended(Base(s[0]), rest, s);
    } else if s[0] == '[' {
      var rest := ParametersOf(s[1..], Element);
      ts := Prepended(Array(rest[0]), rest[1..], s);
    } else {
      var name, more := NameAndRest(s);
      var rest := ParametersOf(more, Start);
      ts := Prepended(Object(name), rest, s);
    }
  }

  lemma Prepended(t: Type, rest: seq<Type>, s: string) returns (ts: seq<Type>)
    requires ValidType(t) && AllTypes(rest) && s == Print(t) + PrintAll(rest)
    ensures AllTypes(ts) && PrintAll(ts) == s && ts != []
  {
    ts := [t] + rest;
    PrintAllCons(t, rest);
  }

  // ---- the condition ----

  function NamesIn(t: Type): seq<string>
  {
    match t
    case Base(_) => []
    case Object(name) => [name]
    case Array(element) => NamesIn(element)
  }

  /** The class names in parameter types, one for each that is an object or an array of objects. */
  function AllNames(ts: seq<Type>): seq<string>
  {
    if ts == [] then [] else NamesIn(ts[0]) + AllNames(ts[1..])
  }

  /** The slash at i and the next character can be an escape: of an underscore, a bracket, or of the end of the name. */
  predicate LooksEscaped(name: string, i: int)
  {
    && 0 <= i < |name| - 1 && name[i] == '/'
    && (name[i + 1] == '1' || name[i + 1] == '3' || (name[i + 1] == '2' && Reads(name[i + 2..] + ";")))
  }

  ghost predicate IsAmbiguousName(name: string)
  {
    '_' in name || '[' in name || exists i :: LooksEscaped(name, i)
  }

  /** Two class names, or one that can be read in two ways. */
  ghost predicate IsAmbiguous(ts: seq<Type>)
  {
    |AllNames(ts)| >= 2 || (|AllNames(ts)| == 1 && IsAmbiguousName(AllNames(ts)[0]))
  }

  /** Other parameter types have the same text in full names. */
  ghost predicate SharesText(ts: seq<Type>)
  {
    exists us :: AllTypes(us) && us != ts && Escape(PrintAll(us), TypeName) == Escape(PrintAll(ts), TypeName)
  }

  // ---- texts without class names, and around one ----

  predicate IsBare(s: string)
  {
    s == "" || ((IsBase(s[0]) || s[0] == '[') && IsBare(s[1..]))
  }

  lemma {:induction false} BareHasNoEnd(s: string)
    requires IsBare(s)
    ensures ';' !in s && NUL !in s
  {
    if s != "" {
      BareHasNoEnd(s[1..]);
      assert s == [s[0]] + s[1..];
    }
  }

  lemma {:induction false} BareType(t: Type) returns (dims: string)
    requires ValidType(t) && NamesIn(t) != []
    ensures IsBare(dims) && |NamesIn(t)| == 1 && Print(t) == dims + "L" + NamesIn(t)[0] + ";"
    ensures ';' !in NamesIn(t)[0] && NUL !in NamesIn(t)[0]
  {
    match t
    case Object(name) => dims := "";
    case Array(element) =>
      var inner := BareType(element);
      dims := "[" + inner;
  }

  lemma {:induction false} NoNameMeansBare(t: Type)
    requires ValidType(t) && NamesIn(t) == []
    ensures IsBare(Print(t))
  {
    match t
    case Base(c) =>
    case Array(element) => NoNameMeansBare(element);
  }

  lemma {:induction false} BareConcat(a: string, b: string)
    requires IsBare(a) && IsBare(b)
    ensures IsBare(a + b)
    decreases |a|
  {
    if a == "" {
      assert a + b == b;
    } else {
      assert (a + b)[0] == a[0] && (a + b)[1..] == a[1..] + b;
      BareConcat(a[1..], b);
    }
  }

  lemma {:induction false} NoNamesMeansBare(ts: seq<Type>)
    requires AllTypes(ts) && AllNames(ts) == []
    ensures IsBare(PrintAll(ts))
  {
    if ts != [] {
      NoNameMeansBare(ts[0]);
      NoNamesMeansBare(ts[1..]);
      BareConcat(Print(ts[0]), PrintAll(ts[1..]));
    }
  }

  /** The text up to the first class name, and the types after it. */
  lemma {:induction false} FirstName(ts: seq<Type>) returns (before: string, after: seq<Type>)
    requires AllTypes(ts) && AllNames(ts) != []
    ensures IsBare(before) && AllTypes(after) && AllNames(after) == AllNames(ts)[1..]
    ensures PrintAll(ts) == before + "L" + AllNames(ts)[0] + ";" + PrintAll(after)
    ensures ';' !in AllNames(ts)[0] && NUL !in AllNames(ts)[0]
  {
    if NamesIn(ts[0]) == [] {
      var more: string;
      more, after := FirstName(ts[1..]);
      NoNameMeansBare(ts[0]);
      BareConcat(Print(ts[0]), more);
      before := Print(ts[0]) + more;
      PrefixName(Print(ts[0]), more, AllNames(ts)[0], PrintAll(after));
    } else {
      before := BareType(ts[0]);
      after := ts[1..];
    }
  }

  lemma PrefixName(a: string, before: string, name: string, after: string)
    ensures a + (before + "L" + name + ";" + after) == a + before + "L" + name + ";" + after
  {
  }

  lemma {:induction false} BareFinal(s: string, st: State)
    requires IsBare(s) && (st.Start? || st.Element?)
    ensures Final(s, st).Start? || Final(s, st).Element?
  {
    if s != "" {
      BareFinal(s[1..], Step(st, s[0]));
    }
  }

  // ---- a second reading ----

  lemma SameAround(a: string, x: string, y: string, b: string)
    requires Escape(x, TypeName) == Escape(y, TypeName)
    ensures Escape(a + x + b, TypeName) == Escape(a + y + b, TypeName)
  {
    EscapeConcat(a, x, TypeName);
    EscapeConcat(a + x, b, TypeName);
    EscapeConcat(a, y, TypeName);
    EscapeConcat(a + y, b, TypeName);
  }

  /** The characters with an escape, and the slash and digit that have the same. */
  lemma PairEscape(digit: char)
    requires IsEscape(digit)
    ensures Escape([Escaped(digit)], TypeName) == Escape("/" + [digit], TypeName)
  {
    assert [Escaped(digit)][1..] == "" && ("/" + [digit])[1..] == [digit] && [digit][1..] == "";
  }

  /** The text `s` with x and y, which have the same escape, exchanged is the text of other types. */
  lemma OtherReading(ts: seq<Type>, a: string, x: string, y: string, b: string)
    requires AllTypes(ts) && PrintAll(ts) == a + x + b && x != y && Escape(x, TypeName) == Escape(y, TypeName)
    requires Reads(a + y + b)
    ensures SharesText(ts)
  {
    var us := ParametersOf(a + y + b, Start);
    SameAround(a, x, y, b);
    if us == ts {
      assert a + x + b == a + y + b;
      SameMiddle(a, x, y, b);
    }
  }

  lemma SameMiddle(a: string, x: string, y: string, b: string)
    requires a + x + b == a + y + b
    ensures x == y
  {
    assert |x| == |y|;
    assert (a + x + b)[|a|..|a| + |x|] == x && (a + y + b)[|a|..|a| + |y|] == y;
  }

  /** With two class names the end of the first can be read as part of it. */
  lemma TwoNamesShare(ts: seq<Type>)
    requires AllTypes(ts) && |AllNames(ts)| >= 2
    ensures SharesText(ts)
  {
    var before, after := FirstName(ts);
    var between, rest := FirstName(after);
    var a, b := before + "L" + AllNames(ts)[0], between + "L" + AllNames(after)[0] + ";" + PrintAll(rest);
    assert PrintAll(ts) == a + ";" + b;
    BehindName(before, AllNames(ts)[0]);
    PrintAllReads(rest);
    InsideText(between, AllNames(after)[0], PrintAll(rest));
    FinalConcat(a, "/2", Start);
    FinalConcat(a + "/2", b, Start);
    StaysInside("/2");
    PairEscape('2');
    assert [Escaped('2')] == ";" && "/" + ['2'] == "/2";
    OtherReading(ts, a, ";", "/2", b);
  }

  lemma BehindName(before: string, name: string)
    requires IsBare(before) && ';' !in name && NUL !in name
    ensures Final(before + "L" + name, Start) == Inside
  {
    BareFinal(before, Start);
    FinalConcat(before, "L", Start);
    FinalConcat(before + "L", name, Start);
    OneStep("L", Final(before, Start));
    StaysInside(name);
  }

  lemma InsideText(between: string, name: string, rest: string)
    requires IsBare(between) && ';' !in name && NUL !in name && Reads(rest)
    ensures Final(between + "L" + name + ";" + rest, Inside) == Start
  {
    var inner := between + "L" + name;
    BareHasNoEnd(between);
    StaysInside(inner);
    FinalConcat(inner, ";", Inside);
    FinalConcat(inner + ";", rest, Inside);
    OneStep(";", Inside);
  }

  /** Inside a class name any other text without a semicolon can stand. */
  lemma InnerReading(ts: seq<Type>, before: string, p: string, x: string, y: string, q: string, after: string)
    requires AllTypes(ts) && PrintAll(ts) == before + "L" + (p + x + q) + (";" + after)
    requires IsBare(before) && Reads(after) && x != y && Escape(x, TypeName) == Escape(y, TypeName)
    requires ';' !in p + y + q && NUL !in p + y + q
    ensures SharesText(ts)
  {
    var a, b := before + "L" + p, q + (";" + after);
    Regroup(before + "L", p, x, q, ";" + after);
    Regroup(before + "L", p, y, q, ";" + after);
    NamedReads(before, p + y + q, after);
    OtherReading(ts, a, x, y, b);
  }

  lemma Regroup(a: string, p: string, x: string, q: string, b: string)
    ensures a + (p + x + q) + b == (a + p) + x + (q + b)
  {
  }

  lemma NamedReads(before: string, name: string, after: string)
    requires IsBare(before) && ';' !in name && NUL !in name && Reads(after)
    ensures Reads(before + "L" + name + (";" + after))
  {
    var inner := before + "L" + name;
    BehindName(before, name);
    FinalConcat(inner, ";" + after, Start);
    FinalConcat(";", after, Inside);
    OneStep(";", Inside);
  }

  /** The end of the name at a slash and a 2, when types follow. */
  lemma EndReading(ts: seq<Type>, before: string, p: string, q: string, after: string)
    requires AllTypes(ts) && PrintAll(ts) == before + "L" + (p + "/2" + q) + ";" + after
    requires IsBare(before) && ';' !in p && NUL !in p && Reads(q + ";") && Reads(after)
    ensures SharesText(ts)
  {
    var a, b := before + "L" + p, q + ";" + after;
    assert before + "L" + (p + "/2" + q) + ";" + after == a + "/2" + b;
    BehindName(before, p);
    FinalConcat(a, ";", Start);
    FinalConcat(a + ";", b, Start);
    OneStep(";", Inside);
    FinalConcat(q + ";", after, Start);
    PairEscape('2');
    assert [Escaped('2')] == ";" && "/" + ['2'] == "/2";
    OtherReading(ts, a, "/2", ";", b);
  }

  /** An underscore, a bracket, or what looks escaped: the name can be read in another way. */
  lemma AmbiguousNameShares(ts: seq<Type>)
    requires AllTypes(ts) && |AllNames(ts)| == 1 && IsAmbiguousName(AllNames(ts)[0])
    ensures SharesText(ts)
  {
    var name := AllNames(ts)[0];
    var before, rest := FirstName(ts);
    PrintAllReads(rest);
    Assoc(before + "L" + name, ";", PrintAll(rest));
    if '_' in name || '[' in name {
      var i :| 0 <= i < |name| && (name[i] == '_' || name[i] == '[');
      CharacterShares(ts, before, name, i, PrintAll(rest));
    } else {
      var i :| LooksEscaped(name, i);
      EscapedShares(ts, before, name, i, PrintAll(rest));
    }
  }

  lemma CharacterShares(ts: seq<Type>, before: string, name: string, i: nat, after: string)
    requires AllTypes(ts) && PrintAll(ts) == before + "L" + name + (";" + after)
    requires IsBare(before) && Reads(after) && ';' !in name && NUL !in name
    requires i < |name| && (name[i] == '_' || name[i] == '[')
    ensures SharesText(ts)
  {
    var p, q, digit := name[..i], name[i + 1..], if name[i] == '_' then '1' else '3';
    assert name == p + [name[i]] + q && Escaped(digit) == name[i];
    PairEscape(digit);
    InnerReading(ts, before, p, [name[i]], "/" + [digit], q, after);
  }

  lemma EscapedShares(ts: seq<Type>, before: string, name: string, i: nat, after: string)
    requires AllTypes(ts) && PrintAll(ts) == before + "L" + name + (";" + after)
    requires IsBare(before) && Reads(after) && ';' !in name && NUL !in name && LooksEscaped(name, i)
    ensures SharesText(ts)
  {
    var p, q, digit := name[..i], name[i + 2..], name[i + 1];
    assert name == p + ("/" + [digit]) + q;
    PairEscape(digit);
    if digit == '2' {
      assert "/" + [digit] == "/2";
      EndReading(ts, before, p, q, after);
    } else {
      InnerReading(ts, before, p, "/" + [digit], [Escaped(digit)], q, after);
    }
  }

  // ---- no second reading ----

  /** A text v that has the same escape as c followed by s begins with c, or one of both is written out. */
  lemma Readings(c: char, s: string, v: string)
    requires Escape(v, TypeName) == EscapeChar(c, TypeName) + Escape(s, TypeName)
    ensures BeginsWith(c, s, v) || HasDigit(c, s, v) || HasSpecial(c, s, v)
  {
    assert v != "";
    var more, rest := Escape(v[1..], TypeName), Escape(s, TypeName);
    assert EscapeChar(v[0], TypeName) + more == EscapeChar(c, TypeName) + rest;
    if v[0] == c {
      SameTail(EscapeChar(c, TypeName), more, rest);
    } else if v[0] == '/' {
      DigitBehind(c, rest, v[1..]);
      assert v[1..][1..] == v[2..];
    } else if c == '/' {
      DigitBehind(v[0], more, s);
    } else {
      OtherCharacters(c, rest, v[0], more);
    }
  }

  lemma SameTail(a: string, b: string, b': string)
    requires a + b == a + b'
    ensures b == b'
  {
    assert (a + b)[|a|..] == b && (a + b')[|a|..] == b';
  }

  /** A character other than the slash has the escape of a slash and a digit. */
  lemma DigitBehind(c: char, rest: string, s: string)
    requires c != '/' && EscapeChar(c, TypeName) + rest == "_" + Escape(s, TypeName)
    ensures s != "" && IsEscape(s[0]) && c == Escaped(s[0]) && rest == Escape(s[1..], TypeName)
  {
    var e := EscapeChar(c, TypeName) + rest;
    assert e[1..] == Escape(s, TypeName) && e[0] == '_';
    assert |EscapeChar(c, TypeName)| == 2;
    assert e[2..] == rest && e[1..][1..] == rest;
    DigitAfterSlash(s, e[1]);
  }

  lemma OtherCharacters(c: char, rest: string, d: char, more: string)
    requires c != '/' && d != '/' && EscapeChar(c, TypeName) + rest == EscapeChar(d, TypeName) + more
    ensures c == d
  {
    var e, e' := EscapeChar(c, TypeName) + rest, EscapeChar(d, TypeName) + more;
    assert e[0] == e'[0];
    if e[0] == '_' {
      assert e[1] == e'[1];
    }
  }

  lemma DigitAfterSlash(s: string, digit: char)
    requires Escape(s, TypeName) != "" && Escape(s, TypeName)[0] == digit && IsEscape(digit)
    ensures s != "" && s[0] == digit && Escape(s, TypeName)[1..] == Escape(s[1..], TypeName)
  {
    EscapedFirst(s);
  }

  predicate BeginsWith(c: char, s: string, v: string)
  {
    v != "" && v[0] == c && Escape(v[1..], TypeName) == Escape(s, TypeName)
  }

  /** v has a slash and the digit for c. */
  predicate HasDigit(c: char, s: string, v: string)
  {
    && |v| > 1 && v[0] == '/' && IsEscape(v[1]) && c == Escaped(v[1])
    && Escape(v[2..], TypeName) == Escape(s, TypeName)
  }

  /** c is a slash before a digit, and v has the character for them. */
  predicate HasSpecial(c: char, s: string, v: string)
  {
    && v != "" && c == '/' && s != "" && IsEscape(s[0]) && v[0] == Escaped(s[0])
    && Escape(v[1..], TypeName) == Escape(s[1..], TypeName)
  }

  /** Before the first class name there is nothing to choose. */
  lemma {:induction false} BareIsKept(s: string, more: string, v: string, st: State) returns (rest: string)
    requires IsBare(s) && (st.Start? || st.Element?) && Final(v, st) == Start
    requires Escape(v, TypeName) == Escape(s + more, TypeName)
    ensures v == s + rest && Final(rest, Final(s, st)) == Start
    ensures Escape(rest, TypeName) == Escape(more, TypeName)
    decreases |s|
  {
    if s == "" {
      assert s + more == more;
      rest := v;
    } else {
      EscapeCons(s, more);
      BareFirst(s[0], s[1..] + more, v, st);
      rest := BareIsKept(s[1..], more, v[1..], Step(st, s[0]));
      JoinCons(v, s, rest);
    }
  }

  lemma EscapeCons(s: string, more: string)
    requires s != ""
    ensures Escape(s + more, TypeName) == EscapeChar(s[0], TypeName) + Escape(s[1..] + more, TypeName)
  {
    assert (s + more)[0] == s[0] && (s + more)[1..] == s[1..] + more;
  }

  lemma JoinCons(v: string, s: string, rest: string)
    requires v != "" && s != "" && v[0] == s[0] && v[1..] == s[1..] + rest
    ensures v == s + rest
  {
    assert v == [v[0]] + v[1..] && s == [s[0]] + s[1..];
  }

  lemma BareFirst(c: char, s: string, v: string, st: State)
    requires (IsBase(c) || c == '[') && (st.Start? || st.Element?) && Final(v, st) == Start
    requires Escape(v, TypeName) == EscapeChar(c, TypeName) + Escape(s, TypeName)
    ensures BeginsWith(c, s, v) && Final(v[1..], Step(st, c)) == Start && !Step(st, c).Inside? && !Step(st, c).Bad?
  {
    Readings(c, s, v);
    FinalBad(v[1..]);
  }

  lemma EndNeedsSemicolon(v: string)
    requires Final(v, Inside) == Start
    ensures ';' in v
  {
    var k := NameEnds(v);
  }

  lemma {:induction false} BareHasNoSemicolon(s: string, v: string)
    requires IsBare(s) && Escape(v, TypeName) == Escape(s, TypeName)
    ensures ';' !in v
    decreases |s|
  {
    if s == "" {
      assert v != "" ==> Escape(v, TypeName) != "";
    } else {
      Readings(s[0], s[1..], v);
      if BeginsWith(s[0], s[1..], v) {
        BareHasNoSemicolon(s[1..], v[1..]);
        NotInParts(v, 1);
      } else {
        BareHasNoSemicolon(s[1..], v[2..]);
        NotInParts(v, 2);
      }
    }
  }

  lemma NotInParts(v: string, k: nat)
    requires k <= |v| && ';' !in v[..k] && ';' !in v[k..]
    ensures ';' !in v
  {
    assert v == v[..k] + v[k..];
  }

  /** The rest of a name that is not ambiguous is not. */
  lemma ShorterName(name: string, k: nat)
    requires !IsAmbiguousName(name) && k <= |name|
    ensures !IsAmbiguousName(name[k..])
  {
    forall i ensures !LooksEscaped(name[k..], i) {
      assert !LooksEscaped(name, k + i);
      if 0 <= i < |name| - k - 1 {
        assert name[k..][i + 2..] == name[k + i + 2..];
      }
    }
  }

  /** A name that is not ambiguous cannot be read in another way; nor can any part of it be read as types. */
  lemma {:induction false} NameIsKept(name: string, after: string, v: string, st: State)
    requires !IsAmbiguousName(name) && IsBare(after) && ';' !in name && NUL !in name
    requires Final(v, st) == Start && Escape(v, TypeName) == Escape(name + ";" + after, TypeName)
    requires !st.Bad?
    ensures Final(name + ";", st) == Start && (st.Inside? ==> v == name + ";" + after)
    decreases |name|, 1
  {
    if name == "" {
      assert name + ";" + after == ";" + after;
      EndIsKept(after, v, st);
    } else {
      var s := name[1..] + ";" + after;
      NameFirst(name, after, v, st);
      if BeginsWith(name[0], s, v) {
        ShorterName(name, 1);
        NameIsKept(name[1..], after, v[1..], Step(st, v[0]));
        FinalCons(name, st);
        if st.Inside? {
          JoinName(v, name, after);
        }
      } else {
        if |name| >= 2 {
          ShorterName(name, 2);
        }
        SlashLooksEscaped(name, after, v, st);
      }
    }
  }

  lemma NameFirst(name: string, after: string, v: string, st: State)
    requires !IsAmbiguousName(name) && ';' !in name && NUL !in name && name != "" && !st.Bad?
    requires Final(v, st) == Start && Escape(v, TypeName) == Escape(name + ";" + after, TypeName)
    ensures var s := name[1..] + ";" + after;
            BeginsWith(name[0], s, v) || HasSpecial(name[0], s, v)
    ensures var s := name[1..] + ";" + after;
            BeginsWith(name[0], s, v) ==> !Step(st, v[0]).Bad? && Final(v[1..], Step(st, v[0])) == Start
    ensures ';' !in name[1..] && NUL !in name[1..] && (st.Inside? ==> Step(st, name[0]).Inside?)
  {
    var s := name[1..] + ";" + after;
    assert name + ";" + after == name + (";" + after) && name[1..] + (";" + after) == s;
    EscapeCons(name, ";" + after);
    Readings(name[0], s, v);
    FinalBad(v[1..]);
    assert name[0] in name;
  }

  lemma FinalCons(name: string, st: State)
    requires name != ""
    ensures Final(name + ";", st) == Final(name[1..] + ";", Step(st, name[0]))
  {
    assert (name + ";")[1..] == name[1..] + ";";
  }

  lemma JoinName(v: string, name: string, after: string)
    requires v != "" && name != "" && v[0] == name[0] && v[1..] == name[1..] + ";" + after
    ensures v == name + ";" + after
  {
    assert v == [v[0]] + v[1..] && name == [name[0]] + name[1..];
  }

  /** A slash and a digit that are read as one character look escaped: behind a slash and a 2 types follow. */
  lemma {:induction false} SlashLooksEscaped(name: string, after: string, v: string, st: State)
    requires |name| >= 2 ==> !IsAmbiguousName(name[2..])
    requires IsBare(after) && ';' !in name && NUL !in name && name != ""
    requires Final(v, st) == Start && !st.Bad? && HasSpecial(name[0], name[1..] + ";" + after, v)
    ensures LooksEscaped(name, 0)
    decreases |name|, 0
  {
    assert |name| > 1 && (name[1..] + ";" + after)[0] == name[1];
    if name[1] == '2' {
      FinalBad(v[1..]);
      assert (name[1..] + ";" + after)[1..] == name[2..] + ";" + after;
      assert ';' !in name[2..] && NUL !in name[2..];
      NameIsKept(name[2..], after, v[1..], Start);
    }
  }

  lemma EndIsKept(after: string, v: string, st: State)
    requires IsBare(after) && Final(v, st) == Start && Escape(v, TypeName) == Escape(";" + after, TypeName)
    ensures st.Inside? && v == ";" + after
  {
    assert (";" + after)[1..] == after;
    Readings(';', after, v);
    FinalBad(v[1..]);
    if BeginsWith(';', after, v) {
      BareIsAll(after, v[1..], Start);
      assert v == [v[0]] + v[1..];
    } else {
      assert HasDigit(';', after, v);
      InsideAfterSlash(v, st);
      EndNeedsSemicolon(v[2..]);
      BareHasNoSemicolon(after, v[2..]);
    }
  }

  lemma NothingEscapes(v: string)
    ensures Escape(v, TypeName) == "" <==> v == ""
  {
  }

  lemma InsideAfterSlash(v: string, st: State)
    requires |v| > 1 && v[0] == '/' && v[1] == '2' && Final(v, st) == Start
    ensures st.Inside? && Final(v[2..], Inside) == Start
  {
    FinalBad(v[1..]);
    assert v[1..][1..] == v[2..];
  }

  // ---- exactly when ----

  /** Without class names, and with one that is not ambiguous, the text can be read in one way only. */
  lemma OneReading(ts: seq<Type>, v: string)
    requires AllTypes(ts) && !IsAmbiguous(ts) && Reads(v) && Escape(v, TypeName) == Escape(PrintAll(ts), TypeName)
    ensures v == PrintAll(ts)
  {
    if AllNames(ts) == [] {
      NoNamesMeansBare(ts);
      BareIsAll(PrintAll(ts), v, Start);
    } else {
      var before, rest := FirstName(ts);
      var name, after := AllNames(ts)[0], PrintAll(rest);
      NoNamesMeansBare(rest);
      var more := "L" + (name + ";" + after);
      RegroupName(before, name, after);
      var u := BareIsKept(before, more, v, Start);
      BareFinal(before, Start);
      FirstNameIsKept(name, after, u, Final(before, Start));
    }
  }

  lemma RegroupName(before: string, name: string, after: string)
    ensures before + "L" + name + ";" + after == before + ("L" + (name + ";" + after))
  {
  }

  lemma BareIsAll(s: string, v: string, st: State)
    requires IsBare(s) && (st.Start? || st.Element?) && Final(v, st) == Start
    requires Escape(v, TypeName) == Escape(s, TypeName)
    ensures v == s
  {
    assert s + "" == s;
    var rest := BareIsKept(s, "", v, st);
    NothingEscapes(rest);
  }

  lemma FirstNameIsKept(name: string, after: string, v: string, st: State)
    requires !IsAmbiguousName(name) && IsBare(after) && ';' !in name && NUL !in name && (st.Start? || st.Element?)
    requires Final(v, st) == Start && Escape(v, TypeName) == Escape("L" + (name + ";" + after), TypeName)
    ensures v == "L" + (name + ";" + after)
  {
    var more := name + ";" + after;
    assert ("L" + more)[1..] == more;
    Readings('L', more, v);
    NameIsKept(name, after, v[1..], Inside);
    assert v == [v[0]] + v[1..];
  }

  /** Other parameter types have the same text exactly when there are two class names, or one that is ambiguous. */
  lemma TextIsSharedIff(ts: seq<Type>)
    requires AllTypes(ts)
    ensures SharesText(ts) <==> IsAmbiguous(ts)
  {
    if SharesText(ts) && !IsAmbiguous(ts) {
      var us :| AllTypes(us) && us != ts && Escape(PrintAll(us), TypeName) == Escape(PrintAll(ts), TypeName);
      PrintAllReads(us);
      OneReading(ts, PrintAll(us));
      TypesFromText(ts, us);
    }
    if |AllNames(ts)| >= 2 {
      TwoNamesShare(ts);
    } else if IsAmbiguous(ts) {
      AmbiguousNameShares(ts);
    }
  }

  // ---- full names ----

  /** A full name has its first bare double underscore behind class and method name. */
  lemma FirstBareDouble(n: Native, i: int)
    requires IsProper(n.clazz, n.name) && n.types.Some? && (n.types.value != "" ==> n.types.value[0] != '1')
    ensures var k := |Escape(n.clazz + "/" + n.name, TypeName)|;
            BareDoubleAt(NameOf(n)[5..], k) && (BareDoubleAt(NameOf(n)[5..], i) ==> k <= i)
  {
    var short := Escape(n.clazz + "/" + n.name, TypeName);
    FullNameParts(n);
    JoinIsProper(n.clazz, n.name);
    LastIsNoUnderscore(n.clazz + "/" + n.name);
    NoBareDouble(n.clazz + "/" + n.name, i);
    if n.types.value != "" {
      EscapedFirst(n.types.value);
    }
    DoubleBehind(short, Escape(n.types.value, TypeName), i);
  }

  lemma DoubleBehind(short: string, ts: string, i: int)
    requires short != "" && short[|short| - 1] != '_' && !BareDoubleAt(short, i) && (ts != "" ==> ts[0] != '1')
    ensures BareDoubleAt(short + ("__" + ts), |short|)
    ensures BareDoubleAt(short + ("__" + ts), i) ==> |short| <= i
  {
    var e := short + ("__" + ts);
    if 0 <= i < |short| - 1 {
      assert e[i] == short[i] && e[i + 1] == short[i + 1];
      assert i + 2 < |short| ==> e[i + 2] == short[i + 2];
    }
  }

  lemma LastIsNoUnderscore(u: string)
    requires IsPlain(u) && u != "" && u[|u| - 1] != '/'
    ensures Escape(u, TypeName) != "" && Escape(u, TypeName)[|Escape(u, TypeName)| - 1] != '_'
  {
    var n := |u| - 1;
    assert u[n] in u;
    var before, last := Escape(u[..n], TypeName), EscapeChar(u[n], TypeName);
    EscapeSnoc(u, n, TypeName);
    assert u[..n + 1] == u;
    LastOf(before, last);
  }

  lemma LastOf(a: string, b: string)
    requires b != ""
    ensures a + b != "" && (a + b)[|a + b| - 1] == b[|b| - 1]
  {
  }

  lemma FullNameSplits(n: Native, m: Native)
    requires IsProper(n.clazz, n.name) && n.types.Some? && (n.types.value != "" ==> n.types.value[0] != '1')
    requires IsProper(m.clazz, m.name) && m.types.Some? && (m.types.value != "" ==> m.types.value[0] != '1')
    requires NameOf(n) == NameOf(m)
    ensures Escape(n.types.value, TypeName) == Escape(m.types.value, TypeName)
    ensures NameOf(n.(types := None)) == NameOf(m.(types := None))
  {
    var a, b := Escape(n.clazz + "/" + n.name, TypeName), Escape(m.clazz + "/" + m.name, TypeName);
    var x, y := Escape(n.types.value, TypeName), Escape(m.types.value, TypeName);
    FirstBareDouble(n, |b|);
    FirstBareDouble(m, |a|);
    FullNameParts(n);
    FullNameParts(m);
    SameParts(a, "__" + x, b, "__" + y);
    SameTail("__", x, y);
  }

  lemma FullNameParts(n: Native)
    requires IsProper(n.clazz, n.name) && n.types.Some?
    ensures var short := Escape(n.clazz + "/" + n.name, TypeName);
            && NameOf(n)[5..] == short + ("__" + Escape(n.types.value, TypeName))
            && NameOf(n.(types := None)) == "Java_" + short
  {
    var short, rest := Escape(n.clazz + "/" + n.name, TypeName), "__" + Escape(n.types.value, TypeName);
    ShortIsEscaped(n.clazz, n.name);
    Assoc(Escape(n.clazz, ClassName), "_", Escape(n.name, MethodName));
    assert NameOf(n.(types := None)) == "Java_" + short;
    assert NameOf(n) == ("Java_" + short) + rest;
    Assoc("Java_", short, rest);
    SameTail("Java_", NameOf(n)[5..], short + rest);
  }

  lemma SameParts(a: string, x: string, b: string, y: string)
    requires a + x == b + y && |a| == |b|
    ensures a == b && x == y
  {
    assert (a + x)[..|a|] == a && (b + y)[..|a|] == b && (a + x)[|a|..] == x && (b + y)[|a|..] == y;
  }

  /** A method with parameter types: another one has the same full name. */
  ghost predicate HasFullTwin(clazz: string, name: string, ts: seq<Type>)
  {
    exists c, m, us :: IsOtherMethod(clazz, name, ts, c, m, us) && FullName(c, m, us) == FullName(clazz, name, ts)
  }

  ghost predicate IsOtherMethod(clazz: string, name: string, ts: seq<Type>, c: string, m: string, us: seq<Type>)
  {
    IsProper(c, m) && AllTypes(us) && (c != clazz || m != name || us != ts)
  }

  function FullName(clazz: string, name: string, ts: seq<Type>): string
  {
    NameOf(Native(clazz, name, Some(PrintAll(ts))))
  }

  lemma {:induction false} TypesBeginNoDigit(ts: seq<Type>)
    requires AllTypes(ts)
    ensures PrintAll(ts) != "" ==> PrintAll(ts)[0] != '1'
  {
    PrintAllReads(ts);
    if PrintAll(ts) != "" {
      FinalBad(PrintAll(ts)[1..]);
    }
  }

  /** Exactly which full names are shared: the short name is, or the parameter types can be read in two ways. */
  lemma FullNameIsSharedIff(clazz: string, name: string, ts: seq<Type>)
    requires IsProper(clazz, name) && AllTypes(ts)
    ensures HasFullTwin(clazz, name, ts) <==> IsShared(clazz + "/" + name) || IsAmbiguous(ts)
  {
    ShortNameIsSharedIff(clazz, name);
    TextIsSharedIff(ts);
    if HasFullTwin(clazz, name, ts) {
      var c, m, us :| IsOtherMethod(clazz, name, ts, c, m, us) && FullName(c, m, us) == FullName(clazz, name, ts);
      TypesBeginNoDigit(ts);
      TypesBeginNoDigit(us);
      FullNameSplits(Native(c, m, Some(PrintAll(us))), Native(clazz, name, Some(PrintAll(ts))));
      assert c != clazz || m != name ==> HasTwin(clazz, name);
    }
    if HasTwin(clazz, name) {
      var c, m :| IsProper(c, m) && (c != clazz || m != name)
                  && NameOf(Native(c, m, None)) == NameOf(Native(clazz, name, None));
      assert IsOtherMethod(clazz, name, ts, c, m, ts) && FullName(c, m, ts) == FullName(clazz, name, ts);
    }
    if SharesText(ts) {
      var us :| AllTypes(us) && us != ts && Escape(PrintAll(us), TypeName) == Escape(PrintAll(ts), TypeName);
      assert IsOtherMethod(clazz, name, ts, clazz, name, us) && FullName(clazz, name, us) == FullName(clazz, name, ts);
    }
  }
}
