/** The symbol names of native methods, and a decoder that shows when they are distinct. */
module JniNames {
  import opened Options
  import opened Descriptor

  // ---- escapes ----

  /** The three loops of get_jni_method_name escape different characters. */
  datatype Kind = ClassName | MethodName | TypeName

  function EscapeChar(c: char, kind: Kind): string
  {
    if c == '_' then "_1"
    else if c == '/' && !kind.MethodName? then "_"
    else if c == ';' && kind.TypeName? then "_2"
    else if c == '[' && kind.TypeName? then "_3"
    else [c]
  }

  function Escape(s: string, kind: Kind): string
  {
    if s == "" then "" else EscapeChar(s[0], kind) + Escape(s[1..], kind)
  }

  predicate IsEscape(c: char)
  {
    c == '1' || c == '2' || c == '3'
  }

  function Escaped(c: char): char
    requires IsEscape(c)
  {
    if c == '1' then '_' else if c == '2' then ';' else '['
  }

  /** Reads escapes from the left; any other underscore is a slash. */
  function Unescape(s: string): string
  {
    if s == "" then ""
    else if s[0] == '_' && |s| > 1 && IsEscape(s[1]) then [Escaped(s[1])] + Unescape(s[2..])
    else [if s[0] == '_' then '/' else s[0]] + Unescape(s[1..])
  }

  /** No segment after a slash begins with 1, 2 or 3. */
  predicate Separated(s: string)
  {
    forall i {:trigger s[i]} :: 0 <= i < |s| - 1 && s[i] == '/' ==> !IsEscape(s[i + 1])
  }

  lemma EscapedFirst(s: string)
    requires s != ""
    ensures Escape(s, TypeName) != ""
    ensures Escape(s, TypeName)[0] == if s[0] in "_/;[" then '_' else s[0]
  {
  }

  /** The escapes of a string can be undone exactly when its segments do not look like escapes. */
  lemma {:induction false} UnescapeIff(s: string)
    ensures Unescape(Escape(s, TypeName)) == s <==> Separated(s)
    decreases |s|
  {
    if s != "" {
      var e := Escape(s, TypeName);
      var rest := Escape(s[1..], TypeName);
      UnescapeIff(s[1..]);
      assert e[|EscapeChar(s[0], TypeName)|..] == rest;
      assert Separated(s) <==>
             Separated(s[1..]) && !(|s| > 1 && s[0] == '/' && IsEscape(s[1])) by {
        SeparatedCons(s);
      }
      if s[0] == '/' && |s| > 1 {
        EscapedFirst(s[1..]);
        assert e == "_" + rest && e[1] == rest[0];
      }
    }
  }

  lemma {:induction false} ReadingHasSameEscape(s: string)
    ensures Escape(Unescape(Escape(s, TypeName)), TypeName) == Escape(s, TypeName)
    decreases |s|
  {
    if s != "" {
      if s[0] == '/' && |s| > 1 && IsEscape(s[1]) {
        ReadingHasSameEscape(s[2..]);
        SlashAndDigit(s);
        UnescapePair(s[1], Escape(s[2..], TypeName));
        EscapeFirst(Escaped(s[1]), Unescape(Escape(s[2..], TypeName)));
      } else {
        ReadingHasSameEscape(s[1..]);
        if |s| > 1 {
          EscapedFirst(s[1..]);
        }
        UnescapeFirst(s[0], Escape(s[1..], TypeName));
        EscapeFirst(s[0], Unescape(Escape(s[1..], TypeName)));
      }
    }
  }

  lemma SlashAndDigit(s: string)
    requires |s| > 1 && s[0] == '/' && IsEscape(s[1])
    ensures Escape(s, TypeName) == "_" + [s[1]] + Escape(s[2..], TypeName)
  {
    assert s[1..][1..] == s[2..];
  }

  lemma UnescapePair(digit: char, rest: string)
    requires IsEscape(digit)
    ensures Unescape("_" + [digit] + rest) == [Escaped(digit)] + Unescape(rest)
    ensures EscapeChar(Escaped(digit), TypeName) == "_" + [digit]
  {
    assert ("_" + [digit] + rest)[2..] == rest;
  }

  lemma UnescapeFirst(c: char, rest: string)
    requires !(c == '/' && rest != "" && IsEscape(rest[0]))
    ensures Unescape(EscapeChar(c, TypeName) + rest) == [c] + Unescape(rest)
  {
    var e := EscapeChar(c, TypeName) + rest;
    assert e[|EscapeChar(c, TypeName)|..] == rest;
  }

  lemma EscapeFirst(c: char, rest: string)
    ensures Escape([c] + rest, TypeName) == EscapeChar(c, TypeName) + Escape(rest, TypeName)
  {
    assert ([c] + rest)[1..] == rest;
  }

  /** Every escaped string has exactly one reading that is separated; so s has a twin if it is not. */
  lemma OneReadingIsSeparated(s: string, t: string)
    ensures Separated(t) && Escape(t, TypeName) == Escape(s, TypeName) <==> t == Unescape(Escape(s, TypeName))
  {
    ReadingHasSameEscape(s);
    UnescapeIff(t);
  }

  lemma SeparatedCons(s: string)
    requires s != ""
    ensures Separated(s) <==> Separated(s[1..]) && !(|s| > 1 && s[0] == '/' && IsEscape(s[1]))
  {
    var r := s[1..];
    if Separated(s) {
      forall i {:trigger r[i]} | 0 <= i < |r| - 1 && r[i] == '/' ensures !IsEscape(r[i + 1]) {
        assert s[i + 1] == r[i];
      }
    }
    if Separated(r) && !(|s| > 1 && s[0] == '/' && IsEscape(s[1])) {
      forall i {:trigger s[i]} | 0 <= i < |s| - 1 && s[i] == '/' ensures !IsEscape(s[i + 1]) {
        if i > 0 {
          assert s[i] == r[i - 1];
        }
      }
    }
  }

  // ---- names ----

  /** What the name of a native method says; the parameter types are only in its full name. */
  datatype Native = Native(clazz: string, name: string, types: Option<string>)

  /** get_jni_method_name, given the text of the parameter types. */
  function NameOf(n: Native): string
  {
    var short := "Java_" + (Escape(n.clazz, ClassName) + "_" + Escape(n.name, MethodName));
    match n.types
    case None => short
    case Some(ts) => short + ("__" + Escape(ts, TypeName))
  }

  /** The same with slashes, before escaping. */
  function Unescaped(n: Native): string
  {
    var short := n.clazz + "/" + n.name;
    match n.types
    case None => short
    case Some(ts) => short + ("//" + ts)
  }

  function DoubleSlash(s: string, i: nat): Option<nat>
    ensures var r := DoubleSlash(s, i); r.Some? ==> i <= r.value && r.value + 1 < |s|
    decreases |s| - i
  {
    if |s| <= i + 1 then None
    else if s[i] == '/' && s[i + 1] == '/' then Some(i)
    else DoubleSlash(s, i + 1)
  }

  function LastSlash(s: string): Option<nat>
    ensures var r := LastSlash(s); r.Some? ==> r.value < |s|
  {
    if s == "" then None
    else if s[|s| - 1] == '/' then Some(|s| - 1)
    else LastSlash(s[..|s| - 1])
  }

  /** The signature begins behind the first empty segment, the method name behind the last slash before it. */
  function SplitName(u: string): Option<Native>
  {
    var k := DoubleSlash(u, 0);
    var base := if k.Some? then u[..k.value] else u;
    match LastSlash(base)
    case None => None
    case Some(i) => Some(Native(base[..i], base[i + 1..], if k.Some? then Some(u[k.value + 2..]) else None))
  }

  /** Reads any string as the name of a native method, if it can be one. */
  function DecodeName(s: string): Option<Native>
  {
    if "Java_" <= s then SplitName(Unescape(s[5..])) else None
  }

  predicate IsPlain(s: string)
  {
    ';' !in s && '[' !in s
  }

  /** Class names have segments; none is empty. */
  predicate Segmented(s: string)
  {
    s != "" && s[0] != '/' && s[|s| - 1] != '/' && DoubleSlash(s, 0).None?
  }

  /** Identifiers as section 4.2 of JVMS SE 16 allows them, with no segment that begins with 1, 2 or 3. */
  predicate Clean(n: Native)
  {
    && IsPlain(n.clazz) && Segmented(n.clazz) && Separated(n.clazz)
    && IsPlain(n.name) && '/' !in n.name && n.name != "" && !IsEscape(n.name[0])
    && (n.types.Some? ==> Separated(n.types.value) && (n.types.value != "" ==> !IsEscape(n.types.value[0])))
  }

  lemma {:induction false} EscapeConcat(a: string, b: string, kind: Kind)
    ensures Escape(a + b, kind) == Escape(a, kind) + Escape(b, kind)
    decreases |a|
  {
    if a == "" {
      assert a + b == b;
    } else {
      assert (a + b)[0] == a[0] && (a + b)[1..] == a[1..] + b;
      EscapeConcat(a[1..], b, kind);
    }
  }

  lemma {:induction false} PlainEscapes(s: string)
    requires IsPlain(s)
    ensures Escape(s, ClassName) == Escape(s, TypeName)
    ensures '/' !in s ==> Escape(s, MethodName) == Escape(s, TypeName)
  {
    if s != "" {
      assert s[0] in s;
      PlainEscapes(s[1..]);
    }
  }

  lemma SlashEscapes()
    ensures Escape("/", TypeName) == "_" && Escape("//", TypeName) == "__"
  {
    assert "/"[1..] == "" && "//"[1..] == "/";
  }

  lemma ShortIsEscaped(clazz: string, name: string)
    requires IsPlain(clazz) && IsPlain(name) && '/' !in name
    ensures Escape(clazz, ClassName) + "_" + Escape(name, MethodName) == Escape(clazz + "/" + name, TypeName)
  {
    PlainEscapes(clazz);
    PlainEscapes(name);
    SlashEscapes();
    EscapeConcat(clazz, "/", TypeName);
    EscapeConcat(clazz + "/", name, TypeName);
  }

  lemma Assoc(a: string, b: string, c: string)
    ensures (a + b) + c == a + (b + c)
  {
  }

  lemma NameIsEscaped(n: Native)
    requires IsPlain(n.clazz) && IsPlain(n.name) && '/' !in n.name
    ensures NameOf(n) == "Java_" + Escape(Unescaped(n), TypeName)
  {
    var short := n.clazz + "/" + n.name;
    ShortIsEscaped(n.clazz, n.name);
    if n.types.Some? {
      SlashEscapes();
      EscapeConcat("//", n.types.value, TypeName);
      EscapeConcat(short, "//" + n.types.value, TypeName);
      Assoc("Java_", Escape(short, TypeName), Escape("//" + n.types.value, TypeName));
    }
  }

  lemma SeparatedConcat(a: string, b: string)
    requires Separated(a) && Separated(b)
    requires a != "" && b != "" && a[|a| - 1] == '/' ==> !IsEscape(b[0])
    ensures Separated(a + b)
  {
    var s := a + b;
    forall i {:trigger s[i]} | 0 <= i < |s| - 1 && s[i] == '/' ensures !IsEscape(s[i + 1]) {
      if i < |a| {
        assert s[i] == a[i];
      } else {
        assert s[i] == b[i - |a|];
      }
    }
  }

  lemma CleanIsSeparated(n: Native)
    requires Clean(n)
    ensures Separated(Unescaped(n))
  {
    SeparatedConcat(n.clazz, "/");
    SeparatedConcat(n.clazz + "/", n.name);
    if n.types.Some? {
      SeparatedConcat("//", n.types.value);
      SeparatedConcat(n.clazz + "/" + n.name, "//" + n.types.value);
    }
  }

  lemma {:induction false} LastSlashAt(a: string, b: string)
    requires '/' !in b
    ensures LastSlash(a + "/" + b) == Some(|a|)
    decreases |b|
  {
    var s := a + "/" + b;
    if b != "" {
      assert s[|s| - 1] == b[|b| - 1] && b[|b| - 1] in b;
      assert s[..|s| - 1] == a + "/" + b[..|b| - 1];
      LastSlashAt(a, b[..|b| - 1]);
    }
  }

  lemma {:induction false} FirstDoubleAt(a: string, b: string, i: nat)
    requires DoubleSlash(a, 0).None? && a != "" && a[|a| - 1] != '/' && i <= |a| && "//" <= b
    ensures DoubleSlash(a + b, i) == Some(|a|)
    decreases |a| - i
  {
    if i < |a| {
      NoDouble(a, 0, i);
      FirstDoubleAt(a, b, i + 1);
    } else {
      assert (a + b)[i] == b[0] && (a + b)[i + 1] == b[1];
    }
  }

  lemma {:induction false} NoDouble(a: string, i: nat, j: nat)
    requires DoubleSlash(a, i).None? && i <= j
    ensures j + 1 < |a| ==> !(a[j] == '/' && a[j + 1] == '/')
    decreases j - i
  {
    if i < j && i + 1 < |a| {
      NoDouble(a, i + 1, j);
    }
  }

  lemma {:induction false} DoubleIffPair(a: string, i: nat)
    requires forall j {:trigger a[j]} :: i <= j < |a| - 1 && a[j] == '/' ==> a[j + 1] != '/'
    ensures DoubleSlash(a, i).None?
    decreases |a| - i
  {
    if i + 1 < |a| {
      assert a[i] == '/' ==> a[i + 1] != '/';
      DoubleIffPair(a, i + 1);
    }
  }

  lemma ShortHasNoDouble(clazz: string, name: string)
    requires Segmented(clazz) && '/' !in name && name != ""
    ensures DoubleSlash(clazz + "/" + name, 0).None?
  {
    var s := clazz + "/" + name;
    forall j {:trigger s[j]} | 0 <= j < |s| - 1 && s[j] == '/' ensures s[j + 1] != '/' {
      if j < |clazz| {
        NoDouble(clazz, 0, j);
        assert s[j] == clazz[j];
      } else {
        assert s[j + 1] == name[j - |clazz|];
      }
    }
    DoubleIffPair(s, 0);
  }

  lemma SplitUnescaped(n: Native)
    requires Clean(n)
    ensures SplitName(Unescaped(n)) == Some(n)
  {
    var short := n.clazz + "/" + n.name;
    ShortHasNoDouble(n.clazz, n.name);
    LastSlashAt(n.clazz, n.name);
    assert short[..|n.clazz|] == n.clazz && short[|n.clazz| + 1..] == n.name;
    if n.types.Some? {
      var u := Unescaped(n);
      FirstDoubleAt(short, "//" + n.types.value, 0);
      assert u[..|short|] == short && u[|short| + 2..] == n.types.value;
    }
  }

  /** The decoder gives class, method and parameter types back, and tells short names from full ones. */
  lemma DecodeIsInverse(n: Native)
    requires Clean(n)
    ensures DecodeName(NameOf(n)) == Some(n)
  {
    NameIsEscaped(n);
    CleanIsSeparated(n);
    UnescapeIff(Unescaped(n));
    SplitUnescaped(n);
    assert NameOf(n)[5..] == Escape(Unescaped(n), TypeName);
  }

  /** Distinct methods have distinct names, overloads distinct full names, and no short name is a full name. */
  lemma NamesAreDistinct(n: Native, m: Native)
    requires Clean(n) && Clean(m) && NameOf(n) == NameOf(m)
    ensures n == m
  {
    DecodeIsInverse(n);
    DecodeIsInverse(m);
  }

  /** Without the condition on segments: a/1b.m and a_b.m share their name. */
  lemma SegmentsMatter()
    ensures NameOf(Native("a/1b", "m", None)) == NameOf(Native("a_b", "m", None))
    ensures !Separated("a/1b") && Clean(Native("a_b", "m", None))
  {
    SameEscape("a", "b");
    assert "a" + "/1" + "b" == "a/1b" && "a" + "_" + "b" == "a_b";
    ClassEscape("a/1b");
    ClassEscape("a_b");
    IsCleanExample();
  }

  lemma ClassEscape(s: string)
    requires IsPlain(s)
    ensures Escape(s, ClassName) == Escape(s, TypeName)
  {
    PlainEscapes(s);
  }

  lemma IsCleanExample()
    ensures !Separated("a/1b") && Clean(Native("a_b", "m", None))
  {
    var s := "a/1b";
    assert s[1] == '/' && IsEscape(s[2]);
  }

  // ---- the table of escapes ----

  /** The escapes of section "Resolving Native Method Names" of the JNI specification; EscapeConcat gives the rest. */
  lemma EscapesAre(c: char, kind: Kind)
    ensures Escape("", kind) == "" && Escape("_", kind) == "_1"
    ensures Escape("/", ClassName) == Escape("/", TypeName) == "_"
    ensures Escape(";", TypeName) == "_2" && Escape("[", TypeName) == "_3"
    ensures c != '_' && c != '/' && c != ';' && c != '[' ==> Escape([c], kind) == [c]
  {
    assert "_"[1..] == "" && "/"[1..] == "" && ";"[1..] == "" && "["[1..] == "" && [c][1..] == "";
  }

  lemma {:induction false} PlainTextStays(s: string, kind: Kind)
    requires forall c :: c in s ==> c != '_' && c != '/' && c != ';' && c != '['
    ensures Escape(s, kind) == s
  {
    if s != "" {
      assert s[0] in s && forall c :: c in s[1..] ==> c in s;
      PlainTextStays(s[1..], kind);
    }
  }

  /** Names with all escapes: of m_n in the class p.A_b, with the parameter types int[] and p.C in the full name. */
  lemma ShortNameExample()
    ensures NameOf(Native("p/A_b", "m_n", None)) == "Java_p_A_1b_m_1n"
  {
    ClassExample();
    MethodExample();
    assert "Java_" + ("p_A_1b" + "_" + "m_1n") == "Java_p_A_1b_m_1n";
  }

  lemma FullNameExample()
    ensures NameOf(Native("p/A_b", "m_n", Some("[ILp/C;"))) == "Java_p_A_1b_m_1n" + "__" + "_3ILp_C_2"
  {
    ShortNameExample();
    TypesExample();
    FullNameIs("p/A_b", "m_n", "[ILp/C;");
  }

  lemma FullNameIs(clazz: string, name: string, types: string)
    ensures NameOf(Native(clazz, name, Some(types))) ==
      NameOf(Native(clazz, name, None)) + "__" + Escape(types, TypeName)
  {
    Assoc(NameOf(Native(clazz, name, None)), "__", Escape(types, TypeName));
  }

  lemma ClassExample()
    ensures Escape("p/A_b", ClassName) == "p_A_1b"
  {
    EscapesAre('p', ClassName);
    PlainTextStays("p", ClassName);
    PlainTextStays("A", ClassName);
    PlainTextStays("b", ClassName);
    EscapeConcat("p", "/", ClassName);
    EscapeConcat("p" + "/", "A", ClassName);
    EscapeConcat("p" + "/" + "A", "_", ClassName);
    EscapeConcat("p" + "/" + "A" + "_", "b", ClassName);
    assert "p" + "/" + "A" + "_" + "b" == "p/A_b";
  }

  lemma MethodExample()
    ensures Escape("m_n", MethodName) == "m_1n"
  {
    EscapesAre('m', MethodName);
    PlainTextStays("m", MethodName);
    PlainTextStays("n", MethodName);
    EscapeConcat("m", "_", MethodName);
    EscapeConcat("m" + "_", "n", MethodName);
    assert "m" + "_" + "n" == "m_n";
  }

  lemma TypesExample()
    ensures Escape("[ILp/C;", TypeName) == "_3ILp_C_2"
  {
    EscapesAre('C', TypeName);
    PlainTextStays("ILp", TypeName);
    PlainTextStays("C", TypeName);
    EscapeConcat("[", "ILp", TypeName);
    EscapeConcat("/", "C", TypeName);
    EscapeConcat("/C", ";", TypeName);
    EscapeConcat("[ILp", "/C;", TypeName);
    TypesExampleParts();
  }

  lemma TypesExampleParts()
    ensures "[" + "ILp" == "[ILp" && "/" + "C" == "/C" && "/C" + ";" == "/C;" && "[ILp" + "/C;" == "[ILp/C;"
    ensures "_3" + "ILp" == "_3ILp" && "_" + "C" + "_2" == "_C_2" && "_3ILp" + "_C_2" == "_3ILp_C_2"
  {
  }

  // ---- exactly which short names are shared ----

  /** A class and a method name of JVMS: no empty segment, none of the characters that separate names. */
  predicate IsProper(clazz: string, name: string)
  {
    IsPlain(clazz) && Segmented(clazz) && IsPlain(name) && '/' !in name && name != ""
  }

  /** Class and method name joined by a slash. */
  ghost predicate IsProperText(u: string)
  {
    IsPlain(u) && '/' in u && u[0] != '/' && u[|u| - 1] != '/' && NoEmptySegment(u)
  }

  ghost predicate NoEmptySegment(u: string)
  {
    forall i {:trigger u[i]} :: 0 <= i < |u| - 1 && u[i] == '/' ==> u[i + 1] != '/'
  }

  lemma JoinIsProper(clazz: string, name: string)
    requires IsProper(clazz, name)
    ensures IsProperText(clazz + "/" + name)
  {
    var u := clazz + "/" + name;
    ShortHasNoDouble(clazz, name);
    assert u[|clazz|] == '/';
    forall i {:trigger u[i]} | 0 <= i < |u| - 1 && u[i] == '/' ensures u[i + 1] != '/' {
      NoDouble(u, 0, i);
    }
  }

  lemma {:induction false} LastSlashIsLast(u: string)
    ensures LastSlash(u).Some? ==> u[LastSlash(u).value] == '/' && '/' !in u[LastSlash(u).value + 1..]
    ensures LastSlash(u).None? ==> '/' !in u
  {
    if u != "" && u[|u| - 1] != '/' {
      var front := u[..|u| - 1];
      LastSlashIsLast(front);
      assert u == front + [u[|u| - 1]];
      if LastSlash(u).Some? {
        var k := LastSlash(u).value;
        assert u[k + 1..] == front[k + 1..] + [u[|u| - 1]];
      }
    }
  }

  lemma SplitProper(u: string) returns (clazz: string, name: string)
    requires IsProperText(u)
    ensures IsProper(clazz, name) && u == clazz + "/" + name
  {
    LastSlashIsLast(u);
    var k := LastSlash(u).value;
    clazz, name := u[..k], u[k + 1..];
    assert u == clazz + "/" + name;
    assert k > 0 && u[k - 1] != '/';
    forall i {:trigger clazz[i]} | 0 <= i < |clazz| - 1 && clazz[i] == '/' ensures clazz[i + 1] != '/' {
      assert u[i] == clazz[i] && u[i + 1] == clazz[i + 1];
    }
    DoubleIffPair(clazz, 0);
  }

  lemma EscapeHead(u: string)
    requires IsPlain(u) && u != ""
    ensures Escape(u, TypeName) == EscapeChar(u[0], TypeName) + Escape(u[1..], TypeName)
    ensures Escape(u, TypeName)[0] == if u[0] == '/' then '_' else u[0]
  {
    assert u[0] in u;
  }

  /** u has an underscore where v has a slash and a 1; all before is the same, and so is the rest once escaped. */
  predicate Differ(u: string, v: string, d: nat)
  {
    && d < |u| && d + 1 < |v| && u[..d] == v[..d] && u[d] == '_' && v[d] == '/' && v[d + 1] == '1'
    && Escape(u[d + 1..], TypeName) == Escape(v[d + 2..], TypeName)
  }

  lemma {:induction false} FirstDifference(u: string, v: string) returns (d: nat)
    requires IsPlain(u) && IsPlain(v) && u != v && Escape(u, TypeName) == Escape(v, TypeName)
    ensures Differ(u, v, d) || Differ(v, u, d)
    decreases |u|
  {
    if u != "" {
      EscapeHead(u);
    }
    if v != "" {
      EscapeHead(v);
    }
    if u[0] == v[0] {
      var k := |EscapeChar(u[0], TypeName)|;
      assert Escape(u, TypeName)[k..] == Escape(u[1..], TypeName);
      assert Escape(v, TypeName)[k..] == Escape(v[1..], TypeName);
      assert u == [u[0]] + u[1..] && v == [v[0]] + v[1..];
      var d' := FirstDifference(u[1..], v[1..]);
      d := d' + 1;
      DifferLater(u, v, d');
      DifferLater(v, u, d');
    } else {
      d := 0;
      if u[0] == '_' {
        DifferHere(u, v);
      } else {
        DifferHere(v, u);
      }
    }
  }

  lemma DifferLater(u: string, v: string, d: nat)
    requires u != "" && v != "" && u[0] == v[0]
    ensures Differ(u[1..], v[1..], d) ==> Differ(u, v, d + 1)
  {
    if Differ(u[1..], v[1..], d) {
      assert u[..d + 1] == [u[0]] + u[1..][..d] && v[..d + 1] == [v[0]] + v[1..][..d];
      assert u[1..][d + 1..] == u[d + 2..] && v[1..][d + 2..] == v[d + 3..];
    }
  }

  lemma DifferHere(u: string, v: string)
    requires IsPlain(u) && IsPlain(v) && u != "" && v != "" && u[0] == '_' && v[0] == '/'
    requires Escape(u, TypeName) == Escape(v, TypeName)
    ensures Differ(u, v, 0)
  {
    EscapeHead(u);
    EscapeHead(v);
    var rest := Escape(v[1..], TypeName);
    assert Escape(u, TypeName)[1] == '1' && Escape(v, TypeName)[1..] == rest;
    EscapeHead(v[1..]);
    assert v[1] == '1';
    assert Escape(u, TypeName)[2..] == Escape(u[1..], TypeName);
    assert rest[1..] == Escape(v[1..][1..], TypeName) && v[1..][1..] == v[2..];
  }

  predicate InnerUnderscoreAt(u: string, i: int)
  {
    0 < i < |u| && u[i] == '_' && u[i - 1] != '/'
  }

  predicate SlashOneAt(u: string, i: int)
  {
    0 <= i < |u| - 1 && u[i] == '/' && u[i + 1] == '1'
  }

  predicate SlashAt(u: string, i: int)
  {
    0 <= i < |u| && u[i] == '/'
  }

  /** An underscore that does not begin a segment, or a segment after a slash that begins with 1 and one slash more. */
  ghost predicate IsShared(u: string)
  {
    || (exists i :: InnerUnderscoreAt(u, i))
    || exists i, j :: SlashOneAt(u, i) && SlashAt(u, j) && i != j
  }

  lemma PlainConcat(a: string, b: string)
    ensures IsPlain(a + b) <==> IsPlain(a) && IsPlain(b)
  {
  }

  lemma NoEmptyConcat(a: string, b: string)
    requires a != "" && b != ""
    ensures NoEmptySegment(a + b) <==>
      NoEmptySegment(a) && NoEmptySegment(b) && !(a[|a| - 1] == '/' && b[0] == '/')
  {
    var u := a + b;
    if NoEmptySegment(u) {
      forall i {:trigger a[i]} | 0 <= i < |a| - 1 && a[i] == '/' ensures a[i + 1] != '/' {
        assert u[i] == a[i];
      }
      forall i {:trigger b[i]} | 0 <= i < |b| - 1 && b[i] == '/' ensures b[i + 1] != '/' {
        assert u[|a| + i] == b[i];
      }
      assert u[|a| - 1] == a[|a| - 1];
    }
    if NoEmptySegment(a) && NoEmptySegment(b) && !(a[|a| - 1] == '/' && b[0] == '/') {
      forall i {:trigger u[i]} | 0 <= i < |u| - 1 && u[i] == '/' ensures u[i + 1] != '/' {
        if i < |a| {
          assert u[i] == a[i];
        } else {
          assert u[i] == b[i - |a|];
        }
      }
    }
  }

  /** Between a and b an underscore, or a slash and a 1. */
  lemma MiddleIsPlain(a: string, b: string)
    ensures IsPlain(a + "_" + b) <==> IsPlain(a + "/1" + b)
  {
    PlainConcat(a + "_", b);
    PlainConcat(a, "_");
    PlainConcat(a + "/1", b);
    PlainConcat(a, "/1");
  }

  lemma MiddleHasNoEmptySegment(a: string, b: string)
    requires a != ""
    ensures NoEmptySegment(a + "/1" + b) <==> NoEmptySegment(a + "_" + b) && a[|a| - 1] != '/'
  {
    NoEmptyConcat(a, "_");
    NoEmptyConcat(a, "/1");
    if b != "" {
      NoEmptyConcat(a + "_", b);
      NoEmptyConcat(a + "/1", b);
    } else {
      assert a + "_" + b == a + "_" && a + "/1" + b == a + "/1";
    }
  }

  lemma SameEscape(a: string, b: string)
    ensures Escape(a + "_" + b, TypeName) == Escape(a + "/1" + b, TypeName)
  {
    EscapeConcat(a, "_", TypeName);
    EscapeConcat(a + "_", b, TypeName);
    EscapeConcat(a, "/1", TypeName);
    EscapeConcat(a + "/1", b, TypeName);
    MiddleEscape();
  }

  lemma MiddleEscape()
    ensures Escape("_", TypeName) == "_1" && Escape("/1", TypeName) == "_1"
  {
    assert "_"[1..] == "" && "/1"[1..] == "1" && "1"[1..] == "";
  }

  /** For an inner underscore a slash and a 1 can be read. */
  lemma UnderscoreTwin(u: string, i: nat) returns (v: string)
    requires IsProperText(u) && InnerUnderscoreAt(u, i)
    ensures IsProperText(v) && v != u && Escape(v, TypeName) == Escape(u, TypeName)
  {
    var a, b := u[..i], u[i + 1..];
    assert u == a + "_" + b;
    v := a + "/1" + b;
    SameEscape(a, b);
    MiddleIsPlain(a, b);
    MiddleHasNoEmptySegment(a, b);
    assert v[i] == '/' && v[i] != u[i];
    assert v[0] == u[0] && v[|v| - 1] == (if b == "" then '1' else u[|u| - 1]);
  }

  /** For a slash and a 1 an underscore can be read, if another slash is left. */
  lemma SlashOneTwin(u: string, i: nat, j: nat) returns (v: string)
    requires IsProperText(u) && SlashOneAt(u, i) && SlashAt(u, j) && i != j
    ensures IsProperText(v) && v != u && Escape(v, TypeName) == Escape(u, TypeName)
  {
    var a, b := u[..i], u[i + 2..];
    assert u == a + "/1" + b;
    v := a + "_" + b;
    SameEscape(a, b);
    MiddleIsPlain(a, b);
    MiddleHasNoEmptySegment(a, b);
    SlashRemains(a, b, j);
    assert v[i] == '_' && v[i] != u[i];
    assert v[0] == u[0] && v[|v| - 1] == (if b == "" then '_' else u[|u| - 1]);
  }

  lemma SlashRemains(a: string, b: string, j: nat)
    requires SlashAt(a + "/1" + b, j) && j != |a|
    ensures '/' in a + "_" + b
  {
    var v := a + "_" + b;
    assert v[if j < |a| then j else j - 1] == '/';
  }

  lemma TwinMeansShared(u: string, v: string)
    requires IsProperText(u) && IsProperText(v) && u != v && Escape(v, TypeName) == Escape(u, TypeName)
    ensures IsShared(u)
  {
    var d := FirstDifference(u, v);
    if Differ(u, v, d) {
      UnderscoreIsInner(u, v, d);
    } else {
      assert SlashOneAt(u, d);
      if !exists j :: SlashAt(u, j) && d != j {
        OnlySlash(u, v, d);
      }
    }
  }

  lemma UnderscoreIsInner(u: string, v: string, d: nat)
    requires IsProperText(v) && Differ(u, v, d)
    ensures InnerUnderscoreAt(u, d)
  {
    assert d > 0;
    assert u[d - 1] == u[..d][d - 1] == v[..d][d - 1] == v[d - 1];
  }

  lemma SlashInPrefix(u: string, v: string, d: nat, e: nat)
    requires d <= |u| && d <= |v| && u[..d] == v[..d] && SlashAt(v, e)
    ensures e < d ==> SlashAt(u, e)
  {
    if e < d {
      assert u[e] == u[..d][e] == v[..d][e];
    }
  }

  lemma OnlySlash(u: string, v: string, d: nat)
    requires IsProperText(u) && IsProperText(v) && Differ(v, u, d)
    requires forall j :: SlashAt(u, j) ==> j == d
    ensures exists i :: InnerUnderscoreAt(u, i)
  {
    var u', v' := u[d + 2..], v[d + 1..];
    forall k | 0 <= k < |u'| ensures u'[k] != '/' {
      assert u'[k] == u[d + 2 + k] && !SlashAt(u, d + 2 + k);
    }
    assert '/' in v' by {
      var e :| 0 <= e < |v| && v[e] == '/';
      SlashInPrefix(u, v, d, e);
      assert v'[e - d - 1] == '/';
    }
    assert IsPlain(u') && IsPlain(v') by {
      PlainConcat(u[..d + 2], u');
      PlainConcat(v[..d + 1], v');
      assert u == u[..d + 2] + u' && v == v[..d + 1] + v';
    }
    var e := FirstDifference(u', v');
    assert !Differ(v', u', e);
    assert u'[e] == u[d + 2 + e] == '_';
    assert u[d + 1 + e] != '/' by {
      assert !SlashAt(u, d + 1 + e);
    }
    assert InnerUnderscoreAt(u, d + 2 + e);
  }

  ghost predicate HasTwin(clazz: string, name: string)
  {
    exists c, m ::
      && IsProper(c, m) && (c != clazz || m != name)
      && NameOf(Native(c, m, None)) == NameOf(Native(clazz, name, None))
  }

  /** Two methods share a short name exactly when it has a part that can be read in two ways. */
  lemma ShortNameIsSharedIff(clazz: string, name: string)
    requires IsProper(clazz, name)
    ensures HasTwin(clazz, name) <==> IsShared(clazz + "/" + name)
  {
    var u := clazz + "/" + name;
    JoinIsProper(clazz, name);
    NameIsEscaped(Native(clazz, name, None));
    if HasTwin(clazz, name) {
      var c, m :| IsProper(c, m) && (c != clazz || m != name)
                  && NameOf(Native(c, m, None)) == NameOf(Native(clazz, name, None));
      TwinTexts(clazz, name, c, m);
      JoinIsProper(c, m);
      TwinMeansShared(u, c + "/" + m);
    }
    if IsShared(u) {
      var v: string;
      if i :| InnerUnderscoreAt(u, i) {
        v := UnderscoreTwin(u, i);
      } else {
        var i, j :| SlashOneAt(u, i) && SlashAt(u, j) && i != j;
        v := SlashOneTwin(u, i, j);
      }
      var c, m := SplitProper(v);
      NameIsEscaped(Native(c, m, None));
      assert IsProper(c, m) && (c != clazz || m != name);
    }
  }

  /** A leading 1 is not enough, where no other slash is left: only the method 1b of class a has its name. */
  lemma LeadingOneIsNotEnough()
    ensures IsProper("a", "1b") && !HasTwin("a", "1b")
  {
    var u := "a" + "/" + "1b";
    assert u == "a/1b";
    assert !IsShared(u);
    ShortNameIsSharedIff("a", "1b");
  }

  /** And not needed: a_b.m shares its name. */
  lemma LeadingOneIsNotNeeded()
    ensures IsProper("a_b", "m") && HasTwin("a_b", "m")
  {
    assert InnerUnderscoreAt("a_b" + "/" + "m", 1);
    ShortNameIsSharedIff("a_b", "m");
  }

  lemma TwinTexts(clazz: string, name: string, c: string, m: string)
    requires IsProper(clazz, name) && IsProper(c, m) && (c != clazz || m != name)
    requires NameOf(Native(c, m, None)) == NameOf(Native(clazz, name, None))
    ensures c + "/" + m != clazz + "/" + name
    ensures Escape(c + "/" + m, TypeName) == Escape(clazz + "/" + name, TypeName)
  {
    NameIsEscaped(Native(clazz, name, None));
    NameIsEscaped(Native(c, m, None));
    var e, e' := Escape(c + "/" + m, TypeName), Escape(clazz + "/" + name, TypeName);
    assert ("Java_" + e)[5..] == e && ("Java_" + e')[5..] == e';
    JoinIsUnique(clazz, name, c, m);
  }

  lemma JoinIsUnique(clazz: string, name: string, c: string, m: string)
    requires '/' !in name && '/' !in m
    ensures c + "/" + m == clazz + "/" + name ==> c == clazz && m == name
  {
    var u := clazz + "/" + name;
    LastSlashAt(c, m);
    LastSlashAt(clazz, name);
    assert u[..|clazz|] == clazz && u[|clazz| + 1..] == name;
    if c + "/" + m == u {
      assert u[..|c|] == c && u[|c| + 1..] == m;
    }
  }

  // ---- the parameter types ----

  /** Two lists of types with the same text are the same. */
  lemma TypesFromText(ts: seq<Type>, us: seq<Type>)
    requires (forall t :: t in ts ==> ValidType(t)) && (forall u :: u in us ==> ValidType(u))
    requires PrintAll(ts) == PrintAll(us)
    ensures ts == us
  {
    RoundTrip(Descriptor(ts, None));
    RoundTrip(Descriptor(us, None));
    assert PrintDescriptor(Descriptor(ts, None)) == PrintDescriptor(Descriptor(us, None));
  }

  /** The class names in a type have no segment that begins with 1, 2 or 3. */
  predicate TypeSeparated(t: Type)
  {
    match t
    case Base(_) => true
    case Object(name) => Separated(name)
    case Array(element) => TypeSeparated(element)
  }

  lemma {:induction false} PrintedSeparated(t: Type)
    requires ValidType(t) && TypeSeparated(t)
    ensures Separated(Print(t)) && !IsEscape(Print(t)[0]) && Print(t)[|Print(t)| - 1] != '/'
  {
    match t
    case Base(_) =>
    case Object(name) =>
      SeparatedConcat("L", name);
      SeparatedConcat("L" + name, ";");
    case Array(element) =>
      PrintedSeparated(element);
      SeparatedConcat("[", Print(element));
  }

  /** So the condition on parameter types is one on the class names in them. */
  lemma {:induction false} TypesAreSeparated(ts: seq<Type>)
    requires forall t :: t in ts ==> ValidType(t) && TypeSeparated(t)
    ensures Separated(PrintAll(ts)) && (PrintAll(ts) != "" ==> !IsEscape(PrintAll(ts)[0]))
  {
    if ts != [] {
      PrintedSeparated(ts[0]);
      TypesAreSeparated(ts[1..]);
      SeparatedConcat(Print(ts[0]), PrintAll(ts[1..]));
    }
  }

  /** The method that get_jni_method_name names. */
  function NativeOf(clazz: string, name: string, d: Descriptor, signature: bool): Native
  {
    Native(clazz, name, if signature then Some(PrintAll(d.params)) else None)
  }

  /** Same symbol, same class, method name and, for full names, parameter types. */
  lemma OverloadsAreDistinct(c: string, m: string, d: Descriptor, c': string, m': string, d': Descriptor, full: bool,
                             full': bool)
    requires Valid(d) && Valid(d') && Clean(NativeOf(c, m, d, full)) && Clean(NativeOf(c', m', d', full'))
    requires NameOf(NativeOf(c, m, d, full)) == NameOf(NativeOf(c', m', d', full'))
    ensures c == c' && m == m' && full == full' && (full ==> d.params == d'.params)
  {
    NamesAreDistinct(NativeOf(c, m, d, full), NativeOf(c', m', d', full'));
    if full {
      TypesFromText(d.params, d'.params);
    }
  }

  /** In type names every escape can be misread: one parameter a/2Lb, or the two parameters a and b. */
  lemma TypesMatter(c: string, m: string)
    ensures var d, d' := Descriptor([Object("a/2Lb")], None), Descriptor([Object("a"), Object("b")], None);
            && Valid(d) && Valid(d') && d != d'
            && NameOf(NativeOf(c, m, d, true)) == NameOf(NativeOf(c, m, d', true))
  {
    PrintedExample();
    SameTypeEscape("La", "Lb;");
  }

  lemma PrintedExample()
    ensures Valid(Descriptor([Object("a/2Lb")], None)) && Valid(Descriptor([Object("a"), Object("b")], None))
    ensures PrintAll([Object("a/2Lb")]) == "La" + "/2" + "Lb;"
    ensures PrintAll([Object("a"), Object("b")]) == "La" + ";" + "Lb;"
  {
    var ts, ts' := [Object("a/2Lb")], [Object("a"), Object("b")];
    assert ts[1..] == [] && ts'[1..] == [Object("b")] && ts'[1..][1..] == [];
  }

  lemma SameTypeEscape(a: string, b: string)
    ensures Escape(a + "/2" + b, TypeName) == Escape(a + ";" + b, TypeName)
  {
    EscapeConcat(a, "/2", TypeName);
    EscapeConcat(a + "/2", b, TypeName);
    EscapeConcat(a, ";", TypeName);
    EscapeConcat(a + ";", b, TypeName);
    TypeMiddleEscape();
  }

  lemma TypeMiddleEscape()
    ensures Escape("/2", TypeName) == "_2" && Escape(";", TypeName) == "_2"
  {
    assert "/2"[1..] == "2" && "2"[1..] == "" && ";"[1..] == "";
  }

  // ---- short and full names ----

  /** Two underscores in a row, and no 1 behind them. */
  predicate BareDoubleAt(e: string, i: int)
  {
    0 <= i < |e| - 1 && e[i] == '_' && e[i + 1] == '_' && (i + 2 < |e| ==> e[i + 2] != '1')
  }

  /** A class and a method name never give that. */
  lemma {:induction false} NoBareDouble(u: string, i: int)
    requires IsPlain(u) && NoEmptySegment(u)
    ensures !BareDoubleAt(Escape(u, TypeName), i)
    decreases |u|
  {
    if u != "" {
      var rest := u[1..];
      EscapeHead(u);
      assert NoEmptySegment(rest) by {
        if rest != "" {
          assert u == [u[0]] + rest;
          NoEmptyConcat([u[0]], rest);
        }
      }
      NoBareDouble(rest, i - |EscapeChar(u[0], TypeName)|);
      if rest != "" {
        EscapeHead(rest);
        assert u[1] == rest[0];
      }
    }
  }

  lemma ShortHasNoBareDouble(n: Native, i: int)
    requires IsProper(n.clazz, n.name) && n.types.None?
    ensures !BareDoubleAt(NameOf(n)[5..], i)
  {
    JoinIsProper(n.clazz, n.name);
    NameIsEscaped(n);
    NoBareDouble(n.clazz + "/" + n.name, i);
    assert NameOf(n)[5..] == Escape(n.clazz + "/" + n.name, TypeName);
  }

  lemma FullHasBareDouble(n: Native) returns (i: int)
    requires n.types.Some? && (n.types.value != "" ==> n.types.value[0] != '1')
    ensures BareDoubleAt(NameOf(n)[5..], i)
  {
    var short := Escape(n.clazz, ClassName) + "_" + Escape(n.name, MethodName);
    var ts := Escape(n.types.value, TypeName);
    if n.types.value != "" {
      EscapedFirst(n.types.value);
    }
    assert NameOf(n)[5..] == short + ("__" + ts);
    i := |short|;
  }

  /** No short name is a full name, whatever the segments begin with: parameter types never begin with 1. */
  lemma ShortIsNeverFull(short: Native, full: Native)
    requires IsProper(short.clazz, short.name) && short.types.None?
    requires full.types.Some? && (full.types.value != "" ==> full.types.value[0] != '1')
    ensures NameOf(short) != NameOf(full)
  {
    var i := FullHasBareDouble(full);
    ShortHasNoBareDouble(short, i);
  }

  // ---- the code ----

  lemma EscapeSnoc(s: string, i: nat, kind: Kind)
    requires i < |s|
    ensures Escape(s[..i + 1], kind) == Escape(s[..i], kind) + EscapeChar(s[i], kind)
  {
    EscapeConcat(s[..i], [s[i]], kind);
    assert s[..i + 1] == s[..i] + [s[i]];
    assert Escape([s[i]], kind) == EscapeChar(s[i], kind) + Escape([s[i]][1..], kind);
  }

  method AppendClassName(result: string, s: string) returns (r: string)
    ensures r == result + Escape(s, ClassName)
  {
    r := result;
    for i := 0 to |s|
      invariant r == result + Escape(s[..i], ClassName)
    {
      EscapeSnoc(s, i, ClassName);
      if s[i] == '/' {
        r := r + "_";
      } else if s[i] == '_' {
        r := r + "_1";
      } else {
        r := r + [s[i]];
      }
    }
    assert s[..|s|] == s;
  }

  method AppendMethodName(result: string, s: string) returns (r: string)
    ensures r == result + Escape(s, MethodName)
  {
    r := result;
    for i := 0 to |s|
      invariant r == result + Escape(s[..i], MethodName)
    {
      EscapeSnoc(s, i, MethodName);
      if s[i] == '_' {
        r := r + "_1";
      } else {
        r := r + [s[i]];
      }
    }
    assert s[..|s|] == s;
  }

  method AppendTypeName(result: string, s: string) returns (r: string)
    ensures r == result + Escape(s, TypeName)
  {
    r := result;
    for i := 0 to |s|
      invariant r == result + Escape(s[..i], TypeName)
    {
      EscapeSnoc(s, i, TypeName);
      if s[i] == '_' {
        r := r + "_1";
      } else if s[i] == ';' {
        r := r + "_2";
      } else if s[i] == '[' {
        r := r + "_3";
      } else if s[i] == '/' {
        r := r + "_";
      } else {
        r := r + [s[i]];
      }
    }
    assert s[..|s|] == s;
  }

  lemma {:induction false} PrintAllSnoc(ts: seq<Type>, t: Type)
    ensures PrintAll(ts + [t]) == PrintAll(ts) + Print(t)
  {
    if ts == [] {
      assert ts + [t] == [t] && [t][1..] == [];
    } else {
      assert (ts + [t])[0] == ts[0] && (ts + [t])[1..] == ts[1..] + [t];
      PrintAllSnoc(ts[1..], t);
      Assoc(Print(ts[0]), PrintAll(ts[1..]), Print(t));
    }
  }

  /** The loop over the parameters; None is a ParseError. */
  method AppendTypes(result: string, s: string) returns (r: Option<string>)
    ensures r == match ReadDescriptor(s)
                 case None => None
                 case Some(d) => Some(result + Escape(PrintAll(d.params), TypeName))
  {
    var text := result;
    var parts := new MethodDescriptorParts(s);
    var ok := parts.Begin();
    while ok && !parts.part.isReturn
      invariant fresh(parts) && parts.text == s && (ok ==> parts.Valid()) && (!ok ==> ReadDescriptor(s).None?)
      invariant text == result + Escape(PrintAll(parts.passed), TypeName)
      decreases ok, |s| - parts.End()
    {
      ghost var before, t := parts.passed, parts.current.value;
      PrintAllSnoc(before, t);
      EscapeConcat(PrintAll(before), Print(t), TypeName);
      Assoc(result, Escape(PrintAll(before), TypeName), Escape(Print(t), TypeName));
      text := AppendTypeName(text, parts.part.typeName);
      ok := parts.Next();
    }
    r := if ok then Some(text) else None;
  }

  /** get_jni_method_name; only the full name reads the descriptor. */
  method GetJniMethodName(clazz: string, name: string, descriptor: string, signature: bool) returns (r: Option<string>)
    ensures !signature ==> r == Some(NameOf(Native(clazz, name, None)))
    ensures signature ==> r == match ReadDescriptor(descriptor)
                               case None => None
                               case Some(d) => Some(NameOf(NativeOf(clazz, name, d, true)))
  {
    var result := AppendClassName("Java_", clazz);
    result := result + "_";
    result := AppendMethodName(result, name);
    Assoc("Java_", Escape(clazz, ClassName), "_");
    Assoc("Java_", Escape(clazz, ClassName) + "_", Escape(name, MethodName));
    if !signature {
      return Some(result);
    }
    r := AppendTypes(result + "__", descriptor);
    if ReadDescriptor(descriptor).Some? {
      Assoc(result, "__", Escape(PrintAll(ReadDescriptor(descriptor).value.params), TypeName));
    }
  }
}
