/** Modified UTF-8 (section 4.4.7 of the Java Virtual Machine Specification, SE 16): encoder, buffers and decoder. */
module ModifiedUtf8 {
  import opened Options

  type u1 = bv8

  type u2 = bv16

  // ---- one code unit ----

  /** The lambda of the encoder: bits low to high of c behind a prefix. */
  function GetByte(c: u2, prefix: u1, high: bv5, low: bv5): u1
    requires low <= high <= 15 && high - low <= 7
  {
    var bitCount := high - low + 1;
    var mask: u2 := 0xFF >> (8 - bitCount);
    (((c >> low) & mask) as u1) | prefix
  }

  function EncodeUnit(c: u2): (r: seq<u1>)
    ensures 1 <= |r| <= 3
  {
    if 0x0001 <= c <= 0x007F then [c as u1]
    else if c == 0 || (0x0080 <= c <= 0x07FF) then [GetByte(c, 0xC0, 10, 6), GetByte(c, 0x80, 5, 0)]
    else [GetByte(c, 0xE0, 15, 12), GetByte(c, 0x80, 11, 6), GetByte(c, 0x80, 5, 0)]
  }

  /** Section 4.4.7 in plain arithmetic: six bits in every byte but the first, the highest first. */
  lemma UnitOfOneByte(c: u2)
    requires 1 <= c < 0x80
    ensures |EncodeUnit(c)| == 1 && EncodeUnit(c)[0] as u2 == c
  {
    OneIs(c);
  }

  lemma UnitOfTwoBytes(c: u2)
    requires c == 0 || 0x80 <= c < 0x800
    ensures |EncodeUnit(c)| == 2
    ensures EncodeUnit(c)[0] as u2 == 0xC0 + c / 64 && EncodeUnit(c)[1] as u2 == 0x80 + c % 64
  {
    OneIs(c);
    ThirdIs(c);
  }

  lemma LeadOfThreeBytes(c: u2)
    requires 0x800 <= c
    ensures |EncodeUnit(c)| == 3 && EncodeUnit(c)[0] as u2 == 0xE0 + c / 4096
  {
    ByteIs(c);
  }

  lemma RestOfThreeBytes(c: u2)
    requires 0x800 <= c
    ensures |EncodeUnit(c)| == 3
    ensures EncodeUnit(c)[1] as u2 == 0x80 + c / 64 % 64 && EncodeUnit(c)[2] as u2 == 0x80 + c % 64
  {
    ByteIs(c);
    ThirdIs(c);
  }

  lemma OneIs(c: u2)
    ensures c < 0x80 ==> (c as u1) as u2 == c
    ensures c < 0x800 ==> GetByte(c, 0xC0, 10, 6) as u2 == 0xC0 + c / 64
  {
  }

  lemma ByteIs(c: u2)
    ensures GetByte(c, 0xE0, 15, 12) as u2 == 0xE0 + c / 4096
    ensures GetByte(c, 0x80, 11, 6) as u2 == 0x80 + c / 64 % 64
  {
  }

  lemma ThirdIs(c: u2)
    ensures GetByte(c, 0x80, 5, 0) as u2 == 0x80 + c % 64
  {
  }

  predicate IsOne(x: u1)
  {
    x & 0x80 == 0
  }

  predicate IsTwo(x: u1)
  {
    x & 0xE0 == 0xC0
  }

  predicate IsThree(x: u1)
  {
    x & 0xF0 == 0xE0
  }

  function Two(x: u1, y: u1): u2
  {
    (((x & 0x1F) as u2) << 6) + ((y & 0x3F) as u2)
  }

  function Three(x: u1, y: u1, z: u1): u2
  {
    (((x & 0x0F) as u2) << 12) + (((y & 0x3F) as u2) << 6) + ((z & 0x3F) as u2)
  }

  lemma TwoBytes(c: u2)
    requires c == 0 || 0x0080 <= c <= 0x07FF
    ensures var r := EncodeUnit(c);
            |r| == 2 && IsTwo(r[0]) && !IsOne(r[0]) && Two(r[0], r[1]) == c && r[0] != 0 && r[1] != 0
  {
  }

  lemma ThreePrefix(h: u1)
    requires h <= 0x0F
    ensures IsThree(h | 0xE0) && !IsTwo(h | 0xE0) && !IsOne(h | 0xE0) && (h | 0xE0) & 0x0F == h && h | 0xE0 != 0
  {
  }

  lemma Continuation(h: u1)
    requires h <= 0x3F
    ensures (h | 0x80) & 0x3F == h && h | 0x80 != 0
  {
  }

  lemma Join(c: u2)
    ensures ((c >> 12) << 12) + (((c >> 6) & 0x3F) << 6) + (c & 0x3F) == c
    ensures c >> 12 <= 0x0F && (c >> 6) & 0x3F <= 0x3F && c & 0x3F <= 0x3F
  {
  }

  lemma HighByte(c: u2)
    ensures c >> 12 <= 0x0F && GetByte(c, 0xE0, 15, 12) == ((c >> 12) as u1) | 0xE0
  {
  }

  lemma MiddleByte(c: u2)
    ensures (c >> 6) & 0x3F <= 0x3F && GetByte(c, 0x80, 11, 6) == (((c >> 6) & 0x3F) as u1) | 0x80
  {
  }

  lemma LowByte(c: u2)
    ensures c & 0x3F <= 0x3F && GetByte(c, 0x80, 5, 0) == ((c & 0x3F) as u1) | 0x80
  {
  }

  lemma ThreeBytes(c: u2)
    requires 0x0800 <= c
    ensures var r := EncodeUnit(c);
            && |r| == 3 && IsThree(r[0]) && !IsTwo(r[0]) && !IsOne(r[0]) && Three(r[0], r[1], r[2]) == c
            && r[0] != 0 && r[1] != 0 && r[2] != 0
  {
    Join(c);
    var r := EncodeUnit(c);
    var x, y, z := (c >> 12) as u1, ((c >> 6) & 0x3F) as u1, (c & 0x3F) as u1;
    HighByte(c);
    MiddleByte(c);
    LowByte(c);
    ThreePrefix(x);
    Continuation(y);
    Continuation(z);
  }

  lemma OneByte(c: u2)
    requires 1 <= c <= 0x7F
    ensures var r := EncodeUnit(c);
            |r| == 1 && IsOne(r[0]) && r[0] as u2 == c && r[0] != 0
  {
  }

  // ---- strings ----

  function EncodeAll(us: seq<u2>): seq<u1>
  {
    if us == [] then [] else EncodeAll(us[..|us| - 1]) + EncodeUnit(us[|us| - 1])
  }

  /** ReadsPast: the decoder reads behind the zero that ends a std::string. */
  datatype Decoded = Units(us: seq<u2>) | BadByte(x: u1) | ZeroByte | ReadsPast

  function Cons(u: u2, rest: Decoded): Decoded
  {
    if rest.Units? then Units([u] + rest.us) else rest
  }

  /** A std::string is followed by a zero byte. */
  function ByteAt(b: seq<u1>, i: nat): u1
  {
    if i < |b| then b[i] else 0
  }

  /** What the decoder makes of the bytes from i on. It checks neither continuation bytes nor the end of the string. */
  function Decode(b: seq<u1>, i: nat): Decoded
    decreases |b| - i
  {
    if |b| <= i then Units([])
    else
      var x := b[i];
      if IsOne(x) then (if x == 0 then ZeroByte else Cons(x as u2, Decode(b, i + 1)))
      else if IsTwo(x) then Cons(Two(x, ByteAt(b, i + 1)), Decode(b, i + 2))
      else if IsThree(x) then
        if |b| < i + 2 then ReadsPast
        else Cons(Three(x, ByteAt(b, i + 1), ByteAt(b, i + 2)), Decode(b, i + 3))
      else BadByte(x)
  }

  /** What one turn of the decoder reads, in plain arithmetic; behind the string it reads the zero that ends it. */
  lemma DecodeStep(b: seq<u1>, i: nat)
    requires i < |b|
    ensures var x, y, z := b[i], if i + 1 < |b| then b[i + 1] else 0, if i + 2 < |b| then b[i + 2] else 0;
            if x == 0 then Decode(b, i) == ZeroByte
            else if x < 0x80 then IsRead(b, i, x as u2, 1)
            else if 0xC0 <= x < 0xE0 then IsRead(b, i, (x as u2) % 32 * 64 + (y as u2) % 64, 2)
            else if 0xE0 <= x < 0xF0 then
              if i + 1 == |b| then Decode(b, i) == ReadsPast
              else IsRead(b, i, (x as u2) % 16 * 4096 + (y as u2) % 64 * 64 + (z as u2) % 64, 3)
            else Decode(b, i) == BadByte(x)
  {
    FirstByte(b[i]);
    TwoIs(b[i], ByteAt(b, i + 1));
    ThreeIs(b[i], ByteAt(b, i + 1), ByteAt(b, i + 2));
  }

  /** n bytes at i give c, and the rest is read behind them; an error there is the error of the whole. */
  predicate IsRead(b: seq<u1>, i: nat, c: u2, n: nat)
  {
    match Decode(b, i + n)
    case Units(us) => Decode(b, i) == Units([c] + us)
    case error => Decode(b, i) == error
  }

  lemma FirstByte(x: u1)
    ensures IsOne(x) <==> x < 0x80
    ensures IsTwo(x) <==> 0xC0 <= x < 0xE0
    ensures IsThree(x) <==> 0xE0 <= x < 0xF0
  {
  }

  lemma TwoIs(x: u1, y: u1)
    ensures Two(x, y) == (x as u2) % 32 * 64 + (y as u2) % 64
  {
  }

  lemma ThreeIs(x: u1, y: u1, z: u1)
    ensures Three(x, y, z) == (x as u2) % 16 * 4096 + (y as u2) % 64 * 64 + (z as u2) % 64
  {
  }

  predicate IsContinuation(y: u1)
  {
    y & 0xC0 == 0x80
  }

  /** The shortest form of one code unit starts at i, with zero in two bytes; its length, or 0 if there is none. */
  function CanonicalUnit(b: seq<u1>, i: nat): (n: nat)
    requires i < |b|
    ensures i + n <= |b|
  {
    var x := b[i];
    if IsOne(x) && x != 0 then 1
    else if IsTwo(x) && i + 1 < |b| && IsContinuation(b[i + 1])
            && (Two(x, b[i + 1]) == 0 || 0x80 <= Two(x, b[i + 1])) then 2
    else if IsThree(x) && i + 2 < |b| && IsContinuation(b[i + 1]) && IsContinuation(b[i + 2])
            && 0x800 <= Three(x, b[i + 1], b[i + 2]) then 3
    else 0
  }

  predicate Canonical(b: seq<u1>, i: nat)
    decreases |b| - i
  {
    |b| <= i || (CanonicalUnit(b, i) > 0 && Canonical(b, i + CanonicalUnit(b, i)))
  }

  lemma TwoIsEncoded(x: u1, y: u1)
    requires IsTwo(x) && IsContinuation(y) && (Two(x, y) == 0 || 0x80 <= Two(x, y))
    ensures EncodeUnit(Two(x, y)) == [x, y]
  {
  }

  lemma ThreeIsEncoded(x: u1, y: u1, z: u1)
    requires IsThree(x) && IsContinuation(y) && IsContinuation(z) && 0x800 <= Three(x, y, z)
    ensures EncodeUnit(Three(x, y, z)) == [x, y, z]
  {
    HighPart(x, y, z);
    MiddlePart(x, y, z);
    LowPart(x, y, z);
  }

  lemma HighPart(x: u1, y: u1, z: u1)
    requires IsThree(x)
    ensures GetByte(Three(x, y, z), 0xE0, 15, 12) == x
  {
    HighByte(Three(x, y, z));
  }

  lemma MiddlePart(x: u1, y: u1, z: u1)
    requires IsContinuation(y)
    ensures GetByte(Three(x, y, z), 0x80, 11, 6) == y
  {
    MiddleByte(Three(x, y, z));
  }

  lemma LowPart(x: u1, y: u1, z: u1)
    requires IsContinuation(z)
    ensures GetByte(Three(x, y, z), 0x80, 5, 0) == z
  {
    LowByte(Three(x, y, z));
  }

  /** The bytes of one code unit at i are decoded to it, whatever follows. */
  lemma DecodeEncoded(c: u2, b: seq<u1>, i: nat)
    requires i + |EncodeUnit(c)| <= |b| && b[i..i + |EncodeUnit(c)|] == EncodeUnit(c)
    ensures Decode(b, i) == Cons(c, Decode(b, i + |EncodeUnit(c)|))
    ensures CanonicalUnit(b, i) == |EncodeUnit(c)|
  {
    var r := EncodeUnit(c);
    assert forall k :: 0 <= k < |r| ==> b[i + k] == b[i..i + |r|][k] == r[k];
    if 1 <= c <= 0x7F {
      OneByte(c);
      assert b[i] == r[0];
    } else if c == 0 || 0x80 <= c <= 0x7FF {
      TwoBytes(c);
      assert b[i] == r[0] && b[i + 1] == r[1];
    } else {
      ThreeBytes(c);
      assert b[i] == r[0] && b[i + 1] == r[1] && b[i + 2] == r[2];
    }
  }

  lemma {:induction false} EncodeCons(c: u2, us: seq<u2>)
    ensures EncodeAll([c] + us) == EncodeUnit(c) + EncodeAll(us)
  {
    if us == [] {
      assert [c] + us == [c] && [c][..0] == [];
    } else {
      var front, last := us[..|us| - 1], us[|us| - 1];
      assert ([c] + us)[..|us|] == [c] + front && ([c] + us)[|us|] == last;
      EncodeCons(c, front);
      Assoc(EncodeUnit(c), EncodeAll(front), EncodeUnit(last));
    }
  }

  lemma Assoc(a: seq<u1>, b: seq<u1>, c: seq<u1>)
    ensures (a + b) + c == a + (b + c)
  {
  }

  lemma EncodeFirst(us: seq<u2>)
    requires us != []
    ensures EncodeAll(us) == EncodeUnit(us[0]) + EncodeAll(us[1..])
  {
    EncodeCons(us[0], us[1..]);
    assert us == [us[0]] + us[1..];
  }

  lemma ConsFirst(us: seq<u2>)
    requires us != []
    ensures Cons(us[0], Units(us[1..])) == Units(us)
  {
    assert [us[0]] + us[1..] == us;
  }

  lemma {:induction false} DecodeAll(us: seq<u2>, b: seq<u1>, i: nat)
    requires i <= |b| && b[i..] == EncodeAll(us)
    ensures Decode(b, i) == Units(us) && Canonical(b, i)
    decreases |us|
  {
    if us != [] {
      EncodeFirst(us);
      SplitAt(b, i, EncodeUnit(us[0]), EncodeAll(us[1..]));
      DecodeEncoded(us[0], b, i);
      DecodeAll(us[1..], b, i + |EncodeUnit(us[0])|);
      ConsFirst(us);
    }
  }

  lemma SplitAt(b: seq<u1>, i: nat, front: seq<u1>, rest: seq<u1>)
    requires i <= |b| && b[i..] == front + rest
    ensures i + |front| <= |b| && b[i..i + |front|] == front && b[i + |front|..] == rest
  {
    assert b[i..][..|front|] == front && b[i..][|front|..] == rest;
  }

  lemma JoinAt(b: seq<u1>, i: nat, n: nat)
    requires i + n <= |b|
    ensures b[i..i + n] + b[i + n..] == b[i..]
  {
  }

  /** Decoding what the encoder wrote gives the string back without an error. */
  lemma RoundTrip(us: seq<u2>)
    ensures Decode(EncodeAll(us), 0) == Units(us)
  {
    DecodeAll(us, EncodeAll(us), 0);
  }

  lemma UnitIsEncoded(b: seq<u1>, i: nat)
    requires i < |b| && CanonicalUnit(b, i) > 0
    ensures exists c :: EncodeUnit(c) == b[i..i + CanonicalUnit(b, i)]
  {
    var n := CanonicalUnit(b, i);
    if n == 1 {
      assert EncodeUnit(b[i] as u2) == [b[i]] == b[i..i + 1];
    } else if n == 2 {
      TwoIsEncoded(b[i], b[i + 1]);
      assert b[i..i + 2] == [b[i], b[i + 1]];
    } else {
      ThreeIsEncoded(b[i], b[i + 1], b[i + 2]);
      assert b[i..i + 3] == [b[i], b[i + 1], b[i + 2]];
    }
  }

  lemma {:induction false} CanonicalIsEncoded(b: seq<u1>, i: nat) returns (us: seq<u2>)
    requires i <= |b| && Canonical(b, i)
    ensures EncodeAll(us) == b[i..]
    decreases |b| - i
  {
    us := [];
    if i < |b| {
      var n := CanonicalUnit(b, i);
      UnitIsEncoded(b, i);
      var c :| EncodeUnit(c) == b[i..i + n];
      var rest := CanonicalIsEncoded(b, i + n);
      EncodeCons(c, rest);
      us := [c] + rest;
      JoinAt(b, i, n);
    }
  }

  /** Decoding is undone by encoding exactly for the canonical byte strings; on others the decoder may not complain. */
  lemma DecodeIsExactIff(b: seq<u1>)
    ensures Decode(b, 0).Units? && EncodeAll(Decode(b, 0).us) == b <==> Canonical(b, 0)
  {
    if Decode(b, 0).Units? && EncodeAll(Decode(b, 0).us) == b {
      DecodeAll(Decode(b, 0).us, b, 0);
    }
    if Canonical(b, 0) {
      var us := CanonicalIsEncoded(b, 0);
      assert b[0..] == b;
      DecodeAll(us, b, 0);
    }
  }

  /** A string cut off inside a character is decoded to something, without an error. */
  lemma TruncatedIsAccepted()
    ensures Decode([0xC3], 0) == Units([0xC0]) && !Canonical([0xC3], 0)
  {
    assert Decode([0xC3], 2) == Units([]);
    assert Two(0xC3, 0) == 0xC0;
  }

  /** So C code can use the bytes as a zero-terminated string. */
  lemma {:induction false} NoZeroByte(us: seq<u2>)
    ensures 0 !in EncodeAll(us)
  {
    if us != [] {
      var c := us[|us| - 1];
      NoZeroByte(us[..|us| - 1]);
      if 1 <= c <= 0x7F {
        OneByte(c);
      } else if c == 0 || 0x80 <= c <= 0x7FF {
        TwoBytes(c);
      } else {
        ThreeBytes(c);
      }
    }
  }

  // ---- the code ----

  /** struct ModifiedUtf8 */
  class Encoded {
    const chars: array<u1>
    var count: nat

    constructor (c: u2)
      ensures fresh(chars) && chars.Length == 4 && count <= 3
      ensures chars[..count] == EncodeUnit(c) && forall i :: count <= i < 4 ==> chars[i] == 0
    {
      chars := new u1[4](_ => 0);
      count := 0;
      new;
      if 0x0001 <= c <= 0x007F {
        chars[0] := c as u1;
        count := 1;
      } else if c == 0 || (0x0080 <= c <= 0x07FF) {
        chars[0] := GetByte(c, 0xC0, 10, 6);
        chars[1] := GetByte(c, 0x80, 5, 0);
        count := 2;
      } else {
        chars[0] := GetByte(c, 0xE0, 15, 12);
        chars[1] := GetByte(c, 0x80, 11, 6);
        chars[2] := GetByte(c, 0x80, 5, 0);
        count := 3;
      }
    }
  }

  /** The two codings of a JavaString. */
  datatype Coded = Latin(bytes: seq<u1>) | Utf16(units: seq<u2>)

  /** JavaString::length: the length of the byte array, shifted right by the coder. */
  function Length(s: Coded): (n: nat)
    ensures n == match s case Latin(bytes) => |bytes| case Utf16(units) => |units|
  {
    var arrayLength := match s case Latin(bytes) => |bytes| case Utf16(units) => 2 * |units|;
    if s.Latin? then arrayLength else arrayLength / 2
  }

  /** count_utf8: the array length for Latin, and for UTF-16 the length of the encoding. */
  method CountUtf8(s: Coded) returns (length: nat)
    ensures length == match s case Latin(bytes) => |bytes| case Utf16(units) => |EncodeAll(units)|
  {
    match s
    case Latin(bytes) => length := |bytes|;
    case Utf16(units) => length := CountUnits(units);
  }

  method CountUnits(us: seq<u2>) returns (length: nat)
    ensures length == |EncodeAll(us)|
  {
    length := 0;
    for i := 0 to |us|
      invariant length == |EncodeAll(us[..i])|
    {
      var m := new Encoded(us[i]);
      assert us[..i + 1][..i] == us[..i] && |m.chars[..m.count]| == m.count;
      length := length + m.count;
    }
    assert us[..|us|] == us;
  }

  /** std::string_view::substr: the length is cut at the end of the string. */
  function Sub<T>(us: seq<T>, start: nat, length: nat): seq<T>
    requires start <= |us|
  {
    if start + length <= |us| then us[start..start + length] else us[start..]
  }

  lemma EncodeSnoc(us: seq<u2>, i: nat)
    requires i < |us|
    ensures EncodeAll(us[..i + 1]) == EncodeAll(us[..i]) + EncodeUnit(us[i])
  {
    assert us[..i + 1][..i] == us[..i];
  }

  lemma {:induction false} EncodeGrows(us: seq<u2>, i: nat)
    requires i <= |us|
    ensures |EncodeAll(us[..i])| <= |EncodeAll(us)|
    decreases |us| - i
  {
    if i < |us| {
      EncodeSnoc(us, i);
      EncodeGrows(us, i + 1);
    } else {
      assert us[..i] == us;
    }
  }

  method CopyUnit(m: Encoded, buffer: array<u1>, at: nat)
    requires m.count <= m.chars.Length && at + m.count <= buffer.Length && m.chars != buffer
    modifies buffer
    ensures buffer[..] == old(buffer[..at]) + m.chars[..m.count] + old(buffer[at + m.count..])
  {
    for i := 0 to m.count
      invariant buffer[..] == old(buffer[..at]) + m.chars[..i] + old(buffer[at + i..])
    {
      buffer[at + i] := m.chars[i];
    }
  }

  /** The bytes of a string behind what was in the buffer before `at`. */
  ghost predicate Written(was: seq<u1>, now: seq<u1>, bytes: seq<u1>)
  {
    |bytes| <= |was| && now == bytes + was[|bytes|..]
  }

  /** The bytes that copy_to_modified_utf8_buffer puts before the zero: Latin bytes as they are. */
  function CopiedBytes(s: Coded, start: nat, length: nat): seq<u1>
    requires start <= Length(s)
  {
    match s
    case Latin(bytes) => Sub(bytes, start, length)
    case Utf16(units) => EncodeAll(Sub(units, start, length))
  }

  /** What it returns: for Latin the length of the whole string, whatever part was asked for. */
  function CopiedLength(s: Coded, start: nat, length: nat): nat
    requires start <= Length(s)
  {
    match s
    case Latin(bytes) => |bytes| + 1
    case Utf16(units) => |EncodeAll(Sub(units, start, length))| + 1
  }

  /**
   copy_to_modified_utf8_buffer: with or without a buffer it returns the same length; with one the bytes and a zero are
   written. None stands for the exception of substr.
   */
  method CopyToModifiedUtf8Buffer(s: Coded, start: nat, length: nat, buffer: array?<u1>) returns (r: Option<nat>)
    requires start <= Length(s) && buffer != null ==> |CopiedBytes(s, start, length)| < buffer.Length
    modifies buffer
    ensures r == if start <= Length(s) then Some(CopiedLength(s, start, length)) else None
    ensures buffer != null && r.Some? ==>
              var bytes := CopiedBytes(s, start, length) + [0];
              buffer[..] == bytes + old(buffer[..])[|bytes|..]
    ensures buffer != null && r.None? ==> buffer[..] == old(buffer[..])
  {
    if start > Length(s) {
      return None;
    }
    match s
    case Latin(bytes) =>
      if buffer != null {
        CopyBytes(Sub(bytes, start, length), buffer);
      }
      r := Some(|bytes| + 1);
    case Utf16(units) =>
      var count := CopyView(Sub(units, start, length), buffer);
      r := Some(count + 1);
  }

  /** std::copy and the terminating zero. */
  method CopyBytes(bytes: seq<u1>, buffer: array<u1>)
    requires |bytes| < buffer.Length
    modifies buffer
    ensures Written(old(buffer[..]), buffer[..], bytes + [0])
  {
    ghost var was := buffer[..];
    for i := 0 to |bytes|
      invariant forall k :: 0 <= k < buffer.Length ==> buffer[k] == if k < i then bytes[k] else was[k]
    {
      buffer[i] := bytes[i];
    }
    CopiedIsWritten(was, buffer[..], bytes);
    Terminate(buffer, |bytes|, was, bytes);
  }

  lemma CopiedIsWritten(was: seq<u1>, now: seq<u1>, bytes: seq<u1>)
    requires |now| == |was| && |bytes| <= |was|
    requires forall k :: 0 <= k < |was| ==> now[k] == if k < |bytes| then bytes[k] else was[k]
    ensures Written(was, now, bytes)
  {
  }

  /** From start up to end, where the part ends or else the string. */
  lemma CopiedBytesAre(s: Coded, start: nat, length: nat, end: nat)
    requires start <= end <= Length(s) && (end == start + length || (end == Length(s) && end <= start + length))
    ensures match s
            case Latin(bytes) => CopiedBytes(s, start, length) == bytes[start..end]
            case Utf16(units) =>
              && CopiedBytes(s, start, length) == EncodeAll(units[start..end])
              && CopiedLength(s, start, length) == |EncodeAll(units[start..end])| + 1
  {
    if s.Utf16? {
      assert Sub(s.units, start, length) == s.units[start..end];
    }
  }

  /** The returned length is the number of bytes written exactly for UTF-16, and for Latin if the part is the whole. */
  lemma CopiedLengthIsExactIff(s: Coded, start: nat, length: nat)
    requires start <= Length(s)
    ensures CopiedLength(s, start, length) == |CopiedBytes(s, start, length)| + 1
            <==> s.Utf16? || (start == 0 && Length(s) <= length)
  {
  }

  /** One byte of two is copied, and the length of both returned. */
  lemma LatinLengthIsWrong()
    ensures CopiedBytes(Latin([0x61, 0x62]), 0, 1) == [0x61] && CopiedLength(Latin([0x61, 0x62]), 0, 1) == 3
  {
  }

  /** Latin bytes as code units. */
  function Widen(bytes: seq<u1>): seq<u2>
  {
    if bytes == [] then [] else Widen(bytes[..|bytes| - 1]) + [bytes[|bytes| - 1] as u2]
  }

  predicate IsAscii(b: u1)
  {
    0 < b < 0x80
  }

  lemma WideUnit(b: u1)
    ensures IsAscii(b) ==> EncodeUnit(b as u2) == [b]
    ensures !IsAscii(b) ==> |EncodeUnit(b as u2)| == 2
  {
  }

  lemma EncodeLast(us: seq<u2>, c: u2)
    ensures EncodeAll(us + [c]) == EncodeAll(us) + EncodeUnit(c)
  {
    assert (us + [c])[..|us|] == us;
  }

  lemma {:induction false} AsciiIsEncoded(bytes: seq<u1>)
    requires forall i :: 0 <= i < |bytes| ==> IsAscii(bytes[i])
    ensures EncodeAll(Widen(bytes)) == bytes
  {
    if bytes != [] {
      AsciiIsEncoded(bytes[..|bytes| - 1]);
      WideUnit(bytes[|bytes| - 1]);
      EncodeLast(Widen(bytes[..|bytes| - 1]), bytes[|bytes| - 1] as u2);
    }
  }

  /** Any other byte makes the encoding longer. */
  lemma {:induction false} EncodedIsLonger(bytes: seq<u1>)
    ensures |EncodeAll(Widen(bytes))| >= |bytes|
    ensures forall i :: 0 <= i < |bytes| && !IsAscii(bytes[i]) ==> |EncodeAll(Widen(bytes))| > |bytes|
  {
    if bytes != [] {
      EncodedIsLonger(bytes[..|bytes| - 1]);
      WideUnit(bytes[|bytes| - 1]);
      EncodeLast(Widen(bytes[..|bytes| - 1]), bytes[|bytes| - 1] as u2);
    }
  }

  /** For Latin the bytes are modified UTF-8 of the string exactly when all are ASCII and none is zero. */
  lemma LatinIsEncodedIff(bytes: seq<u1>)
    ensures EncodeAll(Widen(bytes)) == bytes <==> forall i :: 0 <= i < |bytes| ==> IsAscii(bytes[i])
  {
    if forall i :: 0 <= i < |bytes| ==> IsAscii(bytes[i]) {
      AsciiIsEncoded(bytes);
    } else {
      EncodedIsLonger(bytes);
    }
  }

  /** A letter with an accent is copied as one byte; its encoding has two. */
  lemma LatinIsNotEncoded()
    ensures CopiedBytes(Latin([0xE9]), 0, 1) == [0xE9] && EncodeAll(Widen([0xE9])) == [0xC3, 0xA9]
  {
    EncodeLast([], 0xE9);
    assert Widen([0xE9]) == [] + [0xE9 as u2];
  }

  lemma WrittenMore(was: seq<u1>, now: seq<u1>, bytes: seq<u1>, more: seq<u1>, now': seq<u1>)
    requires Written(was, now, bytes) && |bytes| + |more| <= |was|
    requires now' == now[..|bytes|] + more + now[|bytes| + |more|..]
    ensures Written(was, now', bytes + more)
  {
    assert now[..|bytes|] == bytes && now[|bytes| + |more|..] == was[|bytes| + |more|..];
  }

  /** One turn of the loop; without a buffer nothing is written. */
  method CopyOne(c: u2, buffer: array?<u1>, at: nat, ghost was: seq<u1>, ghost bytes: seq<u1>) returns (count: nat)
    requires buffer != null ==>
               |bytes| == at && Written(was, buffer[..], bytes) && at + |EncodeUnit(c)| <= buffer.Length
    modifies buffer
    ensures count == |EncodeUnit(c)|
    ensures buffer != null ==> Written(was, buffer[..], bytes + EncodeUnit(c))
  {
    var m := new Encoded(c);
    if buffer != null {
      ghost var now := buffer[..];
      CopyUnit(m, buffer, at);
      WrittenMore(was, now, bytes, EncodeUnit(c), buffer[..]);
    }
    count := m.count;
  }

  method Terminate(buffer: array<u1>, at: nat, ghost was: seq<u1>, ghost bytes: seq<u1>)
    requires |bytes| == at < buffer.Length && Written(was, buffer[..], bytes)
    modifies buffer
    ensures Written(was, buffer[..], bytes + [0])
  {
    ghost var now := buffer[..];
    buffer[at] := 0;
    WrittenMore(was, now, bytes, [0], buffer[..]);
  }

  method CopyView(view: seq<u2>, buffer: array?<u1>) returns (count: nat)
    requires buffer != null ==> |EncodeAll(view)| < buffer.Length
    modifies buffer
    ensures count == |EncodeAll(view)|
    ensures buffer != null ==> Written(old(buffer[..]), buffer[..], EncodeAll(view) + [0])
  {
    count := 0;
    ghost var was := if buffer == null then [] else buffer[..];
    ghost var bytes: seq<u1> := [];
    for i := 0 to |view|
      invariant bytes == EncodeAll(view[..i]) && count == |bytes|
      invariant buffer != null ==> Written(was, buffer[..], bytes)
    {
      EncodeSnoc(view, i);
      EncodeGrows(view, i + 1);
      var n := CopyOne(view[i], buffer, count, was, bytes);
      bytes := bytes + EncodeUnit(view[i]);
      count := count + n;
    }
    assert view[..|view|] == view;
    if buffer != null {
      Terminate(buffer, count, was, bytes);
    }
  }

  // ---- the decoder ----

  lemma ConsUnits(us: seq<u2>, c: u2, rest: Decoded)
    ensures Append(us, Cons(c, rest)) == Append(us + [c], rest)
  {
    if rest.Units? {
      assert us + ([c] + rest.us) == us + [c] + rest.us;
    }
  }

  function Append(us: seq<u2>, rest: Decoded): Decoded
  {
    if rest.Units? then Units(us + rest.us) else rest
  }

  lemma AppendNothing(us: seq<u2>, d: Decoded)
    ensures Append([], d) == d && Append(us, Units([])) == Units(us)
  {
    assert us + [] == us;
    if d.Units? {
      assert [] + d.us == d.us;
    }
  }

  /** The loop of make_string. */
  method DecodeString(b: seq<u1>) returns (r: Decoded)
    ensures r == Decode(b, 0)
  {
    var us: seq<u2> := [];
    var i := 0;
    AppendNothing(us, Decode(b, 0));
    while i < |b|
      invariant Append(us, Decode(b, i)) == Decode(b, 0)
      decreases |b| - i
    {
      var x := b[i];
      var c: u2;
      if x & 0x80 == 0 {
        if x == 0 {
          return ZeroByte;
        }
        c := x as u2;
      } else if x & 0xE0 == 0xC0 {
        i := i + 1;
        c := Two(x, ByteAt(b, i));
      } else if x & 0xF0 == 0xE0 {
        i := i + 2;
        if |b| < i {
          return ReadsPast;
        }
        c := Three(x, ByteAt(b, i - 1), ByteAt(b, i));
      } else {
        return BadByte(x);
      }
      i := i + 1;
      ConsUnits(us, c, Decode(b, i));
      us := us + [c];
    }
    AppendNothing(us, Units([]));
    r := Units(us);
  }
}
