/** UTF-8 as RFC 3629 defines it: the encoding of section 3, the byte grammar of section 4,
    and their agreement. */
module Utf8 {
  import opened Bytes
  import opened Text

  /** Unicode scalar values: code points that are no surrogates. */
  type Scalar = c: int | 0 <= c < 0xD800 || 0xE000 <= c < 0x110000

  predicate Tail(b: Byte) {
    0x80 <= b <= 0xBF
  }

  /** UTF8-char of section 4. */
  predicate CharGrammar(c: seq<Byte>) {
    || (|c| == 1 && c[0] <= 0x7F)
    || (|c| == 2 && 0xC2 <= c[0] <= 0xDF && Tail(c[1]))
    || (|c| == 3 && c[0] == 0xE0 && 0xA0 <= c[1] <= 0xBF && Tail(c[2]))
    || (|c| == 3 && 0xE1 <= c[0] <= 0xEC && Tail(c[1]) && Tail(c[2]))
    || (|c| == 3 && c[0] == 0xED && 0x80 <= c[1] <= 0x9F && Tail(c[2]))
    || (|c| == 3 && 0xEE <= c[0] <= 0xEF && Tail(c[1]) && Tail(c[2]))
    || (|c| == 4 && c[0] == 0xF0 && 0x90 <= c[1] <= 0xBF && Tail(c[2]) && Tail(c[3]))
    || (|c| == 4 && 0xF1 <= c[0] <= 0xF3 && Tail(c[1]) && Tail(c[2]) && Tail(c[3]))
    || (|c| == 4 && c[0] == 0xF4 && 0x80 <= c[1] <= 0x8F && Tail(c[2]) && Tail(c[3]))
  }

  /** UTF8-octets of section 4: any number of characters in a row. */
  ghost predicate WellFormed(s: seq<Byte>) {
    exists cs: seq<seq<Byte>> :: Spells(cs, s)
  }

  ghost predicate Spells(cs: seq<seq<Byte>>, s: seq<Byte>) {
    Flatten<Byte>(cs) == s && forall k :: 0 <= k < |cs| ==> CharGrammar(cs[k])
  }

  /** Section 3. */
  function Encode(c: Scalar): seq<Byte> {
    if c < 0x80 then [c]
    else if c < 0x800 then [0xC0 + c / 64, 0x80 + c % 64]
    else if c < 0x10000 then [0xE0 + c / 4096, 0x80 + c / 64 % 64, 0x80 + c % 64]
    else [0xF0 + c / 262144, 0x80 + c / 4096 % 64, 0x80 + c / 64 % 64, 0x80 + c % 64]
  }

  function EncodeAll(cs: seq<Scalar>): seq<Byte> {
    if cs == [] then [] else Encode(cs[0]) + EncodeAll(cs[1..])
  }

  /** The payload bits of a byte above its marker. */
  function Bits(b: Byte, marker: int): int {
    b as int - marker
  }

  function DecodeChar(c: seq<Byte>): (r: Scalar)
    requires CharGrammar(c)
  {
    if |c| == 1 then c[0]
    else if |c| == 2 then Bits(c[0], 0xC0) * 64 + Bits(c[1], 0x80)
    else if |c| == 3 then (Bits(c[0], 0xE0) * 64 + Bits(c[1], 0x80)) * 64 + Bits(c[2], 0x80)
    else ((Bits(c[0], 0xF0) * 64 + Bits(c[1], 0x80)) * 64 + Bits(c[2], 0x80)) * 64 + Bits(c[3], 0x80)
  }

  /** How many bytes a character takes, told by its first byte; 0 when no character starts so. */
  function CharLength(b: Byte): nat {
    if b < 0x80 then 1
    else if 0xC2 <= b <= 0xDF then 2
    else if 0xE0 <= b <= 0xEF then 3
    else if 0xF0 <= b <= 0xF4 then 4
    else 0
  }

  lemma Base64Digit(a: int, b: int)
    requires 0 <= b < 64
    ensures (a * 64 + b) / 64 == a && (a * 64 + b) % 64 == b
  {
  }

  lemma EncodeDecode(c: Scalar)
    ensures CharGrammar(Encode(c)) && DecodeChar(Encode(c)) == c
  {
    var h := c / 64;
    assert c / 4096 == h / 64 && c / 262144 == h / 64 / 64;
  }

  lemma Base64Digits(a: nat, b: nat, c: nat, d: nat)
    requires b < 64 && c < 64 && d < 64
    ensures var x := ((a * 64 + b) * 64 + c) * 64 + d;
            x / 262144 == a && x / 4096 == a * 64 + b && x / 4096 % 64 == b && x / 64 % 64 == c && x % 64 == d
  {
    var h := (a * 64 + b) * 64 + c;
    Base64Digit(a, b);
    Base64Digit(a * 64 + b, c);
    Base64Digit(h, d);
    assert (h * 64 + d) / 4096 == h / 64 && (h * 64 + d) / 262144 == h / 64 / 64;
  }

  lemma DecodeEncode(c: seq<Byte>)
    requires CharGrammar(c)
    ensures Encode(DecodeChar(c)) == c
  {
    hide Encode, DecodeChar;
    if |c| == 2 {
      TwoBytes(c);
    } else if |c| == 3 {
      ThreeBytes(c);
    } else if |c| == 4 {
      FourBytes(c);
    } else {
      OneByteChar(c);
    }
  }

  lemma OneByteChar(c: seq<Byte>)
    requires CharGrammar(c) && |c| == 1
    ensures Encode(DecodeChar(c)) == c
  {
  }

  lemma TwoBytes(c: seq<Byte>)
    requires CharGrammar(c) && |c| == 2
    ensures Encode(DecodeChar(c)) == c
  {
    Base64Digit(Bits(c[0], 0xC0), Bits(c[1], 0x80));
  }

  lemma ThreeBytes(c: seq<Byte>)
    requires CharGrammar(c) && |c| == 3
    ensures Encode(DecodeChar(c)) == c
  {
    Base64Digits(0, Bits(c[0], 0xE0), Bits(c[1], 0x80), Bits(c[2], 0x80));
  }

  lemma FourBytes(c: seq<Byte>)
    requires CharGrammar(c) && |c| == 4
    ensures Encode(DecodeChar(c)) == c
  {
    Base64Digits(Bits(c[0], 0xF0), Bits(c[1], 0x80), Bits(c[2], 0x80), Bits(c[3], 0x80));
  }

  /** A well-formed text starts with one character, and its length is told by the first byte. */
  lemma FirstChar(s: seq<Byte>)
    requires s != []
    ensures var n := CharLength(s[0]);
            WellFormed(s) <==> 0 < n <= |s| && CharGrammar(s[..n]) && WellFormed(s[n..])
  {
    hide CharGrammar;
    var n := CharLength(s[0]);
    if WellFormed(s) {
      var cs :| Spells(cs, s);
      LengthOfChar(cs[0]);
      assert s == cs[0] + Flatten<Byte>(cs[1..]);
      assert s[..n] == cs[0] && s[n..] == Flatten<Byte>(cs[1..]);
      assert Spells(cs[1..], s[n..]);
    }
    if 0 < n <= |s| && CharGrammar(s[..n]) && WellFormed(s[n..]) {
      var cs :| Spells(cs, s[n..]);
      assert ([s[..n]] + cs)[1..] == cs;
      assert Spells([s[..n]] + cs, s);
    }
  }

  lemma LengthOfChar(c: seq<Byte>)
    requires CharGrammar(c)
    ensures |c| == CharLength(c[0]) > 0
  {
  }

  lemma EmptyWellFormed()
    ensures WellFormed([])
  {
    assert Spells([], []);
  }

  /** The grammar accepts exactly the encodings of scalar values. */
  lemma {:induction false} WellFormedIsEncoded(s: seq<Byte>)
    ensures WellFormed(s) <==> exists cs: seq<Scalar> :: EncodeAll(cs) == s
  {
    if WellFormed(s) {
      var cs := DecodeAll(s);
    }
    if cs: seq<Scalar> :| EncodeAll(cs) == s {
      EncodedWellFormed(cs);
    }
  }

  lemma {:induction false} DecodeAll(s: seq<Byte>) returns (cs: seq<Scalar>)
    requires WellFormed(s)
    ensures EncodeAll(cs) == s
    decreases |s|
  {
    hide WellFormed, CharGrammar, Encode, DecodeChar;
    if s == [] {
      cs := [];
    } else {
      FirstChar(s);
      var n := CharLength(s[0]);
      var rest := DecodeAll(s[n..]);
      DecodeEncode(s[..n]);
      cs := [DecodeChar(s[..n])] + rest;
    }
  }

  lemma {:induction false} EncodedWellFormed(cs: seq<Scalar>)
    ensures WellFormed(EncodeAll(cs))
  {
    hide WellFormed, CharGrammar, Encode, DecodeChar;
    if cs == [] {
      EmptyWellFormed();
    } else {
      EncodedWellFormed(cs[1..]);
      EncodeDecode(cs[0]);
      var c, rest := Encode(cs[0]), EncodeAll(cs[1..]);
      LengthOfChar(c);
      FirstChar(c + rest);
      assert (c + rest)[..|c|] == c && (c + rest)[|c|..] == rest;
    }
  }
}

/** The JSON string writer and a reader of JSON strings by section 7 of RFC 8259. */
module JsonString {
  import opened Basics
  import opened Bytes
  import opened Options
  import opened Text
  import opened Utf8

  const QUOTE: Byte := 0x22
  const BACKSLASH: Byte := 0x5C

  // ---------- the validity check ----------

  /** The check as written; it accepts exactly the texts of section 4 of RFC 3629. */
  method Utf8Valid(s: seq<Byte>) returns (ok: bool)
    ensures ok <==> WellFormed(s)
  {
    hide WellFormed;
    var i := 0;
    EmptyWellFormed();
    while i < |s|
      invariant i <= |s|
      invariant WellFormed(s) <==> WellFormed(s[i..])
    {
      FirstChar(s[i..]);
      ghost var at := i;
      var c := s[i];
      i := i + 1;
      if c < 0x80 {
        assert s[at..][1..] == s[i..];
        continue;
      }
      var need := 0;
      if c >= 0xC2 && c <= 0xDF {
        need := 1;
      } else if c >= 0xE0 && c <= 0xEF {
        need := 2;
      } else if c >= 0xF0 && c <= 0xF4 {
        need := 3;
      } else {
        return false;
      }
      if i + need > |s| { return false; }
      var c1 := s[i];
      ghost var whole := s[at..][..1 + need];
      assert forall k :: 0 <= k <= need ==> whole[k] == s[at + k];
      if c == 0xE0 && c1 < 0xA0 { return false; }
      if c == 0xED && c1 >= 0xA0 { return false; }
      if c == 0xF0 && c1 < 0x90 { return false; }
      if c == 0xF4 && c1 >= 0x90 { return false; }
      var j := 0;
      while j < need
        invariant j <= need
        invariant forall k :: 1 <= k <= j ==> Tail(whole[k])
      {
        var cc := s[i + j];
        if cc / 64 != 2 { return false; }
        j := j + 1;
      }
      i := i + need;
      assert s[at..][1 + need..] == s[i..];
    }
    assert s[i..] == [];
    return true;
  }

  // ---------- the writer ----------

  function HexDigit(d: nat): Byte
    requires d < 16
  {
    if d < 10 then 0x30 + d else 0x61 + (d - 10)
  }

  /** A backslash, the letter u and the number of a byte in four lower-case hexadecimal digits. */
  function UnicodeEscape(b: Byte): seq<Byte> {
    [BACKSLASH, 0x75, 0x30, 0x30, HexDigit(b / 16), HexDigit(b % 16)]
  }

  function Escape(b: Byte, valid: bool): seq<Byte> {
    if b == QUOTE || b == BACKSLASH then [BACKSLASH, b]
    else if b == 0x0A then [BACKSLASH, 0x6E]
    else if b == 0x0D then [BACKSLASH, 0x72]
    else if b == 0x09 then [BACKSLASH, 0x74]
    else if b < 0x20 || (!valid && b >= 0x80) then UnicodeEscape(b)
    else [b]
  }

  function EscapeAll(s: seq<Byte>, valid: bool): seq<Byte> {
    if s == [] then [] else Escape(s[0], valid) + EscapeAll(s[1..], valid)
  }

  function Quoted(s: seq<Byte>, valid: bool): seq<Byte> {
    [QUOTE] + (EscapeAll(s, valid) + [QUOTE])
  }

  method WriteString(s: seq<Byte>) returns (out: seq<Byte>)
    ensures out == Quoted(s, WellFormed(s))
    ensures WellFormed(s) ==> ReadString(out).Some? && EncodeAll(ReadString(out).value) == s
    ensures !WellFormed(s) ==> ReadString(out) == Some(Numbers(s))
  {
    hide WellFormed, Escape, ReadString;
    StringRoundTrip(s);
    var valid := Utf8Valid(s);
    out := [QUOTE];
    var i := 0;
    while i < |s|
      invariant i <= |s|
      invariant out == [QUOTE] + EscapeAll(s[..i], valid)
    {
      out := WriteByte(out, s[i], valid);
      EscapeNext(s, i, valid);
      i := i + 1;
    }
    assert s[..i] == s;
    out := out + [QUOTE];
  }

  /** One turn of the writer's loop. */
  method WriteByte(written: seq<Byte>, c: Byte, valid: bool) returns (out: seq<Byte>)
    ensures out == written + Escape(c, valid)
  {
    hide HexDigit;
    out := written;
    if c == QUOTE || c == BACKSLASH {
      out := out + [BACKSLASH];
      out := out + [c];
    } else if c == 0x0A {
      out := out + [BACKSLASH, 0x6E];
    } else if c == 0x0D {
      out := out + [BACKSLASH, 0x72];
    } else if c == 0x09 {
      out := out + [BACKSLASH, 0x74];
    } else if c < 0x20 {
      out := out + UnicodeEscape(c);
    } else if !valid && c >= 0x80 {
      out := out + UnicodeEscape(c);
    } else {
      out := out + [c];
    }
  }

  lemma EscapeNext(s: seq<Byte>, i: nat, valid: bool)
    requires i < |s|
    ensures EscapeAll(s[..i + 1], valid) == EscapeAll(s[..i], valid) + Escape(s[i], valid)
  {
    hide Escape, EscapeAll;
    EscapeAppend(s[..i], [s[i]], valid);
    assert s[..i + 1] == s[..i] + [s[i]];
    OneByte(s[i], valid);
  }

  lemma OneByte(b: Byte, valid: bool)
    ensures EscapeAll([b], valid) == Escape(b, valid)
  {
    hide Escape;
    assert EscapeAll([], valid) == [];
  }

  lemma EscapeFirst(a: seq<Byte>, b: seq<Byte>, valid: bool)
    requires a != []
    ensures EscapeAll(a + b, valid) == Escape(a[0], valid) + EscapeAll(a[1..] + b, valid)
  {
    hide Escape;
    assert (a + b)[1..] == a[1..] + b;
  }

  lemma {:induction false} EscapeAppend(a: seq<Byte>, b: seq<Byte>, valid: bool)
    ensures EscapeAll(a + b, valid) == EscapeAll(a, valid) + EscapeAll(b, valid)
  {
    hide Escape;
    if a == [] {
      assert a + b == b;
    } else {
      EscapeAppend(a[1..], b, valid);
      EscapeFirst(a, b, valid);
      Regroup<Byte>(Escape(a[0], valid), EscapeAll(a[1..], valid), EscapeAll(b, valid));
    }
  }

  // ---------- reading JSON strings ----------

  function HexValue(b: Byte): Option<nat> {
    if 0x30 <= b <= 0x39 then Some(b - 0x30)
    else if 0x41 <= b <= 0x46 then Some(b - 0x41 + 10)
    else if 0x61 <= b <= 0x66 then Some(b - 0x61 + 10)
    else None
  }

  function SimpleEscape(e: Byte): Option<Scalar> {
    if e == QUOTE || e == BACKSLASH || e == 0x2F then Some(e)
    else if e == 0x62 then Some(0x08)
    else if e == 0x66 then Some(0x0C)
    else if e == 0x6E then Some(0x0A)
    else if e == 0x72 then Some(0x0D)
    else if e == 0x74 then Some(0x09)
    else None
  }

  function FourDigits(a: Byte, b: Byte, c: Byte, d: Byte): Option<nat> {
    match (HexValue(a), HexValue(b), HexValue(c), HexValue(d))
    case (Some(w), Some(x), Some(y), Some(z)) => Some(w * 4096 + x * 256 + y * 16 + z)
    case _ => None
  }

  /** The character at the front of a string body and the number of bytes it takes. */
  function UnitAt(s: seq<Byte>): (r: Option<(Scalar, nat)>)
    requires s != []
    ensures r.Some? ==> 0 < r.value.1 <= |s|
  {
    if s[0] == BACKSLASH then
      if |s| < 2 then None
      else if s[1] == 0x75 then
        if |s| < 6 then None
        else match FourDigits(s[2], s[3], s[4], s[5])
          case None => None
          case Some(n) => if 0xD800 <= n < 0xE000 || n >= 0x110000 then None else Some((n, 6))
      else match SimpleEscape(s[1]) case None => None case Some(c) => Some((c, 2))
    else if s[0] < 0x20 then None
    else
      var n := CharLength(s[0]);
      if 0 < n <= |s| && CharGrammar(s[..n]) then Some((DecodeChar(s[..n]), n)) else None
  }

  function Cons(c: Scalar, r: Option<seq<Scalar>>): Option<seq<Scalar>> {
    match r case None => None case Some(cs) => Some([c] + cs)
  }

  /** The characters up to a closing quote, which must be the last byte. */
  function ReadBody(s: seq<Byte>): Option<seq<Scalar>> {
    if s == [] then None
    else if s[0] == QUOTE then if |s| == 1 then Some([]) else None
    else match UnitAt(s)
      case None => None
      case Some((c, n)) => Cons(c, ReadBody(s[n..]))
  }

  function ReadString(s: seq<Byte>): Option<seq<Scalar>> {
    if s != [] && s[0] == QUOTE then ReadBody(s[1..]) else None
  }

  // ---------- round trips ----------

  lemma BodyStep(e: seq<Byte>, rest: seq<Byte>, c: Scalar)
    requires e != [] && e[0] != QUOTE && UnitAt(e + rest) == Some((c, |e|))
    ensures ReadBody(e + rest) == Cons(c, ReadBody(rest))
  {
    hide UnitAt;
    assert (e + rest)[|e|..] == rest;
  }

  lemma HexPair(b: Byte)
    ensures FourDigits(0x30, 0x30, HexDigit(b / 16), HexDigit(b % 16)) == Some(b)
  {
    HexOne(b / 16);
    HexOne(b % 16);
    HexOne(0);
    hide HexValue, HexDigit;
  }

  lemma HexOne(d: nat)
    requires d < 16
    ensures HexValue(HexDigit(d)) == Some(d) && HexDigit(0) == 0x30
  {
  }

  /** A written byte reads as the code point of the same number, unless it was copied raw. */
  lemma ByteReads(b: Byte, valid: bool, rest: seq<Byte>)
    requires b < 0x80 || !valid
    ensures Escape(b, valid)[0] != QUOTE
    ensures UnitAt(Escape(b, valid) + rest) == Some((b, |Escape(b, valid)|))
  {
    hide HexDigit, FourDigits;
    var e := Escape(b, valid);
    HexPair(b);
    assert e == [b] ==> (e + rest)[..1] == [b];
  }

  /** A multi-byte character is copied raw and read as one character. */
  lemma CharReads(c: Scalar, rest: seq<Byte>)
    requires c >= 0x80
    ensures EscapeAll(Encode(c), true) == Encode(c)
    ensures Encode(c) != [] && Encode(c)[0] != QUOTE
    ensures UnitAt(Encode(c) + rest) == Some((c, |Encode(c)|))
  {
    var e := Encode(c);
    HighBytes(c);
    CopiedRaw(e);
    EncodeDecode(c);
    LengthOfChar(e);
    hide Encode, CharGrammar, DecodeChar, CharLength;
    assert (e + rest)[..|e|] == e;
  }

  lemma HighBytes(c: Scalar)
    requires c >= 0x80
    ensures forall k :: 0 <= k < |Encode(c)| ==> Encode(c)[k] >= 0x80
  {
  }

  lemma {:induction false} CopiedRaw(s: seq<Byte>)
    requires forall k :: 0 <= k < |s| ==> s[k] >= 0x80
    ensures EscapeAll(s, true) == s
  {
    if s != [] { CopiedRaw(s[1..]); }
  }

  lemma {:induction false} EncodedReads(cs: seq<Scalar>)
    ensures ReadBody(EscapeAll(EncodeAll(cs), true) + [QUOTE]) == Some(cs)
  {
    hide Encode, UnitAt, Escape;
    if cs != [] {
      var c, more := cs[0], EncodeAll(cs[1..]);
      var rest := EscapeAll(more, true) + [QUOTE];
      EncodedReads(cs[1..]);
      var e := EscapeAll(Encode(c), true);
      if c < 0x80 {
        SingleByte(c);
        OneByte(c, true);
        ByteReads(c, true, rest);
      } else {
        CharReads(c, rest);
      }
      BodyStep(e, rest, c);
      EscapeAppend(Encode(c), more, true);
      assert e + EscapeAll(more, true) + [QUOTE] == e + rest;
      assert [c] + cs[1..] == cs;
    }
  }

  lemma SingleByte(c: Scalar)
    requires c < 0x80
    ensures Encode(c) == [c]
  {
  }

  /** The bytes of a text as code points of the same number. */
  function Numbers(s: seq<Byte>): seq<Scalar> {
    seq(|s|, i requires 0 <= i < |s| => s[i])
  }

  lemma {:induction false} BytesRead(s: seq<Byte>)
    ensures ReadBody(EscapeAll(s, false) + [QUOTE]) == Some(Numbers(s))
  {
    hide UnitAt, Escape;
    if s == [] {
      assert EscapeAll(s, false) + [QUOTE] == [QUOTE];
      assert Numbers(s) == [];
    } else {
      var rest := EscapeAll(s[1..], false) + [QUOTE];
      BytesRead(s[1..]);
      ByteReads(s[0], false, rest);
      EscapeNotEmpty(s[0]);
      BodyStep(Escape(s[0], false), rest, s[0]);
      assert EscapeAll(s, false) + [QUOTE] == Escape(s[0], false) + rest;
      NumbersStep(s);
    }
  }

  lemma NumbersStep(s: seq<Byte>)
    requires s != []
    ensures Cons(s[0], Some(Numbers(s[1..]))) == Some(Numbers(s))
  {
    var first: Scalar := s[0];
    assert [first] + Numbers(s[1..]) == Numbers(s);
  }

  lemma EscapeNotEmpty(b: Byte)
    ensures Escape(b, false) != []
  {
  }

  /** Main result: what the writer puts out for a well-formed text reads back as the characters
      whose encoding is that text; for any other text every byte reads back as its own number. */
  lemma {:induction false} StringRoundTrip(s: seq<Byte>)
    ensures WellFormed(s) ==>
              var r := ReadString(Quoted(s, true)); r.Some? && EncodeAll(r.value) == s
    ensures !WellFormed(s) ==> ReadString(Quoted(s, false)) == Some(Numbers(s))
  {
    hide WellFormed, ReadBody;
    if WellFormed(s) {
      var cs := DecodeAll(s);
      EncodedReads(cs);
      assert Quoted(s, true)[1..] == EscapeAll(s, true) + [QUOTE];
    } else {
      BytesRead(s);
      assert Quoted(s, false)[1..] == EscapeAll(s, false) + [QUOTE];
    }
  }
}
