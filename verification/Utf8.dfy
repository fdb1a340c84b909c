/** UTF-8 checking (`utf8_is_valid` of `configuration.c`) against the definition in section 3 of RFC 3629. */
module Utf8 {
  import opened Bytes

  // ---- the definition

  /** A Unicode scalar value. */
  predicate IsScalar(c: nat) {
    c < 0xD800 || 0xE000 <= c <= 0x10FFFF
  }

  function EncodeScalar(c: nat): (s: seq<byte>)
    requires IsScalar(c)
    ensures 1 <= |s| <= 4
  {
    if c < 0x80 then [c]
    else if c < 0x800 then [0xC0 + c / 0x40, 0x80 + c % 0x40]
    else if c < 0x1_0000 then [0xE0 + c / 0x1000, 0x80 + c / 0x40 % 0x40, 0x80 + c % 0x40]
    else [0xF0 + c / 0x4_0000, 0x80 + c / 0x1000 % 0x40, 0x80 + c / 0x40 % 0x40, 0x80 + c % 0x40]
  }

  predicate AreScalars(text: seq<nat>) {
    forall i | 0 <= i < |text| :: IsScalar(text[i])
  }

  function EncodeText(text: seq<nat>): seq<byte>
    requires AreScalars(text)
  {
    if text == [] then [] else EncodeScalar(text[0]) + EncodeText(text[1..])
  }

  // ---- one step of the check

  /** Lead byte: how many continuation bytes follow, the bits it contributes, and the least value allowed. */
  datatype Lead = Lead(count: nat, bits: nat, least: nat)

  function LeadOf(first: byte): Option<Lead> {
    if first <= 0x7F then Some(Lead(0, first, 0))
    else if 0xC2 <= first <= 0xDF then Some(Lead(1, first % 0x20, 0x80))
    else if 0xE0 <= first <= 0xEF then Some(Lead(2, first % 0x10, 0x800))
    else if 0xF0 <= first <= 0xF4 then Some(Lead(3, first % 0x08, 0x1_0000))
    else None
  }

  /** Shift in `count` continuation bytes. */
  function Continue(s: seq<byte>, count: nat, value: nat): Option<nat> {
    if count == 0 then Some(value)
    else if s == [] || !(0x80 <= s[0] < 0xC0) then None
    else Continue(s[1..], count - 1, Put(value, s[0]))
  }

  datatype Step = Step(scalar: nat, length: nat)

  function FirstScalar(s: seq<byte>): (r: Option<Step>)
    requires s != []
    ensures r.Some? ==> 1 <= r.value.length <= |s|
  {
    var lead := LeadOf(s[0]);
    if lead.None? || 1 + lead.value.count > |s| then None
    else
      var c := Continue(s[1..], lead.value.count, lead.value.bits);
      if c.None? || c.value < lead.value.least || !IsScalar(c.value) then None
      else Some(Step(c.value, 1 + lead.value.count))
  }

  predicate IsValid(s: seq<byte>, allowNul: bool) {
    s == [] || (FirstScalar(s).Some?
                && (allowNul || FirstScalar(s).value.scalar != 0)
                && IsValid(s[FirstScalar(s).value.length..], allowNul))
  }

  // ---- steps and encodings

  predicate IsContinuation(b: byte) {
    0x80 <= b < 0xC0
  }

  /** The first `count` bytes of `s` are continuation bytes. */
  predicate Continues(s: seq<byte>, count: nat) {
    count <= |s| && forall i | 0 <= i < count :: IsContinuation(s[i])
  }

  /** The value after `count` continuation bytes, written out. */
  function Shifted(s: seq<byte>, count: nat, value: nat): nat
    requires count <= 3 && count <= |s|
  {
    if count == 0 then value
    else if count == 1 then Put(value, s[0])
    else if count == 2 then Put(Put(value, s[0]), s[1])
    else Put(Put(Put(value, s[0]), s[1]), s[2])
  }

  /** One more base-64 digit. */
  function Put(value: nat, b: byte): nat {
    value * 0x40 + b % 0x40
  }

  lemma {:induction false} ContinueIsShifted(s: seq<byte>, count: nat, value: nat)
    requires count <= 3 && count <= |s|
    ensures Continue(s, count, value) == if Continues(s, count) then Some(Shifted(s, count, value)) else None
  {
    if count > 0 {
      if IsContinuation(s[0]) {
        ContinueIsShifted(s[1..], count - 1, Put(value, s[0]));
        assert Continues(s, count) <==> Continues(s[1..], count - 1) by {
          if Continues(s[1..], count - 1) {
            forall i | 0 <= i < count ensures IsContinuation(s[i]) {
              assert i > 0 ==> s[i] == s[1..][i - 1];
            }
          }
        }
      }
    }
  }

  /** The digit put last is the remainder, the value before it the quotient. */
  lemma Digit(c: nat, b: byte)
    ensures b as int == 0x80 + c % 0x40 ==> Put(c / 0x40, b) == c && IsContinuation(b)
    ensures IsContinuation(b) ==> Put(c, b) / 0x40 == c && 0x80 + Put(c, b) % 0x40 == b as int
  {
  }

  lemma Quotients(c: nat)
    ensures c / 0x1000 == c / 0x40 / 0x40 && c / 0x4_0000 == c / 0x40 / 0x40 / 0x40
  {
  }

  /** Lead and continuation bytes of an encoding carry the digits of the scalar. */
  lemma EncodedDigits(c: nat)
    requires IsScalar(c)
    ensures var e := EncodeScalar(c);
            LeadOf(e[0]).Some? && LeadOf(e[0]).value.count == |e| - 1 && LeadOf(e[0]).value.least <= c
            && Continues(e[1..], |e| - 1) && Shifted(e[1..], |e| - 1, LeadOf(e[0]).value.bits) == c
  {
    hide Put;
    var e := EncodeScalar(c);
    Quotients(c);
    if c >= 0x80 {
      Digit(c, e[|e| - 1]);
      if c >= 0x800 {
        Digit(c / 0x40, e[|e| - 2]);
        if c >= 0x1_0000 {
          Digit(c / 0x40 / 0x40, e[1]);
        }
      }
    }
    LeadBits(c);
  }

  lemma LeadBits(c: nat)
    requires IsScalar(c)
    ensures 0x80 <= c < 0x800 ==> LeadOf(0xC0 + c / 0x40) == Some(Lead(1, c / 0x40, 0x80))
    ensures 0x800 <= c < 0x1_0000 ==> LeadOf(0xE0 + c / 0x1000) == Some(Lead(2, c / 0x1000, 0x800))
    ensures 0x1_0000 <= c ==> LeadOf(0xF0 + c / 0x4_0000) == Some(Lead(3, c / 0x4_0000, 0x1_0000))
  {
  }

  lemma EncodedIsFirst(c: nat, tail: seq<byte>)
    requires IsScalar(c)
    ensures FirstScalar(EncodeScalar(c) + tail) == Some(Step(c, |EncodeScalar(c)|))
    ensures (EncodeScalar(c) + tail)[|EncodeScalar(c)|..] == tail
  {
    hide Continue, EncodeScalar, LeadOf, Continues, Shifted, IsScalar;
    EncodedDigits(c);
    var e := EncodeScalar(c);
    var lead := LeadOf(e[0]).value;
    assert (e + tail)[1..] == e[1..] + tail;
    ContinueIsShifted(e[1..] + tail, lead.count, lead.bits);
    ShiftedAppend(e[1..], tail, lead.count, lead.bits);
  }

  lemma ShiftedAppend(a: seq<byte>, b: seq<byte>, count: nat, value: nat)
    requires count <= 3 && Continues(a, count)
    ensures Continues(a + b, count) && Shifted(a + b, count, value) == Shifted(a, count, value)
  {
    hide Put;
  }

  /** Conversely the bytes of a step are the encoding of its scalar: no overlong forms, no surrogates. */
  lemma FirstIsEncoded(s: seq<byte>)
    requires s != [] && FirstScalar(s).Some?
    ensures var Step(c, n) := FirstScalar(s).value; IsScalar(c) && s[..n] == EncodeScalar(c)
  {
    var Step(c, n) := FirstScalar(s).value;
    var lead := LeadOf(s[0]).value;
    ContinueIsShifted(s[1..], lead.count, lead.bits);
    hide Continue;
    DigitsAre(s[0], s[1..], c);
    assert s[..n] == [s[0]] + s[1..][..n - 1];
  }

  lemma DigitsAre(first: byte, t: seq<byte>, c: nat)
    requires LeadOf(first).Some? && Continues(t, LeadOf(first).value.count) && IsScalar(c)
    requires c == Shifted(t, LeadOf(first).value.count, LeadOf(first).value.bits) && c >= LeadOf(first).value.least
    ensures EncodeScalar(c) == [first] + t[..LeadOf(first).value.count]
  {
    hide Put, EncodeScalar;
    var n := LeadOf(first).value.count;
    if n == 0 {
      OneByte(first, c);
    } else if n == 1 {
      TwoBytes(first, t[0], c);
    } else if n == 2 {
      ThreeBytes(first, t[0], t[1], c);
    } else {
      FourBytes(first, t[0], t[1], t[2], c);
    }
  }

  lemma OneByte(first: byte, c: nat)
    requires IsScalar(c) && first <= 0x7F && c == first
    ensures EncodeScalar(c) == [first]
  {
  }

  lemma TwoBytes(first: byte, x: byte, c: nat)
    requires IsScalar(c) && 0xC2 <= first <= 0xDF && IsContinuation(x) && c == Put(first % 0x20, x)
    ensures EncodeScalar(c) == [first, x]
  {
    Digit(first % 0x20, x);
  }

  lemma ThreeBytes(first: byte, x: byte, y: byte, c: nat)
    requires IsScalar(c) && 0xE0 <= first <= 0xEF && IsContinuation(x) && IsContinuation(y)
    requires c == Put(Put(first % 0x10, x), y) && c >= 0x800
    ensures EncodeScalar(c) == [first, x, y]
  {
    hide Put;
    Quotients(c);
    Digit(first % 0x10, x);
    Digit(Put(first % 0x10, x), y);
  }

  lemma FourBytes(first: byte, x: byte, y: byte, z: byte, c: nat)
    requires IsScalar(c) && 0xF0 <= first <= 0xF4 && IsContinuation(x) && IsContinuation(y) && IsContinuation(z)
    requires c == Put(Put(Put(first % 0x08, x), y), z) && c >= 0x1_0000
    ensures EncodeScalar(c) == [first, x, y, z]
  {
    hide Put;
    Quotients(c);
    Digit(first % 0x08, x);
    Digit(Put(first % 0x08, x), y);
    Digit(Put(Put(first % 0x08, x), y), z);
  }

  // ---- whole strings

  predicate NoNul(text: seq<nat>) {
    forall i | 0 <= i < |text| :: text[i] != 0
  }

  /** The scalars of a valid string. */
  function Decode(s: seq<byte>, allowNul: bool): (text: seq<nat>)
    requires IsValid(s, allowNul)
  {
    if s == [] then [] else [FirstScalar(s).value.scalar] + Decode(s[FirstScalar(s).value.length..], allowNul)
  }

  lemma {:induction false} ValidIsEncoding(s: seq<byte>, allowNul: bool)
    requires IsValid(s, allowNul)
    ensures var text := Decode(s, allowNul);
            AreScalars(text) && EncodeText(text) == s && (allowNul || NoNul(text))
    decreases |s|
  {
    hide FirstScalar, EncodeScalar, IsScalar;
    if s != [] {
      var Step(c, n) := FirstScalar(s).value;
      FirstIsEncoded(s);
      ValidIsEncoding(s[n..], allowNul);
      var rest := Decode(s[n..], allowNul);
      assert ([c] + rest)[1..] == rest;
      assert s == s[..n] + s[n..];
    }
  }

  lemma {:induction false} EncodingIsValid(text: seq<nat>, allowNul: bool)
    requires AreScalars(text) && (allowNul || NoNul(text))
    ensures IsValid(EncodeText(text), allowNul) && Decode(EncodeText(text), allowNul) == text
  {
    hide FirstScalar, EncodeScalar, IsScalar;
    if text != [] {
      EncodedIsFirst(text[0], EncodeText(text[1..]));
      EncodingIsValid(text[1..], allowNul);
      assert text == [text[0]] + text[1..];
    }
  }

  /** Accepted exactly when it is the encoding of some sequence of scalar values, non-zero ones unless NUL is allowed. */
  lemma ValidExactlyWhenEncoding(s: seq<byte>, allowNul: bool)
    ensures IsValid(s, allowNul)
            <==> exists text: seq<nat> :: AreScalars(text) && (allowNul || NoNul(text)) && EncodeText(text) == s
  {
    hide IsValid, AreScalars, NoNul, EncodeText;
    if IsValid(s, allowNul) {
      ValidIsEncoding(s, allowNul);
    }
    forall text: seq<nat> | AreScalars(text) && (allowNul || NoNul(text)) && EncodeText(text) == s
      ensures IsValid(s, allowNul)
    {
      EncodingIsValid(text, allowNul);
    }
  }

  // ---- the loops

  method CheckUtf8(bytes: seq<byte>, allowNul: bool) returns (valid: bool)
    ensures valid <==> IsValid(bytes, allowNul)
  {
    hide Continue, IsScalar;
    var index := 0;
    assert bytes[0..] == bytes;
    while index < |bytes|
      invariant 0 <= index <= |bytes|
      invariant IsValid(bytes, allowNul) <==> IsValid(bytes[index..], allowNul)
    {
      ghost var s := bytes[index..];
      var first := bytes[index];
      if first <= 0x7F {
        ContinueIsShifted(s[1..], 0, first);
        AsciiIsScalar(first);
        if !allowNul && first == 0 {
          return false;
        }
        assert s[1..] == bytes[index + 1..];
        index := index + 1;
        continue;
      }
      var count, codePoint, minimum;
      if 0xC2 <= first <= 0xDF {
        count, codePoint, minimum := 1, first % 0x20, 0x80;
      } else if 0xE0 <= first <= 0xEF {
        count, codePoint, minimum := 2, first % 0x10, 0x800;
      } else if 0xF0 <= first <= 0xF4 {
        count, codePoint, minimum := 3, first % 0x08, 0x1_0000;
      } else {
        return false;
      }
      if index + count >= |bytes| {
        return false;
      }
      var whole, value := ReadContinuation(bytes, index + 1, count, codePoint);
      assert s[1..] == bytes[index + 1..];
      if !whole {
        return false;
      }
      ScalarRange(value);
      if value < minimum || value > 0x10FFFF || 0xD800 <= value <= 0xDFFF {
        return false;
      }
      assert s[count + 1..] == bytes[index + count + 1..];
      index := index + count + 1;
    }
    valid := true;
  }

  lemma AsciiIsScalar(b: byte)
    requires b <= 0x7F
    ensures IsScalar(b)
  {
  }

  lemma ScalarRange(c: nat)
    ensures IsScalar(c) <==> c <= 0x10FFFF && !(0xD800 <= c <= 0xDFFF)
  {
  }

  method ReadContinuation(bytes: seq<byte>, at: nat, count: nat, start: nat) returns (whole: bool, value: nat)
    requires at + count <= |bytes|
    ensures Continue(bytes[at..], count, start) == if whole then Some(value) else None
  {
    value := start;
    var k := 0;
    while k < count
      invariant 0 <= k <= count
      invariant Continue(bytes[at..], count, start) == Continue(bytes[at + k..], count - k, value)
    {
      var continuation := bytes[at + k];
      assert bytes[at + k..][1..] == bytes[at + k + 1..];
      if !(0x80 <= continuation < 0xC0) {
        return false, 0;
      }
      value := Put(value, continuation);
      k := k + 1;
    }
    whole := true;
  }
}
