// UTF-8 as Python's strict codec applies it (section 3 of RFC 3629): shortest forms only,
// no surrogates, nothing above U+10FFFF.
module Utf8 {
  import opened Prelude
  import opened Base128

  type Scalar = c: nat | c < 0xD800 || 0xE000 <= c < 0x110000

  type Text = seq<Scalar>

  function EncodeChar(c: Scalar): seq<byte> {
    if c < 0x80 then [c]
    else if c < 0x800 then [0xC0 + c / 64, 0x80 + c % 64]
    else if c < 0x10000 then [0xE0 + c / 4096, 0x80 + c / 64 % 64, 0x80 + c % 64]
    else [0xF0 + c / 262144, 0x80 + c / 4096 % 64, 0x80 + c / 64 % 64, 0x80 + c % 64]
  }

  function Encode(t: Text): seq<byte> {
    if t == [] then [] else EncodeChar(t[0]) + Encode(t[1..])
  }

  predicate Continues(s: seq<byte>, n: nat) {
    |s| > n && forall i :: 1 <= i <= n ==> 0x80 <= s[i] < 0xC0
  }

  function Tail(s: seq<byte>, i: nat): nat
    requires i < |s| && 0x80 <= s[i]
  {
    s[i] - 0x80
  }

  // The first character and the number of bytes it takes; none if the bytes are malformed.
  function DecodeChar(s: seq<byte>): Option<(Scalar, nat)>
    requires s != []
  {
    var b: nat := s[0];
    if b < 0x80 then Some((b, 1))
    else if 0xC2 <= b < 0xE0 && Continues(s, 1) then
      Some(((b - 0xC0) * 64 + Tail(s, 1), 2))
    else if 0xE0 <= b < 0xF0 && Continues(s, 2) then
      var c := (b - 0xE0) * 4096 + Tail(s, 1) * 64 + Tail(s, 2);
      if c < 0x800 || 0xD800 <= c < 0xE000 then None else Some((c, 3))
    else if 0xF0 <= b < 0xF5 && Continues(s, 3) then
      var c := (b - 0xF0) * 262144 + Tail(s, 1) * 4096 + Tail(s, 2) * 64 + Tail(s, 3);
      if c < 0x10000 || 0x110000 <= c then None else Some((c, 4))
    else None
  }

  function Decode(s: seq<byte>): Option<Text> {
    if s == [] then Some([])
    else
      match DecodeChar(s)
      case None => None
      case Some((c, n)) =>
        match Decode(s[n..])
        case None => None
        case Some(t) => Some([c] + t)
  }

  lemma Digits3(c: nat)
    ensures c == c / 4096 * 4096 + c / 64 % 64 * 64 + c % 64
  {
    assert c / 4096 == c / 64 / 64;
  }

  lemma Digits4(c: nat)
    ensures c == c / 262144 * 262144 + c / 4096 % 64 * 4096 + c / 64 % 64 * 64 + c % 64
  {
    Digits3(c);
    assert c / 262144 == c / 4096 / 64;
  }

  lemma CharRoundTrip(c: Scalar, rest: seq<byte>)
    ensures DecodeChar(EncodeChar(c) + rest) == Some((c, |EncodeChar(c)|))
  {
    var e := EncodeChar(c);
    var s := e + rest;
    assert forall i :: 0 <= i < |e| ==> s[i] == e[i];
    Digits3(c);
    Digits4(c);
    assert Continues(s, |e| - 1);
  }

  lemma CharIsShortest(s: seq<byte>)
    requires s != [] && DecodeChar(s).Some?
    ensures var (c, n) := DecodeChar(s).value; n <= |s| && EncodeChar(c) == s[..n]
  {
    var (c, n) := DecodeChar(s).value;
    if n == 2 {
      assert c / 64 == s[0] as int - 0xC0;
    } else if n == 3 {
      assert c / 64 == (s[0] as int - 0xE0) * 64 + Tail(s, 1);
      assert c / 4096 == c / 64 / 64;
    } else if n == 4 {
      assert c / 64 == (s[0] as int - 0xF0) * 4096 + Tail(s, 1) * 64 + Tail(s, 2);
      assert c / 4096 == c / 64 / 64;
      assert c / 262144 == c / 4096 / 64;
    }
  }

  lemma {:induction false} TextRoundTrip(t: Text)
    ensures Decode(Encode(t)) == Some(t)
  {
    if t != [] {
      TextRoundTrip(t[1..]);
      var s := Encode(t);
      CharRoundTrip(t[0], Encode(t[1..]));
      assert s[|EncodeChar(t[0])|..] == Encode(t[1..]);
      assert t == [t[0]] + t[1..];
    }
  }

  // A byte string decodes to at most the text that encodes to it.
  lemma {:induction false} DecodeInjective(s: seq<byte>)
    requires Decode(s).Some?
    ensures Encode(Decode(s).value) == s
  {
    if s != [] {
      var c, n := DecodeHead(s);
      DecodeInjective(s[n..]);
      EncodeFirst(c, Decode(s[n..]).value);
      assert s == s[..n] + s[n..];
    }
  }

  // Characters of one, two, three and four bytes, as in the examples of section 7 of RFC 3629.
  lemma StandardExamples()
    ensures Encode([0x41, 0x2262, 0x0391, 0x2E]) == [0x41, 0xE2, 0x89, 0xA2, 0xCE, 0x91, 0x2E]
    ensures EncodeChar(0x233B4) == [0xF0, 0xA3, 0x8E, 0xB4]
  {
    EncodeFirst(0x41, [0x2262, 0x0391, 0x2E]);
    EncodeFirst(0x2262, [0x0391, 0x2E]);
    EncodeFirst(0x0391, [0x2E]);
    EncodeFirst(0x2E, []);
    assert [0x41] + [0x2262, 0x0391, 0x2E] == [0x41, 0x2262, 0x0391, 0x2E];
    assert [0x2262] + [0x0391, 0x2E] == [0x2262, 0x0391, 0x2E];
    assert [0x0391] + [0x2E] == [0x0391, 0x2E];
    assert [0x2E] + [] == [0x2E];
  }

  // The first character and the rest.
  lemma DecodeHead(s: seq<byte>) returns (c: Scalar, n: nat)
    requires s != [] && Decode(s).Some?
    ensures 0 < n <= |s| && EncodeChar(c) == s[..n]
    ensures Decode(s[n..]).Some? && Decode(s).value == [c] + Decode(s[n..]).value
  {
    CharIsShortest(s);
    c, n := DecodeChar(s).value.0, DecodeChar(s).value.1;
  }

  lemma EncodeFirst(c: Scalar, t: Text)
    ensures Encode([c] + t) == EncodeChar(c) + Encode(t)
  {
    assert ([c] + t)[0] == c && ([c] + t)[1..] == t;
  }
}
