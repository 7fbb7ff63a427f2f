/** The UTF-8 encoding of Unicode scalar values (RFC 3629, sections 3 and 4). */
module Utf8 {
  import opened Bytes
  import opened Sequences
  import opened Wrappers

  function EncodeChar(c: char): (s: bytes)
    ensures 1 <= |s| <= 4
  {
    var v := c as int;
    if v < 0x80 then [v]
    else if v < 0x800 then [0xC0 + v / 0x40, 0x80 + v % 0x40]
    else if v < 0x1_0000 then [0xE0 + v / 0x1000, 0x80 + v / 0x40 % 0x40, 0x80 + v % 0x40]
    else [0xF0 + v / 0x4_0000, 0x80 + v / 0x1000 % 0x40, 0x80 + v / 0x40 % 0x40, 0x80 + v % 0x40]
  }

  function Encode(text: string): bytes {
    if text == "" then [] else EncodeChar(text[0]) + Encode(text[1..])
  }

  predicate IsContinuation(b: byte) {
    0x80 <= b < 0xC0
  }

  /** The scalar value spelt by a lead byte's payload and the continuation bytes that follow it. */
  function Payload(lead: nat, continuations: bytes): nat
    requires forall i | 0 <= i < |continuations| :: IsContinuation(continuations[i])
    decreases |continuations|
  {
    if continuations == [] then lead
    else
      assert IsContinuation(continuations[0]);
      Payload(lead * 0x40 + (continuations[0] as int - 0x80), continuations[1..])
  }

  lemma Payloads(lead: nat, b: byte, c: byte, d: byte)
    requires IsContinuation(b) && IsContinuation(c) && IsContinuation(d)
    ensures Payload(lead, [b]) == lead * 0x40 + (b as int - 0x80)
    ensures Payload(lead, [b, c]) == lead * 0x1000 + (b as int - 0x80) * 0x40 + (c as int - 0x80)
    ensures Payload(lead, [b, c, d]) ==
            lead * 0x4_0000 + (b as int - 0x80) * 0x1000 + (c as int - 0x80) * 0x40 + (d as int - 0x80)
  {
    assert [b][1..] == [] && [c][1..] == [] && [d][1..] == [];
    assert [b, c][1..] == [c] && [b, c, d][1..] == [c, d] && [c, d][1..] == [d];
    var one := lead * 0x40 + (b as int - 0x80);
    var two := one * 0x40 + (c as int - 0x80);
    assert Payload(two, [d]) == two * 0x40 + (d as int - 0x80);
    assert Payload(one, [c]) == two;
    assert Payload(one, [c, d]) == Payload(two, [d]);
  }

  /** The number of bytes a lead byte announces; zero when it cannot lead. */
  function SequenceLength(lead: byte): nat {
    if lead < 0x80 then 1
    else if lead < 0xC2 then 0
    else if lead < 0xE0 then 2
    else if lead < 0xF0 then 3
    else if lead < 0xF5 then 4
    else 0
  }

  function LeadPayload(lead: byte): nat {
    if lead < 0x80 then lead
    else if lead < 0xC0 then 0
    else if lead < 0xE0 then lead as int - 0xC0
    else if lead < 0xF0 then lead as int - 0xE0
    else lead as int - 0xF0
  }

  /** The scalar value at the front of `s` and the number of bytes it takes, if the front is well formed. */
  function DecodeChar(s: bytes): (r: Option<(char, nat)>)
    ensures r.Some? ==> 1 <= r.value.1 <= |s|
  {
    if s == [] then None
    else
      var n := SequenceLength(s[0]);
      if n == 0 || n > |s| || exists i | 1 <= i < n :: !IsContinuation(s[i]) then None
      else
        var v := Payload(LeadPayload(s[0]), s[1..n]);
        if 0xD800 <= v < 0xE000 || 0x11_0000 <= v || (n == 3 && v < 0x800) || (n == 4 && v < 0x1_0000) then None
        else Some((v as char, n))
  }

  /** The text `s` encodes, or `None` when `s` is not well-formed UTF-8. */
  function Decode(s: bytes): Option<string> {
    if s == [] then Some("")
    else
      match DecodeChar(s)
      case None => None
      case Some((c, n)) =>
        match Decode(s[n..])
        case None => None
        case Some(rest) => Some([c] + rest)
  }

  predicate IsUtf8(s: bytes) {
    Decode(s).Some?
  }

  lemma DecodeCharOfEncodeChar(c: char, rest: bytes)
    ensures DecodeChar(EncodeChar(c) + rest) == Some((c, |EncodeChar(c)|))
  {
    var v := c as int;
    var e := EncodeChar(c);
    var s := e + rest;
    assert s[0] == e[0] && s[1..|e|] == e[1..];
    assert forall i | 1 <= i < |e| :: s[i] == e[i] && IsContinuation(e[i]);
    assert SequenceLength(e[0]) == |e|;
    assert Payload(LeadPayload(e[0]), e[1..]) == v by {
      PayloadOfEncodeChar(c);
    }
  }

  lemma PayloadOfEncodeChar(c: char)
    requires var e := EncodeChar(c); forall i | 1 <= i < |e| :: IsContinuation(e[i])
    ensures Payload(LeadPayload(EncodeChar(c)[0]), EncodeChar(c)[1..]) == c as int
  {
    var v := c as int;
    var e := EncodeChar(c);
    var lead := LeadPayload(e[0]);
    if |e| == 2 {
      assert e[1..] == [e[1]];
      Payloads(lead, e[1], e[1], e[1]);
    } else if |e| == 3 {
      assert e[1..] == [e[1], e[2]];
      Payloads(lead, e[1], e[2], e[2]);
      ThreePlaces(v);
    } else if |e| == 4 {
      assert e[1..] == [e[1], e[2], e[3]];
      Payloads(lead, e[1], e[2], e[3]);
      FourPlaces(v);
    }
  }

  lemma ThreePlaces(v: nat)
    ensures v / 0x1000 * 0x1000 + v / 0x40 % 0x40 * 0x40 + v % 0x40 == v
  {
    assert v / 0x40 / 0x40 == v / 0x1000;
  }

  lemma FourPlaces(v: nat)
    ensures v / 0x4_0000 * 0x4_0000 + v / 0x1000 % 0x40 * 0x1000 + v / 0x40 % 0x40 * 0x40 + v % 0x40 == v
  {
    assert v / 0x1000 / 0x40 == v / 0x4_0000;
    ThreePlaces(v);
  }

  lemma EncodeCharOfDecodeChar(s: bytes)
    requires DecodeChar(s).Some?
    ensures EncodeChar(DecodeChar(s).value.0) == s[..DecodeChar(s).value.1]
  {
    var (c, n) := DecodeChar(s).value;
    var lead := LeadPayload(s[0]);
    if n == 2 {
      assert s[1..n] == [s[1]];
      Payloads(lead, s[1], s[1], s[1]);
    } else if n == 3 {
      assert s[1..n] == [s[1], s[2]];
      Payloads(lead, s[1], s[2], s[2]);
      ThreeDigits(c as int, lead, s[1] as int - 0x80, s[2] as int - 0x80);
    } else if n == 4 {
      assert s[1..n] == [s[1], s[2], s[3]];
      Payloads(lead, s[1], s[2], s[3]);
      FourDigits(c as int, lead, s[1] as int - 0x80, s[2] as int - 0x80, s[3] as int - 0x80);
    }
  }

  lemma ThreeDigits(v: nat, a: nat, b: nat, c: nat)
    requires b < 0x40 && c < 0x40 && v == a * 0x1000 + b * 0x40 + c
    ensures v / 0x1000 == a && v / 0x40 % 0x40 == b && v % 0x40 == c
  {
    assert v / 0x40 == a * 0x40 + b;
  }

  lemma FourDigits(v: nat, a: nat, b: nat, c: nat, d: nat)
    requires b < 0x40 && c < 0x40 && d < 0x40 && v == a * 0x4_0000 + b * 0x1000 + c * 0x40 + d
    ensures v / 0x4_0000 == a && v / 0x1000 % 0x40 == b && v / 0x40 % 0x40 == c && v % 0x40 == d
  {
    assert v / 0x40 == a * 0x1000 + b * 0x40 + c;
    assert v / 0x1000 == a * 0x40 + b;
  }

  lemma EncodeSingle(c: char)
    ensures Encode([c]) == EncodeChar(c)
  {
    assert [c][1..] == "";
    assert Encode([c]) == EncodeChar(c) + Encode("");
  }

  lemma {:induction false} DecodeOfEncode(text: string)
    ensures Decode(Encode(text)) == Some(text)
  {
    if text != "" {
      var e := EncodeChar(text[0]);
      DecodeCharOfEncodeChar(text[0], Encode(text[1..]));
      DecodeOfEncode(text[1..]);
      assert Encode(text)[|e|..] == Encode(text[1..]);
      assert [text[0]] + text[1..] == text;
    }
  }

  lemma {:induction false} EncodeOfDecode(s: bytes)
    requires IsUtf8(s)
    ensures Encode(Decode(s).value) == s
  {
    if s != [] {
      var (c, n) := DecodeChar(s).value;
      EncodeCharOfDecodeChar(s);
      EncodeOfDecode(s[n..]);
      TailOfConcat([c], Decode(s[n..]).value);
      NilConcat(Decode(s[n..]).value);
      SplitAt(s, n);
    }
  }

  lemma {:induction false} EncodeConcat(a: string, b: string)
    ensures Encode(a + b) == Encode(a) + Encode(b)
  {
    if a == "" {
      NilConcat(b);
    } else {
      EncodeConcat(a[1..], b);
      TailOfConcat(a, b);
      Associative(EncodeChar(a[0]), Encode(a[1..]), Encode(b));
    }
  }

  lemma HeadOfPrefix(p: string, text: string)
    requires p != "" && Encode(p) <= Encode(text)
    ensures text != "" && text[0] == p[0] && Encode(p[1..]) <= Encode(text[1..])
  {
    var e := EncodeChar(p[0]);
    var s := Encode(text);
    PrefixOfConcat(e, Encode(p[1..]), s);
    DecodeCharOfEncodeChar(p[0], s[|e|..]);
    DecodeCharOfEncodeChar(text[0], Encode(text[1..]));
    ShiftedSlice(e, Encode(text[1..]), 0, 0);
  }

  /** Byte prefixes of encoded texts are text prefixes. */
  lemma {:induction false} PrefixOfEncoded(p: string, text: string)
    ensures Encode(p) <= Encode(text) <==> p <= text
  {
    if p <= text {
      EncodeConcat(p, text[|p|..]);
      assert text == p + text[|p|..];
    }
    if p != "" && Encode(p) <= Encode(text) {
      HeadOfPrefix(p, text);
      PrefixOfEncoded(p[1..], text[1..]);
      assert p == [p[0]] + p[1..] && text == [text[0]] + text[1..];
    }
  }
}
