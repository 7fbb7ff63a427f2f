/** Header-controlled key normalization (src/core/normalize.rs). */
module Normalize {
  import opened Bytes
  import opened Sequences
  import opened Wrappers
  import opened Utf8

  predicate IsAscii(c: char) {
    (c as int) < 0x80
  }

  predicate AllAscii(text: string) {
    forall i | 0 <= i < |text| :: IsAscii(text[i])
  }

  predicate IsAsciiAlphanumeric(c: char) {
    'a' <= c <= 'z' || 'A' <= c <= 'Z' || '0' <= c <= '9'
  }

  function AsciiLower(c: char): char {
    if 'A' <= c <= 'Z' then (c as int + 32) as char else c
  }

  predicate IsSeparator(c: char) {
    c == '/' || c == '\\'
  }

  /**
   * The header-selected profile. `lower` is the Unicode scalar lowercase mapping, one scalar to any
   * number of scalars.
   */
  datatype Normalizer = Normalizer(
    caseSensitive: bool,
    stripKey: bool,
    resourcePath: bool,
    lower: char -> string)
  {
    predicate Retains(c: char) {
      !stripKey || !IsAscii(c) || IsAsciiAlphanumeric(c)
    }

    /** What one character below the path start contributes. */
    function Fold(c: char): string {
      if !Retains(c) then ""
      else
        var d := if resourcePath && c == '/' then '\\' else c;
        if caseSensitive then [d] else if IsAscii(d) then [AsciiLower(d)] else lower(d)
    }

    function FoldAll(raw: string): string {
      if raw == "" then "" else Fold(raw[0]) + FoldAll(raw[1..])
    }

    /** Resource paths ignore every leading separator. */
    function Trim(raw: string): string {
      if resourcePath && raw != "" && IsSeparator(raw[0]) then Trim(raw[1..]) else raw
    }

    /** The normalized text of `raw`. */
    function Text(raw: string): string {
      FoldAll(Trim(raw))
    }

    /** The UTF-8 bytes of the normalized text. */
    function Bytes(raw: string): bytes {
      Encode(Text(raw))
    }
  }

  /** What the loops below still have to append when they stand before `raw[i..]`. */
  ghost function Pending(n: Normalizer, raw: string, i: nat, atPathStart: bool): string
    requires i <= |raw|
  {
    n.FoldAll(if atPathStart then n.Trim(raw[i..]) else raw[i..])
  }

  predicate Skips(n: Normalizer, c: char, atPathStart: bool) {
    n.resourcePath && atPathStart && IsSeparator(c)
  }

  lemma PendingStep(n: Normalizer, raw: string, i: nat, atPathStart: bool)
    requires i < |raw|
    ensures Skips(n, raw[i], atPathStart) ==> Pending(n, raw, i, atPathStart) == Pending(n, raw, i + 1, true)
    ensures !Skips(n, raw[i], atPathStart) ==>
              && Pending(n, raw, i, atPathStart) == n.Fold(raw[i]) + Pending(n, raw, i + 1, false)
              && Encode(Pending(n, raw, i, atPathStart)) ==
                 Encode(n.Fold(raw[i])) + Encode(Pending(n, raw, i + 1, false))
  {
    assert raw[i..][1..] == raw[i + 1..];
    EncodeConcat(n.Fold(raw[i]), Pending(n, raw, i + 1, false));
  }

  lemma PendingEnds(n: Normalizer, raw: string, atPathStart: bool)
    ensures Pending(n, raw, 0, true) == n.Text(raw)
    ensures Pending(n, raw, |raw|, atPathStart) == ""
  {
    assert raw[0..] == raw && raw[|raw|..] == "";
  }

  /** The bytes one character contributes, case by case as the loops compute them. */
  lemma FoldBytes(n: Normalizer, c: char)
    ensures !n.Retains(c) ==> Encode(n.Fold(c)) == []
    ensures n.Retains(c) ==>
              var d := if n.resourcePath && c == '/' then '\\' else c;
              Encode(n.Fold(c)) ==
              if n.caseSensitive then EncodeChar(d)
              else if IsAscii(d) then EncodeChar(AsciiLower(d))
              else Encode(n.lower(d))
  {
    if n.Retains(c) {
      var d := if n.resourcePath && c == '/' then '\\' else c;
      EncodeSingle(d);
      EncodeSingle(AsciiLower(d));
    }
  }

  ghost predicate TextDone(n: Normalizer, raw: string, i: nat, atPathStart: bool, done: string, total: string)
    requires i <= |raw|
  {
    done + Pending(n, raw, i, atPathStart) == total
  }

  lemma TextStep(n: Normalizer, raw: string, i: nat, atPathStart: bool, done: string, total: string)
    requires i < |raw| && TextDone(n, raw, i, atPathStart, done, total) && !Skips(n, raw[i], atPathStart)
    ensures TextDone(n, raw, i + 1, false, done + n.Fold(raw[i]), total)
  {
    PendingStep(n, raw, i, atPathStart);
    Associative(done, n.Fold(raw[i]), Pending(n, raw, i + 1, false));
  }

  /** One pass over the raw key computes the normalized text and leaves what `out` already held in front of it. */
  method NormalizeInto(n: Normalizer, raw: string, out: string) returns (appended: string)
    ensures appended == out + n.Text(raw)
  {
    appended := out;
    var atPathStart := true;
    PendingEnds(n, raw, true);
    for i := 0 to |raw|
      invariant TextDone(n, raw, i, atPathStart, appended, out + n.Text(raw))
    {
      var character := raw[i];
      if n.resourcePath && atPathStart && IsSeparator(character) {
        PendingStep(n, raw, i, atPathStart);
        continue;
      }
      TextStep(n, raw, i, atPathStart, appended, out + n.Text(raw));
      atPathStart := false;
      if !n.Retains(character) {
        assert appended + "" == appended;
        continue;
      }
      if n.resourcePath && character == '/' {
        character := '\\';
      }
      if n.caseSensitive || IsAscii(character) {
        appended := appended + [if n.caseSensitive then character else AsciiLower(character)];
      } else {
        appended := appended + n.lower(character);
      }
    }
    PendingEnds(n, raw, atPathStart);
  }

  ghost predicate BytesDone(n: Normalizer, raw: string, i: nat, atPathStart: bool, done: bytes, total: bytes)
    requires i <= |raw|
  {
    done + Encode(Pending(n, raw, i, atPathStart)) == total
  }

  lemma BytesStep(n: Normalizer, raw: string, i: nat, atPathStart: bool, done: bytes, piece: bytes, total: bytes)
    requires i < |raw| && BytesDone(n, raw, i, atPathStart, done, total)
    requires !Skips(n, raw[i], atPathStart) && piece == Encode(n.Fold(raw[i]))
    ensures BytesDone(n, raw, i + 1, false, done + piece, total)
  {
    PendingStep(n, raw, i, atPathStart);
    Associative(done, piece, Encode(Pending(n, raw, i + 1, false)));
  }

  /** Appends the normalized UTF-8 bytes directly to a byte arena. */
  method NormalizeBytesInto(n: Normalizer, raw: string, out: bytes) returns (appended: bytes)
    ensures appended == out + n.Bytes(raw)
  {
    appended := out;
    var atPathStart := true;
    PendingEnds(n, raw, true);
    for i := 0 to |raw|
      invariant BytesDone(n, raw, i, atPathStart, appended, out + n.Bytes(raw))
    {
      var character := raw[i];
      if n.resourcePath && atPathStart && IsSeparator(character) {
        PendingStep(n, raw, i, atPathStart);
        continue;
      }
      FoldBytes(n, character);
      BytesStep(n, raw, i, atPathStart, appended, Encode(n.Fold(character)), out + n.Bytes(raw));
      atPathStart := false;
      if !n.Retains(character) {
        assert appended + [] == appended;
        continue;
      }
      if n.resourcePath && character == '/' {
        character := '\\';
      }
      if n.caseSensitive || IsAscii(character) {
        var normalized := if n.caseSensitive then character else AsciiLower(character);
        appended := appended + EncodeChar(normalized);
      } else {
        appended := appended + Encode(n.lower(character));
      }
    }
    PendingEnds(n, raw, atPathStart);
  }

  /** The byte length of the normalized form, or an error when it does not fit `usize`. */
  method NormalizedLen(n: Normalizer, raw: string) returns (r: Result<nat>)
    ensures r == if |n.Bytes(raw)| <= USIZE_MAX then Ok(|n.Bytes(raw)|) else Err(InvalidFormat)
  {
    var length: nat := 0;
    var atPathStart := true;
    PendingEnds(n, raw, true);
    for i := 0 to |raw|
      invariant length + |Encode(Pending(n, raw, i, atPathStart))| == |n.Bytes(raw)|
      invariant length <= USIZE_MAX
    {
      var character := raw[i];
      PendingStep(n, raw, i, atPathStart);
      if n.resourcePath && atPathStart && IsSeparator(character) {
        continue;
      }
      FoldBytes(n, character);
      atPathStart := false;
      if !n.Retains(character) {
        continue;
      }
      if n.resourcePath && character == '/' {
        character := '\\';
      }
      if n.caseSensitive || IsAscii(character) {
        if length + |EncodeChar(character)| > USIZE_MAX {
          return Err(InvalidFormat);
        }
        length := length + |EncodeChar(character)|;
      } else {
        var lowered := n.lower(character);
        if length + |Encode(lowered)| > USIZE_MAX {
          return Err(InvalidFormat);
        }
        length := length + |Encode(lowered)|;
      }
    }
    PendingEnds(n, raw, atPathStart);
    return Ok(length);
  }

  lemma NormalizedBytesAreUtf8(n: Normalizer, raw: string)
    ensures IsUtf8(n.Bytes(raw))
  {
    DecodeOfEncode(n.Text(raw));
  }

  // ----- case-insensitive comparison -----

  /** Scalar lowercase of a whole text. */
  function LowerAll(lower: char -> string, text: string): string {
    if text == "" then "" else lower(text[0]) + LowerAll(lower, text[1..])
  }

  predicate EqualIgnoringAsciiCase(left: string, right: string) {
    |left| == |right| && forall i | 0 <= i < |left| :: AsciiLower(left[i]) == AsciiLower(right[i])
  }

  predicate EqualIgnoringCase(lower: char -> string, left: string, right: string) {
    if AllAscii(left) && AllAscii(right) then EqualIgnoringAsciiCase(left, right)
    else LowerAll(lower, left) == LowerAll(lower, right)
  }

  /**
   * What is assumed of the Unicode lowercase table: ASCII lowercases as ASCII does, and the lowercase of a
   * non-ASCII scalar contains no ASCII character other than letters and digits.
   */
  ghost predicate LowerRespectsAscii(lower: char -> string) {
    forall c: char ::
      if IsAscii(c) then lower(c) == [AsciiLower(c)]
      else forall i | 0 <= i < |lower(c)| :: !IsAscii(lower(c)[i]) || IsAsciiAlphanumeric(lower(c)[i])
  }

  /** The ASCII fast path and the general comparison agree. */
  lemma CaseEqualityIsLowercaseEquality(lower: char -> string, left: string, right: string)
    requires LowerRespectsAscii(lower)
    ensures EqualIgnoringCase(lower, left, right) <==> LowerAll(lower, left) == LowerAll(lower, right)
  {
    if AllAscii(left) && AllAscii(right) {
      LowerAllOfAscii(lower, left);
      LowerAllOfAscii(lower, right);
    }
  }

  lemma {:induction false} LowerAllOfAscii(lower: char -> string, text: string)
    requires LowerRespectsAscii(lower) && AllAscii(text)
    ensures |LowerAll(lower, text)| == |text|
    ensures forall i | 0 <= i < |text| :: LowerAll(lower, text)[i] == AsciiLower(text[i])
  {
    if text != "" {
      LowerAllOfAscii(lower, text[1..]);
    }
  }

  /** The characters the strip profile keeps. */
  function Retained(n: Normalizer, text: string): string {
    if text == "" then "" else (if n.Retains(text[0]) then [text[0]] else "") + Retained(n, text[1..])
  }

  lemma {:induction false} RetainedConcat(n: Normalizer, a: string, b: string)
    ensures Retained(n, a + b) == Retained(n, a) + Retained(n, b)
  {
    if a == "" {
      NilConcat(b);
    } else {
      RetainedConcat(n, a[1..], b);
      TailOfConcat(a, b);
      Associative(if n.Retains(a[0]) then [a[0]] else "", Retained(n, a[1..]), Retained(n, b));
    }
  }

  lemma {:induction false} RetainedKeepsAll(n: Normalizer, text: string)
    requires forall i | 0 <= i < |text| :: n.Retains(text[i])
    ensures Retained(n, text) == text
  {
    if text != "" {
      RetainedKeepsAll(n, text[1..]);
      assert text == [text[0]] + text[1..];
    }
  }

  /** Stripping and lowercasing commute: normalizing is stripping the lowercase. */
  lemma {:induction false} NormalizingIsStrippingTheLowercase(n: Normalizer, raw: string)
    requires !n.caseSensitive && !n.resourcePath && LowerRespectsAscii(n.lower)
    ensures n.Text(raw) == Retained(n, LowerAll(n.lower, raw))
  {
    if raw != "" {
      var c := raw[0];
      NormalizingIsStrippingTheLowercase(n, raw[1..]);
      RetainedConcat(n, n.lower(c), LowerAll(n.lower, raw[1..]));
      assert n.Trim(raw[1..]) == raw[1..];
      if IsAscii(c) {
        assert IsAsciiAlphanumeric(AsciiLower(c)) <==> IsAsciiAlphanumeric(c);
        assert Retained(n, [AsciiLower(c)]) == n.Fold(c);
      } else {
        RetainedKeepsAll(n, n.lower(c));
      }
    }
  }

  /** Every case variant of a key normalizes as the key does, with or without stripping. */
  lemma CaseVariantsNormalizeAlike(n: Normalizer, left: string, right: string)
    requires !n.caseSensitive && !n.resourcePath && LowerRespectsAscii(n.lower)
    requires EqualIgnoringCase(n.lower, left, right)
    ensures n.Bytes(left) == n.Bytes(right)
  {
    CaseEqualityIsLowercaseEquality(n.lower, left, right);
    NormalizingIsStrippingTheLowercase(n, left);
    NormalizingIsStrippingTheLowercase(n, right);
  }
}
