/**
 * What normalization does to a key, in terms of its characters (src/core/normalize.rs): resource paths and their
 * separators, letters and digits, and what that means for lookups.
 */
module KeyForms {
  import opened Bytes
  import opened LookupSpec
  import opened Normalize
  import opened RecordOrder
  import opened Sequences
  import opened Utf8

  /** Slash (47) or backslash (92). */
  predicate IsSlash(c: char) {
    c as int == 47 || c as int == 92
  }

  // ----- one character -----

  /** A digit or an unaccented letter, by its code. */
  predicate IsLetterOrDigit(c: char) {
    48 <= c as int <= 57 || 65 <= c as int <= 90 || 97 <= c as int <= 122
  }

  /** What one character becomes behind the path start, by its code. */
  lemma OneCharacter(n: Normalizer, c: char)
    ensures c as int >= 128 ==> n.Fold(c) == if n.caseSensitive then [c] else n.lower(c)
    ensures c as int < 128 && n.stripKey && !IsLetterOrDigit(c) ==> n.Fold(c) == ""
    ensures c as int == 47 && !n.stripKey && n.resourcePath ==> n.Fold(c) == [92 as char]
    ensures c as int < 128 && (IsLetterOrDigit(c) || !n.stripKey) && !(n.resourcePath && c as int == 47) ==>
              n.Fold(c) == if !n.caseSensitive && 65 <= c as int <= 90 then [(c as int + 32) as char] else [c]
  {
  }

  // ----- separators of resource paths -----

  lemma LeadingSlashesAreIgnored(n: Normalizer, raw: string)
    requires n.resourcePath
    ensures n.Text("/" + raw) == n.Text(raw) && n.Text("\\" + raw) == n.Text(raw)
  {
    TailOfConcat("/", raw);
    TailOfConcat("\\", raw);
    assert ("/" + raw)[1..] == raw && ("\\" + raw)[1..] == raw;
  }

  /** The keys agree but for the direction of their slashes. */
  predicate SameButSlashes(a: string, b: string) {
    |a| == |b| && forall i | 0 <= i < |a| :: a[i] == b[i] || (IsSlash(a[i]) && IsSlash(b[i]))
  }

  lemma {:induction false} SlashesFoldAlike(n: Normalizer, a: string, b: string)
    requires n.resourcePath && SameButSlashes(a, b)
    ensures n.FoldAll(a) == n.FoldAll(b)
  {
    if a != "" {
      SlashesFoldAlike(n, a[1..], b[1..]);
    }
  }

  /** A resource is found under either kind of slash. */
  lemma {:induction false} SlashesNormalizeAlike(n: Normalizer, a: string, b: string)
    requires n.resourcePath && SameButSlashes(a, b)
    ensures n.Text(a) == n.Text(b)
  {
    if a != "" && IsSlash(a[0]) {
      SlashesNormalizeAlike(n, a[1..], b[1..]);
    } else {
      SlashesFoldAlike(n, a, b);
    }
  }

  /** Lowercasing never makes a character disappear. */
  ghost predicate LowerIsNeverEmpty(lower: char -> string) {
    forall c: char :: lower(c) != ""
  }

  lemma FoldWithoutStripping(n: Normalizer, c: char)
    requires n.resourcePath && !n.stripKey && LowerRespectsAscii(n.lower) && LowerIsNeverEmpty(n.lower)
    ensures n.Fold(c) != "" && (IsSlash(c) ==> n.Fold(c) == "\\")
    ensures !IsSlash(c) ==> forall i | 0 <= i < |n.Fold(c)| :: !IsSlash(n.Fold(c)[i])
  {
    if c as int >= 128 && !n.caseSensitive {
      forall i | 0 <= i < |n.lower(c)|
        ensures !IsSlash(n.lower(c)[i])
      {
        assert !IsAscii(n.lower(c)[i]) || IsAsciiAlphanumeric(n.lower(c)[i]);
      }
    }
  }

  lemma {:induction false} NoForwardSlashes(n: Normalizer, raw: string)
    requires n.resourcePath && !n.stripKey && LowerRespectsAscii(n.lower) && LowerIsNeverEmpty(n.lower)
    ensures forall i | 0 <= i < |n.FoldAll(raw)| :: n.FoldAll(raw)[i] != '/'
  {
    if raw != "" {
      NoForwardSlashes(n, raw[1..]);
      FoldWithoutStripping(n, raw[0]);
    }
  }

  /** Without stripping, a normalized path starts with no separator and has backslashes for all others. */
  lemma {:induction false} PathsAreTrimmed(n: Normalizer, raw: string)
    requires n.resourcePath && !n.stripKey && LowerRespectsAscii(n.lower) && LowerIsNeverEmpty(n.lower)
    ensures n.Text(raw) != "" ==> !IsSlash(n.Text(raw)[0])
    ensures forall i | 0 <= i < |n.Text(raw)| :: n.Text(raw)[i] != '/'
    ensures n.Text(raw) == "" <==> forall i | 0 <= i < |raw| :: IsSlash(raw[i])
  {
    if raw != "" {
      if IsSlash(raw[0]) {
        PathsAreTrimmed(n, raw[1..]);
        HeadTail(raw);
      } else {
        FoldWithoutStripping(n, raw[0]);
        NoForwardSlashes(n, raw);
      }
    }
  }

  // ----- ASCII keys -----

  /** The letters and digits of a key, in order; in lower case unless case counts. */
  function LettersAndDigits(raw: string, caseSensitive: bool): string {
    if raw == "" then ""
    else
      var c := raw[0];
      (if !IsLetterOrDigit(c) then ""
       else if !caseSensitive && 65 <= c as int <= 90 then [(c as int + 32) as char]
       else [c]) + LettersAndDigits(raw[1..], caseSensitive)
  }

  lemma {:induction false} StrippedAsciiFolds(n: Normalizer, raw: string)
    requires n.stripKey && forall i | 0 <= i < |raw| :: raw[i] as int < 128
    ensures n.FoldAll(raw) == LettersAndDigits(raw, n.caseSensitive)
  {
    if raw != "" {
      StrippedAsciiFolds(n, raw[1..]);
      OneCharacter(n, raw[0]);
    }
  }

  /** With stripping, an ASCII key is reduced to its letters and digits; path separators never were any. */
  lemma {:induction false} StrippedAsciiText(n: Normalizer, raw: string)
    requires n.stripKey && forall i | 0 <= i < |raw| :: raw[i] as int < 128
    ensures n.Text(raw) == LettersAndDigits(raw, n.caseSensitive)
  {
    if n.resourcePath && raw != "" && IsSlash(raw[0]) {
      StrippedAsciiText(n, raw[1..]);
      NilConcat(LettersAndDigits(raw[1..], n.caseSensitive));
    } else {
      StrippedAsciiFolds(n, raw);
    }
  }

  /** Without stripping, an ASCII word key only changes its capitals, and only if case does not count. */
  lemma {:induction false} PlainAsciiText(n: Normalizer, raw: string)
    requires !n.stripKey && !n.resourcePath && forall i | 0 <= i < |raw| :: raw[i] as int < 128
    ensures |n.Text(raw)| == |raw|
    ensures forall i | 0 <= i < |raw| ::
              n.Text(raw)[i] as int == raw[i] as int + if !n.caseSensitive && 65 <= raw[i] as int <= 90 then 32 else 0
  {
    if raw != "" {
      PlainAsciiText(n, raw[1..]);
      OneCharacter(n, raw[0]);
      assert n.Text(raw) == n.Fold(raw[0]) + n.Text(raw[1..]);
    }
  }

  // ----- lookups -----

  /** A row is found by any query that writes its key with other slashes, or with slashes in front. */
  lemma PathsAreFound(m: Matcher, n: Normalizer, keys: seq<string>, i: nat, query: string)
    requires IsMatcherOf(m, n) && n.resourcePath && i < |keys| && SameButSlashes(keys[i], query)
    ensures i in ScanFor(m, keys, NormalizesLike(query))
    ensures ScanFor(m, keys, NormalizesLike("/" + query)) == ScanFor(m, keys, NormalizesLike(query))
    ensures ScanFor(m, keys, NormalizesLike("\\" + query)) == ScanFor(m, keys, NormalizesLike(query))
  {
    SlashesNormalizeAlike(n, keys[i], query);
    LeadingSlashesAreIgnored(n, query);
    assert m.Bytes(keys[i]) == n.Bytes(keys[i]) && m.Bytes(query) == n.Bytes(query);
    ScanIs(m, keys, NormalizesLike(query));
    SameBytesSameScan(m, n, keys, "/" + query, query);
    SameBytesSameScan(m, n, keys, "\\" + query, query);
  }

  lemma SameBytesSameScan(m: Matcher, n: Normalizer, keys: seq<string>, a: string, b: string)
    requires IsMatcherOf(m, n) && n.Text(a) == n.Text(b)
    ensures ScanFor(m, keys, NormalizesLike(a)) == ScanFor(m, keys, NormalizesLike(b))
  {
    assert m.Bytes(a) == n.Bytes(a) && m.Bytes(b) == n.Bytes(b);
    ScanIs(m, keys, NormalizesLike(a));
    ScanIs(m, keys, NormalizesLike(b));
    AscendingIsUnique(ScanFor(m, keys, NormalizesLike(a)), ScanFor(m, keys, NormalizesLike(b)));
  }

  /** A row is a case variant of a query exactly when it is another key with the same lowercase. */
  lemma VariantsAre(m: Matcher, keys: seq<string>, query: string, i: nat)
    requires LowerRespectsAscii(m.lower)
    ensures i in ScanFor(m, keys, IsVariantOf(query)) <==>
              i < |keys| && keys[i] != query && LowerAll(m.lower, keys[i]) == LowerAll(m.lower, query)
    ensures !(i in ScanFor(m, keys, IsVariantOf(query)) && i in ScanFor(m, keys, IsExactly(query)))
  {
    ScanIs(m, keys, IsVariantOf(query));
    ScanIs(m, keys, IsExactly(query));
    if i < |keys| {
      CaseEqualityIsLowercaseEquality(m.lower, keys[i], query);
    }
  }
}
