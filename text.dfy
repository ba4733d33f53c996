/** The string operations the handler relies on: JavaScript's
    `String.prototype.split` with a non-empty separator, indexing into its
    result, and the decimal text of a non-negative integer. */
module Text {
  import opened Wrappers

  /** `sep` occurs in `s` starting at index `j`. */
  predicate OccursAt(s: string, sep: string, j: nat) {
    j + |sep| <= |s| && s[j..j + |sep|] == sep
  }

  /** `p` is the leftmost occurrence of `sep` in `s`. */
  ghost predicate IsFirstOccurrence(s: string, sep: string, p: nat) {
    OccursAt(s, sep, p) && forall j: nat :: j < p ==> !OccursAt(s, sep, j)
  }

  /** No occurrence of `sep` starts anywhere in `s`. */
  ghost predicate Free(s: string, sep: string) {
    forall j: nat :: !OccursAt(s, sep, j)
  }

  lemma OccursAtTail(s: string, sep: string, j: nat)
    requires |s| > 0
    ensures OccursAt(s, sep, j + 1) <==> OccursAt(s[1..], sep, j)
  {
    if j + 1 + |sep| <= |s| {
      assert s[1..][j..j + |sep|] == s[j + 1..j + 1 + |sep|];
    }
  }

  /** The index of the leftmost occurrence of `sep` in `s` (`indexOf`). */
  function Find(s: string, sep: string): (r: Option<nat>)
    requires |sep| > 0
    ensures r.Some? ==> IsFirstOccurrence(s, sep, r.value)
    ensures r.None? ==> Free(s, sep)
    decreases |s|
  {
    if |s| < |sep| then None
    else if s[..|sep|] == sep then Some(0)
    else
      match Find(s[1..], sep)
      case None =>
        assert forall j: nat :: !OccursAt(s, sep, j) by {
          forall j: nat ensures !OccursAt(s, sep, j) {
            if j > 0 { OccursAtTail(s, sep, j - 1); }
          }
        }
        None
      case Some(p) =>
        assert IsFirstOccurrence(s, sep, p + 1) by {
          OccursAtTail(s, sep, p);
          forall j: nat | j < p + 1 ensures !OccursAt(s, sep, j) {
            if j > 0 { OccursAtTail(s, sep, j - 1); }
          }
        }
        Some(p + 1)
  }

  /** `indexOf` finds nothing exactly when the separator occurs nowhere. */
  lemma FindNoneIffFree(s: string, sep: string)
    requires |sep| > 0
    ensures Find(s, sep).None? <==> Free(s, sep)
  {
    if Find(s, sep).Some? {
      assert OccursAt(s, sep, Find(s, sep).value);
    }
  }

  /** `s.split(sep)`: the text between consecutive leftmost, non-overlapping
      occurrences of `sep`, scanning from the left. */
  function Split(s: string, sep: string): (parts: seq<string>)
    requires |sep| > 0
    ensures |parts| >= 1
    decreases |s|
  {
    match Find(s, sep)
    case None => [s]
    case Some(p) => [s[..p]] + Split(s[p + |sep|..], sep)
  }

  /** `parts.join(sep)`. */
  function Join(parts: seq<string>, sep: string): string
    requires |parts| >= 1
  {
    if |parts| == 1 then parts[0] else parts[0] + sep + Join(parts[1..], sep)
  }

  /** `parts[i]` in JavaScript: the element, or `undefined` past the end. */
  function Segment(parts: seq<string>, i: nat): (r: Option<string>)
    ensures r.Some? <==> i < |parts|
    ensures r.Some? ==> r.value == parts[i]
  {
    if i < |parts| then Some(parts[i]) else None
  }

  /** `s.split(marker)[1]`: the text after the first `marker`, up to the
      next one. It is `undefined` exactly when the marker occurs nowhere. */
  function Field(s: string, marker: string): (r: Option<string>)
    requires |marker| > 0
    ensures r.None? <==> Free(s, marker)
  {
    FindNoneIffFree(s, marker);
    Segment(Split(s, marker), 1)
  }

  lemma JoinCons(a: string, rest: seq<string>, sep: string)
    requires |rest| >= 1
    ensures Join([a] + rest, sep) == a + sep + Join(rest, sep)
  {
    assert ([a] + rest)[1..] == rest;
  }

  /** One step of a split that finds the separator at `p`. */
  lemma SplitStep(s: string, sep: string, p: nat)
    requires |sep| > 0 && Find(s, sep) == Some(p)
    ensures p + |sep| <= |s|
    ensures Split(s, sep) == [s[..p]] + Split(s[p + |sep|..], sep)
  {
  }

  /** `sep` occurs in a suffix of `s` exactly where it occurs in `s`, shifted. */
  lemma OccursAtSuffix(s: string, sep: string, start: nat, k: nat)
    requires start <= |s|
    ensures OccursAt(s[start..], sep, k) <==> OccursAt(s, sep, start + k)
  {
    if start + k + |sep| <= |s| {
      assert s[start..][k..k + |sep|] == s[start + k..start + k + |sep|];
    }
  }

  /** Joining the pieces of a split with the separator gives back the string. */
  lemma {:induction false} SplitJoin(s: string, sep: string)
    requires |sep| > 0
    ensures Join(Split(s, sep), sep) == s
    decreases |s|
  {
    if Find(s, sep).Some? {
      var p := Find(s, sep).value;
      var rest := s[p + |sep|..];
      SplitStep(s, sep, p);
      SplitJoin(rest, sep);
      JoinCons(s[..p], Split(rest, sep), sep);
      assert s[p..p + |sep|] == sep;
      assert s == s[..p] + s[p..p + |sep|] + rest;
    }
  }

  /** A piece cut off before the leftmost occurrence holds no occurrence. */
  lemma PrefixFree(s: string, sep: string, p: nat)
    requires |sep| > 0 && IsFirstOccurrence(s, sep, p)
    ensures Free(s[..p], sep)
  {
    forall j: nat ensures !OccursAt(s[..p], sep, j) {
      if j + |sep| <= p {
        assert s[..p][j..j + |sep|] == s[j..j + |sep|];
        assert !OccursAt(s, sep, j);
      }
    }
  }

  /** No piece of a split contains the separator. */
  lemma {:induction false} SplitPiecesFree(s: string, sep: string)
    requires |sep| > 0
    ensures forall i :: 0 <= i < |Split(s, sep)| ==> Free(Split(s, sep)[i], sep)
    decreases |s|
  {
    if Find(s, sep).Some? {
      var p := Find(s, sep).value;
      var rest := s[p + |sep|..];
      SplitStep(s, sep, p);
      SplitPiecesFree(rest, sep);
      PrefixFree(s, sep, p);
    }
  }

  /** A string in which the separator occurs nowhere is split into itself
      alone. */
  lemma SplitWithoutSeparator(s: string, sep: string)
    requires |sep| > 0 && Free(s, sep)
    ensures Split(s, sep) == [s]
  {
    FindNoneIffFree(s, sep);
  }

  /** The separator cannot occur where its first character never appears. */
  lemma FirstCharAbsentFree(s: string, sep: string)
    requires |sep| > 0 && sep[0] !in s
    ensures Free(s, sep)
  {
    forall j: nat ensures !OccursAt(s, sep, j) {
      if j + |sep| <= |s| {
        assert s[j..j + |sep|][0] == s[j];
      }
    }
  }

  /** Splitting `a + sep + b`, where `a` lacks the separator's first
      character, cuts exactly after `a`. */
  lemma SplitAfterFreePrefix(a: string, sep: string, b: string)
    requires |sep| > 0 && sep[0] !in a
    ensures Split(a + sep + b, sep) == [a] + Split(b, sep)
  {
    var s := a + sep + b;
    assert s[|a|..|a| + |sep|] == sep;
    assert OccursAt(s, sep, |a|);
    forall j: nat | j < |a| ensures !OccursAt(s, sep, j) {
      assert s[j] == a[j];
      if j + |sep| <= |s| {
        assert s[j..j + |sep|][0] == s[j];
      }
    }
    assert Find(s, sep) == Some(|a|);
    assert s[..|a|] == a;
    assert s[|a| + |sep|..] == b;
  }

  /** `x` is the text of `s` from `start` up to the next occurrence of
      `sep` at or after `start`, or up to the end when there is none. */
  ghost predicate RunsToNext(s: string, sep: string, start: nat, x: string) {
    && start + |x| <= |s| && x == s[start..start + |x|]
    && (forall j: nat :: start <= j < start + |x| ==> !OccursAt(s, sep, j))
    && (start + |x| == |s| || OccursAt(s, sep, start + |x|))
  }

  /** The first piece of a split runs up to the leftmost occurrence, or to
      the end when there is none. */
  lemma FirstPiece(t: string, sep: string)
    requires |sep| > 0
    ensures RunsToNext(t, sep, 0, Split(t, sep)[0])
  {
    if Find(t, sep).Some? {
      SplitStep(t, sep, Find(t, sep).value);
    }
  }

  lemma RunsToNextSuffix(s: string, sep: string, start: nat, x: string)
    requires start <= |s| && RunsToNext(s[start..], sep, 0, x)
    ensures RunsToNext(s, sep, start, x)
  {
    OccursAtSuffix(s, sep, start, |x|);
    forall j: nat | start <= j < start + |x| ensures !OccursAt(s, sep, j) {
      OccursAtSuffix(s, sep, start, j - start);
    }
  }

  /** Find returns the leftmost occurrence whenever there is one. */
  lemma FindFirst(s: string, sep: string, p: nat)
    requires |sep| > 0 && IsFirstOccurrence(s, sep, p)
    ensures Find(s, sep) == Some(p)
  {
    assert OccursAt(s, sep, p);
    var r := Find(s, sep);
    if r.Some? {
      assert !(r.value < p) by { assert OccursAt(s, sep, r.value); }
      assert !(p < r.value);
    }
  }

  /** When the marker occurs, the field is the text strictly between its
      first occurrence and the next one, or the end of the string. */
  lemma FieldBetweenMarkers(s: string, marker: string, p: nat)
    requires |marker| > 0 && IsFirstOccurrence(s, marker, p)
    ensures Field(s, marker).Some?
    ensures RunsToNext(s, marker, p + |marker|, Field(s, marker).value)
  {
    FindFirst(s, marker, p);
    SplitStep(s, marker, p);
    var start := p + |marker|;
    var x := Split(s[start..], marker)[0];
    assert Split(s, marker)[1] == x;
    assert Field(s, marker) == Some(x);
    FirstPiece(s[start..], marker);
    assert RunsToNext(s[start..], marker, 0, x);
    RunsToNextSuffix(s, marker, start, Split(s[start..], marker)[0]);
  }

  // ---- decimal text of numbers ----

  predicate IsDigit(c: char) { '0' <= c <= '9' }

  predicate AllDigits(s: string) { forall i :: 0 <= i < |s| ==> IsDigit(s[i]) }

  function DigitChar(d: nat): (c: char)
    requires d < 10
    ensures IsDigit(c) && c as int - '0' as int == d
  {
    ('0' as int + d) as char
  }

  /** `String(n)` for a non-negative integer below 1e21 (from there on
      JavaScript writes an exponent): its shortest decimal text. */
  function Decimal(n: nat): (s: string)
    ensures |s| >= 1 && AllDigits(s)
  {
    if n < 10 then [DigitChar(n)] else Decimal(n / 10) + [DigitChar(n % 10)]
  }

  /** The value of a string of decimal digits. */
  function DigitsValue(s: string): nat
    requires AllDigits(s)
  {
    if s == [] then 0
    else DigitsValue(s[..|s| - 1]) * 10 + (s[|s| - 1] as int - '0' as int)
  }

  /** The id text of a delete form as a post key: a non-empty run of decimal
      digits, anything else names no post. */
  function ParseDecimal(s: string): (r: Option<nat>)
    ensures r.Some? <==> |s| >= 1 && AllDigits(s)
  {
    if |s| >= 1 && AllDigits(s) then Some(DigitsValue(s)) else None
  }

  lemma {:induction false} DecimalRoundTrip(n: nat)
    ensures ParseDecimal(Decimal(n)) == Some(n)
  {
    if n >= 10 {
      DecimalRoundTrip(n / 10);
      var s := Decimal(n);
      assert s[..|s| - 1] == Decimal(n / 10);
      assert s[|s| - 1] == DigitChar(n % 10);
      assert DigitsValue(s) == DigitsValue(Decimal(n / 10)) * 10 + n % 10;
    }
  }

  lemma DecimalHasNoSeparator(n: nat, c: char)
    requires !IsDigit(c)
    ensures c !in Decimal(n)
  {
  }
}
