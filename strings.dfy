/**
 * The .NET string operations the three tools rely on, stated over `seq<char>`:
 * white space and `Trim`, ordinal and ordinal-ignore-case comparison,
 * `Contains`, `Replace`, `Split`, decimal formatting and `int.TryParse`,
 * and first-occurrence de-duplication (`Distinct`, or a `List` filled after a
 * `Contains` check).
 *
 * Case-insensitive comparison folds the ASCII letters and the Russian letters
 * (U+0410 to U+042F and U+0401) only, and white space is the ASCII white
 * space (tab, line feed, vertical tab, form feed, carriage return, space).
 * These are the characters that netsh, esptool and the ELRS web page produce
 * in practice, netsh's listing being in English or Russian.
 */
module Strings {
  import opened Wrappers

  // ---------------------------------------------------------------------------
  // White space and Trim
  // ---------------------------------------------------------------------------

  /** `char.IsWhiteSpace` on the ASCII range. */
  predicate IsWhite(c: char) {
    c == ' ' || c == '\t' || c == '\n' || c == '\r' || c == '\U{000B}' || c == '\U{000C}'
  }

  /** `string.IsNullOrWhiteSpace` for a string that is not null. */
  predicate IsBlank(s: string) {
    SkipWhite(s, 0) == |s|
  }

  /** `string.IsNullOrWhiteSpace` for a nullable string. */
  predicate IsNullOrWhiteSpace(s: Option<string>) {
    s.None? || IsBlank(s.value)
  }

  /** `string.IsNullOrEmpty` for a nullable string. */
  predicate IsNullOrEmpty(s: Option<string>) {
    s.None? || s.value == []
  }

  /** The first position at or after `i` that is not white space (`|s|` if none). */
  function SkipWhite(s: string, i: nat): (j: nat)
    requires i <= |s|
    ensures i <= j <= |s|
    decreases |s| - i
  {
    if i < |s| && IsWhite(s[i]) then SkipWhite(s, i + 1) else i
  }

  /** `SkipWhite` steps over white space only, and stops at the first character that is not. */
  lemma {:induction false} SkipWhiteSpan(s: string, i: nat)
    requires i <= |s|
    ensures forall k :: i <= k < SkipWhite(s, i) ==> IsWhite(s[k])
    ensures SkipWhite(s, i) < |s| ==> !IsWhite(s[SkipWhite(s, i)])
    decreases |s| - i
  {
    if i < |s| && IsWhite(s[i]) {
      SkipWhiteSpan(s, i + 1);
    }
  }

  /** The end of `s[..j]` once its trailing white space is dropped. */
  function BackWhite(s: string, j: nat): (e: nat)
    requires j <= |s|
    ensures e <= j
    decreases j
  {
    if j > 0 && IsWhite(s[j - 1]) then BackWhite(s, j - 1) else j
  }

  /** `BackWhite` steps back over white space only, and stops after the last character that is not. */
  lemma {:induction false} BackWhiteSpan(s: string, j: nat)
    requires j <= |s|
    ensures forall k :: BackWhite(s, j) <= k < j ==> IsWhite(s[k])
    ensures BackWhite(s, j) > 0 ==> !IsWhite(s[BackWhite(s, j) - 1])
    decreases j
  {
    if j > 0 && IsWhite(s[j - 1]) {
      BackWhiteSpan(s, j - 1);
    }
  }

  /** `string.Trim()`: the slice of `s` left after dropping the white space at both ends. */
  function Trim(s: string): (r: string)
    ensures |r| <= |s|
  {
    var a := SkipWhite(s, 0);
    var b := BackWhite(s, |s|);
    if a < b then s[a..b] else []
  }

  /**
   * What `Trim` leaves has no white space at either end, is empty exactly
   * when `s` is blank, and is the slice of `s` after the leading white space.
   */
  lemma TrimShape(s: string)
    ensures Trim(s) == [] || (!IsWhite(Trim(s)[0]) && !IsWhite(Trim(s)[|Trim(s)| - 1]))
    ensures Trim(s) == [] <==> IsBlank(s)
    ensures var a := SkipWhite(s, 0); a + |Trim(s)| <= |s| && Trim(s) == s[a..a + |Trim(s)|]
  {
    var a := SkipWhite(s, 0);
    var b := BackWhite(s, |s|);
    SkipWhiteSpan(s, 0);
    BackWhiteSpan(s, |s|);
    if a >= b {
      assert a == |s|;
    } else {
      assert Trim(s)[0] == s[a];
      assert !IsBlank(s) by { assert !IsWhite(s[a]); }
    }
  }

  /** `.Select(l => l.Trim())`. */
  function TrimAll(pieces: seq<string>): (r: seq<string>)
    ensures |r| == |pieces|
  {
    seq(|pieces|, k requires 0 <= k < |pieces| => Trim(pieces[k]))
  }

  /** Every character of `Trim(s)` is a character of `s`. */
  lemma TrimKeepsOnlyInputChars(s: string, k: int)
    requires 0 <= k < |Trim(s)|
    ensures Trim(s)[k] in s
  {
    TrimShape(s);
    var a := SkipWhite(s, 0);
    assert Trim(s)[k] == s[a + k];
  }

  /** A string with no white space at either end is its own trim. */
  lemma {:induction false} TrimOfTrimmed(s: string)
    requires s == [] || (!IsWhite(s[0]) && !IsWhite(s[|s| - 1]))
    ensures Trim(s) == s
  {
    if s != [] {
      assert s[0..|s|] == s;
    }
  }

  /** Trimming twice is trimming once. */
  lemma TrimIdempotent(s: string)
    ensures Trim(Trim(s)) == Trim(s)
  {
    TrimShape(s);
    TrimOfTrimmed(Trim(s));
  }

  /**
   * `s.Length <= max ? s : s.Substring(0, max) + "..."`, the log clipping
   * of both batch runners.
   */
  function Truncate(s: string, max: nat): (r: string)
    ensures |s| <= max ==> r == s
    ensures |s| > max ==> |r| == max + 3 && r[..max] == s[..max] && r[max..] == "..."
  {
    if |s| <= max then s else s[..max] + "..."
  }

  /** Clipping a clipped text to the same width changes nothing: the kept prefix and marker survive. */
  lemma TruncateIdempotent(s: string, max: nat)
    ensures Truncate(Truncate(s, max), max) == Truncate(s, max)
  {
    if |s| > max {
      var r := Truncate(s, max);
      assert r[..max] + "..." == r;
    }
  }

  // ---------------------------------------------------------------------------
  // Ordinal and ignore-case comparison
  // ---------------------------------------------------------------------------

  /** Case folding of one character: the Latin and the Russian capital letters. */
  function Lower(c: char): char {
    if 'A' <= c <= 'Z' || '\U{0410}' <= c <= '\U{042F}' then (c as int + 32) as char
    else if c == '\U{0401}' then '\U{0451}'
    else c
  }

  /** `ToLowerInvariant()` on the Latin and the Russian letters. */
  function Fold(s: string): (r: string)
    ensures |r| == |s|
  {
    seq(|s|, i requires 0 <= i < |s| => Lower(s[i]))
  }

  /** `string.Equals(a, b, StringComparison.OrdinalIgnoreCase)`. */
  predicate EqualsIgnoreCase(a: string, b: string) {
    Fold(a) == Fold(b)
  }

  /** `s.StartsWith(p, StringComparison.Ordinal)`. */
  predicate StartsWith(s: string, p: string) {
    |p| <= |s| && s[..|p|] == p
  }

  /** `s.StartsWith(p, StringComparison.OrdinalIgnoreCase)`. */
  predicate StartsWithIgnoreCase(s: string, p: string) {
    |p| <= |s| && Fold(s[..|p|]) == Fold(p)
  }

  /** `p` occurs in `s` at position `i`. */
  predicate OccursAt(s: string, p: string, i: int) {
    0 <= i && i + |p| <= |s| && s[i..i + |p|] == p
  }

  /** `p` occurs in `s` at position `i`, ignoring case. */
  predicate OccursAtIgnoreCase(s: string, p: string, i: int) {
    0 <= i && i + |p| <= |s| && Fold(s[i..i + |p|]) == Fold(p)
  }

  /** `s.Contains(p)` with ordinal comparison. */
  predicate Contains(s: string, p: string) {
    exists i | 0 <= i <= |s| - |p| :: OccursAt(s, p, i)
  }

  /** A text that occurs in `a` occurs in `a + b`. */
  lemma ContainsAppend(a: string, b: string, p: string)
    requires Contains(a, p)
    ensures Contains(a + b, p)
  {
    var i :| 0 <= i <= |a| - |p| && OccursAt(a, p, i);
    assert (a + b)[i..i + |p|] == a[i..i + |p|];
    assert OccursAt(a + b, p, i);
  }

  /** Texts that occur in `a` occur in `a + b`. */
  lemma ContainsAppendAll(a: string, b: string, ts: seq<string>)
    requires forall t <- ts :: Contains(a, t)
    ensures forall t <- ts :: Contains(a + b, t)
  {
    forall t <- ts
      ensures Contains(a + b, t)
    {
      ContainsAppend(a, b, t);
    }
  }

  /** The last three parts of a concatenation occur in it. */
  lemma ContainsLastThree(a: string, x: string, y: string, z: string)
    ensures Contains(a + x + y + z, x + y + z)
  {
    var s := a + x + y + z;
    assert s[|a|..|a| + |x + y + z|] == x + y + z;
    assert OccursAt(s, x + y + z, |a|);
  }

  /** Containment is transitive. */
  lemma ContainsTransitive(s: string, b: string, p: string)
    requires Contains(s, b) && Contains(b, p)
    ensures Contains(s, p)
  {
    var i :| 0 <= i <= |s| - |b| && OccursAt(s, b, i);
    var j :| 0 <= j <= |b| - |p| && OccursAt(b, p, j);
    assert s[i..i + |b|] == b;
    forall k | 0 <= k < |p|
      ensures s[i + j + k] == p[k]
    {
      assert s[i + (j + k)] == s[i..i + |b|][j + k];
      assert b[j..j + |p|][k] == p[k];
    }
    assert s[i + j..i + j + |p|] == p;
    assert OccursAt(s, p, i + j);
  }

  /** The middle part of `a + b + c` occurs in it. */
  lemma ContainsMiddle(a: string, b: string, c: string)
    ensures Contains(a + b + c, b)
  {
    var s := a + b + c;
    assert s[|a|..|a| + |b|] == b;
    assert OccursAt(s, b, |a|);
  }

  /**
   * `s.Contains(p, StringComparison.OrdinalIgnoreCase)`, also
   * `IndexOf(p, OrdinalIgnoreCase) >= 0`: the scan from the left that
   * `ContainsIgnoreCaseIff` relates to "occurs at some position".
   */
  predicate ContainsIgnoreCase(s: string, p: string) {
    ScanIgnoreCase(s, p, 0)
  }

  /** The scan from position `i`: `p` occurs, ignoring case, at `i` or further right. */
  predicate ScanIgnoreCase(s: string, p: string, i: nat)
    decreases |s| - i
  {
    i + |p| <= |s| && (MatchFrom(s, p, i, 0) || ScanIgnoreCase(s, p, i + 1))
  }

  /** The characters of `p` from `k` on equal, ignoring case, those of `s` from `i + k` on. */
  predicate MatchFrom(s: string, p: string, i: nat, k: nat)
    requires i + |p| <= |s|
    decreases |p| - k
  {
    k >= |p| || (Lower(s[i + k]) == Lower(p[k]) && MatchFrom(s, p, i, k + 1))
  }

  lemma {:induction false} MatchFromIff(s: string, p: string, i: nat, k: nat)
    requires i + |p| <= |s|
    ensures MatchFrom(s, p, i, k) <==> forall j :: k <= j < |p| ==> Lower(s[i + j]) == Lower(p[j])
    decreases |p| - k
  {
    if k < |p| {
      MatchFromIff(s, p, i, k + 1);
    }
  }

  lemma MatchIffOccurs(s: string, p: string, i: nat)
    requires i + |p| <= |s|
    ensures MatchFrom(s, p, i, 0) <==> OccursAtIgnoreCase(s, p, i)
  {
    MatchFromIff(s, p, i, 0);
    var a := Fold(s[i..i + |p|]);
    var b := Fold(p);
    if MatchFrom(s, p, i, 0) {
      assert forall j :: 0 <= j < |p| ==> a[j] == b[j];
    } else {
      var j :| 0 <= j < |p| && Lower(s[i + j]) != Lower(p[j]);
      assert a[j] != b[j];
    }
  }

  lemma {:induction false} ScanIgnoreCaseIff(s: string, p: string, i: nat)
    ensures ScanIgnoreCase(s, p, i) <==> exists k | i <= k <= |s| - |p| :: OccursAtIgnoreCase(s, p, k)
    decreases |s| - i
  {
    if i + |p| <= |s| {
      ScanIgnoreCaseIff(s, p, i + 1);
      MatchIffOccurs(s, p, i);
    }
  }

  /** The scan finds `p` exactly when `p` occurs, ignoring case, at some position of `s`. */
  lemma ContainsIgnoreCaseIff(s: string, p: string)
    ensures ContainsIgnoreCase(s, p) <==> exists i | 0 <= i <= |s| - |p| :: OccursAtIgnoreCase(s, p, i)
  {
    ScanIgnoreCaseIff(s, p, 0);
  }

  /** Ordinal equality implies ignore-case equality. */
  lemma EqualImpliesEqualsIgnoreCase(a: string, b: string)
    requires a == b
    ensures EqualsIgnoreCase(a, b)
  {
  }

  // ---------------------------------------------------------------------------
  // Replace
  // ---------------------------------------------------------------------------

  /**
   * `s.Replace(pat, rep)`: every non-overlapping occurrence of `pat`, found
   * from left to right, is replaced by `rep`. Every character of the result
   * comes from `s` or from `rep`; a one-character pattern that `rep` does not
   * contain leaves no trace in the result.
   */
  function ReplaceAll(s: string, pat: string, rep: string): (r: string)
    requires pat != []
    ensures forall c :: c in r ==> c in s || c in rep
    ensures |pat| == 1 && pat[0] !in rep ==> pat[0] !in r
    decreases |s|
  {
    if |s| < |pat| then s
    else if s[..|pat|] == pat then rep + ReplaceAll(s[|pat|..], pat, rep)
    else [s[0]] + ReplaceAll(s[1..], pat, rep)
  }

  /** A string that does not contain the pattern is left unchanged by `ReplaceAll`. */
  lemma {:induction false} ReplaceAllWithoutPattern(s: string, pat: string, rep: string)
    requires pat != []
    requires !Contains(s, pat)
    ensures ReplaceAll(s, pat, rep) == s
    decreases |s|
  {
    if |s| < |pat| {
    } else {
      assert !OccursAt(s, pat, 0);
      assert !Contains(s[1..], pat) by {
        forall i | 0 <= i <= |s[1..]| - |pat|
          ensures !OccursAt(s[1..], pat, i)
        {
          assert !OccursAt(s, pat, i + 1);
          assert s[1..][i..i + |pat|] == s[i + 1..i + 1 + |pat|];
        }
      }
      ReplaceAllWithoutPattern(s[1..], pat, rep);
    }
  }

  /**
   * Up to the first replacement, `ReplaceAll` copies the text; at position
   * `j` either the text ends unchanged or the first replacement begins.
   */
  lemma {:induction false} ReplaceHead(s: string, pat: string, rep: string) returns (j: nat)
    requires pat != [] && rep != []
    ensures j <= |s| && j <= |ReplaceAll(s, pat, rep)|
    ensures ReplaceAll(s, pat, rep)[..j] == s[..j]
    ensures j < |ReplaceAll(s, pat, rep)| ==> ReplaceAll(s, pat, rep)[j] == rep[0]
    ensures j == |ReplaceAll(s, pat, rep)| ==> ReplaceAll(s, pat, rep) == s
    decreases |s|
  {
    var r := ReplaceAll(s, pat, rep);
    if |s| < |pat| {
      j := |s|;
    } else if s[..|pat|] == pat {
      j := 0;
    } else {
      var rest := ReplaceAll(s[1..], pat, rep);
      var k := ReplaceHead(s[1..], pat, rep);
      j := k + 1;
      assert r == [s[0]] + rest;
      assert r[..j] == [s[0]] + rest[..k];
      assert s[..j] == [s[0]] + s[1..][..k];
      if k < |rest| {
        assert r[j] == rest[k];
      }
    }
  }

  /** After a replacement: no occurrence starts inside `rep`, nor after it when none is left in the rest. */
  lemma NoPatternAfterRep(rep: string, rest: string, pat: string)
    requires pat != [] && pat[0] !in rep && !Contains(rest, pat)
    ensures !Contains(rep + rest, pat)
  {
    var r := rep + rest;
    forall i | 0 <= i <= |r| - |pat| ensures !OccursAt(r, pat, i) {
      if i < |rep| {
        assert r[i] == rep[i];
        assert r[i..i + |pat|][0] == r[i];
      } else {
        OccursAtShift(rep, rest, pat, i);
      }
    }
  }

  /** The pattern does not start at a copied first character: the text goes on as in `s` or runs into `rep`. */
  lemma NoPatternAtCopyHead(s: string, pat: string, rep: string)
    requires pat != [] && rep != [] && rep[0] !in pat
    requires |s| >= |pat| && s[..|pat|] != pat
    ensures !OccursAt([s[0]] + ReplaceAll(s[1..], pat, rep), pat, 0)
  {
    var k := ReplaceHead(s[1..], pat, rep);
    var rest := ReplaceAll(s[1..], pat, rep);
    var r := [s[0]] + rest;
    if |r| >= |pat| {
      if k >= |pat| - 1 {
        assert r[..|pat|] == [s[0]] + rest[..k][..|pat| - 1];
        assert s[..|pat|] == [s[0]] + s[1..][..k][..|pat| - 1];
      } else {
        assert r[k + 1] == rep[0];
        assert r[..|pat|][k + 1] == r[k + 1];
      }
    }
  }

  /** An occurrence past the end of `a` in `a + b` is an occurrence in `b`. */
  lemma OccursAtShift(a: string, b: string, pat: string, i: int)
    requires |a| <= i
    ensures OccursAt(a + b, pat, i) <==> OccursAt(b, pat, i - |a|)
  {
    if i + |pat| <= |a + b| {
      assert (a + b)[i..i + |pat|] == b[i - |a|..i - |a| + |pat|];
    }
  }

  /** A text with no occurrence after its first character and none at it has none. */
  lemma NoPatternCons(c: char, rest: string, pat: string)
    requires !Contains(rest, pat) && !OccursAt([c] + rest, pat, 0)
    ensures !Contains([c] + rest, pat)
  {
    forall i | 1 <= i <= |[c] + rest| - |pat| ensures !OccursAt([c] + rest, pat, i) {
      OccursAtShift([c], rest, pat, i);
    }
  }

  /** A copied character that does not start the pattern in `s` does not start it in the result either. */
  lemma NoPatternAfterCopy(s: string, pat: string, rep: string)
    requires pat != [] && rep != [] && rep[0] !in pat
    requires |s| >= |pat| && s[..|pat|] != pat && !Contains(ReplaceAll(s[1..], pat, rep), pat)
    ensures !Contains(ReplaceAll(s, pat, rep), pat)
  {
    NoPatternAtCopyHead(s, pat, rep);
    NoPatternCons(s[0], ReplaceAll(s[1..], pat, rep), pat);
  }

  /**
   * When the replacement cannot start an occurrence of the pattern and its
   * first character cannot continue one, no occurrence is left after
   * `ReplaceAll`.
   */
  lemma {:induction false} NoPatternAfterReplace(s: string, pat: string, rep: string)
    requires pat != [] && rep != []
    requires pat[0] !in rep && rep[0] !in pat
    ensures !Contains(ReplaceAll(s, pat, rep), pat)
    decreases |s|
  {
    if |s| < |pat| {
    } else if s[..|pat|] == pat {
      NoPatternAfterReplace(s[|pat|..], pat, rep);
      NoPatternAfterRep(rep, ReplaceAll(s[|pat|..], pat, rep), pat);
    } else {
      NoPatternAfterReplace(s[1..], pat, rep);
      NoPatternAfterCopy(s, pat, rep);
    }
  }

  /** `s.Replace(a, b)` for single characters. */
  function ReplaceChar(s: string, a: char, b: char): (r: string)
    ensures |r| == |s|
    ensures forall i :: 0 <= i < |s| ==> r[i] == (if s[i] == a then b else s[i])
    ensures a != b ==> a !in r
  {
    seq(|s|, i requires 0 <= i < |s| => if s[i] == a then b else s[i])
  }

  /** The string made by writing `f(c)` for every character `c` of `s`, in order. */
  function FlatMap(s: string, f: char -> string): string
    decreases |s|
  {
    if s == [] then [] else f(s[0]) + FlatMap(s[1..], f)
  }

  lemma {:induction false} FlatMapOfConcat(a: string, b: string, f: char -> string)
    ensures FlatMap(a + b, f) == FlatMap(a, f) + FlatMap(b, f)
    decreases |a|
  {
    if a == [] {
      assert a + b == b;
    } else {
      assert (a + b)[1..] == a[1..] + b;
      FlatMapOfConcat(a[1..], b, f);
    }
  }

  /** Mapping every character to itself gives the string back. */
  lemma {:induction false} FlatMapIdentity(s: string, f: char -> string)
    requires forall i :: 0 <= i < |s| ==> f(s[i]) == [s[i]]
    ensures FlatMap(s, f) == s
    decreases |s|
  {
    if s != [] {
      FlatMapIdentity(s[1..], f);
    }
  }

  /** Two maps that agree on the characters of `s` give the same string. */
  lemma {:induction false} FlatMapPointwise(s: string, f: char -> string, g: char -> string)
    requires forall i :: 0 <= i < |s| ==> f(s[i]) == g(s[i])
    ensures FlatMap(s, f) == FlatMap(s, g)
    decreases |s|
  {
    if s != [] {
      FlatMapPointwise(s[1..], f, g);
    }
  }

  /** A character that no character of `s` maps to does not occur in the result. */
  lemma {:induction false} FlatMapAvoids(s: string, f: char -> string, c: char)
    requires forall i :: 0 <= i < |s| ==> c !in f(s[i])
    ensures c !in FlatMap(s, f)
    decreases |s|
  {
    if s != [] {
      FlatMapAvoids(s[1..], f, c);
    }
  }

  /** Replacing a one-character pattern distributes over concatenation. */
  lemma {:induction false} ReplaceCharOfConcat(a: string, b: string, c: char, rep: string)
    ensures ReplaceAll(a + b, [c], rep) == ReplaceAll(a, [c], rep) + ReplaceAll(b, [c], rep)
    decreases |a|
  {
    if a == [] {
      assert a + b == b;
    } else {
      assert (a + b)[..1] == a[..1];
      assert (a + b)[1..] == a[1..] + b;
      ReplaceCharOfConcat(a[1..], b, c, rep);
    }
  }

  /**
   * Replacing a one-character pattern in a character-wise image is again a
   * character-wise image: the one of `g`, where `g(x)` is `f(x)` with the
   * replacement made.
   */
  lemma {:induction false} ReplaceOverFlatMap(s: string, f: char -> string, c: char, rep: string, g: char -> string)
    requires forall i :: 0 <= i < |s| ==> ReplaceAll(f(s[i]), [c], rep) == g(s[i])
    ensures ReplaceAll(FlatMap(s, f), [c], rep) == FlatMap(s, g)
    decreases |s|
  {
    if s != [] {
      ReplaceCharOfConcat(f(s[0]), FlatMap(s[1..], f), c, rep);
      ReplaceOverFlatMap(s[1..], f, c, rep, g);
    }
  }

  /** A string without the character is left as it is by replacing it. */
  lemma {:induction false} ReplaceAbsentChar(s: string, c: char, rep: string)
    requires c !in s
    ensures ReplaceAll(s, [c], rep) == s
    decreases |s|
  {
    if s != [] {
      assert s[..1] != [c] by { assert s[..1][0] == s[0]; }
      ReplaceAbsentChar(s[1..], c, rep);
      assert [s[0]] + s[1..] == s;
    }
  }

  // ---------------------------------------------------------------------------
  // Split and Join
  // ---------------------------------------------------------------------------

  /**
   * `s.Split(seps)`: the pieces between separator characters, empty pieces
   * included.
   */
  function SplitBy(s: string, seps: set<char>): (r: seq<string>)
    ensures |r| >= 1
  {
    SplitFrom(s, seps, 0, 0)
  }

  /** The split of `s[start..]`, the piece open at `start` holding no separator before `i`. */
  function SplitFrom(s: string, seps: set<char>, start: nat, i: nat): (r: seq<string>)
    requires start <= i <= |s|
    ensures |r| >= 1
    decreases |s| - i
  {
    if i == |s| then [s[start..]]
    else if s[i] in seps then [s[start..i]] + SplitFrom(s, seps, i + 1, i + 1)
    else SplitFrom(s, seps, start, i + 1)
  }

  /** No piece holds a separator. */
  predicate NoSeparator(pieces: seq<string>, seps: set<char>) {
    forall k, i :: 0 <= k < |pieces| && 0 <= i < |pieces[k]| ==> pieces[k][i] !in seps
  }

  lemma NoSeparatorCons(piece: string, rest: seq<string>, seps: set<char>)
    requires forall i :: 0 <= i < |piece| ==> piece[i] !in seps
    requires NoSeparator(rest, seps)
    ensures NoSeparator([piece] + rest, seps)
  {
    var ps := [piece] + rest;
    forall k | 1 <= k < |ps| ensures ps[k] == rest[k - 1] { }
  }

  lemma {:induction false} SplitFromNoSeparator(s: string, seps: set<char>, start: nat, i: nat)
    requires start <= i <= |s|
    requires forall k :: start <= k < i ==> s[k] !in seps
    ensures NoSeparator(SplitFrom(s, seps, start, i), seps)
    decreases |s| - i
  {
    if i == |s| {
      assert forall j :: 0 <= j < |s[start..]| ==> s[start..][j] == s[start + j];
    } else if s[i] in seps {
      SplitFromNoSeparator(s, seps, i + 1, i + 1);
      assert forall j :: 0 <= j < |s[start..i]| ==> s[start..i][j] == s[start + j];
      NoSeparatorCons(s[start..i], SplitFrom(s, seps, i + 1, i + 1), seps);
    } else {
      SplitFromNoSeparator(s, seps, start, i + 1);
    }
  }

  /** No piece of `SplitBy(s, seps)` contains a separator. */
  lemma SplitByNoSeparator(s: string, seps: set<char>)
    ensures NoSeparator(SplitBy(s, seps), seps)
  {
    SplitFromNoSeparator(s, seps, 0, 0);
  }

  /** The lines of `s`, split at line feeds (a carriage return stays in its line). */
  function Lines(s: string): (r: seq<string>)
    ensures |r| >= 1
  {
    SplitBy(s, {'\n'})
  }

  /** No line holds a line feed. */
  lemma LinesHaveNoLineFeed(s: string)
    ensures forall k :: 0 <= k < |Lines(s)| ==> '\n' !in Lines(s)[k]
  {
    SplitByNoSeparator(s, {'\n'});
  }

  /** The elements of `xs` that satisfy `p`, in order. */
  function Filter<T>(xs: seq<T>, p: T -> bool): (r: seq<T>)
    ensures |r| <= |xs|
  {
    FilterFrom(xs, p, 0)
  }

  /** The elements of `xs[i..]` that satisfy `p`, in order. */
  function FilterFrom<T>(xs: seq<T>, p: T -> bool, i: nat): (r: seq<T>)
    requires i <= |xs|
    ensures |r| <= |xs| - i
    decreases |xs| - i
  {
    if i == |xs| then []
    else if p(xs[i]) then [xs[i]] + FilterFrom(xs, p, i + 1)
    else FilterFrom(xs, p, i + 1)
  }

  lemma {:induction false} FilterFromMembers<T>(xs: seq<T>, p: T -> bool, i: nat)
    requires i <= |xs|
    ensures forall j :: 0 <= j < |FilterFrom(xs, p, i)| ==> FilterFrom(xs, p, i)[j] in xs && p(FilterFrom(xs, p, i)[j])
    ensures forall k :: i <= k < |xs| && p(xs[k]) ==> xs[k] in FilterFrom(xs, p, i)
    decreases |xs| - i
  {
    if i < |xs| {
      FilterFromMembers(xs, p, i + 1);
      var rest := FilterFrom(xs, p, i + 1);
      if p(xs[i]) {
        assert forall j :: 1 <= j < |[xs[i]] + rest| ==> ([xs[i]] + rest)[j] == rest[j - 1];
      }
    }
  }

  /** `Filter` keeps exactly the elements that satisfy `p`. */
  lemma FilterMembers<T>(xs: seq<T>, p: T -> bool)
    ensures forall i :: 0 <= i < |Filter(xs, p)| ==> Filter(xs, p)[i] in xs && p(Filter(xs, p)[i])
    ensures forall i :: 0 <= i < |xs| && p(xs[i]) ==> xs[i] in Filter(xs, p)
  {
    FilterFromMembers(xs, p, 0);
  }

  /** Concatenation is associative. */
  lemma AppendAssoc<T>(a: seq<T>, b: seq<T>, c: seq<T>)
    ensures (a + b) + c == a + (b + c)
  {
  }

  lemma {:induction false} FilterFromSnoc<T>(xs: seq<T>, x: T, p: T -> bool, i: nat)
    requires i <= |xs|
    ensures FilterFrom(xs + [x], p, i) == FilterFrom(xs, p, i) + (if p(x) then [x] else [])
    decreases |xs| - i
  {
    if i == |xs| {
      assert (xs + [x])[i] == x;
    } else {
      assert (xs + [x])[i] == xs[i];
      FilterFromSnoc(xs, x, p, i + 1);
      if p(xs[i]) {
        AppendAssoc([xs[i]], FilterFrom(xs, p, i + 1), if p(x) then [x] else []);
      }
    }
  }

  /** Filtering distributes over appending one element. */
  lemma FilterSnoc<T>(xs: seq<T>, x: T, p: T -> bool)
    ensures Filter(xs + [x], p) == Filter(xs, p) + (if p(x) then [x] else [])
  {
    FilterFromSnoc(xs, x, p, 0);
  }

  /** `FirstOrDefault(p)` as a position: the first position at or after `i` whose element satisfies `p`. */
  function FirstWhere<T>(xs: seq<T>, p: T -> bool, i: nat): (r: Option<nat>)
    requires i <= |xs|
    ensures r.Some? ==> i <= r.value < |xs|
    decreases |xs| - i
  {
    if i == |xs| then None
    else if p(xs[i]) then Some(i)
    else FirstWhere(xs, p, i + 1)
  }

  /** `FirstWhere` finds the first element satisfying `p`, and finds none only when there is none. */
  lemma {:induction false} FirstWhereIsFirst<T>(xs: seq<T>, p: T -> bool, i: nat)
    requires i <= |xs|
    ensures var r := FirstWhere(xs, p, i);
      (r.Some? ==> p(xs[r.value]) && forall k :: i <= k < r.value ==> !p(xs[k])) &&
      (r.None? ==> forall k :: i <= k < |xs| ==> !p(xs[k]))
    decreases |xs| - i
  {
    if i < |xs| && !p(xs[i]) {
      FirstWhereIsFirst(xs, p, i + 1);
    }
  }

  /** The position of an element satisfying `p` after none that does is what `FirstWhere` finds. */
  lemma {:induction false} FirstWhereAt<T>(xs: seq<T>, p: T -> bool, i: nat, k: nat)
    requires i <= k < |xs| && p(xs[k])
    requires forall j :: i <= j < k ==> !p(xs[j])
    ensures FirstWhere(xs, p, i) == Some(k)
    decreases k - i
  {
    if i < k {
      FirstWhereAt(xs, p, i + 1, k);
    }
  }

  /** The first position `k` with `i <= k < n` that satisfies `p`. */
  function FirstFrom(n: nat, p: nat -> bool, i: nat): (r: Option<nat>)
    ensures r.Some? ==> i <= r.value < n && p(r.value)
    decreases n - i
  {
    if i >= n then None else if p(i) then Some(i) else FirstFrom(n, p, i + 1)
  }

  lemma {:induction false} FirstFromIsFirst(n: nat, p: nat -> bool, i: nat)
    ensures var r := FirstFrom(n, p, i);
      (r.Some? ==> p(r.value) && forall k :: i <= k < r.value ==> !p(k)) &&
      (r.None? ==> forall k :: i <= k < n ==> !p(k))
    decreases n - i
  {
    if i < n && !p(i) {
      FirstFromIsFirst(n, p, i + 1);
    }
  }

  /** The values `1, 2, .., n` a counter reports as it rises from 0 to `n`. */
  function CountUp(n: nat): (r: seq<nat>)
    ensures |r| == n
  {
    if n == 0 then [] else CountUp(n - 1) + [n]
  }

  lemma {:induction false} CountUpAt(n: nat, j: nat)
    requires j < n
    ensures CountUp(n)[j] == j + 1
  {
    if j < n - 1 {
      CountUpAt(n - 1, j);
    }
  }

  /**
   * The last position from `j` down to `lo` that satisfies `p`, if any: the
   * position a greedy run that can back off as far as `lo` ends at.
   */
  function LastDownFrom(lo: nat, p: nat -> bool, j: nat): (r: Option<nat>)
    ensures r.Some? ==> lo <= r.value <= j && p(r.value)
    decreases j
  {
    if j < lo then None else if p(j) then Some(j) else if j == 0 then None else LastDownFrom(lo, p, j - 1)
  }

  /** `LastDownFrom` finds the last such position, and finds none only when there is none. */
  lemma {:induction false} LastDownFromIsLast(lo: nat, p: nat -> bool, j: nat)
    ensures var r := LastDownFrom(lo, p, j);
      (r.Some? ==> forall k :: r.value < k <= j ==> !p(k)) &&
      (r.None? ==> forall k :: lo <= k <= j ==> !p(k))
    decreases j
  {
    if lo <= j && !p(j) && j > 0 {
      LastDownFromIsLast(lo, p, j - 1);
    }
  }

  /**
   * The elements of `xs` from position `i` taken in turn up to and including
   * the first that fails `ok`, the way a loop that stops after a failure
   * sees them.
   */
  function ThroughFirstMiss<T>(xs: seq<T>, ok: T -> bool, i: nat): seq<T>
    decreases |xs| - i
  {
    if i >= |xs| then []
    else [xs[i]] + (if ok(xs[i]) then ThroughFirstMiss(xs, ok, i + 1) else [])
  }

  /** The elements taken are those from position `i` on, in order. */
  lemma {:induction false} ThroughFirstMissPrefix<T>(xs: seq<T>, ok: T -> bool, i: nat)
    requires i <= |xs|
    ensures var r := ThroughFirstMiss(xs, ok, i);
      |r| <= |xs| - i && forall j :: 0 <= j < |r| ==> r[j] == xs[i + j]
    decreases |xs| - i
  {
    if i < |xs| && ok(xs[i]) {
      ThroughFirstMissPrefix(xs, ok, i + 1);
      var rest := ThroughFirstMiss(xs, ok, i + 1);
      assert ThroughFirstMiss(xs, ok, i) == [xs[i]] + rest;
    }
  }

  /**
   * Every element taken but the last passes `ok`, and the taking stops
   * short of the end only after one that fails it.
   */
  lemma {:induction false} ThroughFirstMissStops<T>(xs: seq<T>, ok: T -> bool, i: nat)
    requires i <= |xs|
    ensures var r := ThroughFirstMiss(xs, ok, i);
      (forall j :: 0 <= j < |r| - 1 ==> ok(r[j])) &&
      (|r| < |xs| - i ==> r != [] && !ok(r[|r| - 1]))
    decreases |xs| - i
  {
    var r := ThroughFirstMiss(xs, ok, i);
    if i < |xs| && ok(xs[i]) {
      ThroughFirstMissStops(xs, ok, i + 1);
      var rest := ThroughFirstMiss(xs, ok, i + 1);
      assert r == [xs[i]] + rest;
      forall j | 0 <= j < |r| - 1 ensures ok(r[j]) {
        if j > 0 {
          assert r[j] == rest[j - 1];
        }
      }
      if rest != [] {
        assert r[|r| - 1] == rest[|rest| - 1];
      }
    } else if i < |xs| {
      assert r == [xs[i]];
    }
  }

  /** When every element passes `ok`, all of them are taken. */
  lemma ThroughFirstMissAll<T>(xs: seq<T>, ok: T -> bool)
    requires forall j :: 0 <= j < |xs| ==> ok(xs[j])
    ensures ThroughFirstMiss(xs, ok, 0) == xs
  {
    ThroughFirstMissPrefix(xs, ok, 0);
    ThroughFirstMissStops(xs, ok, 0);
  }

  /** One element taken: it is added, and the taking goes on only when it passes `ok`. */
  lemma ThroughFirstMissStep<T>(xs: seq<T>, ok: T -> bool, i: nat, done: seq<T>)
    requires i < |xs|
    ensures done + ThroughFirstMiss(xs, ok, i) ==
      (done + [xs[i]]) + (if ok(xs[i]) then ThroughFirstMiss(xs, ok, i + 1) else [])
  {
    AppendAssoc(done, [xs[i]], if ok(xs[i]) then ThroughFirstMiss(xs, ok, i + 1) else []);
  }

  /**
   * What a loop over `xs` from position `i` emits when each element `x`
   * emits `f(x)` and the loop stops after the first element satisfying
   * `stop`.
   */
  function ConcatThrough<T, U>(xs: seq<T>, f: T -> seq<U>, stop: T -> bool, i: nat): seq<U>
    requires i <= |xs|
    decreases |xs| - i
  {
    if i == |xs| then []
    else f(xs[i]) + (if stop(xs[i]) then [] else ConcatThrough(xs, f, stop, i + 1))
  }

  /** One element taken: its output is added, and the loop goes on unless it satisfies `stop`. */
  lemma ConcatThroughStep<T, U>(xs: seq<T>, f: T -> seq<U>, stop: T -> bool, i: nat, done: seq<U>)
    requires i < |xs|
    ensures done + ConcatThrough(xs, f, stop, i) ==
      (done + f(xs[i])) + (if stop(xs[i]) then [] else ConcatThrough(xs, f, stop, i + 1))
  {
  }

  /**
   * Every item emitted comes from the output of one element at or after
   * `i`, and the item before it, within that output, is emitted just before.
   */
  lemma {:induction false} ConcatThroughAt<T, U>(xs: seq<T>, f: T -> seq<U>, stop: T -> bool, i: nat, j: nat)
    returns (k: nat, n: nat)
    requires i <= |xs| && j < |ConcatThrough(xs, f, stop, i)|
    ensures i <= k < |xs| && n < |f(xs[k])|
    ensures ConcatThrough(xs, f, stop, i)[j] == f(xs[k])[n]
    ensures n > 0 ==> j > 0 && ConcatThrough(xs, f, stop, i)[j - 1] == f(xs[k])[n - 1]
    decreases |xs| - i
  {
    var c := ConcatThrough(xs, f, stop, i);
    var here := f(xs[i]);
    if j < |here| {
      k, n := i, j;
      assert c[j] == here[j];
      if j > 0 {
        assert c[j - 1] == here[j - 1];
      }
    } else {
      var rest := ConcatThrough(xs, f, stop, i + 1);
      assert !stop(xs[i]) && c == here + rest;
      k, n := ConcatThroughAt(xs, f, stop, i + 1, j - |here|);
      assert c[j] == rest[j - |here|];
      if n > 0 {
        assert c[j - 1] == rest[j - |here| - 1];
      }
    }
  }

  /** `string.Join(sep, parts)`. */
  function Join(sep: string, parts: seq<string>): string {
    if parts == [] then []
    else if |parts| == 1 then parts[0]
    else parts[0] + sep + Join(sep, parts[1..])
  }

  /** Every character of a join comes from the separator or from one of the parts. */
  lemma {:induction false} JoinChars(sep: string, parts: seq<string>, c: char)
    requires c in Join(sep, parts)
    ensures c in sep || exists k :: 0 <= k < |parts| && c in parts[k]
    decreases |parts|
  {
    if |parts| > 1 {
      var tail := Join(sep, parts[1..]);
      assert Join(sep, parts) == parts[0] + sep + tail;
      if c !in parts[0] && c !in sep {
        JoinChars(sep, parts[1..], c);
        var k :| 0 <= k < |parts[1..]| && c in parts[1..][k];
        assert parts[k + 1] == parts[1..][k];
      }
    }
  }

  // ---------------------------------------------------------------------------
  // Decimal numbers
  // ---------------------------------------------------------------------------

  const Int32Min: int := -0x8000_0000
  const Int32Max: int := 0x7FFF_FFFF

  predicate IsDigit(c: char) {
    '0' <= c <= '9'
  }

  predicate AllDigits(s: string) {
    forall i :: 0 <= i < |s| ==> IsDigit(s[i])
  }

  function DigitChar(d: nat): (c: char)
    requires d < 10
    ensures IsDigit(c)
  {
    (d + '0' as int) as char
  }

  function DigitValue(c: char): (d: nat)
    requires IsDigit(c)
    ensures d < 10
  {
    c as int - '0' as int
  }

  /** `n.ToString()` for a non-negative number: its decimal digits, without leading zeros. */
  function NatToString(n: nat): (r: string)
    ensures r != [] && AllDigits(r)
    ensures r[0] == '0' ==> n == 0
    decreases n
  {
    if n < 10 then [DigitChar(n)] else NatToString(n / 10) + [DigitChar(n % 10)]
  }

  /** `n.ToString()` for any number, with the invariant culture's minus sign. */
  function IntToString(n: int): (r: string)
    ensures r != []
    ensures n >= 0 <==> IsDigit(r[0])
  {
    if n < 0 then "-" + NatToString(-n) else NatToString(n)
  }

  /** The value of a string of decimal digits. */
  function DigitsValue(s: string): nat
    requires AllDigits(s)
  {
    if s == [] then 0 else DigitsValue(s[..|s| - 1]) * 10 + DigitValue(s[|s| - 1])
  }

  /** Reading back the digits `NatToString` writes gives the number. */
  lemma {:induction false} DigitsValueOfNatToString(n: nat)
    ensures DigitsValue(NatToString(n)) == n
    decreases n
  {
    var s := NatToString(n);
    if n >= 10 {
      assert s[..|s| - 1] == NatToString(n / 10);
      DigitsValueOfNatToString(n / 10);
    }
  }

  /**
   * `int.TryParse(s, out v)` with the default `NumberStyles.Integer`: optional
   * leading and trailing white space, an optional sign, one or more decimal
   * digits, and a value that fits a 32-bit `int`.
   */
  function ParseInt32(s: string): (r: Option<int>)
    ensures r.Some? ==> Int32Min <= r.value <= Int32Max
  {
    var t := Trim(s);
    var negative := t != [] && t[0] == '-';
    var digits := if t != [] && (t[0] == '-' || t[0] == '+') then t[1..] else t;
    if digits == [] || !AllDigits(digits) then None
    else
      var v: int := if negative then -(DigitsValue(digits) as int) else DigitsValue(digits);
      if Int32Min <= v <= Int32Max then Some(v) else None
  }

  /** `int.TryParse` reads back what `ToString` writes, for every 32-bit value. */
  lemma ParseInt32OfIntToString(n: int)
    requires Int32Min <= n <= Int32Max
    ensures ParseInt32(IntToString(n)) == Some(n)
  {
    var s := IntToString(n);
    assert !IsWhite(s[0]) && !IsWhite(s[|s| - 1]);
    TrimOfTrimmed(s);
    if n < 0 {
      assert s[1..] == NatToString(-n);
      DigitsValueOfNatToString(-n);
    } else {
      DigitsValueOfNatToString(n);
    }
  }

  /** A string with a character other than a sign and digits (after trimming) never parses. */
  lemma ParseInt32RejectsNonDigits(s: string, i: int)
    requires 0 < i < |Trim(s)| && !IsDigit(Trim(s)[i])
    ensures ParseInt32(s) == None
  {
    var t := Trim(s);
    if t[0] == '-' || t[0] == '+' {
      assert t[1..][i - 1] == t[i];
    }
  }

  // ---------------------------------------------------------------------------
  // First-occurrence de-duplication
  // ---------------------------------------------------------------------------

  predicate NoDuplicates<T(==)>(xs: seq<T>) {
    forall i, j :: 0 <= i < j < |xs| ==> xs[i] != xs[j]
  }

  /** The position of the first occurrence of `x` in `xs`. */
  function FirstIndex<T(==)>(xs: seq<T>, x: T): (k: nat)
    requires x in xs
    ensures k < |xs| && xs[k] == x && x !in xs[..k]
  {
    if xs[0] == x then 0 else 1 + FirstIndex(xs[1..], x)
  }

  /**
   * `Distinct()`, and equally a list that receives each element after a
   * `Contains` check: the elements of `xs` without repetitions, each kept at
   * its first occurrence.
   */
  function Distinct<T(==)>(xs: seq<T>): (r: seq<T>)
    ensures NoDuplicates(r)
    ensures forall i :: 0 <= i < |r| ==> r[i] in xs
    ensures forall i :: 0 <= i < |xs| ==> xs[i] in r
  {
    if xs == [] then []
    else
      var d := Distinct(xs[..|xs| - 1]);
      var last := xs[|xs| - 1];
      assert xs == xs[..|xs| - 1] + [last];
      if last in d then d else d + [last]
  }

  /** `Distinct` keeps the elements in the order of their first occurrence. */
  lemma {:induction false} DistinctKeepsFirstOccurrenceOrder<T>(xs: seq<T>)
    ensures forall i, j :: 0 <= i < j < |Distinct(xs)| ==>
                FirstIndex(xs, Distinct(xs)[i]) < FirstIndex(xs, Distinct(xs)[j])
  {
    if xs != [] {
      var init := xs[..|xs| - 1];
      var last := xs[|xs| - 1];
      var d := Distinct(init);
      DistinctKeepsFirstOccurrenceOrder(init);
      assert xs == init + [last];
      forall y | y in init ensures FirstIndex(xs, y) == FirstIndex(init, y) {
        FirstIndexOfPrefix(init, last, y);
      }
      var r := Distinct(xs);
      if last in d {
        assert r == d;
        forall i, j | 0 <= i < j < |r| ensures FirstIndex(xs, r[i]) < FirstIndex(xs, r[j]) {
          assert r[i] in init && r[j] in init;
        }
      } else {
        assert r == d + [last];
        assert last !in init;
        FirstIndexOfPrefix(init, last, last);
        forall i, j | 0 <= i < j < |r| ensures FirstIndex(xs, r[i]) < FirstIndex(xs, r[j]) {
          assert r[i] == d[i] && r[i] in init;
          if j < |d| {
            assert r[j] == d[j] && r[j] in init;
          }
        }
      }
    }
  }

  /** No occurrence of `x` comes before `FirstIndex(xs, x)`. */
  lemma {:induction false} FirstIndexIsLeast<T>(xs: seq<T>, x: T, j: int)
    requires 0 <= j < |xs| && xs[j] == x
    ensures FirstIndex(xs, x) <= j
  {
    if xs[0] != x {
      FirstIndexIsLeast(xs[1..], x, j - 1);
    }
  }

  /** Extending a sequence does not move the first occurrence of an element it held. */
  lemma {:induction false} FirstIndexOfPrefix<T>(init: seq<T>, last: T, y: T)
    requires y in init + [last]
    ensures y in init ==> FirstIndex(init + [last], y) == FirstIndex(init, y)
    ensures y !in init ==> FirstIndex(init + [last], y) == |init|
  {
    var xs := init + [last];
    var k := FirstIndex(xs, y);
    assert forall i :: 0 <= i < |init| ==> xs[i] == init[i];
    if y in init {
      var k' := FirstIndex(init, y);
      FirstIndexIsLeast(xs, y, k');
      FirstIndexIsLeast(init, y, k);
    } else {
      assert xs[|init|] == y;
      FirstIndexIsLeast(xs, y, |init|);
      assert xs[k] == y;
    }
  }
}
