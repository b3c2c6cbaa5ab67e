/**
 * The version label of an installer file name (`extractVersion` in
 * app/api/releases/route.ts): the first capture group of the unanchored
 * regular expression `Pomodoro-([0-9]+\.[0-9]+)\.dmg`, taken at its leftmost
 * match, or null when the name has no match.
 *
 * The specification below describes the leftmost match without a regular
 * expression engine; `ExtractVersion` scans the name position by position
 * and is proved to meet it.
 */
module ReleaseVersion {

  import opened Wrappers

  /** The literal text before and after the captured group. */
  const Prefix: string := "Pomodoro-"
  const Suffix: string := ".dmg"

  predicate IsDigit(c: char) {
    '0' <= c <= '9'
  }

  predicate AllDigits(s: string) {
    forall k :: 0 <= k < |s| ==> IsDigit(s[k])
  }

  /** `v` is what `[0-9]+\.[0-9]+` matches: digits, one dot, digits. */
  predicate IsVersion(v: string) {
    exists k :: 0 < k < |v| - 1 && v[k] == '.' && AllDigits(v[..k]) && AllDigits(v[k + 1..])
  }

  /** The whole pattern matches `s` starting at position `i`, capturing `v`. */
  ghost predicate MatchesAt(s: string, i: nat, v: string) {
    IsVersion(v)
    && i + |Prefix| + |v| + |Suffix| <= |s|
    && s[i..i + |Prefix| + |v| + |Suffix|] == Prefix + v + Suffix
  }

  /** The pattern matches at no position from `lo` up to, but excluding, `hi`. */
  ghost predicate NoMatchIn(s: string, lo: nat, hi: nat) {
    forall j: nat :: lo <= j < hi ==> NoMatchAt(s, j)
  }

  /** The pattern does not match at position `j`, whatever the capture. */
  ghost predicate NoMatchAt(s: string, j: nat) {
    forall w :: !MatchesAt(s, j, w)
  }

  /** `i` is the leftmost position where the pattern matches, and it captures `v` there. */
  ghost predicate IsLeftmostMatch(s: string, i: nat, v: string) {
    MatchesAt(s, i, v) && NoMatchIn(s, 0, i)
  }

  /** The end of the run of digits that starts at `a`: the first non-digit at or after `a`. */
  function DigitRunEnd(s: string, a: nat): (e: nat)
    requires a <= |s|
    ensures a <= e <= |s|
    ensures forall k :: a <= k < e ==> IsDigit(s[k])
    ensures e == |s| || !IsDigit(s[e])
    decreases |s| - a
  {
    if a < |s| && IsDigit(s[a]) then DigitRunEnd(s, a + 1) else a
  }

  /** Tries the pattern at position `i` only, with greedy digit runs. */
  function MatchAt(s: string, i: nat): (r: Option<string>)
    requires i <= |s|
    ensures r.Some? ==> MatchesAt(s, i, r.value)
  {
    var a := i + |Prefix|;
    if a <= |s| && s[i..a] == Prefix then
      var b := DigitRunEnd(s, a);
      if a < b < |s| && s[b] == '.' then
        var c := DigitRunEnd(s, b + 1);
        if b + 1 < c && c + |Suffix| <= |s| && s[c..c + |Suffix|] == Suffix then
          var v := s[a..c];
          assert v[..b - a] == s[a..b] && v[b - a + 1..] == s[b + 1..c];
          assert IsVersion(v) by { assert v[b - a] == '.'; }
          assert s[i..c + |Suffix|] == Prefix + v + Suffix by {
            assert s[i..c + |Suffix|] == s[i..a] + s[a..c] + s[c..c + |Suffix|];
          }
          Some(v)
        else None
      else None
    else None
  }

  /** A run of `n` digits at `i` followed by a non-digit ends exactly at `i + n`. */
  lemma {:induction false} DigitRunOver(s: string, i: nat, n: nat)
    requires i + n < |s|
    requires forall k :: i <= k < i + n ==> IsDigit(s[k])
    requires !IsDigit(s[i + n])
    ensures DigitRunEnd(s, i) == i + n
    decreases n
  {
    if n > 0 {
      DigitRunOver(s, i + 1, n - 1);
    }
  }

  /** A slice of `s` that spells `x + y + z` spells each of the three at its own offset. */
  lemma SliceParts(s: string, i: nat, x: string, y: string, z: string)
    requires i + |x| + |y| + |z| <= |s| && s[i..i + |x| + |y| + |z|] == x + y + z
    ensures s[i..i + |x|] == x
    ensures s[i + |x|..i + |x| + |y|] == y
    ensures s[i + |x| + |y|..i + |x| + |y| + |z|] == z
  {
    var m := s[i..i + |x| + |y| + |z|];
    assert forall t :: 0 <= t < |x| ==> s[i + t] == m[t] == x[t];
    assert forall t :: 0 <= t < |y| ==> s[i + |x| + t] == m[|x| + t] == y[t];
    assert forall t :: 0 <= t < |z| ==> s[i + |x| + |y| + t] == m[|x| + |y| + t] == z[t];
  }

  /** The facts `MatchAt` tests, for a match at `i` whose dot sits at offset `k` of the capture `v`. */
  lemma MatchPieces(s: string, i: nat, v: string, k: nat)
    requires MatchesAt(s, i, v)
    requires 0 < k < |v| - 1 && v[k] == '.' && AllDigits(v[..k]) && AllDigits(v[k + 1..])
    ensures s[i..i + |Prefix|] == Prefix
    ensures s[i + |Prefix|..i + |Prefix| + |v|] == v
    ensures DigitRunEnd(s, i + |Prefix|) == i + |Prefix| + k && s[i + |Prefix| + k] == '.'
    ensures DigitRunEnd(s, i + |Prefix| + k + 1) == i + |Prefix| + |v|
    ensures s[i + |Prefix| + |v|..i + |Prefix| + |v| + |Suffix|] == Suffix
  {
    var a := i + |Prefix|;
    var c := a + |v|;
    SliceParts(s, i, Prefix, v, Suffix);
    forall t | a <= t < a + k ensures IsDigit(s[t]) {
      assert s[t] == s[a..c][t - a] == v[..k][t - a];
    }
    assert s[a + k] == s[a..c][k];
    forall t | a + k < t < c ensures IsDigit(s[t]) {
      assert s[t] == s[a..c][t - a] == v[k + 1..][t - a - k - 1];
    }
    assert s[c] == s[c..c + |Suffix|][0];
    DigitRunOver(s, a, k);
    DigitRunOver(s, a + k + 1, |v| - k - 1);
  }

  /** Every match at `i` is the one `MatchAt` finds: the greedy runs cannot overshoot a dot. */
  lemma MatchAtComplete(s: string, i: nat, v: string)
    requires i <= |s| && MatchesAt(s, i, v)
    ensures MatchAt(s, i) == Some(v)
  {
    var k :| 0 < k < |v| - 1 && v[k] == '.' && AllDigits(v[..k]) && AllDigits(v[k + 1..]);
    MatchPieces(s, i, v, k);
  }

  /** At most one capture per position: the match at a position determines its capture. */
  lemma MatchUnique(s: string, i: nat, v: string, w: string)
    requires i <= |s| && MatchesAt(s, i, v) && MatchesAt(s, i, w)
    ensures v == w
  {
    MatchAtComplete(s, i, v);
    MatchAtComplete(s, i, w);
  }

  /** When `MatchAt` finds nothing at `i`, the pattern does not match there. */
  lemma MatchAtNone(s: string, i: nat)
    requires i <= |s| && MatchAt(s, i).None?
    ensures NoMatchAt(s, i)
  {
    forall w | MatchesAt(s, i, w) ensures false {
      MatchAtComplete(s, i, w);
    }
  }

  /** Scans the positions from `i` on and returns the capture of the first match. */
  function ExtractFrom(s: string, i: nat): (r: Option<string>)
    requires i <= |s|
    ensures r.Some? ==> exists p: nat :: i <= p <= |s| && MatchesAt(s, p, r.value) && NoMatchIn(s, i, p)
    ensures r.None? ==> forall j: nat :: i <= j ==> NoMatchAt(s, j)
    decreases |s| - i
  {
    match MatchAt(s, i)
    case Some(v) =>
      assert NoMatchIn(s, i, i);
      Some(v)
    case None =>
      MatchAtNone(s, i);
      if i < |s| then ExtractFrom(s, i + 1)
      else
        assert forall j: nat :: i < j ==> NoMatchAt(s, j);
        None
  }

  /** `extractVersion(filename)` (app/api/releases/route.ts:162-165). */
  function ExtractVersion(filename: string): (r: Option<string>)
    ensures r.None? <==> forall i: nat :: NoMatchAt(filename, i)
    ensures r.Some? ==> exists i: nat :: IsLeftmostMatch(filename, i, r.value)
  {
    var r := ExtractFrom(filename, 0);
    assert r.Some? ==> exists i: nat :: IsLeftmostMatch(filename, i, r.value) && !NoMatchAt(filename, i) by {
      if r.Some? {
        var p: nat :| p <= |filename| && MatchesAt(filename, p, r.value) && NoMatchIn(filename, 0, p);
        assert IsLeftmostMatch(filename, p, r.value) && !NoMatchAt(filename, p);
      }
    }
    r
  }

  /** The leftmost match fixes the result: `ExtractVersion` returns exactly its capture. */
  lemma LeftmostMatchIsExtracted(filename: string, i: nat, v: string)
    requires IsLeftmostMatch(filename, i, v)
    ensures ExtractVersion(filename) == Some(v)
  {
    assert !NoMatchAt(filename, i);
    var w := ExtractVersion(filename).value;
    var p: nat :| IsLeftmostMatch(filename, p, w);
    // Neither position can precede the other, so both captures come from one position.
    assert p == i by {
      assert p < i ==> NoMatchAt(filename, p);
      assert i < p ==> NoMatchAt(filename, i);
    }
    MatchUnique(filename, i, v, w);
  }

  /** The file name the release pipeline produces for version `v` yields `v` back. */
  lemma ExtractVersionRoundTrip(v: string)
    requires IsVersion(v)
    ensures ExtractVersion(Prefix + v + Suffix) == Some(v)
  {
    var s := Prefix + v + Suffix;
    assert s[0..|Prefix| + |v| + |Suffix|] == s;
    assert MatchesAt(s, 0, v);
    LeftmostMatchIsExtracted(s, 0, v);
  }

  /** A non-null result has exactly one dot, with at least one digit on each side of it. */
  lemma ExtractedVersionShape(filename: string)
    requires ExtractVersion(filename).Some?
    ensures var v := ExtractVersion(filename).value;
      |v| >= 3 && IsDigit(v[0]) && IsDigit(v[|v| - 1])
      && (forall j :: 0 <= j < |v| ==> IsDigit(v[j]) || v[j] == '.')
      && (exists j :: 0 <= j < |v| && v[j] == '.')
      && (forall j1, j2 :: 0 <= j1 < |v| && 0 <= j2 < |v| && v[j1] == '.' && v[j2] == '.' ==> j1 == j2)
  {
    var v := ExtractVersion(filename).value;
    var i: nat :| IsLeftmostMatch(filename, i, v);
    var k :| 0 < k < |v| - 1 && v[k] == '.' && AllDigits(v[..k]) && AllDigits(v[k + 1..]);
    forall j | 0 <= j < |v| && j != k ensures IsDigit(v[j]) {
      if j < k { assert v[j] == v[..k][j]; } else { assert v[j] == v[k + 1..][j - k - 1]; }
    }
  }

  /** The example of the source's doc comment (app/api/releases/route.ts:160). */
  lemma ExtractVersionExample()
    ensures ExtractVersion("Pomodoro-1.0.dmg") == Some("1.0")
  {
    assert IsVersion("1.0") by {
      assert "1.0"[..1] == "1" && "1.0"[2..] == "0";
    }
    assert Prefix + "1.0" + Suffix == "Pomodoro-1.0.dmg";
    ExtractVersionRoundTrip("1.0");
  }
}
