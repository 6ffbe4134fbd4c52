/**
 * The Python string operations the pinout code is built from, on `seq<char>`:
 * `rstrip`, `lower` (ASCII letters only), `partition`, `in`, `startswith`,
 * `replace` (every occurrence, left to right), `int()` restricted to ASCII
 * digit strings, and `'{}'.format(n)` for a natural number.
 */
module Strings {
  import opened Wrappers

  predicate IsDigit(c: char) {
    '0' <= c <= '9'
  }

  predicate AllDigits(s: string) {
    forall i :: 0 <= i < |s| ==> IsDigit(s[i])
  }

  /** `s.rstrip('0123456789')`: the longest prefix of `s` that does not end in a digit
      and leaves only digits behind. */
  function RStripDigits(s: string): (r: string)
    ensures |r| <= |s| && r == s[..|r|]
    ensures AllDigits(s[|r|..])
    ensures r == [] || !IsDigit(r[|r| - 1])
  {
    if s == [] then []
    else
      var t := RStripDigits(s[1..]);
      if t == [] && IsDigit(s[0]) then
        assert s[1..][|t|..] == s[1..];
        []
      else
        var r := [s[0]] + t;
        assert s[|r|..] == s[1..][|t|..];
        r
  }

  /** The trailing digits that `RStripDigits` removes. */
  function DigitSuffix(s: string): string {
    s[|RStripDigits(s)|..]
  }

  /** A string that does not end in a digit, followed by digits, strips back to itself. */
  lemma RStripDigitsOf(x: string, d: string)
    requires x == [] || !IsDigit(x[|x| - 1])
    requires AllDigits(d)
    ensures RStripDigits(x + d) == x
  {
    var s := x + d;
    var r := RStripDigits(s);
    assert forall i :: |r| <= i < |s| ==> IsDigit(s[i]);
    assert forall i :: |x| <= i < |s| ==> IsDigit(s[i]);
    assert r != [] ==> r[|r| - 1] == s[|r| - 1];
    assert x != [] ==> x[|x| - 1] == s[|x| - 1];
    assert |r| == |x|;
    assert r == s[..|x|];
  }

  /** `s.rstrip(c)` for a single character `c`. */
  function RStripChar(s: string, c: char): (r: string)
    ensures |r| <= |s| && r == s[..|r|]
    ensures forall i :: |r| <= i < |s| ==> s[i] == c
    ensures r == [] || r[|r| - 1] != c
  {
    if s == [] then []
    else
      var t := RStripChar(s[1..], c);
      if t == [] && s[0] == c then [] else [s[0]] + t
  }

  function LowerChar(c: char): char {
    if 'A' <= c <= 'Z' then (c as int + 32) as char else c
  }

  /** `s.lower()` for ASCII letters; every other character is kept. */
  function Lower(s: string): (r: string)
    ensures |r| == |s|
    ensures forall i :: 0 <= i < |s| ==> r[i] == LowerChar(s[i])
  {
    seq(|s|, i requires 0 <= i < |s| => LowerChar(s[i]))
  }

  /** `pat` is a prefix of `s`. */
  predicate IsPrefix(pat: string, s: string) {
    pat == [] || (s != [] && pat[0] == s[0] && IsPrefix(pat[1..], s[1..]))
  }

  lemma {:induction false} IsPrefixSlice(pat: string, s: string)
    ensures IsPrefix(pat, s) <==> |pat| <= |s| && s[..|pat|] == pat
  {
    if pat != [] && s != [] {
      IsPrefixSlice(pat[1..], s[1..]);
      if |pat| <= |s| && s[..|pat|] == pat {
        assert s[1..][..|pat| - 1] == pat[1..];
      }
      if IsPrefix(pat, s) {
        assert s[..|pat|] == [s[0]] + s[1..][..|pat| - 1];
        assert pat == [pat[0]] + pat[1..];
      }
    }
  }

  /** `s.startswith(prefix)` */
  predicate StartsWith(s: string, prefix: string) {
    IsPrefix(prefix, s)
  }

  /** `pat` occurs in `s` starting at index `k`. */
  predicate OccursAt(s: string, pat: string, k: int) {
    0 <= k <= |s| && IsPrefix(pat, s[k..])
  }

  lemma OccursAtSlice(s: string, pat: string, k: int)
    ensures OccursAt(s, pat, k) <==> 0 <= k && k + |pat| <= |s| && s[k..k + |pat|] == pat
  {
    if 0 <= k <= |s| {
      IsPrefixSlice(pat, s[k..]);
      if k + |pat| <= |s| {
        assert s[k..][..|pat|] == s[k..k + |pat|];
      }
    }
  }

  /** `s.find(pat)`: the first index at which `pat` occurs, if any. */
  function Find(s: string, pat: string): (r: Option<nat>)
    ensures r.Some? ==> OccursAt(s, pat, r.value)
    ensures forall k :: (r.None? || k < r.value) ==> !OccursAt(s, pat, k)
  {
    if IsPrefix(pat, s) then
      assert s[0..] == s;
      Some(0)
    else if s == [] then None
    else
      OccursAtTail(s, pat);
      match Find(s[1..], pat)
      case None => None
      case Some(k) => Some(k + 1)
  }

  lemma OccursAtTail(s: string, pat: string)
    requires s != []
    ensures forall j :: 0 < j <= |s| ==> (OccursAt(s, pat, j) <==> OccursAt(s[1..], pat, j - 1))
    ensures OccursAt(s, pat, 0) <==> IsPrefix(pat, s)
  {
    assert s[0..] == s;
    forall j | 0 < j <= |s| ensures OccursAt(s, pat, j) <==> OccursAt(s[1..], pat, j - 1) {
      assert s[j..] == s[1..][j - 1..];
    }
  }

  /** `pat in s` */
  predicate Contains(s: string, pat: string) {
    Find(s, pat).Some?
  }

  /** A one-character string occurs exactly when its character does. */
  lemma ContainsChar(s: string, c: char)
    ensures Contains(s, [c]) <==> c in s
  {
    if c in s {
      var k :| 0 <= k < |s| && s[k] == c;
      assert s[k..k + 1] == [c];
      OccursAtSlice(s, [c], k);
    }
    if Contains(s, [c]) {
      var k := Find(s, [c]).value;
      OccursAtSlice(s, [c], k);
      assert s[k..k + 1][0] == s[k];
    }
  }

  datatype Partitioned = Partitioned(before: string, found: bool, after: string)

  /** `s.partition(sep)`: split at the first occurrence of `sep`; without one,
      everything is `before` and `after` is empty. */
  function Partition(s: string, sep: string): (p: Partitioned)
    ensures p.found <==> Contains(s, sep)
    ensures p.found ==> s == p.before + sep + p.after && Find(s, sep) == Some(|p.before|)
    ensures !p.found ==> p.before == s && p.after == []
  {
    match Find(s, sep)
    case None => Partitioned(s, false, [])
    case Some(k) =>
      OccursAtSlice(s, sep, k);
      SplitAround(s, k, |sep|);
      Partitioned(s[..k], true, s[k + |sep|..])
  }

  /** Splitting at a separator that has no earlier occurrence gives the parts around it. */
  lemma PartitionFirst(x: string, sep: string, y: string)
    requires forall k :: k < |x| ==> !OccursAt(x + sep + y, sep, k)
    ensures Partition(x + sep + y, sep) == Partitioned(x, true, y)
  {
    var s := x + sep + y;
    assert s[|x|..|x| + |sep|] == sep;
    OccursAtSlice(s, sep, |x|);
    assert Find(s, sep) == Some(|x|);
    assert s[..|x|] == x;
    assert s[|x| + |sep|..] == y;
  }

  /** A one-character separator that `x` does not hold first occurs right after `x`. */
  lemma PartitionFirstChar(x: string, c: char, y: string)
    requires c !in x
    ensures Partition(x + [c] + y, [c]) == Partitioned(x, true, y)
  {
    var s := x + [c] + y;
    forall k | k < |x| ensures !OccursAt(s, [c], k) {
      OccursAtSlice(s, [c], k);
      if 0 <= k {
        assert s[k..k + 1] == [x[k]];
      }
    }
    PartitionFirst(x, [c], y);
  }

  lemma SplitAround(s: string, k: nat, n: nat)
    requires k + n <= |s|
    ensures s == s[..k] + s[k..k + n] + s[k + n..]
  {
  }

  /** `s.replace(pat, rep)`: every non-overlapping occurrence, scanning left to right. */
  function ReplaceAll(s: string, pat: string, rep: string): (r: string)
    decreases |s|
  {
    if |pat| == 0 then
      (if s == [] then rep else rep + [s[0]] + ReplaceAll(s[1..], pat, rep))
    else if s == [] then []
    else if IsPrefix(pat, s) then
      IsPrefixSlice(pat, s);
      rep + ReplaceAll(s[|pat|..], pat, rep)
    else [s[0]] + ReplaceAll(s[1..], pat, rep)
  }

  /** Replacing a string that does not occur changes nothing. */
  lemma {:induction false} ReplaceAbsent(s: string, pat: string, rep: string)
    requires |pat| > 0
    requires forall k :: !OccursAt(s, pat, k)
    ensures ReplaceAll(s, pat, rep) == s
    decreases |s|
  {
    if s != [] {
      assert s[0..] == s;
      assert !OccursAt(s, pat, 0);
      forall k ensures !OccursAt(s[1..], pat, k) {
        if 0 <= k <= |s[1..]| {
          assert s[1..][k..] == s[k + 1..];
          assert !OccursAt(s, pat, k + 1);
        }
      }
      ReplaceAbsent(s[1..], pat, rep);
    }
  }

  /** A pattern whose first character never appears in `s` does not occur in it. */
  lemma AbsentByFirstChar(s: string, pat: string)
    requires |pat| > 0
    requires forall i :: 0 <= i < |s| ==> s[i] != pat[0]
    ensures forall k :: !OccursAt(s, pat, k)
  {
    forall k ensures !OccursAt(s, pat, k) {
      OccursAtSlice(s, pat, k);
      if 0 <= k && k + |pat| <= |s| {
        assert s[k..k + |pat|][0] == s[k];
      }
    }
  }

  /** A pattern with a character that never appears in `s` does not occur in it. */
  lemma AbsentByChar(s: string, pat: string, j: nat)
    requires j < |pat| && pat[j] !in s
    ensures !Contains(s, pat)
  {
    forall k ensures !OccursAt(s, pat, k) {
      OccursAtSlice(s, pat, k);
      if 0 <= k && k + |pat| <= |s| {
        assert s[k..k + |pat|][j] == s[k + j];
      }
    }
  }

  /** Replacing the empty string by the empty string changes nothing. */
  lemma {:induction false} ReplaceEmptyByEmpty(s: string)
    ensures ReplaceAll(s, [], []) == s
    decreases |s|
  {
    if s != [] {
      ReplaceEmptyByEmpty(s[1..]);
      assert [s[0]] + s[1..] == s;
    }
  }

  /** A string that starts with `pat` has its leading `pat` replaced first. */
  lemma ReplaceLeading(pat: string, y: string, rep: string)
    requires |pat| > 0
    ensures ReplaceAll(pat + y, pat, rep) == rep + ReplaceAll(y, pat, rep)
  {
    var s := pat + y;
    IsPrefixSlice(pat, s);
    assert s[..|pat|] == pat;
    assert s[|pat|..] == y;
  }

  /** When no occurrence of `pat` starts inside the prefix `x`, replacing leaves `x` alone. */
  lemma {:induction false} ReplaceKeepsCleanPrefix(x: string, y: string, pat: string, rep: string)
    requires |pat| > 0
    requires forall k :: k < |x| ==> !OccursAt(x + y, pat, k)
    ensures ReplaceAll(x + y, pat, rep) == x + ReplaceAll(y, pat, rep)
    decreases |x|
  {
    if x != [] {
      var s, t := x + y, x[1..] + y;
      CleanPrefixTail(x, y, pat);
      ReplaceKeepsCleanPrefix(x[1..], y, pat, rep);
      assert !OccursAt(s, pat, 0);
      ReplaceAllStep(s, pat, rep);
      calc {
        ReplaceAll(s, pat, rep);
        [s[0]] + ReplaceAll(t, pat, rep);
        [x[0]] + (x[1..] + ReplaceAll(y, pat, rep));
        { assert [x[0]] + x[1..] == x; }
        x + ReplaceAll(y, pat, rep);
      }
    } else {
      assert x + y == y;
    }
  }

  lemma CleanPrefixTail(x: string, y: string, pat: string)
    requires x != []
    requires forall k :: k < |x| ==> !OccursAt(x + y, pat, k)
    ensures (x + y)[1..] == x[1..] + y
    ensures forall k :: k < |x[1..]| ==> !OccursAt(x[1..] + y, pat, k)
  {
    var s := x + y;
    var t := x[1..] + y;
    assert s[1..] == t;
    forall k | k < |x[1..]| ensures !OccursAt(t, pat, k) {
      if 0 <= k {
        assert s[k + 1..] == t[k..];
        assert !OccursAt(s, pat, k + 1);
      }
    }
  }

  /** A marker whose first character does not recur in it cannot overlap
      itself: in `x + pat + y` with `x` free of `pat`, the first occurrence
      is the one right after `x`. */
  lemma FirstMarker(x: string, pat: string, y: string)
    requires |pat| > 0 && pat[0] !in pat[1..]
    requires !Contains(x, pat)
    ensures OccursAt(x + pat + y, pat, |x|)
    ensures forall k :: k < |x| ==> !OccursAt(x + pat + y, pat, k)
  {
    var s := x + pat + y;
    assert s[|x|..|x| + |pat|] == pat;
    OccursAtSlice(s, pat, |x|);
    forall k | k < |x| ensures !OccursAt(s, pat, k) {
      OccursAtSlice(s, pat, k);
      OccursAtSlice(x, pat, k);
      if 0 <= k && k + |pat| <= |x| {
        assert s[k..k + |pat|] == x[k..k + |pat|];
      } else if 0 <= k && k + |pat| <= |s| {
        assert s[|x|] == pat[0];
        assert s[k..k + |pat|][|x| - k] == s[|x|];
        assert pat[1..][|x| - k - 1] == pat[|x| - k];
      }
    }
  }

  /** Replacing a marker that occurs once, in `x + pat + y`, rewrites just
      that occurrence. */
  lemma ReplaceSingle(x: string, pat: string, y: string, rep: string)
    requires |pat| > 0 && pat[0] !in pat[1..]
    requires !Contains(x, pat) && !Contains(y, pat)
    ensures Contains(x + pat + y, pat)
    ensures ReplaceAll(x + pat + y, pat, rep) == x + rep + y
  {
    FirstMarker(x, pat, y);
    ReplaceAfterCleanPrefix(x, pat, y, rep);
    ReplaceLeadingOnly(pat, y, rep);
    assert x + (rep + y) == x + rep + y;
  }

  /** The prefix `x` before the first marker is copied unchanged. */
  lemma ReplaceAfterCleanPrefix(x: string, pat: string, y: string, rep: string)
    requires |pat| > 0
    requires forall k :: k < |x| ==> !OccursAt(x + pat + y, pat, k)
    ensures ReplaceAll(x + pat + y, pat, rep) == x + ReplaceAll(pat + y, pat, rep)
  {
    assert x + pat + y == x + (pat + y);
    ReplaceKeepsCleanPrefix(x, pat + y, pat, rep);
  }

  /** A leading marker followed by a marker-free rest: only the leading one is rewritten. */
  lemma ReplaceLeadingOnly(pat: string, y: string, rep: string)
    requires |pat| > 0 && !Contains(y, pat)
    ensures ReplaceAll(pat + y, pat, rep) == rep + y
  {
    ReplaceLeading(pat, y, rep);
    ReplaceAbsent(y, pat, rep);
  }

  /** Where `pat` does not start `s`, the first character is kept. */
  lemma ReplaceAllStep(s: string, pat: string, rep: string)
    requires |pat| > 0 && s != [] && !OccursAt(s, pat, 0)
    ensures ReplaceAll(s, pat, rep) == [s[0]] + ReplaceAll(s[1..], pat, rep)
  {
    assert s[0..] == s;
  }

  /** The numeric value of a string of ASCII digits, most significant first. */
  function DigitsValue(s: string): nat
    requires AllDigits(s)
  {
    if s == [] then 0 else 10 * DigitsValue(s[..|s| - 1]) + (s[|s| - 1] as int - '0' as int)
  }

  /** `int(s)` for ASCII digit strings; anything else is the ValueError case. */
  function ParseNat(s: string): (r: Option<nat>)
    ensures r.Some? <==> |s| > 0 && AllDigits(s)
  {
    if |s| > 0 && AllDigits(s) then Some(DigitsValue(s)) else None
  }

  function DigitChar(d: nat): (c: char)
    requires d < 10
    ensures IsDigit(c) && c as int - '0' as int == d
  {
    ('0' as int + d) as char
  }

  /** `'{}'.format(n)`: the decimal spelling of `n`, without leading zeros. */
  function NatToString(n: nat): (s: string)
    ensures |s| > 0 && AllDigits(s) && DigitsValue(s) == n
    ensures s[0] == '0' ==> n == 0 && s == "0"
  {
    if n < 10 then [DigitChar(n)]
    else
      var p := NatToString(n / 10);
      var s := p + [DigitChar(n % 10)];
      assert s[..|s| - 1] == p;
      s
  }

  /** `int` undoes `format` on natural numbers. */
  lemma ParseNatToString(n: nat)
    ensures ParseNat(NatToString(n)) == Some(n)
  {
  }

  /** Lower-casing does not touch digits, so it commutes with stripping them. */
  lemma {:induction false} LowerRStripDigits(s: string)
    ensures Lower(RStripDigits(s)) == RStripDigits(Lower(s))
    decreases |s|
  {
    if s != [] {
      var l := Lower(s);
      assert l[1..] == Lower(s[1..]);
      assert l[0] == LowerChar(s[0]) && IsDigit(l[0]) == IsDigit(s[0]);
      LowerRStripDigits(s[1..]);
      var t := RStripDigits(s[1..]);
      if t != [] || !IsDigit(s[0]) {
        LowerAppend([s[0]], t);
        assert Lower([s[0]]) == [l[0]];
      }
    }
  }

  lemma LowerAppend(a: string, b: string)
    ensures Lower(a + b) == Lower(a) + Lower(b)
  {
  }

  /** Lower-casing leaves strings without ASCII capitals unchanged. */
  lemma LowerFixed(s: string)
    requires forall i :: 0 <= i < |s| ==> !('A' <= s[i] <= 'Z')
    ensures Lower(s) == s
  {
  }

  /** A first occurrence is the same in two strings in which `pat` occurs at the same places. */
  lemma FindSameOccurrences(s: string, t: string, pat: string)
    requires forall k :: OccursAt(s, pat, k) <==> OccursAt(t, pat, k)
    ensures Find(s, pat) == Find(t, pat)
  {
  }

  /** Lower-casing does not create or remove underscores, so splitting on `_`
      commutes with it. */
  lemma LowerPartitionUnderscore(s: string)
    ensures Partition(Lower(s), "_").before == Lower(Partition(s, "_").before)
  {
    forall k ensures OccursAt(s, "_", k) <==> OccursAt(Lower(s), "_", k) {
      OccursAtSlice(s, "_", k);
      OccursAtSlice(Lower(s), "_", k);
      if 0 <= k < |s| {
        assert s[k..k + 1] == [s[k]];
        assert Lower(s)[k..k + 1] == [LowerChar(s[k])];
      }
    }
    FindSameOccurrences(s, Lower(s), "_");
    match Find(s, "_")
    case None =>
    case Some(k) =>
      assert Lower(s)[..k] == Lower(s[..k]);
  }
}
