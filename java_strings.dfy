/**
 * The java.lang.String and StringUtils operations the core relies on, over seq<char>.
 * Each mirrors the Java library call it stands for; StringUtils itself is not part of
 * this model, so its tokenizer and replace are given the behaviour stated on each.
 */
module JavaStrings {

  /** String.startsWith */
  predicate StartsWith(s: string, prefix: string) {
    |prefix| <= |s| && s[..|prefix|] == prefix
  }

  /** String.endsWith */
  predicate EndsWith(s: string, suffix: string) {
    |suffix| <= |s| && s[|s| - |suffix|..] == suffix
  }

  /** `p` occurs in `s` starting at index `i`. */
  predicate OccursAt(s: string, p: string, i: nat) {
    i + |p| <= |s| && s[i..i + |p|] == p
  }

  /** `sub` occurs somewhere in `s`. */
  ghost predicate Contains(s: string, sub: string) {
    exists i: nat :: OccursAt(s, sub, i)
  }

  lemma ContainsMiddle(a: string, b: string, c: string)
    ensures Contains(a + b + c, b)
  {
    assert (a + b + c)[|a|..|a| + |b|] == b;
    assert OccursAt(a + b + c, b, |a|);
  }

  /** String.indexOf(String), searching from `from` on. */
  function IndexOfFrom(s: string, p: string, from: nat): (r: int)
    requires from <= |s|
    ensures r == -1 || from <= r <= |s|
    ensures r == -1 <==> forall i: nat :: from <= i <= |s| ==> !OccursAt(s, p, i)
    ensures r >= 0 ==> OccursAt(s, p, r) && forall i: nat :: from <= i < r ==> !OccursAt(s, p, i)
    decreases |s| - from
  {
    if OccursAt(s, p, from) then from
    else if from == |s| then -1
    else IndexOfFrom(s, p, from + 1)
  }

  /** String.indexOf(String): the first index at which `p` occurs, or -1. */
  function IndexOf(s: string, p: string): (r: int)
    ensures r == -1 || 0 <= r <= |s|
    ensures r == -1 <==> forall i: nat :: i <= |s| ==> !OccursAt(s, p, i)
    ensures r >= 0 ==> OccursAt(s, p, r) && forall i: nat :: i < r ==> !OccursAt(s, p, i)
  {
    IndexOfFrom(s, p, 0)
  }

  /** String.lastIndexOf(char): the last index holding `c`, or -1. */
  function LastIndexOfChar(s: string, c: char): (r: int)
    ensures -1 <= r < |s|
    ensures r == -1 <==> c !in s
    ensures r >= 0 ==> s[r] == c && c !in s[r + 1..]
  {
    if s == [] then -1
    else if s[|s| - 1] == c then |s| - 1
    else
      assert s == s[..|s| - 1] + [s[|s| - 1]];
      var r := LastIndexOfChar(s[..|s| - 1], c);
      assert r >= 0 ==> s[r + 1..] == s[..|s| - 1][r + 1..] + [s[|s| - 1]];
      r
  }

  /** String.replace(char, char): every `from` becomes `to`. */
  function ReplaceChar(s: string, from: char, to: char): (r: string)
    ensures |r| == |s|
    ensures forall i :: 0 <= i < |s| ==> r[i] == if s[i] == from then to else s[i]
  {
    seq(|s|, i requires 0 <= i < |s| => if s[i] == from then to else s[i])
  }

  /**
   * StringUtils.replace / replaceAll with a literal pattern: every occurrence of `from`,
   * found left to right without overlaps, becomes `to`; an empty pattern changes nothing.
   */
  function Replace(s: string, from: string, to: string): string
    decreases |s|
  {
    if |from| == 0 || |s| < |from| then s
    else if s[..|from|] == from then to + Replace(s[|from|..], from, to)
    else [s[0]] + Replace(s[1..], from, to)
  }

  /** Every character of every string in `ts` occurs in `s`. */
  ghost predicate CharsWithin(ts: seq<string>, s: string) {
    forall i, j :: 0 <= i < |ts| && 0 <= j < |ts[i]| ==> ts[i][j] in s
  }

  /** When `s` does not hold a character `c` of the pattern, Replace leaves `s` as it is. */
  lemma {:induction false} ReplaceWithoutPatternChar(s: string, from: string, to: string, c: char)
    requires c in from && c !in s
    ensures Replace(s, from, to) == s
    decreases |s|
  {
    if |from| == 0 || |s| < |from| {
    } else {
      assert s[..|from|] != from;
      ReplaceWithoutPatternChar(s[1..], from, to, c);
      assert s == [s[0]] + s[1..];
    }
  }

  /** Replacing with the empty string only removes characters. */
  lemma {:induction false} ReplaceByEmptyKeepsChars(s: string, from: string, c: char)
    requires c in Replace(s, from, "")
    ensures c in s
    decreases |s|
  {
    if |from| == 0 || |s| < |from| {
    } else if s[..|from|] == from {
      ReplaceByEmptyKeepsChars(s[|from|..], from, c);
      assert c in s[|from|..];
    } else {
      if c != s[0] {
        ReplaceByEmptyKeepsChars(s[1..], from, c);
        assert c in s[1..];
      }
    }
  }

  /** A character String.trim removes from either end. */
  predicate IsTrimmed(c: char) {
    c <= ' '
  }

  function TrimStart(s: string): (r: string)
    ensures r == [] || !IsTrimmed(r[0])
    ensures forall c :: c in r ==> c in s
  {
    if s != [] && IsTrimmed(s[0]) then TrimStart(s[1..]) else s
  }

  function TrimEnd(s: string): (r: string)
    ensures r == [] || !IsTrimmed(r[|r| - 1])
    ensures |r| <= |s| && r == s[..|r|]
  {
    if s != [] && IsTrimmed(s[|s| - 1]) then TrimEnd(s[..|s| - 1]) else s
  }

  /** String.trim: drops the characters up to ' ' at both ends. */
  function Trim(s: string): (r: string)
    ensures r == [] || (!IsTrimmed(r[0]) && !IsTrimmed(r[|r| - 1]))
    ensures forall c :: c in r ==> c in s
  {
    var t := TrimStart(s);
    var r := TrimEnd(t);
    assert forall c :: c in r ==> c in t by {
      forall c | c in r ensures c in t {
        var k :| 0 <= k < |r| && r[k] == c;
        assert t[k] == c;
      }
    }
    r
  }

  /** The maximal runs of non-delimiter characters of `s`, empty runs included. */
  function Fields(s: string, delims: set<char>): (r: seq<string>)
    ensures |r| >= 1
    ensures CharsWithin(r, s)
    ensures forall i, j :: 0 <= i < |r| && 0 <= j < |r[i]| ==> r[i][j] !in delims
  {
    if s == [] then [[]]
    else
      var rest := Fields(s[1..], delims);
      if s[0] in delims then [[]] + rest
      else [[s[0]] + rest[0]] + rest[1..]
  }

  /** Trims each field and drops the fields that become empty. */
  function TrimmedNonEmpty(fs: seq<string>): (r: seq<string>)
    ensures forall i :: 0 <= i < |r| ==> r[i] != [] && Trim(r[i]) == r[i]
    ensures forall s :: CharsWithin(fs, s) ==> CharsWithin(r, s)
  {
    if fs == [] then []
    else
      var t := Trim(fs[0]);
      var rest := TrimmedNonEmpty(fs[1..]);
      assert Trim(t) == t by { TrimIdempotent(t); }
      assert forall s :: CharsWithin(fs, s) ==> CharsWithin(fs[1..], s) by {
        forall s | CharsWithin(fs, s) ensures CharsWithin(fs[1..], s) {
          forall i, j | 0 <= i < |fs[1..]| && 0 <= j < |fs[1..][i]| ensures fs[1..][i][j] in s {
            assert fs[1..][i] == fs[i + 1];
          }
        }
      }
      assert forall s :: CharsWithin(fs, s) ==> forall j :: 0 <= j < |t| ==> t[j] in s by {
        forall s, j | CharsWithin(fs, s) && 0 <= j < |t| ensures t[j] in s {
          assert t[j] in fs[0];
          var k :| 0 <= k < |fs[0]| && fs[0][k] == t[j];
        }
      }
      (if t == [] then [] else [t]) + rest
  }

  lemma TrimIdempotent(t: string)
    requires t == [] || (!IsTrimmed(t[0]) && !IsTrimmed(t[|t| - 1]))
    ensures Trim(t) == t
  {
  }

  /**
   * StringUtils.tokenizeToStringArray(s, delimiters), with the behaviour of Spring's
   * method of that name: split at every delimiter character, trim each token and drop
   * the tokens that are then empty.
   */
  function Tokenize(s: string, delims: set<char>): (r: seq<string>)
    ensures forall i :: 0 <= i < |r| ==> r[i] != [] && Trim(r[i]) == r[i]
    ensures CharsWithin(r, s)
  {
    TrimmedNonEmpty(Fields(s, delims))
  }

  /** String.toUpperCase restricted to ASCII: 'a'..'z' become 'A'..'Z', nothing else changes. */
  function ToUpperAscii(s: string): (r: string)
    ensures |r| == |s|
    ensures forall i :: 0 <= i < |s| ==> r[i] == if 'a' <= s[i] <= 'z' then (s[i] as int - 32) as char else s[i]
  {
    seq(|s|, i requires 0 <= i < |s| => if 'a' <= s[i] <= 'z' then (s[i] as int - 32) as char else s[i])
  }

  function DigitChar(d: nat): char
    requires d < 10
  {
    ('0' as int + d) as char
  }

  /** Decimal rendering of a natural number, as String.valueOf prints it. */
  function NatToString(n: nat): (r: string)
    ensures |r| >= 1
    ensures forall i :: 0 <= i < |r| ==> '0' <= r[i] <= '9'
  {
    if n < 10 then [DigitChar(n)] else NatToString(n / 10) + [DigitChar(n % 10)]
  }

  /** Decimal rendering of an integer, with a leading '-' when negative. */
  function IntToString(i: int): string {
    if i < 0 then "-" + NatToString(-i) else NatToString(i)
  }
}
