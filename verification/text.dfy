/** String operations with the meaning the Python string methods give them. */
module Text {

  /** Python's `str.isspace()`; `str.strip()` and the regex class `\s` use
      the same set of characters. */
  predicate IsSpace(c: char)
  {
    var n := c as int;
    n == 0x20 || 0x09 <= n <= 0x0D || 0x1C <= n <= 0x1F || n == 0x85 || n == 0xA0
    || n == 0x1680 || 0x2000 <= n <= 0x200A || n == 0x2028 || n == 0x2029
    || n == 0x202F || n == 0x205F || n == 0x3000
  }

  /** `s` without the leading characters that satisfy `drop`. */
  function TrimStart(s: string, drop: char -> bool): string
  {
    if |s| > 0 && drop(s[0]) then TrimStart(s[1..], drop) else s
  }

  /** `s` without the trailing characters that satisfy `drop`. */
  function TrimEnd(s: string, drop: char -> bool): string
  {
    if |s| > 0 && drop(s[|s| - 1]) then TrimEnd(s[..|s| - 1], drop) else s
  }

  /** Trimming the start removes a prefix of dropped characters and stops at
      one that is kept. */
  lemma {:induction false} TrimStartRemovesPrefix(s: string, drop: char -> bool)
    ensures |TrimStart(s, drop)| <= |s| && TrimStart(s, drop) == s[|s| - |TrimStart(s, drop)|..]
    ensures forall i :: 0 <= i < |s| - |TrimStart(s, drop)| ==> drop(s[i])
    ensures TrimStart(s, drop) == [] || !drop(TrimStart(s, drop)[0])
  {
    if |s| > 0 && drop(s[0]) {
      TrimStartRemovesPrefix(s[1..], drop);
    }
  }

  /** Trimming the end removes a suffix of dropped characters and stops at
      one that is kept. */
  lemma {:induction false} TrimEndRemovesSuffix(s: string, drop: char -> bool)
    ensures |TrimEnd(s, drop)| <= |s| && TrimEnd(s, drop) == s[..|TrimEnd(s, drop)|]
    ensures forall i :: |TrimEnd(s, drop)| <= i < |s| ==> drop(s[i])
    ensures TrimEnd(s, drop) == [] || !drop(TrimEnd(s, drop)[|TrimEnd(s, drop)| - 1])
  {
    if |s| > 0 && drop(s[|s| - 1]) {
      TrimEndRemovesSuffix(s[..|s| - 1], drop);
    }
  }

  /** Neither end of `s` is a character that `drop` would remove. */
  predicate IsTrimmed(s: string, drop: char -> bool)
  {
    s == [] || (!drop(s[0]) && !drop(s[|s| - 1]))
  }

  /** Python's `s.strip(chars)`, with the removable characters given by `drop`. */
  function Trim(s: string, drop: char -> bool): (r: string)
    ensures IsTrimmed(r, drop)
    ensures |r| <= |s|
  {
    TrimStartRemovesPrefix(s, drop);
    TrimEndRemovesSuffix(TrimStart(s, drop), drop);
    TrimEnd(TrimStart(s, drop), drop)
  }

  /** Python's `s.strip()`. */
  function Strip(s: string): string
  {
    Trim(s, IsSpace)
  }

  /** Every character of `s` is whitespace (so `s.strip()` is empty). */
  predicate IsBlank(s: string)
  {
    forall i :: 0 <= i < |s| ==> IsSpace(s[i])
  }

  /** A string already trimmed is left alone by trimming. */
  lemma TrimOfTrimmed(s: string, drop: char -> bool)
    requires IsTrimmed(s, drop)
    ensures Trim(s, drop) == s
  {
    if |s| > 0 {
      assert TrimStart(s, drop) == s;
    }
  }

  /** `s.strip()` is empty exactly when `s` is all whitespace. */
  lemma StripEmptyIffBlank(s: string)
    ensures Strip(s) == "" <==> IsBlank(s)
  {
    var t := TrimStart(s, IsSpace);
    TrimStartRemovesPrefix(s, IsSpace);
    TrimEndRemovesSuffix(t, IsSpace);
    if IsBlank(s) {
      assert t == [];
    }
  }

  function LowerChar(c: char): char
  {
    if 'A' <= c <= 'Z' then (c as int + 32) as char else c
  }

  /** Python's `s.lower()` on the ASCII letters. */
  function Lower(s: string): (r: string)
    ensures |r| == |s|
    ensures forall i :: 0 <= i < |s| ==> r[i] == LowerChar(s[i])
  {
    seq(|s|, i requires 0 <= i < |s| => LowerChar(s[i]))
  }

  /** Python's `sep.join(parts)`. */
  function Join(parts: seq<string>, sep: string): string
  {
    if |parts| == 0 then ""
    else if |parts| == 1 then parts[0]
    else Join(parts[..|parts| - 1], sep) + sep + parts[|parts| - 1]
  }

  /** Python's `s.startswith(prefix)`. */
  predicate StartsWith(s: string, prefix: string)
  {
    |prefix| <= |s| && s[..|prefix|] == prefix
  }

  /** Python's `s.endswith(suffix)`. */
  predicate EndsWith(s: string, suffix: string)
  {
    |suffix| <= |s| && s[|s| - |suffix|..] == suffix
  }

  /** Python's `s.replace(pat, rep)`: every occurrence of `pat`, scanning left
      to right without overlaps, is replaced by `rep`. */
  function ReplaceAll(s: string, pat: string, rep: string): string
    requires |pat| > 0
    decreases |s|
  {
    if |s| < |pat| then s
    else if s[..|pat|] == pat then rep + ReplaceAll(s[|pat|..], pat, rep)
    else [s[0]] + ReplaceAll(s[1..], pat, rep)
  }

  /** No occurrence of `pat` starts inside `p` and ends inside `s`. */
  predicate NoMatchAcross(p: string, s: string, pat: string)
  {
    forall i, j :: 0 <= i < |p| < j <= |p| + |s| && j == i + |pat| ==> (p + s)[i..j] != pat
  }

  /** Dropping a prefix of `p` keeps the seam free of occurrences. */
  lemma NoMatchAcrossDrop(p: string, s: string, pat: string, n: nat)
    requires NoMatchAcross(p, s, pat) && n <= |p|
    ensures NoMatchAcross(p[n..], s, pat)
  {
    var q := p[n..];
    forall i, j | 0 <= i < |q| < j <= |q| + |s| && j == i + |pat|
      ensures (q + s)[i..j] != pat
    {
      assert (q + s)[i..j] == (p + s)[i + n..j + n];
    }
  }

  /** When no occurrence straddles the seam, replacing in a concatenation
      replaces in each part. */
  lemma {:induction false} ReplaceAllConcat(p: string, s: string, pat: string, rep: string)
    requires |pat| > 0 && NoMatchAcross(p, s, pat)
    ensures ReplaceAll(p + s, pat, rep) == ReplaceAll(p, pat, rep) + ReplaceAll(s, pat, rep)
    decreases |p|
  {
    var t := p + s;
    if |p| == 0 {
      assert t == s;
    } else if |t| < |pat| {
    } else if |p| < |pat| {
      // The first window straddles the seam, so it is not a match.
      assert t[0..|pat|] != pat;
      assert t[1..] == p[1..] + s;
      NoMatchAcrossDrop(p, s, pat, 1);
      ReplaceAllConcat(p[1..], s, pat, rep);
      assert p == [p[0]] + p[1..];
    } else {
      assert p[..|pat|] == t[..|pat|];
      var n := if t[..|pat|] == pat then |pat| else 1;
      assert t[n..] == p[n..] + s;
      NoMatchAcrossDrop(p, s, pat, n);
      ReplaceAllConcat(p[n..], s, pat, rep);
    }
  }

  /** A prefix too short to hold `pat`, followed by `pat`, with no
      occurrence across the seam: only the final `pat` is replaced. */
  lemma ReplaceAllShortThenPat(a: string, pat: string, rep: string)
    requires |pat| > 0 && |a| < |pat| && NoMatchAcross(a, pat, pat)
    ensures ReplaceAll(a + pat, pat, rep) == a + rep
  {
    ReplaceAllConcat(a, pat, pat, rep);
    assert pat[..|pat|] == pat && pat[|pat|..] == [];
    assert ReplaceAll(pat, pat, rep) == rep + ReplaceAll([], pat, rep);
  }

  /** Python's `str(n)` for a natural number. */
  function NatToString(n: nat): (r: string)
    ensures |r| > 0
    ensures forall i :: 0 <= i < |r| ==> '0' <= r[i] <= '9'
  {
    if n < 10 then ["0123456789"[n]] else NatToString(n / 10) + ["0123456789"[n % 10]]
  }
}
