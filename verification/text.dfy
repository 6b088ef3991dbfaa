/** String operations of Python's `str` that the pipeline relies on, over
    `seq<char>`: substring search, non-overlapping replace, strip, split,
    join, ASCII lower-casing and decimal rendering of integers. */
module Text {

  /** `w` is a prefix of `s`. */
  predicate StartsWith(s: string, w: string) {
    |w| <= |s| && s[..|w|] == w
  }

  /** `w in s` for strings: `w` occurs somewhere in `s`. */
  predicate Contains(s: string, w: string)
    decreases |s|
  {
    StartsWith(s, w) || (|s| > 0 && Contains(s[1..], w))
  }

  /** `w` occurs in `s` starting at position `i`. */
  predicate OccursAt(s: string, w: string, i: int) {
    0 <= i && i + |w| <= |s| && s[i..i + |w|] == w
  }

  /** The recursive `Contains` agrees with "there is a position where `w` starts". */
  lemma {:induction false} ContainsAt(s: string, w: string)
    ensures Contains(s, w) <==> exists i :: OccursAt(s, w, i)
    decreases |s|
  {
    if StartsWith(s, w) {
      assert OccursAt(s, w, 0);
    }
    if |s| > 0 {
      ContainsAt(s[1..], w);
      if Contains(s[1..], w) {
        var i :| OccursAt(s[1..], w, i);
        assert OccursAt(s, w, i + 1);
      }
      if exists i :: OccursAt(s, w, i) {
        var i :| OccursAt(s, w, i);
        if i == 0 {
          assert StartsWith(s, w);
        } else {
          assert OccursAt(s[1..], w, i - 1);
        }
      }
    } else if exists i :: OccursAt(s, w, i) {
      var i :| OccursAt(s, w, i);
      assert StartsWith(s, w);
    }
  }

  /** A string that does not contain the first character of `w` does not contain `w`. */
  lemma {:induction false} NotContainsFirstChar(s: string, w: string)
    requires |w| > 0 && w[0] !in s
    ensures !Contains(s, w)
    decreases |s|
  {
    if |s| > 0 {
      assert s[0] in s;
      assert w[0] !in s[1..] by { forall k | 0 <= k < |s| - 1 ensures s[1..][k] != w[0] { assert s[1..][k] == s[k + 1]; } }
      NotContainsFirstChar(s[1..], w);
    }
  }

  /** A prefix that lacks `w`'s first character cannot host an occurrence of `w`. */
  lemma {:induction false} ContainsSkipPrefix(p: string, q: string, w: string)
    requires |w| > 0 && w[0] !in p
    ensures Contains(p + q, w) <==> Contains(q, w)
    decreases |p|
  {
    if |p| > 0 {
      assert (p + q)[0] == p[0];
      assert (p + q)[1..] == p[1..] + q;
      assert w[0] !in p[1..] by { forall k | 0 <= k < |p| - 1 ensures p[1..][k] != w[0] { assert p[1..][k] == p[k + 1]; } }
      ContainsSkipPrefix(p[1..], q, w);
    } else {
      assert p + q == q;
    }
  }

  /** A string whose only possible occurrence of `w` would start at its
      first character, and does not, holds no `w` after any prefix free of
      `w[0]`. */
  lemma ContainsNoneAfterMismatch(p: string, q: string, w: string)
    requires 2 <= |w| && 2 <= |q|
    requires w[0] !in p && w[0] !in q[1..] && q[1] != w[1]
    ensures !Contains(p + q, w)
  {
    assert !StartsWith(q, w);
    NotContainsFirstChar(q[1..], w);
    ContainsSkipPrefix(p, q, w);
  }

  /** A one-character pattern occurs exactly where its character does. */
  lemma {:induction false} ContainsChar(s: string, c: char)
    ensures Contains(s, [c]) <==> c in s
    decreases |s|
  {
    if s != [] {
      ContainsChar(s[1..], c);
      assert c in s <==> s[0] == c || c in s[1..];
    }
  }

  /** Appending characters that do not occur in `w` cannot create an occurrence of `w`. */
  lemma {:induction false} ContainsAppendForeign(a: string, q: string, w: string)
    requires |w| > 0 && !Contains(a, w)
    requires forall k :: 0 <= k < |q| ==> q[k] !in w
    ensures !Contains(a + q, w)
    decreases |a|
  {
    if a == [] {
      assert a + q == q;
      if |q| > 0 {
        assert w[0] !in q by {
          forall k | 0 <= k < |q| ensures q[k] != w[0] { assert w[0] in w; }
        }
        NotContainsFirstChar(q, w);
      }
    } else {
      if |w| <= |a| {
        assert (a + q)[..|w|] == a[..|w|];
      } else if |w| <= |a| + |q| {
        assert (a + q)[|a|] == q[0];
        assert q[0] !in w;
        assert (a + q)[..|w|][|a|] == q[0];
      }
      assert !StartsWith(a + q, w);
      assert (a + q)[1..] == a[1..] + q;
      ContainsAppendForeign(a[1..], q, w);
    }
  }

  /** Python's `s.replace(pat, rep)`: every non-overlapping occurrence of
      `pat`, scanned from the left, is replaced by `rep`. */
  function ReplaceAll(s: string, pat: string, rep: string): string
    requires |pat| > 0
    decreases |s|
  {
    if s == [] then []
    else if StartsWith(s, pat) then rep + ReplaceAll(s[|pat|..], pat, rep)
    else [s[0]] + ReplaceAll(s[1..], pat, rep)
  }

  /** Replacing brings in no character that is neither in `s` nor in `rep`. */
  lemma {:induction false} ReplaceAllKeepsOut(s: string, pat: string, rep: string, c: char)
    requires |pat| > 0 && c !in s && c !in rep
    ensures c !in ReplaceAll(s, pat, rep)
    decreases |s|
  {
    if s != [] {
      if StartsWith(s, pat) {
        assert c !in s[|pat|..] by { forall k | |pat| <= k < |s| ensures s[k] != c { assert s[k] in s; } }
        ReplaceAllKeepsOut(s[|pat|..], pat, rep, c);
      } else {
        assert c !in s[1..] by { forall k | 1 <= k < |s| ensures s[k] != c { assert s[k] in s; } }
        ReplaceAllKeepsOut(s[1..], pat, rep, c);
      }
    }
  }

  /** Replacing in a string with no occurrence of the pattern leaves it unchanged. */
  lemma {:induction false} ReplaceAllAbsent(s: string, pat: string, rep: string)
    requires |pat| > 0 && !Contains(s, pat)
    ensures ReplaceAll(s, pat, rep) == s
    decreases |s|
  {
    if s != [] {
      ReplaceAllAbsent(s[1..], pat, rep);
      assert [s[0]] + s[1..] == s;
    }
  }

  /** Replacing a pattern by a single character that occurs nowhere in the
      pattern leaves no occurrence of the pattern, provided the pattern's
      first character occurs only at its front (true of `%2F`). */
  lemma {:induction false} ReplaceAllRemoves(s: string, pat: string, c: char)
    requires |pat| > 0 && c !in pat
    requires forall k :: 0 < k < |pat| ==> pat[k] != pat[0]
    ensures !Contains(ReplaceAll(s, pat, [c]), pat)
    decreases |s|
  {
    var r := ReplaceAll(s, pat, [c]);
    NoOccurrenceAtFront(s, pat, c);
    if s == [] {
    } else if StartsWith(s, pat) {
      ReplaceAllRemoves(s[|pat|..], pat, c);
      assert r[1..] == ReplaceAll(s[|pat|..], pat, [c]);
    } else {
      ReplaceAllRemoves(s[1..], pat, c);
      assert r[1..] == ReplaceAll(s[1..], pat, [c]);
    }
  }

  /** Helper for `ReplaceAllRemoves`: the replacement result never starts with the pattern. */
  lemma {:induction false} NoOccurrenceAtFront(s: string, pat: string, c: char)
    requires |pat| > 0 && c !in pat
    requires forall k :: 0 < k < |pat| ==> pat[k] != pat[0]
    ensures !StartsWith(ReplaceAll(s, pat, [c]), pat)
  {
    var r := ReplaceAll(s, pat, [c]);
    if s == [] {
    } else if StartsWith(s, pat) {
      assert r[0] == c;
      assert pat[0] in pat;
    } else {
      var rest := ReplaceAll(s[1..], pat, [c]);
      assert r == [s[0]] + rest;
      if s[0] == pat[0] {
        var u := pat[1..];
        assert c !in u && pat[0] !in u;
        TailCopied(s[1..], u, pat, c);
        if |pat| <= |s| {
          assert s[..|pat|] == [s[0]] + s[1..][..|u|];
          assert pat == [pat[0]] + u;
        }
        assert !StartsWith(rest, u);
        assert r[1..] == rest;
      } else {
        assert r[0] != pat[0];
      }
    }
  }

  /** Helper: the replacement result of `t` starts with `u` (a string free of
      `c` and of `pat[0]`) only if `t` itself starts with `u`. */
  lemma {:induction false} TailCopied(t: string, u: string, pat: string, c: char)
    requires |pat| > 0 && c !in u && pat[0] !in u
    ensures StartsWith(ReplaceAll(t, pat, [c]), u) ==> StartsWith(t, u)
    decreases |u|
  {
    var r := ReplaceAll(t, pat, [c]);
    if |u| > 0 && t != [] {
      if StartsWith(t, pat) {
        assert r[0] == c;
        assert u[0] in u;
      } else {
        assert r == [t[0]] + ReplaceAll(t[1..], pat, [c]);
        TailCopied(t[1..], u[1..], pat, c);
        if StartsWith(r, u) {
          assert StartsWith(ReplaceAll(t[1..], pat, [c]), u[1..]);
          assert t[..|u|] == [t[0]] + t[1..][..|u| - 1];
        }
      }
    }
  }

  /** Whitespace as Python's `str.isspace` understands it. */
  predicate IsSpace(c: char) {
    var n := c as int;
    (0x09 <= n <= 0x0D) || (0x1C <= n <= 0x20) || n == 0x85 || n == 0xA0
    || n == 0x1680 || (0x2000 <= n <= 0x200A) || n == 0x2028 || n == 0x2029
    || n == 0x202F || n == 0x205F || n == 0x3000
  }

  function StripLeft(s: string): (r: string)
    ensures |r| <= |s| && r == s[|s| - |r|..]
    ensures r == [] || !IsSpace(r[0])
  {
    if s != [] && IsSpace(s[0]) then StripLeft(s[1..]) else s
  }

  function StripRight(s: string): (r: string)
    ensures |r| <= |s| && r == s[..|r|]
    ensures r == [] || !IsSpace(r[|r| - 1])
  {
    if s != [] && IsSpace(s[|s| - 1]) then StripRight(s[..|s| - 1]) else s
  }

  /** Python's `s.strip()`. */
  function Strip(s: string): string {
    StripRight(StripLeft(s))
  }

  /** `Strip` leaves a slice of `s` with no whitespace at either end. */
  lemma StripEnds(s: string)
    ensures |s| - |StripLeft(s)| + |Strip(s)| <= |s|
    ensures Strip(s) == s[|s| - |StripLeft(s)|..|s| - |StripLeft(s)| + |Strip(s)|]
    ensures Strip(s) == [] || (!IsSpace(Strip(s)[0]) && !IsSpace(Strip(s)[|Strip(s)| - 1]))
  {
    var l := StripLeft(s);
    var i := |s| - |l|;
    assert l == s[i..];
    var r := StripRight(l);
    assert Strip(s) == r;
    assert r == l[..|r|];
    SliceOfSuffix(s, i, |r|);
    if r != [] {
      assert !IsSpace(r[|r| - 1]);
      assert l != [] && !IsSpace(l[0]);
      assert r[0] == l[0];
      assert !IsSpace(r[0]);
    }
  }

  /** A prefix of a suffix is a slice. */
  lemma SliceOfSuffix(s: string, i: nat, n: nat)
    requires i + n <= |s|
    ensures s[i..][..n] == s[i..i + n]
  {
  }

  /** A string with no whitespace at its ends is its own strip. */
  lemma StripTrimmed(s: string)
    requires s == [] || (!IsSpace(s[0]) && !IsSpace(s[|s| - 1]))
    ensures Strip(s) == s
  {
  }

  /** Stripping twice is stripping once. */
  lemma StripIdempotent(s: string)
    ensures Strip(Strip(s)) == Strip(s)
  {
    StripEnds(s);
    StripTrimmed(Strip(s));
  }

  /** A non-empty string with no whitespace at either end. */
  predicate Trimmed(s: string) {
    s != [] && !IsSpace(s[0]) && !IsSpace(s[|s| - 1])
  }

  /** A trimmed line followed by a line terminator strips back to itself. */
  lemma StripTerminated(s: string, c: char)
    requires Trimmed(s) && IsSpace(c)
    ensures Strip(s + [c]) == s
  {
    var t := s + [c];
    assert t[0] == s[0];
    assert StripLeft(t) == t;
    assert t[|t| - 1] == c;
    assert t[..|t| - 1] == s;
    assert StripRight(t) == StripRight(s);
    StripTrimmed(s);
    assert StripRight(s) == s;
  }

  /** The index of the first `c` in `s`. */
  function IndexOf(s: string, c: char): (i: nat)
    requires c in s
    ensures i < |s| && s[i] == c && c !in s[..i]
  {
    if s[0] == c then 0 else 1 + IndexOf(s[1..], c)
  }

  /** Python's `s.split(c)` for a one-character separator: the pieces
      between separators, in order; never empty. */
  function SplitOn(s: string, c: char): (parts: seq<string>)
    ensures |parts| > 0
    ensures forall k :: 0 <= k < |parts| ==> c !in parts[k]
    decreases |s|
  {
    if c !in s then [s]
    else
      var i := IndexOf(s, c);
      [s[..i]] + SplitOn(s[i + 1..], c)
  }

  /** The last piece of a split is the longest suffix free of `c`: it is
      the whole string or follows a `c`. */
  lemma {:induction false} SplitLast(s: string, c: char)
    ensures SuffixAfter(s, Last(SplitOn(s, c)), c)
    decreases |s|
  {
    if c in s {
      var i := IndexOf(s, c);
      var t := s[i + 1..];
      SplitLast(t, c);
      var rest := SplitOn(t, c);
      assert SplitOn(s, c) == [s[..i]] + rest;
      assert Last(SplitOn(s, c)) == Last(rest);
      SuffixAfterExtend(s, i, Last(rest), c);
    }
  }

  function Last(parts: seq<string>): string
    requires |parts| > 0
  {
    parts[|parts| - 1]
  }

  /** `r` is a suffix of `s` that is all of `s` or follows a `c`. */
  predicate SuffixAfter(s: string, r: string, c: char) {
    |r| <= |s| && s[|s| - |r|..] == r && (|r| < |s| ==> s[|s| - |r| - 1] == c)
  }

  lemma SuffixAfterExtend(s: string, i: nat, r: string, c: char)
    requires i < |s| && s[i] == c && SuffixAfter(s[i + 1..], r, c)
    ensures SuffixAfter(s, r, c)
  {
    var t := s[i + 1..];
    assert s[|s| - |r|..] == t[|t| - |r|..];
    if |r| < |t| {
      assert s[|s| - |r| - 1] == t[|t| - |r| - 1];
    }
  }

  /** Python's `sep.join(parts)`. */
  function Join(parts: seq<string>, sep: string): string {
    if |parts| == 0 then ""
    else if |parts| == 1 then parts[0]
    else parts[0] + sep + Join(parts[1..], sep)
  }

  /** Joining pieces free of `c` with `c` and splitting on `c` gives the pieces back. */
  lemma {:induction false} SplitJoin(parts: seq<string>, c: char)
    requires |parts| > 0
    requires forall k :: 0 <= k < |parts| ==> c !in parts[k]
    ensures SplitOn(Join(parts, [c]), c) == parts
  {
    if |parts| == 1 {
    } else {
      var s := Join(parts, [c]);
      var rest := Join(parts[1..], [c]);
      assert s == parts[0] + [c] + rest;
      assert c in s by { assert s[|parts[0]|] == c; }
      IndexAfterPiece(parts[0], rest, c);
      assert s[IndexOf(s, c) + 1..] == rest;
      assert s[..IndexOf(s, c)] == parts[0];
      SplitJoin(parts[1..], c);
    }
  }

  lemma IndexAfterPiece(p: string, rest: string, c: char)
    requires c !in p
    ensures c in p + [c] + rest
    ensures IndexOf(p + [c] + rest, c) == |p|
    ensures (p + [c] + rest)[|p| + 1..] == rest
  {
    var s := p + [c] + rest;
    assert s[|p|] == c;
    assert s[..|p|] == p;
    IndexOfFirst(s, c, |p|);
  }

  /** `IndexOf` finds the position of a `c` with no `c` before it. */
  lemma {:induction false} IndexOfFirst(s: string, c: char, j: nat)
    requires j < |s| && s[j] == c && c !in s[..j]
    ensures IndexOf(s, c) == j
  {
    if j > 0 {
      assert s[0] in s[..j];
      assert s[1..][..j - 1] == s[1..j];
      assert forall k :: 0 <= k < j - 1 ==> s[1..j][k] == s[..j][k + 1];
      IndexOfFirst(s[1..], c, j - 1);
    }
  }

  /** Python's `s.lower()` on ASCII letters; other characters are kept. */
  function ToLower(s: string): (r: string)
    ensures |r| == |s|
    ensures forall k :: 0 <= k < |s| ==> r[k] == LowerChar(s[k])
  {
    if s == [] then [] else [LowerChar(s[0])] + ToLower(s[1..])
  }

  function LowerChar(c: char): char {
    if 'A' <= c <= 'Z' then (c as int + 32) as char else c
  }

  /** Decimal rendering of a natural number, as `str(n)` gives it. */
  function NatToString(n: nat): (r: string)
    ensures |r| > 0
    ensures forall k :: 0 <= k < |r| ==> '0' <= r[k] <= '9'
  {
    if n < 10 then [DigitChar(n)] else NatToString(n / 10) + [DigitChar(n % 10)]
  }

  function DigitChar(d: nat): (c: char)
    requires d < 10
    ensures '0' <= c <= '9' && c as int - '0' as int == d
  {
    ('0' as int + d) as char
  }

  /** `str(i)` for an integer of either sign. */
  function IntToString(i: int): string {
    if i < 0 then "-" + NatToString(-i) else NatToString(i)
  }
}
