/** The few Python `str` operations the response sectioner relies on, with the
    semantics CPython gives them: `isspace`/`strip()`, `split('\n')`,
    `'\n'.join`, `replace`, `in` and `startswith`. */
module PyText {

  /** The characters `str.isspace()` accepts, which `str.strip()` with no
      argument removes from both ends: the ASCII controls TAB to CR and FS to
      US, SPACE, NEL, NO-BREAK SPACE, OGHAM SPACE MARK, the spaces U+2000 to
      U+200A, LINE and PARAGRAPH SEPARATOR, NARROW NO-BREAK SPACE, MEDIUM
      MATHEMATICAL SPACE and IDEOGRAPHIC SPACE. */
  predicate IsSpace(c: char) {
    var n := c as int;
    (0x09 <= n <= 0x0D) || (0x1C <= n <= 0x20) || n == 0x85 || n == 0xA0 ||
    n == 0x1680 || (0x2000 <= n <= 0x200A) || n == 0x2028 || n == 0x2029 ||
    n == 0x202F || n == 0x205F || n == 0x3000
  }

  /** Space, tab, newline and carriage return are whitespace; the backslash,
      the letter `n`, the period and the digits, which make up escapes and
      heading numbers, are not. */
  lemma SpaceChars(c: char)
    ensures c == ' ' || c == '\t' || c == '\n' || c == '\r' ==> IsSpace(c)
    ensures IsSpace(c) ==> c != '\\' && c != 'n' && c != '.' && !('0' <= c <= '9')
  {
  }

  predicate AllSpace(s: string) {
    forall i :: 0 <= i < |s| ==> IsSpace(s[i])
  }

  /** No whitespace at either end: what `strip()` leaves behind. */
  predicate Stripped(s: string) {
    s == [] || (!IsSpace(s[0]) && !IsSpace(s[|s| - 1]))
  }

  /** The end of the run of whitespace in `s` that starts at index `i`. */
  function SpaceRunEnd(s: string, i: nat): (n: nat)
    requires i <= |s|
    ensures i <= n <= |s|
    ensures forall k :: i <= k < n ==> IsSpace(s[k])
    ensures n < |s| ==> !IsSpace(s[n])
    decreases |s| - i
  {
    if i == |s| || !IsSpace(s[i]) then i else SpaceRunEnd(s, i + 1)
  }

  /** The start of the run of whitespace in `s` that ends just before index
      `j`. */
  function SpaceRunStart(s: string, j: nat): (n: nat)
    requires j <= |s|
    ensures n <= j
    ensures forall k :: n <= k < j ==> IsSpace(s[k])
    ensures 0 < n ==> !IsSpace(s[n - 1])
  {
    if j == 0 || !IsSpace(s[j - 1]) then j else SpaceRunStart(s, j - 1)
  }

  /** `s.strip()`: what lies between the leading and the trailing whitespace
      of `s`. It has no whitespace at either end, it is empty exactly when
      `s` is all whitespace, and every character of it is one of `s`. */
  function Strip(s: string): (r: string)
    ensures Stripped(r)
    ensures r == [] <==> AllSpace(s)
    ensures forall c :: c in r ==> c in s
  {
    var a := SpaceRunEnd(s, 0);
    if a == |s| then []
    else
      var b := SpaceRunStart(s, |s|);
      assert a < b;
      assert forall c :: c in s[a..b] ==> c in s;
      s[a..b]
  }

  /** `s` is some whitespace, then `s.strip()`, then some more whitespace. */
  lemma StripInfix(s: string)
    ensures exists a :: 0 <= a <= |s| - |Strip(s)| && s[a..a + |Strip(s)|] == Strip(s) &&
                        AllSpace(s[..a]) && AllSpace(s[a + |Strip(s)|..])
  {
    var a := SpaceRunEnd(s, 0);
    if a == |s| {
      assert s[|s|..|s|] == [] && s[..|s|] == s;
    } else {
      var b := SpaceRunStart(s, |s|);
      assert Strip(s) == s[a..b];
      assert s[a..a + |Strip(s)|] == Strip(s);
      assert AllSpace(s[..a]) && AllSpace(s[b..]);
    }
  }

  /** A string with no whitespace at its ends is its own `strip()`. */
  lemma StripStripped(s: string)
    requires Stripped(s)
    ensures Strip(s) == s
  {
  }

  /** `'\n'.join(ls)`. */
  function JoinLines(ls: seq<string>): (r: string)
    ensures forall k, c :: 0 <= k < |ls| && c in ls[k] ==> c in r
    ensures forall c :: c in r ==> c == '\n' || exists k :: 0 <= k < |ls| && c in ls[k]
  {
    if |ls| == 0 then ""
    else if |ls| == 1 then ls[0]
    else ls[0] + "\n" + JoinLines(ls[1..])
  }

  /** `s.split('\n')`: the pieces between the newlines of `s`, always at least
      one, none holding a newline and every character taken from `s`. */
  function SplitLines(s: string): (r: seq<string>)
    ensures |r| >= 1
    ensures forall k :: 0 <= k < |r| ==> '\n' !in r[k]
    ensures forall k, c :: 0 <= k < |r| && c in r[k] ==> c in s
  {
    if |s| == 0 then [""]
    else
      var rest := SplitLines(s[1..]);
      assert forall c :: c in s[1..] ==> c in s;
      if s[0] == '\n' then [""] + rest
      else [[s[0]] + rest[0]] + rest[1..]
  }

  /** Splitting on newlines, then joining with newlines, gives the text back. */
  lemma {:induction false} JoinSplit(s: string)
    ensures JoinLines(SplitLines(s)) == s
  {
    if |s| > 0 {
      var rest := SplitLines(s[1..]);
      JoinSplit(s[1..]);
      if s[0] == '\n' {
        assert SplitLines(s)[1..] == rest;
      } else {
        var r := SplitLines(s);
        assert r[0] == [s[0]] + rest[0] && r[1..] == rest[1..];
        if |rest| > 1 {
          assert JoinLines(rest) == rest[0] + "\n" + JoinLines(rest[1..]);
        }
      }
    }
  }

  /** Joining newline-free lines, then splitting, gives the lines back. */
  lemma {:induction false} SplitJoin(ls: seq<string>)
    requires |ls| >= 1
    requires forall k :: 0 <= k < |ls| ==> '\n' !in ls[k]
    ensures SplitLines(JoinLines(ls)) == ls
  {
    if |ls| == 1 {
      SplitPiece(ls[0]);
    } else {
      SplitJoin(ls[1..]);
      assert ls[0] + "\n" + JoinLines(ls[1..]) == ls[0] + ("\n" + JoinLines(ls[1..]));
      SplitAfterNewline(ls[0], JoinLines(ls[1..]));
    }
  }

  /** Splitting a newline-free string gives it alone. */
  lemma {:induction false} SplitPiece(x: string)
    requires '\n' !in x
    ensures SplitLines(x) == [x]
  {
    if |x| > 0 {
      SplitPiece(x[1..]);
      assert [x[0]] + x[1..] == x;
    }
  }

  /** The first piece of `x + "\n" + y` is `x` when `x` has no newline. */
  lemma {:induction false} SplitAfterNewline(x: string, y: string)
    requires '\n' !in x
    ensures SplitLines(x + "\n" + y) == [x] + SplitLines(y)
  {
    if |x| == 0 {
      assert x + "\n" + y == "\n" + y;
      assert ("\n" + y)[1..] == y;
    } else {
      SplitAfterNewline(x[1..], y);
      assert (x + "\n" + y)[1..] == x[1..] + "\n" + y;
      assert [x[0]] + x[1..] == x;
    }
  }

  /** `s.startswith(p)`. */
  predicate StartsWith(s: string, p: string) {
    |p| <= |s| && s[..|p|] == p
  }

  /** `s` starts with `p` exactly when `p` is no longer than `s` and they
      agree character by character. */
  lemma StartsWithAt(s: string, p: string)
    ensures StartsWith(s, p) <==> |p| <= |s| && forall i :: 0 <= i < |p| ==> s[i] == p[i]
  {
    if |p| <= |s| && forall i :: 0 <= i < |p| ==> s[i] == p[i] {
      assert s[..|p|] == p;
    }
  }

  /** `s` starts with `p` exactly when `s` is `p` followed by some text. */
  lemma StartsWithConcat(s: string, p: string)
    ensures StartsWith(s, p) <==> exists t :: s == p + t
  {
    if StartsWith(s, p) {
      assert s == p + s[|p|..];
    }
    forall t | s == p + t
      ensures StartsWith(s, p)
    {
      assert s[..|p|] == p;
    }
  }

  /** `pat in s`: `pat` occurs somewhere in `s`. */
  predicate Contains(s: string, pat: string)
    decreases |s|
  {
    |pat| <= |s| && (s[..|pat|] == pat || Contains(s[1..], pat))
  }

  /** A string containing `pat` contains every part of `pat`. */
  lemma {:induction false} ContainsInfix(s: string, pat: string, i: nat, j: nat)
    requires i <= j <= |pat|
    requires Contains(s, pat)
    ensures Contains(s, pat[i..j])
    decreases |s|
  {
    if s[..|pat|] == pat {
      assert s[i..][..j - i] == pat[i..j];
      ContainsFrom(s, pat[i..j], i);
    } else {
      ContainsInfix(s[1..], pat, i, j);
    }
  }

  /** An occurrence of `pat` at position `i` of `s` is an occurrence in `s`. */
  lemma {:induction false} ContainsFrom(s: string, pat: string, i: nat)
    requires i <= |s| && StartsWith(s[i..], pat)
    ensures Contains(s, pat)
    decreases i
  {
    if i > 0 {
      assert s[1..][i - 1..] == s[i..];
      ContainsFrom(s[1..], pat, i - 1);
    }
  }

  /** `s.replace(pat, rep)` for a non-empty `pat`: occurrences are taken from
      left to right without overlapping, and a string without `pat` is
      returned as it is. */
  function Replace(s: string, pat: string, rep: string): (r: string)
    requires pat != []
    ensures !Contains(s, pat) ==> r == s
    decreases |s|
  {
    if |s| < |pat| then s
    else if s[..|pat|] == pat then rep + Replace(s[|pat|..], pat, rep)
    else [s[0]] + Replace(s[1..], pat, rep)
  }

  /** When `x` does not hold the first character of `pat`, no occurrence can
      start inside `x`: `replace` keeps `x` and goes on after it. */
  lemma {:induction false} ReplaceSkip(x: string, y: string, pat: string, rep: string)
    requires pat != [] && pat[0] !in x
    ensures Replace(x + y, pat, rep) == x + Replace(y, pat, rep)
    decreases |x|
  {
    if x == [] {
      assert x + y == y;
    } else {
      var c, u := x[0], x[1..];
      assert x == [c] + u;
      assert pat[0] !in u by {
        assert forall ch :: ch in u ==> ch in x;
      }
      calc {
        Replace(x + y, pat, rep);
        { assert x + y == [c] + (u + y); }
        Replace([c] + (u + y), pat, rep);
        { ReplaceMiss(c, u + y, pat, rep); }
        [c] + Replace(u + y, pat, rep);
        { ReplaceSkip(u, y, pat, rep); }
        [c] + (u + Replace(y, pat, rep));
        x + Replace(y, pat, rep);
      }
    }
  }

  /** When no occurrence of `pat` starts inside `x`, `replace` keeps `x`
      and goes on after it, wherever occurrences in `x + y` begin past `x`. */
  lemma {:induction false} ReplaceSkipGen(x: string, y: string, pat: string, rep: string)
    requires pat != []
    requires forall i :: 0 <= i < |x| ==> !StartsWith((x + y)[i..], pat)
    ensures Replace(x + y, pat, rep) == x + Replace(y, pat, rep)
    decreases |x|
  {
    if x == [] {
      assert x + y == y;
    } else {
      var s, u := x + y, x[1..];
      assert s[0..] == s && s[1..] == u + y;
      forall i | 0 <= i < |u|
        ensures !StartsWith((u + y)[i..], pat)
      {
        assert (u + y)[i..] == s[i + 1..];
      }
      calc {
        Replace(s, pat, rep);
        { ReplaceNoMatch(s, pat, rep); }
        [s[0]] + Replace(u + y, pat, rep);
        { ReplaceSkipGen(u, y, pat, rep); }
        [x[0]] + (u + Replace(y, pat, rep));
        { assert [x[0]] + u == x; }
        x + Replace(y, pat, rep);
      }
    }
  }

  /** The leftmost occurrence rule: when the first occurrence of `pat` comes
      right after `x`, `replace` keeps `x`, replaces that occurrence and goes
      on after it, so occurrences never overlap. */
  lemma ReplaceFirst(x: string, y: string, pat: string, rep: string)
    requires pat != []
    requires forall i :: 0 <= i < |x| ==> !StartsWith((x + pat + y)[i..], pat)
    ensures Replace(x + pat + y, pat, rep) == x + rep + Replace(y, pat, rep)
  {
    assert x + pat + y == x + (pat + y);
    ReplaceSkipGen(x, pat + y, pat, rep);
    ReplaceMatch(pat, y, rep);
  }

  /** A character other than the first of `pat` is kept, and `replace` goes
      on after it. */
  lemma ReplaceMiss(c: char, t: string, pat: string, rep: string)
    requires pat != [] && c != pat[0]
    ensures Replace([c] + t, pat, rep) == [c] + Replace(t, pat, rep)
  {
    var s := [c] + t;
    assert s[1..] == t;
    if |s| >= |pat| {
      assert s[..|pat|][0] == c;
    }
    ReplaceNoMatch(s, pat, rep);
  }

  /** Where no occurrence starts, the first character is kept and `replace`
      goes on after it. */
  lemma ReplaceNoMatch(s: string, pat: string, rep: string)
    requires pat != [] && s != [] && !StartsWith(s, pat)
    ensures Replace(s, pat, rep) == [s[0]] + Replace(s[1..], pat, rep)
  {
    if |s| < |pat| {
      assert Replace(s[1..], pat, rep) == s[1..];
      assert [s[0]] + s[1..] == s;
    }
  }

  /** An occurrence at the start is replaced, and `replace` goes on after
      it. */
  lemma ReplaceMatch(pat: string, y: string, rep: string)
    requires pat != []
    ensures Replace(pat + y, pat, rep) == rep + Replace(y, pat, rep)
  {
    assert (pat + y)[..|pat|] == pat;
    assert (pat + y)[|pat|..] == y;
  }
}
