/** Normalisation of escaped newlines in the model's reply: the reply may spell
    a line break as the two characters backslash and `n`, or with the
    backslash doubled, instead of as a real newline. */
module Escapes {
  import opened PyText

  /** Backslash followed by `n`. */
  const EscapedNewline: string := ['\\', 'n']

  /** Backslash, backslash, `n`. */
  const DoubleEscapedNewline: string := ['\\', '\\', 'n']

  /** The two chained `replace` calls: doubled escapes first, then the single
      ones that remain. What comes out holds no escaped newline, and text that
      holds none comes out unchanged. */
  function Normalize(s: string): (r: string)
    ensures !Contains(r, EscapedNewline)
    ensures !Contains(s, EscapedNewline) ==> r == s
  {
    var once := Replace(s, DoubleEscapedNewline, "\n");
    UnescapeLeavesNoEscape(once);
    DoubleHoldsSingle(s);
    Replace(once, EscapedNewline, "\n")
  }

  /** Text holding a doubled escape holds a single one inside it. */
  lemma DoubleHoldsSingle(s: string)
    ensures Contains(s, DoubleEscapedNewline) ==> Contains(s, EscapedNewline)
  {
    if Contains(s, DoubleEscapedNewline) {
      ContainsInfix(s, DoubleEscapedNewline, 1, 3);
      assert DoubleEscapedNewline[1..3] == EscapedNewline;
    }
  }

  /** The second pass leaves no escaped newline behind: each replacement is a
      newline, which can neither be nor complete the `n` of a new match. */
  lemma {:induction false} UnescapeLeavesNoEscape(s: string)
    ensures !Contains(Replace(s, EscapedNewline, "\n"), EscapedNewline)
    decreases |s|
  {
    var r := Replace(s, EscapedNewline, "\n");
    if |s| >= 2 {
      if s[..2] == EscapedNewline {
        var t := Replace(s[2..], EscapedNewline, "\n");
        UnescapeLeavesNoEscape(s[2..]);
        assert r == "\n" + t && r[1..] == t;
        assert r[0] == '\n' && EscapedNewline[0] == '\\';
      } else {
        var u := s[1..];
        var t := Replace(u, EscapedNewline, "\n");
        UnescapeLeavesNoEscape(u);
        assert r == [s[0]] + t && r[1..] == t;
        assert |u| >= 1;
        if |u| >= 2 && u[..2] == EscapedNewline {
          assert t == "\n" + Replace(u[2..], EscapedNewline, "\n");
        } else {
          assert t == [u[0]] + Replace(u[1..], EscapedNewline, "\n");
        }
        assert r[..2] != EscapedNewline;
      }
    }
  }

  /** Normalising twice is normalising once. */
  lemma NormalizeIdempotent(s: string)
    ensures Normalize(Normalize(s)) == Normalize(s)
  {
  }

  /** Whitespace-only text holds no backslash, so normalisation keeps it. */
  lemma {:induction false} NormalizeBlank(s: string)
    requires AllSpace(s)
    ensures !Contains(s, EscapedNewline) && Normalize(s) == s
    decreases |s|
  {
    if |s| >= 2 {
      assert s[..2] != EscapedNewline by { assert !IsSpace('\\') && IsSpace(s[0]); }
      NormalizeBlank(s[1..]);
    }
  }

  /** The doubled escape is converted whole: "A\\nB\nC", spelled with literal
      backslashes, becomes the three lines A, B and C. */
  lemma DoubledEscapeFirst()
    ensures Normalize(['A', '\\', '\\', 'n', 'B', '\\', 'n', 'C']) == "A\nB\nC"
  {
    DoubledPass();
    SinglePass();
  }

  /** The first pass turns the doubled escape into a newline and leaves the
      single one alone. */
  lemma DoubledPass()
    ensures Replace(['A', '\\', '\\', 'n', 'B', '\\', 'n', 'C'], DoubleEscapedNewline, "\n") ==
              ['A', '\n', 'B', '\\', 'n', 'C']
  {
    var s: string := ['A', '\\', '\\', 'n', 'B', '\\', 'n', 'C'];
    var p := DoubleEscapedNewline;
    var tail: string := ['\\', 'n', 'C'];
    assert tail[1..] == ['n', 'C'] && tail[..3][1] != p[1];
    assert Replace(tail, p, "\n") == tail;
    assert Replace(['B', '\\', 'n', 'C'], p, "\n") == ['B', '\\', 'n', 'C'];
    assert Replace(s[1..], p, "\n") == ['\n', 'B', '\\', 'n', 'C'];
  }

  /** The second pass turns the single escape that is left into a newline. */
  lemma SinglePass()
    ensures Replace(['A', '\n', 'B', '\\', 'n', 'C'], EscapedNewline, "\n") == "A\nB\nC"
  {
    var q := EscapedNewline;
    var once: string := ['A', '\n', 'B', '\\', 'n', 'C'];
    assert Replace(['\\', 'n', 'C'], q, "\n") == ['\n', 'C'];
    assert Replace(['B', '\\', 'n', 'C'], q, "\n") == ['B', '\n', 'C'];
    assert Replace(once[1..], q, "\n") == ['\n', 'B', '\n', 'C'];
  }

  /** Had the single-escape pass run alone, a doubled escape would have been
      half converted, leaving a stray backslash before the line break. */
  lemma SinglePassHalfConverts()
    ensures Replace(DoubleEscapedNewline, EscapedNewline, "\n") == ['\\', '\n']
  {
  }

  /** A single escaped newline after backslash-free text becomes a real
      newline, and normalisation goes on after it. */
  lemma NormalizeEscape(x: string, y: string)
    requires '\\' !in x
    ensures Normalize(x + EscapedNewline + y) == x + "\n" + Normalize(y)
  {
    var d, e := DoubleEscapedNewline, EscapedNewline;
    var once := Replace(y, d, "\n");
    calc {
      Replace(x + e + y, d, "\n");
      { assert x + e + y == x + (e + y); ReplaceSkip(x, e + y, d, "\n"); }
      x + Replace(e + y, d, "\n");
      { EscapeNotDoubled(y); }
      x + (e + once);
    }
    calc {
      Replace(x + (e + once), e, "\n");
      { ReplaceSkip(x, e + once, e, "\n"); }
      x + Replace(e + once, e, "\n");
      { ReplaceMatch(e, once, "\n"); }
      x + ("\n" + Replace(once, e, "\n"));
      x + "\n" + Normalize(y);
    }
  }

  /** The first pass passes over a single escape. */
  lemma EscapeNotDoubled(y: string)
    ensures Replace(EscapedNewline + y, DoubleEscapedNewline, "\n") ==
              EscapedNewline + Replace(y, DoubleEscapedNewline, "\n")
  {
    var d := DoubleEscapedNewline;
    calc {
      Replace(EscapedNewline + y, d, "\n");
      { var s := EscapedNewline + y;
        assert s[1..] == ['n'] + y;
        assert !StartsWith(s, d) by {
          if |d| <= |s| {
            assert s[..|d|][1] != d[1];
          }
        }
        ReplaceNoMatch(s, d, "\n"); }
      ['\\'] + Replace(['n'] + y, d, "\n");
      { ReplaceMiss('n', y, d, "\n"); }
      ['\\'] + (['n'] + Replace(y, d, "\n"));
      EscapedNewline + Replace(y, d, "\n");
    }
  }

  /** A doubled escaped newline after backslash-free text becomes a single
      real newline, and normalisation goes on after it. */
  lemma NormalizeDoubleEscape(x: string, y: string)
    requires '\\' !in x
    ensures Normalize(x + DoubleEscapedNewline + y) == x + "\n" + Normalize(y)
  {
    var d, e := DoubleEscapedNewline, EscapedNewline;
    var once := Replace(y, d, "\n");
    calc {
      Replace(x + d + y, d, "\n");
      { assert x + d + y == x + (d + y); ReplaceSkip(x, d + y, d, "\n"); }
      x + Replace(d + y, d, "\n");
      { ReplaceMatch(d, y, "\n"); }
      (x + "\n") + once;
    }
    calc {
      Replace((x + "\n") + once, e, "\n");
      { ReplaceSkip(x + "\n", once, e, "\n"); }
      (x + "\n") + Replace(once, e, "\n");
      x + "\n" + Normalize(y);
    }
  }
}
