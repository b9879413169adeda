/** The ordinal string operations of .NET used by the renamer: `Split(char)`,
    `Contains(string)` and `Replace(string, string)`. */
module Strings {

  /** The number of occurrences of `c` in `s`. */
  function Count(s: string, c: char): (n: nat)
    ensures n <= |s|
    ensures n == 0 <==> c !in s
  {
    if s == [] then 0 else (if s[0] == c then 1 else 0) + Count(s[1..], c)
  }

  lemma {:induction false} CountConcat(a: string, b: string, c: char)
    ensures Count(a + b, c) == Count(a, c) + Count(b, c)
  {
    if a == [] {
      assert a + b == b;
    } else {
      assert (a + b)[0] == a[0] && (a + b)[1..] == a[1..] + b;
      CountConcat(a[1..], b, c);
    }
  }

  /** `s.Split(sep)`: the pieces between the separators, empty pieces included, so there
      is always one piece more than there are separators. */
  function Split(s: string, sep: char): (parts: seq<string>)
    ensures |parts| == Count(s, sep) + 1
    ensures forall i :: 0 <= i < |parts| ==> sep !in parts[i]
    ensures parts[0] <= s
    ensures sep !in s ==> parts == [s]
  {
    if s == [] then [[]]
    else
      var rest := Split(s[1..], sep);
      assert s == [s[0]] + s[1..];
      if s[0] == sep then [[]] + rest
      else [[s[0]] + rest[0]] + rest[1..]
  }

  /** Text before the first separator joins the first piece of what follows it. */
  lemma {:induction false} SplitPrefix(a: string, b: string, sep: char)
    requires sep !in a
    ensures Split(a + b, sep) == [a + Split(b, sep)[0]] + Split(b, sep)[1..]
  {
    var s := Split(b, sep);
    if a == [] {
      assert a + b == b;
      assert a + s[0] == s[0];
      assert [s[0]] + s[1..] == s;
    } else {
      var tail := a[1..] + b;
      assert a + b == [a[0]] + tail;
      assert (a + b)[1..] == tail;
      SplitPrefix(a[1..], b, sep);
      var r := Split(tail, sep);
      assert r == [a[1..] + s[0]] + s[1..];
      assert Split(a + b, sep) == [[a[0]] + r[0]] + r[1..];
      assert [a[0]] + (a[1..] + s[0]) == a + s[0];
    }
  }

  /** A separator-free piece followed by a separator is split off whole. */
  lemma SplitAfterPiece(a: string, b: string, sep: char)
    requires sep !in a
    ensures Split(a + [sep] + b, sep) == [a] + Split(b, sep)
  {
    var t := [sep] + b;
    assert a + [sep] + b == a + t;
    SplitPrefix(a, t, sep);
    assert t[0] == sep && t[1..] == b;
    var r := Split(t, sep);
    assert r == [[]] + Split(b, sep);
    assert a + r[0] == a;
  }

  /** Two separator-free pieces, each followed by the separator, are split off whole. */
  lemma SplitTwoPieces(a: string, b: string, c: string, sep: char)
    requires sep !in a && sep !in b
    ensures Split(a + [sep] + b + [sep] + c, sep) == [a, b] + Split(c, sep)
  {
    var tail := b + [sep] + c;
    var rest := Split(c, sep);
    assert Split(tail, sep) == [b] + rest by {
      SplitAfterPiece(b, c, sep);
    }
    assert Split(a + [sep] + b + [sep] + c, sep) == [a] + Split(tail, sep) by {
      assert a + [sep] + b + [sep] + c == a + [sep] + tail;
      SplitAfterPiece(a, tail, sep);
    }
    assert [a] + ([b] + rest) == [a, b] + rest;
  }

  /** The first piece of `s.Split(sep)`: `s` up to its first separator. */
  function UpTo(s: string, sep: char): (r: string)
    ensures r <= s && sep !in r
    ensures sep !in s ==> r == s
  {
    Split(s, sep)[0]
  }

  /** Text after the first separator has no bearing on the first piece. */
  lemma {:induction false} UpToStops(a: string, b: string, sep: char)
    requires sep in a
    ensures UpTo(a + b, sep) == UpTo(a, sep)
    decreases |a|
  {
    assert (a + b)[0] == a[0] && (a + b)[1..] == a[1..] + b;
    if a[0] != sep {
      assert sep in a[1..];
      UpToStops(a[1..], b, sep);
    }
  }

  /** Separator-free text in front is part of the first piece. */
  lemma UpToAfterPlain(a: string, b: string, sep: char)
    requires sep !in a
    ensures UpTo(a + b, sep) == a + UpTo(b, sep)
  {
    SplitPrefix(a, b, sep);
  }

  /** Ordinal `s.Contains(pat)`. */
  predicate Contains(s: string, pat: string)
    decreases |s|
  {
    pat <= s || (s != [] && Contains(s[1..], pat))
  }

  /** Ordinal `s.Replace(pat, rep)`: occurrences are found left to right and do not overlap. */
  function ReplaceAll(s: string, pat: string, rep: string): string
    requires pat != []
    decreases |s|
  {
    if s == [] then []
    else if pat <= s then rep + ReplaceAll(s[|pat|..], pat, rep)
    else [s[0]] + ReplaceAll(s[1..], pat, rep)
  }

  /** Replacing a pattern that does not occur changes nothing. */
  lemma {:induction false} ReplaceAllAbsent(s: string, pat: string, rep: string)
    requires pat != [] && !Contains(s, pat)
    ensures ReplaceAll(s, pat, rep) == s
    decreases |s|
  {
    if s != [] {
      ReplaceAllAbsent(s[1..], pat, rep);
    }
  }

  /** When the pattern occurs, a one-character replacement shows up in the result. */
  lemma {:induction false} ReplaceAllInserts(s: string, pat: string, c: char)
    requires pat != [] && Contains(s, pat)
    ensures c in ReplaceAll(s, pat, [c])
    decreases |s|
  {
    if !(pat <= s) {
      ReplaceAllInserts(s[1..], pat, c);
    }
  }

  /** Up to the first `c` it shows, the output copies the input character for character. */
  lemma {:induction false} ReplaceAllCopies(s: string, pat: string, c: char, k: nat)
    requires pat != []
    requires k <= |ReplaceAll(s, pat, [c])|
    ensures c in ReplaceAll(s, pat, [c])[..k] || (k <= |s| && ReplaceAll(s, pat, [c])[..k] == s[..k])
    decreases |s|
  {
    var r := ReplaceAll(s, pat, [c]);
    if k > 0 {
      if pat <= s {
        assert r[..k][0] == c;
      } else {
        var r' := ReplaceAll(s[1..], pat, [c]);
        assert r == [s[0]] + r';
        assert r[..k] == [s[0]] + r'[..k - 1];
        ReplaceAllCopies(s[1..], pat, c, k - 1);
        if c !in r[..k] {
          assert c !in r'[..k - 1];
          assert s[..k] == [s[0]] + s[1..][..k - 1];
        }
      }
    }
  }

  /** Replacing every occurrence by a character the pattern does not contain leaves no
      occurrence behind. */
  lemma {:induction false} ReplaceAllRemoves(s: string, pat: string, c: char)
    requires pat != [] && c !in pat
    ensures !Contains(ReplaceAll(s, pat, [c]), pat)
    decreases |s|
  {
    var r := ReplaceAll(s, pat, [c]);
    if s == [] {
      assert r == [];
      assert !(pat <= r);
    } else if pat <= s {
      ReplaceAllRemoves(s[|pat|..], pat, c);
      assert r[1..] == ReplaceAll(s[|pat|..], pat, [c]);
      assert r[0] == c && pat[0] != c;
    } else {
      ReplaceAllRemoves(s[1..], pat, c);
      assert r[1..] == ReplaceAll(s[1..], pat, [c]);
      if |pat| <= |r| {
        ReplaceAllCopies(s, pat, c, |pat|);
      }
    }
  }

  /** An occurrence after some text is still an occurrence. */
  lemma {:induction false} ContainsAfter(a: string, b: string, pat: string)
    requires Contains(b, pat)
    ensures Contains(a + b, pat)
    decreases |a|
  {
    if a != [] {
      assert (a + b)[1..] == a[1..] + b;
      ContainsAfter(a[1..], b, pat);
    } else {
      assert a + b == b;
    }
  }

  /** Text in which the pattern's first character never occurs is copied unchanged
      in front of the replaced rest. */
  lemma {:induction false} ReplaceAllAfterPlain(a: string, b: string, pat: string, rep: string)
    requires pat != [] && pat[0] !in a
    ensures ReplaceAll(a + b, pat, rep) == a + ReplaceAll(b, pat, rep)
    decreases |a|
  {
    if a == [] {
      assert a + b == b;
    } else {
      assert (a + b)[0] == a[0] && (a + b)[1..] == a[1..] + b;
      assert !(pat <= a + b);
      ReplaceAllAfterPlain(a[1..], b, pat, rep);
    }
  }
  /** `string.Join(sep, pieces)`: the pieces with `sep` between each two of them. */
  function Join(pieces: seq<string>, sep: string): string
  {
    if pieces == [] then []
    else if |pieces| == 1 then pieces[0]
    else pieces[0] + sep + Join(pieces[1..], sep)
  }

  /** Splitting on a character undoes joining with it, when no piece holds it. */
  lemma {:induction false} SplitJoin(pieces: seq<string>, sep: char)
    requires pieces != []
    requires forall i :: 0 <= i < |pieces| ==> sep !in pieces[i]
    ensures Split(Join(pieces, [sep]), sep) == pieces
  {
    if |pieces| > 1 {
      var rest := pieces[1..];
      SplitJoin(rest, sep);
      SplitAfterPiece(pieces[0], Join(rest, [sep]), sep);
      assert pieces == [pieces[0]] + rest;
    }
  }

  /** Replace against its reference: text made of pieces joined by the pattern, where no
      piece holds the pattern's first character, comes out as the same pieces joined by
      the replacement. */
  lemma {:induction false} ReplaceAllJoin(pieces: seq<string>, pat: string, rep: string)
    requires pat != []
    requires forall i :: 0 <= i < |pieces| ==> pat[0] !in pieces[i]
    ensures ReplaceAll(Join(pieces, pat), pat, rep) == Join(pieces, rep)
  {
    if |pieces| == 1 {
      ReplaceAllAfterPlain(pieces[0], [], pat, rep);
      assert pieces[0] + [] == pieces[0];
    } else if |pieces| > 1 {
      var rest := pieces[1..];
      var tail := pat + Join(rest, pat);
      assert Join(pieces, pat) == pieces[0] + tail;
      ReplaceAllAfterPlain(pieces[0], tail, pat, rep);
      assert pat <= tail && tail[|pat|..] == Join(rest, pat);
      ReplaceAllJoin(rest, pat, rep);
      assert ReplaceAll(tail, pat, rep) == rep + Join(rest, rep);
    }
  }
}
