// Strings as sequences of Unicode scalar values: their UTF-8 size,
// splitting on one separator character (with and without a split limit)
// and joining back.
module Text {
  import opened Common

  /** The number of bytes UTF-8 uses for one scalar value. */
  function Utf8Width(c: char): (w: nat)
    ensures 1 <= w <= 4
    ensures w == 1 <==> (c as int) < 0x80
  {
    if (c as int) < 0x80 then 1
    else if (c as int) < 0x800 then 2
    else if (c as int) < 0x1_0000 then 3
    else 4
  }

  /** The UTF-8 byte length, which is what a Rust `String::len` reports. */
  function Utf8Len(s: string): nat
  {
    if s == [] then 0 else Utf8Width(s[0]) + Utf8Len(s[1..])
  }

  lemma {:induction false} Utf8LenAppend(a: string, b: string)
    ensures Utf8Len(a + b) == Utf8Len(a) + Utf8Len(b)
  {
    if a == [] {
      assert a + b == b;
    } else {
      assert (a + b)[0] == a[0] && (a + b)[1..] == a[1..] + b;
      Utf8LenAppend(a[1..], b);
    }
  }

  /** Every character is at least one byte and at most four. */
  lemma {:induction false} Utf8LenBounds(s: string)
    ensures |s| <= Utf8Len(s) <= 4 * |s|
  {
    if s != [] { Utf8LenBounds(s[1..]); }
  }

  /** For text whose every character has the same width, the byte length is that multiple. */
  lemma {:induction false} Utf8LenUniform(s: string, w: nat)
    requires forall i :: 0 <= i < |s| ==> Utf8Width(s[i]) == w
    ensures Utf8Len(s) == w * |s|
  {
    if s != [] {
      Utf8LenUniform(s[1..], w);
    }
  }

  /** How often `c` occurs in `s`. */
  function Count(s: string, c: char): nat
  {
    if s == [] then 0 else (if s[0] == c then 1 else 0) + Count(s[1..], c)
  }

  lemma {:induction false} CountZero(s: string, c: char)
    ensures Count(s, c) == 0 <==> c !in s
  {
    if s != [] { CountZero(s[1..], c); }
  }

  /**
   * Splitting on every occurrence of `sep`, as `str::split` with a
   * one-character pattern and Python's `str.split` with a separator do.
   */
  function Split(s: string, sep: char): (r: seq<string>)
    ensures |r| >= 1
  {
    if s == [] then [[]]
    else if s[0] == sep then [[]] + Split(s[1..], sep)
    else
      var rest := Split(s[1..], sep);
      [[s[0]] + rest[0]] + rest[1..]
  }

  /** Joining pieces with `sep` between each pair; the inverse of `Split`. */
  function Join(ps: seq<string>, sep: char): string
    requires |ps| >= 1
  {
    if |ps| == 1 then ps[0] else ps[0] + [sep] + Join(ps[1..], sep)
  }

  /** Splitting yields one piece more than there are separators. */
  lemma {:induction false} SplitCount(s: string, sep: char)
    ensures |Split(s, sep)| == Count(s, sep) + 1
  {
    if s != [] { SplitCount(s[1..], sep); }
  }

  /** No piece of a split contains the separator. */
  lemma {:induction false} SplitPiecesClean(s: string, sep: char)
    ensures forall i :: 0 <= i < |Split(s, sep)| ==> sep !in Split(s, sep)[i]
  {
    if s != [] { SplitPiecesClean(s[1..], sep); }
  }

  /** Joining the pieces of a split gives the text back. */
  lemma {:induction false} JoinSplit(s: string, sep: char)
    ensures Join(Split(s, sep), sep) == s
  {
    if s != [] {
      JoinSplit(s[1..], sep);
      var rest := Split(s[1..], sep);
      if s[0] != sep {
        if |rest| > 1 {
          assert ([[s[0]] + rest[0]] + rest[1..])[1..] == rest[1..];
        }
      }
    }
  }

  /** Splitting the join of separator-free pieces gives the pieces back. */
  lemma {:induction false} SplitJoin(ps: seq<string>, sep: char)
    requires |ps| >= 1
    requires forall i :: 0 <= i < |ps| ==> sep !in ps[i]
    ensures Split(Join(ps, sep), sep) == ps
  {
    if |ps| == 1 {
      SplitClean(ps[0], sep);
    } else {
      SplitJoin(ps[1..], sep);
      SplitAfterClean(ps[0], sep, Join(ps[1..], sep));
    }
  }

  /** A separator-free text is a single piece. */
  lemma {:induction false} SplitClean(s: string, sep: char)
    requires sep !in s
    ensures Split(s, sep) == [s]
  {
    if s != [] {
      SplitClean(s[1..], sep);
      assert [s[0]] + s[1..] == s;
    }
  }

  /** A separator-free prefix followed by a separator is split off as the first piece. */
  lemma {:induction false} SplitAfterClean(a: string, sep: char, b: string)
    requires sep !in a
    ensures Split(a + [sep] + b, sep) == [a] + Split(b, sep)
  {
    if a == [] {
      assert a + [sep] + b == [sep] + b;
      assert ([sep] + b)[1..] == b;
    } else {
      assert (a + [sep] + b)[1..] == a[1..] + [sep] + b;
      SplitAfterClean(a[1..], sep, b);
      assert [a[0]] + a[1..] == a;
    }
  }

  /**
   * Python's `str.split(sep, maxsplit)`: at most `maxsplit` splits, the
   * remainder of the text being the last piece.
   */
  function SplitMax(s: string, sep: char, maxsplit: nat): (r: seq<string>)
    ensures |r| >= 1
  {
    if s == [] then [[]]
    else if s[0] == sep then
      (if maxsplit == 0 then [s] else [[]] + SplitMax(s[1..], sep, maxsplit - 1))
    else
      var rest := SplitMax(s[1..], sep, maxsplit);
      [[s[0]] + rest[0]] + rest[1..]
  }

  /** With no split allowed, the whole text is one piece. */
  lemma {:induction false} SplitMaxZero(s: string, sep: char)
    ensures SplitMax(s, sep, 0) == [s]
  {
    if s != [] && s[0] != sep {
      SplitMaxZero(s[1..], sep);
      assert [s[0]] + s[1..] == s;
    }
  }

  /** A limited split never yields more than `maxsplit + 1` pieces. */
  lemma {:induction false} SplitMaxBound(s: string, sep: char, maxsplit: nat)
    ensures |SplitMax(s, sep, maxsplit)| <= maxsplit + 1
  {
    if s != [] {
      if s[0] == sep {
        if maxsplit > 0 { SplitMaxBound(s[1..], sep, maxsplit - 1); }
      } else {
        SplitMaxBound(s[1..], sep, maxsplit);
      }
    }
  }

  /** A separator-free prefix followed by a separator is split off, using up one split. */
  lemma {:induction false} SplitMaxAfterClean(a: string, sep: char, b: string, maxsplit: nat)
    requires sep !in a && maxsplit >= 1
    ensures SplitMax(a + [sep] + b, sep, maxsplit) == [a] + SplitMax(b, sep, maxsplit - 1)
  {
    if a == [] {
      assert a + [sep] + b == [sep] + b;
      assert ([sep] + b)[1..] == b;
    } else {
      assert (a + [sep] + b)[1..] == a[1..] + [sep] + b;
      SplitMaxAfterClean(a[1..], sep, b, maxsplit);
      assert [a[0]] + a[1..] == a;
    }
  }

  /** A separator-free text is a single piece whatever the limit. */
  lemma {:induction false} SplitMaxClean(s: string, sep: char, maxsplit: nat)
    requires sep !in s
    ensures SplitMax(s, sep, maxsplit) == [s]
  {
    if s != [] {
      SplitMaxClean(s[1..], sep, maxsplit);
      assert [s[0]] + s[1..] == s;
    }
  }

  /** The text before the first occurrence of `sep` (all of it when there is none). */
  function Before(s: string, sep: char): (r: string)
    ensures sep !in r
    ensures r <= s
    ensures r == s <==> sep !in s
    ensures sep in s ==> |r| < |s| && s[|r|] == sep
  {
    if s == [] then []
    else if s[0] == sep then []
    else [s[0]] + Before(s[1..], sep)
  }

  /** Text without the separator, glued to more text by it, is what comes before the first separator. */
  lemma {:induction false} BeforeGlue(a: string, sep: char, b: string)
    requires sep !in a
    ensures Before(a + [sep] + b, sep) == a
  {
    if a != [] {
      assert (a + [sep] + b)[1..] == a[1..] + [sep] + b;
      BeforeGlue(a[1..], sep, b);
    }
  }

  /** Rust's `split_once`: the text around the first separator, or None when there is none. */
  function SplitOnce(s: string, sep: char): (r: Option<(string, string)>)
    ensures r.None? <==> sep !in s
    ensures r.Some? ==> s == r.value.0 + [sep] + r.value.1 && sep !in r.value.0
  {
    if sep !in s then None
    else
      var a := Before(s, sep);
      assert s == a + [sep] + s[|a| + 1..];
      Some((a, s[|a| + 1..]))
  }

  /** Splitting two glued pieces gives them back when the first has no separator. */
  lemma SplitOnceGlue(a: string, sep: char, b: string)
    requires sep !in a
    ensures SplitOnce(a + [sep] + b, sep) == Some((a, b))
  {
    BeforeGlue(a, sep, b);
    var s := a + [sep] + b;
    assert s[|a|] == sep;
    assert s[|a| + 1..] == b;
  }

  /** With at least one split allowed, the first piece is the text before the first separator. */
  lemma {:induction false} SplitMaxFirst(s: string, sep: char, maxsplit: nat)
    requires maxsplit >= 1
    ensures SplitMax(s, sep, maxsplit)[0] == Before(s, sep)
  {
    if s != [] && s[0] != sep {
      SplitMaxFirst(s[1..], sep, maxsplit);
    }
  }
}
