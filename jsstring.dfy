/** The two ECMAScript string built-ins the scraper relies on:
    `String.prototype.trim` and `String.prototype.split` with a one-character
    separator. */
module JsString {
  import opened Seqs

  /** ECMAScript WhiteSpace and LineTerminator code points: the characters
      `trim` removes. */
  predicate IsWhiteSpace(c: char) {
    var n := c as int;
    n == 0x09 || n == 0x0A || n == 0x0B || n == 0x0C || n == 0x0D || n == 0x20
    || n == 0xA0 || n == 0x1680 || (0x2000 <= n <= 0x200A)
    || n == 0x2028 || n == 0x2029 || n == 0x202F || n == 0x205F
    || n == 0x3000 || n == 0xFEFF
  }

  predicate AllWhiteSpace(s: string) {
    forall k :: 0 <= k < |s| ==> IsWhiteSpace(s[k])
  }

  /** Neither the first nor the last character is white space. */
  predicate IsTrimmed(s: string) {
    s == [] || (!IsWhiteSpace(s[0]) && !IsWhiteSpace(s[|s| - 1]))
  }

  /** Drops the leading white space: what is left is a suffix of `s` that does
      not start with white space, and everything dropped was white space. */
  function TrimStart(s: string): (r: string)
    ensures |r| <= |s| && r == s[|s| - |r|..]
    ensures AllWhiteSpace(s[..|s| - |r|])
    ensures r == [] || !IsWhiteSpace(r[0])
    decreases |s|
  {
    if |s| > 0 && IsWhiteSpace(s[0]) then
      var r := TrimStart(s[1..]);
      assert s[..|s| - |r|] == [s[0]] + s[1..][..|s| - 1 - |r|];
      r
    else s
  }

  /** Drops the trailing white space: what is left is a prefix of `s` that does
      not end with white space, and everything dropped was white space. */
  function TrimEnd(s: string): (r: string)
    ensures |r| <= |s| && r == s[..|r|]
    ensures AllWhiteSpace(s[|r|..])
    ensures r == [] || !IsWhiteSpace(r[|r| - 1])
    decreases |s|
  {
    if |s| > 0 && IsWhiteSpace(s[|s| - 1]) then
      var r := TrimEnd(s[..|s| - 1]);
      assert s[|r|..] == s[..|s| - 1][|r|..] + [s[|s| - 1]];
      r
    else s
  }

  /** `s.trim()`. */
  function Trim(s: string): (r: string)
    ensures IsTrimmed(r)
  {
    var t := TrimStart(s);
    var r := TrimEnd(t);
    assert r != [] ==> r[0] == t[0];
    r
  }

  /** Leading white space in front of a string that does not start with white
      space is exactly what `TrimStart` drops. */
  lemma {:induction false} TrimStartStops(p: string, rest: string)
    requires AllWhiteSpace(p) && (rest == [] || !IsWhiteSpace(rest[0]))
    ensures TrimStart(p + rest) == rest
    decreases |p|
  {
    if |p| == 0 {
      assert p + rest == rest;
    } else {
      assert (p + rest)[0] == p[0];
      assert (p + rest)[1..] == p[1..] + rest;
      TrimStartStops(p[1..], rest);
    }
  }

  /** Trailing white space behind a string that does not end with white space
      is exactly what `TrimEnd` drops. */
  lemma {:induction false} TrimEndStops(rest: string, q: string)
    requires AllWhiteSpace(q) && (rest == [] || !IsWhiteSpace(rest[|rest| - 1]))
    ensures TrimEnd(rest + q) == rest
    decreases |q|
  {
    if |q| == 0 {
      assert rest + q == rest;
    } else {
      var w := rest + q;
      assert w[|w| - 1] == q[|q| - 1];
      assert w[..|w| - 1] == rest + q[..|q| - 1];
      TrimEndStops(rest, q[..|q| - 1]);
    }
  }

  /** `trim` is characterised by its result alone: whenever `s` is some white
      space, then a string with no white space at either end, then more white
      space, the trimmed string is exactly that middle part. */
  lemma TrimUnique(p: string, m: string, q: string)
    requires AllWhiteSpace(p) && AllWhiteSpace(q) && IsTrimmed(m)
    ensures Trim(p + m + q) == m
  {
    if m == [] {
      var w := p + q;
      assert p + m + q == w + [];
      assert AllWhiteSpace(w) by {
        forall k | 0 <= k < |w| ensures IsWhiteSpace(w[k]) {
          if k < |p| { assert w[k] == p[k]; } else { assert w[k] == q[k - |p|]; }
        }
      }
      TrimStartStops(w, []);
    } else {
      assert p + m + q == p + (m + q);
      TrimStartStops(p, m + q);
      TrimEndStops(m, q);
    }
  }

  /** A string with no white space at either end is left as it is. */
  lemma TrimFixesTrimmed(s: string)
    requires IsTrimmed(s)
    ensures Trim(s) == s
  {
    assert s == [] + s + [];
    TrimUnique([], s, []);
  }

  /** Trimming twice is trimming once. */
  lemma TrimIdempotent(s: string)
    ensures Trim(Trim(s)) == Trim(s)
  {
    TrimFixesTrimmed(Trim(s));
  }

  /** Counts the occurrences of `c` in `s`. */
  function Occurrences(s: string, c: char): nat
    decreases |s|
  {
    if |s| == 0 then 0 else (if s[0] == c then 1 else 0) + Occurrences(s[1..], c)
  }

  /** `s.split(sep)` for a one-character separator: the pieces between the
      separators, from left to right; there is always at least one piece. */
  function Split(s: string, sep: char): (r: seq<string>)
    ensures |r| >= 1
    decreases |s|
  {
    if |s| == 0 then [""]
    else if s[0] == sep then [""] + Split(s[1..], sep)
    else
      var rest := Split(s[1..], sep);
      [[s[0]] + rest[0]] + rest[1..]
  }

  /** There is one more piece than there are separators, so that
      `"".split("-")` is `[""]`. */
  lemma {:induction false} SplitCount(s: string, sep: char)
    ensures |Split(s, sep)| == Occurrences(s, sep) + 1
    decreases |s|
  {
    if |s| > 0 {
      SplitCount(s[1..], sep);
    }
  }

  /** No piece of a split contains the separator. */
  lemma {:induction false} SplitPiecesLackSeparator(s: string, sep: char)
    ensures forall i :: 0 <= i < |Split(s, sep)| ==> sep !in Split(s, sep)[i]
    decreases |s|
  {
    if |s| > 0 {
      SplitPiecesLackSeparator(s[1..], sep);
      if s[0] != sep {
        var rest := Split(s[1..], sep);
        assert sep !in [s[0]] + rest[0];
      }
    }
  }

  /** `pieces.join(sep)`, the inverse of `Split`. */
  function Join(pieces: seq<string>, sep: char): string
    requires |pieces| >= 1
    decreases |pieces|
  {
    if |pieces| == 1 then pieces[0] else pieces[0] + [sep] + Join(pieces[1..], sep)
  }

  /** Splitting and joining again with the same separator gives back `s`. */
  lemma {:induction false} JoinSplit(s: string, sep: char)
    ensures Join(Split(s, sep), sep) == s
    decreases |s|
  {
    if |s| == 0 {
    } else if s[0] == sep {
      JoinSplit(s[1..], sep);
      var rest := Split(s[1..], sep);
      assert Split(s, sep) == [""] + rest;
      assert ([""] + rest)[1..] == rest;
      assert s == [sep] + s[1..];
    } else {
      JoinSplit(s[1..], sep);
      var rest := Split(s[1..], sep);
      var r := Split(s, sep);
      assert r == [[s[0]] + rest[0]] + rest[1..];
      if |rest| == 1 {
        assert s == [s[0]] + s[1..];
      } else {
        assert r[1..] == rest[1..];
        assert Join(rest, sep) == rest[0] + [sep] + Join(rest[1..], sep);
        assert s == [s[0]] + s[1..];
      }
    }
  }

  /** How `Split` reads the first character. */
  lemma SplitCons(c: char, x: string, sep: char)
    ensures Split([c] + x, sep) ==
      if c == sep then [""] + Split(x, sep) else [[c] + Split(x, sep)[0]] + Split(x, sep)[1..]
  {
    assert ([c] + x)[0] == c && ([c] + x)[1..] == x;
  }

  /** A character in front of the first piece ends up in front of the
      joined string. */
  lemma JoinCons(c: char, pieces: seq<string>, sep: char)
    requires |pieces| >= 1
    ensures Join([[c] + pieces[0]] + pieces[1..], sep) == [c] + Join(pieces, sep)
  {
    var longer := [[c] + pieces[0]] + pieces[1..];
    AppendHeadTail([[c] + pieces[0]], pieces[1..]);
    if |pieces| > 1 {
      AppendAssoc([c], pieces[0], [sep]);
      AppendAssoc([c], pieces[0] + [sep], Join(pieces[1..], sep));
    }
  }

  /** Joining pieces that do not contain the separator and splitting again
      gives back the pieces. */
  lemma {:induction false} SplitJoin(pieces: seq<string>, sep: char)
    requires |pieces| >= 1
    requires forall i :: 0 <= i < |pieces| ==> sep !in pieces[i]
    ensures Split(Join(pieces, sep), sep) == pieces
    decreases |pieces|, |pieces[0]|
  {
    var p := pieces[0];
    if |p| == 0 {
      if |pieces| > 1 {
        var tail := pieces[1..];
        SplitJoin(tail, sep);
        assert Join(pieces, sep) == [sep] + Join(tail, sep);
        SplitCons(sep, Join(tail, sep), sep);
        ConsHeadTail(pieces);
      }
    } else {
      var shorter := [p[1..]] + pieces[1..];
      AppendHeadTail([p[1..]], pieces[1..]);
      assert forall i :: 0 <= i < |shorter| ==> sep !in shorter[i] by {
        forall i | 0 <= i < |shorter| ensures sep !in shorter[i] {
          if i == 0 {
            assert forall k :: 0 <= k < |p[1..]| ==> p[1..][k] == p[k + 1];
          } else {
            assert shorter[i] == pieces[i];
          }
        }
      }
      SplitJoin(shorter, sep);
      ConsHeadTail(p);
      JoinCons(p[0], shorter, sep);
      assert [[p[0]] + p[1..]] + pieces[1..] == pieces by {
        ConsHeadTail(pieces);
      }
      SplitCons(p[0], Join(shorter, sep), sep);
    }
  }

  /** Splitting a string with an extra separator and tail appended gives the
      pieces of the string followed by the pieces of the tail. */
  lemma {:induction false} SplitAppend(s: string, sep: char, tail: string)
    ensures Split(s + [sep] + tail, sep) == Split(s, sep) + Split(tail, sep)
    decreases |s|
  {
    if |s| == 0 {
      assert s + [sep] + tail == [sep] + tail;
      SplitCons(sep, tail, sep);
    } else {
      var c, x := s[0], s[1..];
      assert s == [c] + x;
      assert s + [sep] + tail == [c] + (x + [sep] + tail);
      SplitAppend(x, sep, tail);
      SplitAppendStep(c, x + [sep] + tail, x, sep, Split(tail, sep));
    }
  }

  /** The inductive step of `SplitAppend`: putting the same character in
      front of two strings whose pieces differ by a common tail. */
  lemma SplitAppendStep(c: char, w: string, x: string, sep: char, t: seq<string>)
    requires Split(w, sep) == Split(x, sep) + t
    ensures Split([c] + w, sep) == Split([c] + x, sep) + t
  {
    var rest := Split(x, sep);
    SplitCons(c, w, sep);
    SplitCons(c, x, sep);
    if c != sep {
      AppendHeadTail(rest, t);
      AppendAssoc([[c] + rest[0]], rest[1..], t);
    } else {
      AppendAssoc([""], rest, t);
    }
  }
}
