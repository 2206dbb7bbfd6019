/**
 The string operations the serializer borrows from Python's `str`:
 `splitlines`, `join` and `strip`, together with the run of spaces used as
 padding. `SplitLines` breaks only at '\n' and `Strip` trims only ASCII
 whitespace; the Unicode line and space characters Python also honours are
 not modelled.
 */
module Text {

  /** A run of `n` spaces. */
  function Spaces(n: nat): string
  {
    seq(n, _ => ' ')
  }

  /** The characters `str.strip()` removes, restricted to ASCII. */
  predicate IsSpace(c: char)
  {
    c == ' ' || c == '\t' || c == '\n' || c == '\r' || c == '\U{000B}' || c == '\U{000C}'
  }

  /** The pieces of `s` between its '\n' characters (always at least one). */
  function Split(s: string): (pieces: seq<string>)
    ensures |pieces| > 0
    ensures forall p :: p in pieces ==> '\n' !in p
  {
    if s == [] then [""]
    else
      var rest := Split(s[1..]);
      if s[0] == '\n' then [""] + rest
      else [[s[0]] + rest[0]] + rest[1..]
  }

  /** Python's `splitlines`: the pieces of `s`, without the empty piece a final '\n' leaves. */
  function SplitLines(s: string): (lines: seq<string>)
    ensures forall l :: l in lines ==> '\n' !in l
  {
    var pieces := Split(s);
    if pieces[|pieces| - 1] == "" then pieces[..|pieces| - 1] else pieces
  }

  /** Python's `str.join`: the parts with `sep` between each two. */
  function Join(sep: string, parts: seq<string>): string
  {
    if |parts| == 0 then ""
    else if |parts| == 1 then parts[0]
    else parts[0] + sep + Join(sep, parts[1..])
  }

  /** Each line with `n` spaces in front of it. */
  function Reindent(n: nat, lines: seq<string>): (r: seq<string>)
    ensures |r| == |lines|
  {
    seq(|lines|, i requires 0 <= i < |lines| => Spaces(n) + lines[i])
  }

  /** Python's `lstrip`: the suffix of `s` left once the leading whitespace is gone. */
  function TrimStart(s: string): (r: string)
    ensures |r| <= |s| && r == s[|s| - |r|..]
    ensures forall k :: 0 <= k < |s| - |r| ==> IsSpace(s[k])
    ensures r == [] || !IsSpace(r[0])
  {
    if s != [] && IsSpace(s[0]) then TrimStart(s[1..]) else s
  }

  /** Python's `rstrip`: the prefix of `s` left once the trailing whitespace is gone. */
  function TrimEnd(s: string): (r: string)
    ensures |r| <= |s| && r == s[..|r|]
    ensures forall k :: |r| <= k < |s| ==> IsSpace(s[k])
    ensures r == [] || !IsSpace(r[|r| - 1])
  {
    if s != [] && IsSpace(s[|s| - 1]) then TrimEnd(s[..|s| - 1]) else s
  }

  /** Python's `strip`: whitespace trimmed from both ends. */
  function Strip(s: string): string
  {
    TrimEnd(TrimStart(s))
  }

  /**
   `s` with every '\n' followed by `pad`: the reference reading of joining the
   lines of `s` with "\n" + pad.
   */
  function Realign(s: string, pad: string): (r: string)
    ensures |r| >= |s|
  {
    if s == [] then []
    else (if s[0] == '\n' then "\n" + pad else [s[0]]) + Realign(s[1..], pad)
  }

  predicate EndsWithNewline(s: string)
  {
    |s| > 0 && s[|s| - 1] == '\n'
  }

  lemma RealignEmptyPad(s: string)
    ensures Realign(s, "") == s
  {
  }

  /** A single-line text is left as it is. */
  lemma {:induction false} RealignNoNewline(s: string, pad: string)
    requires '\n' !in s
    ensures Realign(s, pad) == s
  {
    if s != [] {
      assert '\n' !in s[1..] by {
        forall k | 0 <= k < |s[1..]|
          ensures s[1..][k] != '\n'
        {
          assert s[1..][k] == s[k + 1];
        }
      }
      RealignNoNewline(s[1..], pad);
    }
  }

  lemma {:induction false} RealignLast(s: string, pad: string)
    requires |s| > 0 && s[|s| - 1] != '\n'
    ensures |Realign(s, pad)| > 0 && Realign(s, pad)[|Realign(s, pad)| - 1] == s[|s| - 1]
  {
    if |s| > 1 {
      RealignLast(s[1..], pad);
    }
  }

  lemma RealignFirst(s: string, pad: string)
    requires |s| > 0 && s[0] != '\n'
    ensures Realign(s, pad)[0] == s[0]
  {
  }

  /** Joining the pieces with "\n" + pad puts pad after every '\n' of `s`. */
  lemma {:induction false} JoinSplit(s: string, pad: string)
    ensures Join("\n" + pad, Split(s)) == Realign(s, pad)
  {
    if s != [] {
      var rest := Split(s[1..]);
      JoinSplit(s[1..], pad);
      if s[0] == '\n' {
        assert Split(s) == [""] + rest;
      } else {
        assert Split(s) == [[s[0]] + rest[0]] + rest[1..];
        if |rest| > 1 {
          assert rest == [rest[0]] + rest[1..];
        }
      }
    }
  }

  /** Splitting at '\n' and joining with "\n" gives the text back. */
  lemma SplitRoundTrip(s: string)
    ensures Join("\n", Split(s)) == s
  {
    JoinSplit(s, "");
    RealignEmptyPad(s);
  }

  /** The last piece is empty exactly when there is nothing after the last '\n'. */
  lemma {:induction false} SplitLastEmpty(s: string)
    ensures var p := Split(s); p[|p| - 1] == "" <==> (s == [] || EndsWithNewline(s))
  {
    if s != [] {
      SplitLastEmpty(s[1..]);
      var rest := Split(s[1..]);
      if s[0] != '\n' && |rest| == 1 {
        assert Split(s) == [[s[0]] + rest[0]];
      }
    }
  }

  /** Splitting a '\n'-free piece followed by "\n" + more. */
  lemma {:induction false} SplitPiece(p: string, more: string)
    requires '\n' !in p
    ensures Split(p + "\n" + more) == [p] + Split(more)
  {
    if p != [] {
      var s := p + "\n" + more;
      assert s[1..] == p[1..] + "\n" + more;
      SplitPiece(p[1..], more);
      assert s[0] == p[0] && [p[0]] + p[1..] == p;
    } else {
      assert ("" + "\n" + more)[1..] == more;
    }
  }

  lemma {:induction false} SplitNoNewline(p: string)
    requires '\n' !in p
    ensures Split(p) == [p]
  {
    if p != [] {
      SplitNoNewline(p[1..]);
      assert [p[0]] + p[1..] == p;
    }
  }

  /** Joining '\n'-free lines with "\n" and splitting again gives the lines back. */
  lemma {:induction false} JoinThenSplit(lines: seq<string>)
    requires |lines| > 0
    requires forall l :: l in lines ==> '\n' !in l
    ensures Split(Join("\n", lines)) == lines
  {
    if |lines| == 1 {
      SplitNoNewline(lines[0]);
    } else {
      JoinThenSplit(lines[1..]);
      SplitPiece(lines[0], Join("\n", lines[1..]));
    }
  }

  /**
   Splitting into lines undoes joining with "\n", for lines without '\n' whose last line is
   not empty (an empty last line is what a trailing newline would make).
   */
  lemma LinesRoundTrip(lines: seq<string>)
    requires forall l :: l in lines ==> '\n' !in l
    requires lines == [] || lines[|lines| - 1] != ""
    ensures SplitLines(Join("\n", lines)) == lines
  {
    if lines != [] {
      JoinThenSplit(lines);
    }
  }

  /**
   Joining the lines of `s` with "\n" gives `s` back, less one trailing newline.
   */
  lemma SplitLinesRoundTrip(s: string)
    ensures s == Join("\n", SplitLines(s)) + (if EndsWithNewline(s) then "\n" else "")
  {
    var p := Split(s);
    SplitRoundTrip(s);
    SplitLastEmpty(s);
    if p[|p| - 1] == "" && s != [] {
      JoinDropLast(p);
    }
  }

  lemma {:induction false} JoinDropLast(p: seq<string>)
    requires |p| >= 2 && p[|p| - 1] == ""
    ensures Join("\n", p) == Join("\n", p[..|p| - 1]) + "\n"
  {
    if |p| > 2 {
      JoinDropLast(p[1..]);
      assert p[1..][..|p| - 2] == p[..|p| - 1][1..];
    }
  }

  /**
   Joining the lines of a text without a trailing newline with "\n" + pad
   gives that text with `pad` after each of its line breaks.
   */
  lemma JoinLinesRealigns(s: string, pad: string)
    requires !EndsWithNewline(s)
    ensures Join("\n" + pad, SplitLines(s)) == Realign(s, pad)
  {
    SplitLastEmpty(s);
    JoinSplit(s, pad);
  }

  lemma {:induction false} JoinReindent(n: nat, lines: seq<string>)
    requires |lines| > 0
    ensures Join("\n", Reindent(n, lines)) == Spaces(n) + Join("\n" + Spaces(n), lines)
  {
    if |lines| > 1 {
      JoinReindent(n, lines[1..]);
      assert Reindent(n, lines)[1..] == Reindent(n, lines[1..]);
    }
  }

  lemma {:induction false} TrimLeadingSpaces(n: nat, r: string)
    requires r == [] || !IsSpace(r[0])
    ensures TrimStart(Spaces(n) + r) == r
  {
    if n > 0 {
      assert (Spaces(n) + r)[1..] == Spaces(n - 1) + r;
      TrimLeadingSpaces(n - 1, r);
    } else {
      assert Spaces(n) + r == r;
    }
  }

  /**
   The reindent-then-strip a preferred field's value goes through: when the
   text has no whitespace at either end, the first line keeps its place after
   the key and every later line is pushed right by `n` columns.
   */
  lemma StripReindented(n: nat, s: string)
    requires s != [] && !IsSpace(s[0]) && !IsSpace(s[|s| - 1])
    ensures Strip(Join("\n", Reindent(n, SplitLines(s)))) == Realign(s, Spaces(n))
  {
    ReindentedJoin(n, s);
    StripPadded(n, s);
  }

  lemma ReindentedJoin(n: nat, s: string)
    requires s != [] && !EndsWithNewline(s)
    ensures Join("\n", Reindent(n, SplitLines(s))) == Spaces(n) + Realign(s, Spaces(n))
  {
    SplitLastEmpty(s);
    assert SplitLines(s) == Split(s);
    JoinReindent(n, Split(s));
    JoinSplit(s, Spaces(n));
  }

  lemma StripPadded(n: nat, s: string)
    requires s != [] && !IsSpace(s[0]) && !IsSpace(s[|s| - 1])
    ensures Strip(Spaces(n) + Realign(s, Spaces(n))) == Realign(s, Spaces(n))
  {
    var r := Realign(s, Spaces(n));
    RealignFirst(s, Spaces(n));
    TrimLeadingSpaces(n, r);
    RealignLast(s, Spaces(n));
  }
}
