/**
 * Line normalisation of a rewritten chunk: `str::lines()` followed by
 * `join("\n")`.
 *
 * `lines()` splits after every line feed, removes that line feed and at most
 * one carriage return directly before it, and yields no empty piece after a
 * final line feed. Joining puts one line feed between consecutive lines and
 * none after the last.
 */
module Lines {

  const LF: char := '\n'
  const CR: char := '\r'

  /** The index of the first line feed of s, or |s| when there is none. */
  function LineEnd(s: string): (i: nat)
    ensures i <= |s|
    ensures i < |s| ==> s[i] == LF
    ensures forall k :: 0 <= k < i ==> s[k] != LF
  {
    if |s| == 0 || s[0] == LF then 0 else 1 + LineEnd(s[1..])
  }

  /** A terminated line loses one carriage return directly before its line feed. */
  function StripCr(x: string): (r: string)
    ensures |r| <= |x|
    ensures x == r || x == r + [CR]
  {
    if |x| > 0 && x[|x| - 1] == CR then x[..|x| - 1] else x
  }

  /** `str::lines()`. */
  function Lines(s: string): (r: seq<string>)
    ensures |r| == 0 <==> |s| == 0
    ensures forall k :: 0 <= k < |r| ==> LF !in r[k]
    decreases |s|
  {
    if |s| == 0 then []
    else
      var i := LineEnd(s);
      if i == |s| then [s]
      else [StripCr(s[..i])] + Lines(s[i + 1..])
  }

  /** `join("\n")`. */
  function Join(ls: seq<string>): string
  {
    if |ls| == 0 then []
    else if |ls| == 1 then ls[0]
    else ls[0] + [LF] + Join(ls[1..])
  }

  /** What a chunk becomes before it is written: its lines joined by line feeds. */
  function Normalize(s: string): string
  {
    Join(Lines(s))
  }

  /** Reference: every carriage return directly before a line feed removed. */
  function CrLfToLf(s: string): (r: string)
    ensures |r| <= |s|
    ensures |r| == 0 <==> |s| == 0
  {
    if |s| == 0 then []
    else if |s| >= 2 && s[0] == CR && s[1] == LF then [LF] + CrLfToLf(s[2..])
    else [s[0]] + CrLfToLf(s[1..])
  }

  /** Reference: one final line feed removed, if there is one. */
  function DropFinalLf(s: string): (r: string)
    ensures s == r || s == r + [LF]
  {
    if |s| > 0 && s[|s| - 1] == LF then s[..|s| - 1] else s
  }

  /** Text without line feeds is left alone by the reference rewrite. */
  lemma {:induction false} CrLfToLfNoLf(x: string)
    requires LF !in x
    ensures CrLfToLf(x) == x
  {
    if |x| > 0 {
      assert LF !in x[1..];
      CrLfToLfNoLf(x[1..]);
    }
  }

  /** Text without carriage returns is left alone by the reference rewrite. */
  lemma {:induction false} CrLfToLfNoCr(x: string)
    requires CR !in x
    ensures CrLfToLf(x) == x
  {
    if |x| > 0 {
      assert CR !in x[1..];
      CrLfToLfNoCr(x[1..]);
    }
  }

  /** The reference rewrite of a terminated line followed by more text. */
  lemma {:induction false} CrLfToLfLine(x: string, rest: string)
    requires LF !in x
    ensures CrLfToLf(x + [LF] + rest) == StripCr(x) + [LF] + CrLfToLf(rest)
  {
    if |x| == 0 {
      CrLfToLfFront(LF, rest);
      assert x + [LF] + rest == [LF] + rest;
    } else if |x| == 1 && x[0] == CR {
      CrLfToLfPair(rest);
      assert x + [LF] + rest == [CR, LF] + rest;
    } else {
      var y := x[1..];
      assert LF !in y;
      if x[0] == CR {
        assert y[0] == x[1] && x[1] in x;
      }
      CrLfToLfLine(y, rest);
      CrLfToLfLineStep(x[0], y, rest, StripCr(y), CrLfToLf(rest));
      StripCrFront(x);
      assert x == [x[0]] + y;
    }
  }

  /** The inductive step of `CrLfToLfLine`: a first character that does not
      open a carriage return/line feed pair is kept in front. */
  lemma {:induction false} CrLfToLfLineStep(c: char, y: string, rest: string, a: string, b: string)
    requires c != CR || (|y| > 0 && y[0] != LF)
    requires CrLfToLf(y + [LF] + rest) == a + [LF] + b
    ensures CrLfToLf([c] + y + [LF] + rest) == [c] + a + [LF] + b
  {
    var t := y + [LF] + rest;
    if |y| > 0 {
      assert t[0] == y[0];
    }
    CrLfToLfFront(c, t);
    assert [c] + y + [LF] + rest == [c] + t;
  }

  /** A carriage return/line feed pair becomes one line feed. */
  lemma {:induction false} CrLfToLfPair(t: string)
    ensures CrLfToLf([CR, LF] + t) == [LF] + CrLfToLf(t)
  {
    assert ([CR, LF] + t)[2..] == t;
  }

  /** A first character that does not open a carriage return/line feed pair is kept. */
  lemma {:induction false} CrLfToLfFront(c: char, t: string)
    requires c != CR || |t| == 0 || t[0] != LF
    ensures CrLfToLf([c] + t) == [c] + CrLfToLf(t)
  {
    assert ([c] + t)[1..] == t;
  }

  /** Removing a final carriage return does not touch the first character of a longer line. */
  lemma {:induction false} StripCrFront(x: string)
    requires |x| > 0 && (|x| >= 2 || x[0] != CR)
    ensures StripCr(x) == [x[0]] + StripCr(x[1..])
  {
    if |x| > 1 && x[|x| - 1] == CR {
      assert x[..|x| - 1] == [x[0]] + x[1..][..|x[1..]| - 1];
    } else {
      assert x == [x[0]] + x[1..];
    }
  }

  /** Dropping a final line feed only touches the last part of a concatenation. */
  lemma {:induction false} DropFinalLfAppend(p: string, q: string)
    requires |q| > 0
    ensures DropFinalLf(p + q) == p + DropFinalLf(q)
  {
    if q[|q| - 1] == LF {
      assert (p + q)[..|p + q| - 1] == p + q[..|q| - 1];
    }
  }

  /** Normalisation is the reference rewrite followed by dropping one final line feed. */
  lemma {:induction false} NormalizeCharacterization(s: string)
    ensures Normalize(s) == DropFinalLf(CrLfToLf(s))
    decreases |s|
  {
    if |s| > 0 {
      if LineEnd(s) == |s| {
        NormalizeNoLf(s);
      } else {
        var x, rest := FirstLine(s);
        if |rest| > 0 {
          NormalizeCharacterization(rest);
        }
        NormalizeStep(x, rest);
      }
    }
  }

  /** Text with a line feed is its first line, that line feed, and the rest. */
  lemma {:induction false} FirstLine(s: string) returns (x: string, rest: string)
    requires LineEnd(s) < |s|
    ensures LF !in x && s == x + [LF] + rest
  {
    x, rest := s[..LineEnd(s)], s[LineEnd(s) + 1..];
    assert s == x + [LF] + rest;
  }

  /** Text without a line feed is one line, left alone on both sides of the characterisation. */
  lemma {:induction false} NormalizeNoLf(s: string)
    requires |s| > 0 && LineEnd(s) == |s|
    ensures Normalize(s) == DropFinalLf(CrLfToLf(s))
  {
    assert LF !in s;
    CrLfToLfNoLf(s);
  }

  /** The inductive step of `NormalizeCharacterization`: a terminated first line. */
  lemma {:induction false} NormalizeStep(x: string, rest: string)
    requires LF !in x
    requires |rest| > 0 ==> Normalize(rest) == DropFinalLf(CrLfToLf(rest))
    ensures Normalize(x + [LF] + rest) == DropFinalLf(CrLfToLf(x + [LF] + rest))
  {
    NormalizeLine(x, rest);
  }

  /** One terminated line at the front of the text, on both sides of the characterisation. */
  lemma {:induction false} NormalizeLine(x: string, rest: string)
    requires LF !in x
    ensures |rest| == 0 ==> Normalize(x + [LF] + rest) == StripCr(x)
    ensures |rest| == 0 ==> DropFinalLf(CrLfToLf(x + [LF] + rest)) == StripCr(x)
    ensures |rest| > 0 ==> Normalize(x + [LF] + rest) == StripCr(x) + [LF] + Normalize(rest)
    ensures |rest| > 0 ==> DropFinalLf(CrLfToLf(x + [LF] + rest)) == StripCr(x) + [LF] + DropFinalLf(CrLfToLf(rest))
  {
    CrLfToLfLine(x, rest);
    LinesCons(x, rest);
    if |rest| == 0 {
      assert CrLfToLf(rest) == [];
      assert StripCr(x) + [LF] + CrLfToLf(rest) == StripCr(x) + [LF];
    } else {
      JoinCons(StripCr(x), Lines(rest));
      DropFinalLfAppend(StripCr(x) + [LF], CrLfToLf(rest));
    }
  }

  /** Joining a line in front of a non-empty list puts one line feed between them. */
  lemma {:induction false} JoinCons(a: string, ls: seq<string>)
    requires |ls| > 0
    ensures Join([a] + ls) == a + [LF] + Join(ls)
  {
    assert ([a] + ls)[1..] == ls;
  }

  /** Without carriage returns, normalisation removes exactly one final line
      feed when there is one and otherwise returns the text unchanged. */
  lemma {:induction false} NormalizeWithoutCr(s: string)
    requires CR !in s
    ensures |s| > 0 && s[|s| - 1] == LF ==> Normalize(s) == s[..|s| - 1]
    ensures (|s| == 0 || s[|s| - 1] != LF) ==> Normalize(s) == s
  {
    NormalizeCharacterization(s);
    CrLfToLfNoCr(s);
  }

  /** Normalisation never lengthens the text. */
  lemma {:induction false} NormalizeShrinks(s: string)
    ensures |Normalize(s)| <= |s|
  {
    NormalizeCharacterization(s);
  }

  /** Splitting joined lines gives the lines back, provided none contains a
      line feed, none ends in a carriage return, and the last is not empty. */
  lemma {:induction false} LinesJoin(ls: seq<string>)
    requires forall k :: 0 <= k < |ls| ==> LF !in ls[k]
    requires forall k :: 0 <= k < |ls| ==> |ls[k]| == 0 || ls[k][|ls[k]| - 1] != CR
    requires |ls| == 0 || |ls[|ls| - 1]| > 0
    ensures Lines(Join(ls)) == ls
  {
    if |ls| == 1 {
      LineEndNone(ls[0]);
    } else if |ls| > 1 {
      LinesJoin(ls[1..]);
      LinesJoinStep(ls);
    }
  }

  /** The inductive step of `LinesJoin`: the first line is split off again unchanged. */
  lemma {:induction false} LinesJoinStep(ls: seq<string>)
    requires |ls| > 1 && LF !in ls[0] && (|ls[0]| == 0 || ls[0][|ls[0]| - 1] != CR)
    requires Lines(Join(ls[1..])) == ls[1..]
    ensures Lines(Join(ls)) == ls
  {
    assert StripCr(ls[0]) == ls[0];
    LinesCons(ls[0], Join(ls[1..]));
    assert ls == [ls[0]] + ls[1..];
  }

  /** The lines of a terminated line followed by more text. */
  lemma {:induction false} LinesCons(x: string, rest: string)
    requires LF !in x
    ensures Lines(x + [LF] + rest) == [StripCr(x)] + Lines(rest)
  {
    var s := x + [LF] + rest;
    LineEndAt(x, rest);
    assert s[..|x|] == x;
    assert s[|x| + 1..] == rest;
  }

  lemma {:induction false} LineEndNone(x: string)
    requires LF !in x
    ensures LineEnd(x) == |x|
  {
    if |x| > 0 {
      assert LF !in x[1..];
      LineEndNone(x[1..]);
    }
  }

  lemma {:induction false} LineEndAt(x: string, rest: string)
    requires LF !in x
    ensures LineEnd(x + [LF] + rest) == |x|
  {
    if |x| > 0 {
      assert (x + [LF] + rest)[1..] == x[1..] + [LF] + rest;
      assert LF !in x[1..];
      LineEndAt(x[1..], rest);
    }
  }
}
