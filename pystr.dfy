/** The parts of Python 2's `str` and `list` that the content views rely on:
    slicing, `splitlines`, `split`, `join`, `list.index` and ASCII `lower`.
    Strings stand for Python 2 byte strings. */
module PyStr {

  datatype Option<T> = None | Some(value: T)

  /** Python's `s[:n]` for any integer `n`; a negative `n` counts from the end. */
  function Prefix(s: string, n: int): (r: string)
    ensures r <= s
    ensures n >= |s| ==> r == s
    ensures 0 <= n <= |s| ==> |r| == n
    ensures n < 0 ==> |r| == if |s| + n >= 0 then |s| + n else 0
  {
    if n >= |s| then s
    else if n >= 0 then s[..n]
    else if |s| + n >= 0 then s[..|s| + n]
    else []
  }

  // ---------------------------------------------------------------- splitlines

  /** Python 2 `str.splitlines` breaks lines at "\n", "\r" and "\r\n". */
  predicate IsLineBreak(c: char) {
    c == '\n' || c == '\r'
  }

  predicate NoLineBreak(s: string) {
    forall i :: 0 <= i < |s| ==> !IsLineBreak(s[i])
  }

  /** Index of the first line-break character, or |s| when there is none. */
  function LineEnd(s: string): (k: nat)
    ensures k <= |s|
    ensures NoLineBreak(s[..k])
    ensures k < |s| ==> IsLineBreak(s[k])
  {
    if s == [] || IsLineBreak(s[0]) then 0
    else
      var k := 1 + LineEnd(s[1..]);
      assert s[..k] == [s[0]] + s[1..][..k - 1];
      k
  }

  /** The length of the terminator that starts at index k (2 for "\r\n"). */
  function BreakWidth(s: string, k: nat): (w: nat)
    requires k <= |s|
    ensures k + w <= |s|
    ensures k < |s| ==> w >= 1
  {
    if k == |s| then 0
    else if s[k] == '\r' && k + 1 < |s| && s[k + 1] == '\n' then 2
    else 1
  }

  /** Python 2 `s.splitlines()`: the lines of s without their terminators;
      a final terminator does not open an empty last line. */
  function SplitLines(s: string): (r: seq<string>)
    ensures forall i :: 0 <= i < |r| ==> NoLineBreak(r[i])
    ensures s != [] <==> r != []
    decreases |s|
  {
    if s == [] then []
    else
      var k := LineEnd(s);
      [s[..k]] + SplitLines(s[k + BreakWidth(s, k)..])
  }

  /** s with every line-break character removed. */
  function DropBreaks(s: string): (r: string)
  {
    if s == [] then []
    else (if IsLineBreak(s[0]) then [] else [s[0]]) + DropBreaks(s[1..])
  }

  function Concat(xs: seq<string>): string
  {
    if xs == [] then [] else xs[0] + Concat(xs[1..])
  }

  lemma {:induction false} DropBreaksAppend(a: string, b: string)
    ensures DropBreaks(a + b) == DropBreaks(a) + DropBreaks(b)
    decreases |a|
  {
    if a == [] {
      assert a + b == b;
    } else {
      assert (a + b)[1..] == a[1..] + b;
      DropBreaksAppend(a[1..], b);
    }
  }

  lemma {:induction false} DropBreaksNone(s: string)
    requires NoLineBreak(s)
    ensures DropBreaks(s) == s
    decreases |s|
  {
    if s != [] {
      assert NoLineBreak(s[1..]) by {
        forall i | 0 <= i < |s[1..]| ensures !IsLineBreak(s[1..][i]) {
          assert s[1..][i] == s[i + 1];
        }
      }
      DropBreaksNone(s[1..]);
      assert s == [s[0]] + s[1..];
    }
  }

  lemma DropBreaksOnly(s: string)
    requires forall i :: 0 <= i < |s| ==> IsLineBreak(s[i])
    ensures DropBreaks(s) == []
    decreases |s|
  {
    if s != [] {
      DropBreaksOnly(s[1..]);
    }
  }

  /** Nothing but terminators is lost: the lines, put back together, are
      the text with its line-break characters removed. */
  lemma {:induction false} SplitLinesKeepsText(s: string)
    ensures Concat(SplitLines(s)) == DropBreaks(s)
    decreases |s|
  {
    if s != [] {
      var k := LineEnd(s);
      var rest := s[k + BreakWidth(s, k)..];
      DropFirstLine(s);
      SplitLinesKeepsText(rest);
      assert SplitLines(s) == [s[..k]] + SplitLines(rest);
      assert ([s[..k]] + SplitLines(rest))[1..] == SplitLines(rest);
    }
  }

  /** Dropping the breaks keeps the first line and drops its terminator. */
  lemma DropFirstLine(s: string)
    requires s != []
    ensures var k := LineEnd(s);
            DropBreaks(s) == s[..k] + DropBreaks(s[k + BreakWidth(s, k)..])
  {
    var k := LineEnd(s);
    var w := BreakWidth(s, k);
    var b := s[k..k + w];
    Cut3(s, k, k + w);
    TerminatorBreaks(s);
    assert forall i :: 0 <= i < |b| ==> b[i] == s[k + i];
    DropLineParts(s[..k], b, s[k + w..], s);
  }

  lemma DropLineParts(a: string, b: string, rest: string, s: string)
    requires s == a + b + rest && NoLineBreak(a)
    requires forall i :: 0 <= i < |b| ==> IsLineBreak(b[i])
    ensures DropBreaks(s) == a + DropBreaks(rest)
  {
    DropBreaksAppend(a + b, rest);
    DropBreaksAppend(a, b);
    DropBreaksNone(a);
    DropBreaksOnly(b);
  }

  lemma Cut3(s: string, i: nat, j: nat)
    requires i <= j <= |s|
    ensures s == s[..i] + s[i..j] + s[j..]
  {
  }

  /** The terminator after the first line is made of break characters. */
  lemma TerminatorBreaks(s: string)
    requires s != []
    ensures var k := LineEnd(s);
            forall i :: k <= i < k + BreakWidth(s, k) ==> IsLineBreak(s[i])
  {
  }

  /** "\n" when the text ends with a newline, else nothing. */
  function FinalNewline(s: string): string {
    if s != [] && s[|s| - 1] == '\n' then "\n" else ""
  }

  lemma LastLine(s: string)
    requires s != [] && LineEnd(s) == |s|
    ensures SplitLines(s) == [s] && FinalNewline(s) == ""
  {
    var k := LineEnd(s);
    assert BreakWidth(s, k) == 0;
    assert s[..k] == s;
    assert s[k..] == [];
    assert SplitLines(s) == [s] + SplitLines([]);
    assert s[..k][|s| - 1] == s[|s| - 1];
  }

  lemma NewlineCut(s: string)
    requires s != [] && LineEnd(s) < |s| && s[LineEnd(s)] != '\r'
    ensures var k := LineEnd(s);
            SplitLines(s) == [s[..k]] + SplitLines(s[k + 1..]) && s == s[..k] + "\n" + s[k + 1..]
  {
    var k := LineEnd(s);
    assert s[k] == '\n';
    assert BreakWidth(s, k) == 1;
    CutAt(s, k);
  }

  lemma CutAt(s: string, k: nat)
    requires k < |s|
    ensures s == s[..k] + [s[k]] + s[k + 1..]
  {
  }

  /** For text without carriage returns the lines are cut exactly at the
      newlines: joining them with "\n", and restoring a final newline, gives
      back the text. */
  lemma {:induction false} SplitLinesJoin(s: string)
    requires forall i :: 0 <= i < |s| ==> s[i] != '\r'
    ensures Join(SplitLines(s), "\n") + FinalNewline(s) == s
    decreases |s|
  {
    if s != [] {
      var k := LineEnd(s);
      if k == |s| {
        JoinLastLine(s);
      } else if k + 1 == |s| {
        JoinFinalNewline(s);
      } else {
        var rest := s[k + 1..];
        assert forall i :: 0 <= i < |rest| ==> rest[i] == s[k + 1 + i];
        SplitLinesJoin(rest);
        JoinNextLine(s);
      }
    }
  }

  /** A text without a line break is its only line. */
  lemma JoinLastLine(s: string)
    requires s != [] && LineEnd(s) == |s|
    ensures Join(SplitLines(s), "\n") + FinalNewline(s) == s
  {
    LastLine(s);
    assert Join([s], "\n") == s;
  }

  /** A text whose only newline is its last character is one line. */
  lemma JoinFinalNewline(s: string)
    requires s != [] && LineEnd(s) + 1 == |s| && s[LineEnd(s)] != '\r'
    ensures Join(SplitLines(s), "\n") + FinalNewline(s) == s
  {
    var k := LineEnd(s);
    NewlineCut(s);
    assert s[k + 1..] == [];
    assert SplitLines(s) == [s[..k]];
    assert Join([s[..k]], "\n") == s[..k];
    assert FinalNewline(s) == "\n";
  }

  /** The first line, a newline, and the lines of the rest rejoined. */
  lemma JoinNextLine(s: string)
    requires s != [] && LineEnd(s) + 1 < |s| && s[LineEnd(s)] != '\r'
    requires var rest := s[LineEnd(s) + 1..];
             Join(SplitLines(rest), "\n") + FinalNewline(rest) == rest
    ensures Join(SplitLines(s), "\n") + FinalNewline(s) == s
  {
    var k := LineEnd(s);
    var rest := s[k + 1..];
    NewlineCut(s);
    FinalOfSuffix(s, k + 1);
    RejoinLine(s[..k], SplitLines(rest), FinalNewline(rest), rest, s);
  }

  lemma FinalOfSuffix(s: string, d: nat)
    requires d < |s|
    ensures FinalNewline(s[d..]) == FinalNewline(s)
  {
    assert s[d..][|s| - d - 1] == s[|s| - 1];
  }

  lemma RejoinLine(a: string, lines: seq<string>, f: string, rest: string, s: string)
    requires lines != [] && Join(lines, "\n") + f == rest && s == a + "\n" + rest
    ensures Join([a] + lines, "\n") + f == s
  {
    JoinCons(a, lines, "\n");
    RegroupLine(a, Join(lines, "\n"), f);
  }

  lemma RegroupLine(a: string, j: string, f: string)
    ensures (a + "\n" + j) + f == a + "\n" + (j + f)
  {
  }

  /** The first line ends at the first break character, whatever follows it. */
  lemma {:induction false} LineEndBefore(a: string, t: string)
    requires NoLineBreak(a)
    requires t != [] && IsLineBreak(t[0])
    ensures LineEnd(a + t) == |a|
    decreases |a|
  {
    if a == [] {
      assert a + t == t;
    } else {
      assert (a + t)[1..] == a[1..] + t;
      assert NoLineBreak(a[1..]) by {
        forall i | 0 <= i < |a[1..]| ensures !IsLineBreak(a[1..][i]) {
          assert a[1..][i] == a[i + 1];
        }
      }
      LineEndBefore(a[1..], t);
    }
  }

  /** One step of `splitlines`: a line a, then a terminator of width |brk|. */
  lemma LineThenBreak(a: string, brk: string, b: string)
    requires NoLineBreak(a)
    requires brk != [] && IsLineBreak(brk[0])
    requires BreakWidth(a + brk + b, |a|) == |brk|
    ensures SplitLines(a + brk + b) == [a] + SplitLines(b)
  {
    var s := a + brk + b;
    assert s == a + (brk + b);
    LineEndBefore(a, brk + b);
    assert s[..|a|] == a;
    assert s[|a| + |brk|..] == b;
  }

  /** "\n" ends a line. */
  lemma SplitLinesNewline(a: string, b: string)
    requires NoLineBreak(a)
    ensures SplitLines(a + "\n" + b) == [a] + SplitLines(b)
  {
    LineThenBreak(a, "\n", b);
  }

  /** "\r\n" is a single terminator: it ends one line and opens no empty one. */
  lemma SplitLinesCrLf(a: string, b: string)
    requires NoLineBreak(a)
    ensures SplitLines(a + "\r\n" + b) == [a] + SplitLines(b)
  {
    var s := a + "\r\n" + b;
    assert s[|a|] == '\r' && s[|a| + 1] == '\n';
    LineThenBreak(a, "\r\n", b);
  }

  /** A "\r" that is not followed by "\n" ends a line on its own. */
  lemma SplitLinesCr(a: string, b: string)
    requires NoLineBreak(a)
    requires b == [] || b[0] != '\n'
    ensures SplitLines(a + "\r" + b) == [a] + SplitLines(b)
  {
    var s := a + "\r" + b;
    assert s[|a|] == '\r';
    assert |a| + 1 < |s| ==> s[|a| + 1] == b[0];
    LineThenBreak(a, "\r", b);
  }

  // ---------------------------------------------------------------- split / join

  predicate OccursAt(s: string, sep: string, q: int) {
    0 <= q && q + |sep| <= |s| && s[q..q + |sep|] == sep
  }

  /** The leftmost occurrence of sep at or after `from` (Python's `str.find`). */
  function FindFrom(s: string, sep: string, from: nat): (r: Option<nat>)
    requires |sep| > 0
    ensures r.Some? ==> from <= r.value && OccursAt(s, sep, r.value)
    ensures r.Some? ==> forall q :: from <= q < r.value ==> !OccursAt(s, sep, q)
    ensures r.None? ==> forall q :: from <= q ==> !OccursAt(s, sep, q)
    decreases |s| - from
  {
    if from + |sep| > |s| then None
    else if s[from..from + |sep|] == sep then Some(from)
    else FindFrom(s, sep, from + 1)
  }

  /** Python's `s.split(sep)` for a non-empty separator. */
  function Split(s: string, sep: string): (r: seq<string>)
    requires |sep| > 0
    ensures |r| >= 1
    decreases |s|
  {
    match FindFrom(s, sep, 0)
    case None => [s]
    case Some(k) => [s[..k]] + Split(s[k + |sep|..], sep)
  }

  /** Python's `sep.join(xs)`. */
  function Join(xs: seq<string>, sep: string): string
  {
    if xs == [] then []
    else if |xs| == 1 then xs[0]
    else xs[0] + sep + Join(xs[1..], sep)
  }

  lemma JoinCons(x: string, r: seq<string>, sep: string)
    requires |r| >= 1
    ensures Join([x] + r, sep) == x + sep + Join(r, sep)
  {
    assert ([x] + r)[1..] == r;
  }

  lemma Around(s: string, sep: string, k: nat)
    requires OccursAt(s, sep, k)
    ensures s == s[..k] + sep + s[k + |sep|..]
  {
    assert s == s[..k] + s[k..k + |sep|] + s[k + |sep|..];
  }

  /** Joining the pieces of a split with the same separator gives back the text. */
  lemma {:induction false} SplitJoin(s: string, sep: string)
    requires |sep| > 0
    ensures Join(Split(s, sep), sep) == s
    decreases |s|
  {
    var f := FindFrom(s, sep, 0);
    if f.Some? {
      var k := f.value;
      var rest := s[k + |sep|..];
      SplitJoin(rest, sep);
      JoinCons(s[..k], Split(rest, sep), sep);
      Around(s, sep, k);
    }
  }

  /** No piece of a split contains the separator. */
  lemma {:induction false} SplitPiecesFree(s: string, sep: string)
    requires |sep| > 0
    ensures forall i, q :: 0 <= i < |Split(s, sep)| ==> !OccursAt(Split(s, sep)[i], sep, q)
    decreases |s|
  {
    match FindFrom(s, sep, 0)
    case None =>
    case Some(k) =>
      var rest := s[k + |sep|..];
      SplitPiecesFree(rest, sep);
      var r := Split(rest, sep);
      assert Split(s, sep) == [s[..k]] + r;
      forall q | OccursAt(s[..k], sep, q) ensures false {
        assert s[..k][q..q + |sep|] == s[q..q + |sep|];
        assert OccursAt(s, sep, q);
      }
  }

  /** Where piece i of xs starts in the text they are joined from with sep. */
  function PieceStart(xs: seq<string>, sep: string, i: nat): nat
    requires i <= |xs|
  {
    if i == 0 then 0 else PieceStart(xs, sep, i - 1) + |xs[i - 1]| + |sep|
  }

  lemma {:induction false} PieceStartCons(x: string, ys: seq<string>, sep: string, i: nat)
    requires 1 <= i <= |ys| + 1
    ensures PieceStart([x] + ys, sep, i) == |x| + |sep| + PieceStart(ys, sep, i - 1)
  {
    if i > 1 {
      PieceStartCons(x, ys, sep, i - 1);
      assert ([x] + ys)[i - 1] == ys[i - 2];
    }
  }

  /** No occurrence of sep in s starts at a position in [lo, hi). */
  predicate NoneInside(s: string, sep: string, lo: int, hi: int) {
    forall q :: lo <= q < hi ==> !OccursAt(s, sep, q)
  }

  /** Every piece of r, placed where it starts in s, holds no start of sep. */
  predicate LeftmostCuts(s: string, sep: string, r: seq<string>) {
    forall i :: 0 <= i < |r| ==>
      NoneInside(s, sep, PieceStart(r, sep, i), PieceStart(r, sep, i) + |r[i]|)
  }

  /** The cuts are leftmost: no occurrence of the separator in s starts
      inside a piece, so an overlapping separator is cut where it first
      occurs ("aaa" split on "aa" is ["", "a"]). */
  lemma {:induction false} SplitLeftmost(s: string, sep: string)
    requires |sep| > 0
    ensures LeftmostCuts(s, sep, Split(s, sep))
    decreases |s|
  {
    match FindFrom(s, sep, 0)
    case None =>
      LeftmostWhole(s, sep);
    case Some(k) =>
      SplitLeftmost(s[k + |sep|..], sep);
      LeftmostSplit(s, sep, k);
  }

  /** The cut at the first occurrence followed by the split of the rest. */
  lemma LeftmostSplit(s: string, sep: string, k: nat)
    requires |sep| > 0 && FindFrom(s, sep, 0) == Some(k)
    requires LeftmostCuts(s[k + |sep|..], sep, Split(s[k + |sep|..], sep))
    ensures LeftmostCuts(s, sep, Split(s, sep))
  {
    assert Split(s, sep) == [s[..k]] + Split(s[k + |sep|..], sep);
    LeftmostCons(s, sep, k, Split(s[k + |sep|..], sep));
  }

  /** Without an occurrence the one piece is the whole text. */
  lemma LeftmostWhole(s: string, sep: string)
    requires |sep| > 0 && FindFrom(s, sep, 0).None?
    ensures LeftmostCuts(s, sep, Split(s, sep))
  {
    assert Split(s, sep) == [s];
    assert PieceStart([s], sep, 0) == 0;
    assert NoneInside(s, sep, 0, |s|);
  }

  lemma LeftmostCons(s: string, sep: string, k: nat, r1: seq<string>)
    requires |sep| > 0 && FindFrom(s, sep, 0) == Some(k)
    requires LeftmostCuts(s[k + |sep|..], sep, r1)
    ensures LeftmostCuts(s, sep, [s[..k]] + r1)
  {
    assert NoneInside(s, sep, 0, k);
    var r := [s[..k]] + r1;
    forall i | 0 <= i < |r|
      ensures NoneInside(s, sep, PieceStart(r, sep, i), PieceStart(r, sep, i) + |r[i]|)
    {
      if i > 0 {
        assert NoneInside(s[k + |sep|..], sep, PieceStart(r1, sep, i - 1), PieceStart(r1, sep, i - 1) + |r1[i - 1]|);
        LeftmostPiece(s, sep, k, r1, i);
      }
    }
  }

  /** Piece i >= 1 of the split of s is piece i - 1 of the split of the rest. */
  lemma LeftmostPiece(s: string, sep: string, k: nat, r1: seq<string>, i: nat)
    requires k + |sep| <= |s| && 1 <= i <= |r1|
    requires NoneInside(s[k + |sep|..], sep, PieceStart(r1, sep, i - 1), PieceStart(r1, sep, i - 1) + |r1[i - 1]|)
    ensures var r := [s[..k]] + r1;
            NoneInside(s, sep, PieceStart(r, sep, i), PieceStart(r, sep, i) + |r[i]|)
  {
    var r := [s[..k]] + r1;
    PieceStartCons(s[..k], r1, sep, i);
    assert r[i] == r1[i - 1];
    var lo := PieceStart(r1, sep, i - 1);
    ShiftNone(s, sep, k + |sep|, lo, lo + |r1[i - 1]|);
  }

  /** An occurrence at q in s is one at q - d in the suffix from d. */
  lemma OccursShift(s: string, sep: string, d: nat, q: int)
    requires d <= |s| && d <= q
    ensures OccursAt(s, sep, q) <==> OccursAt(s[d..], sep, q - d)
  {
    if q + |sep| <= |s| {
      assert s[d..][q - d..q - d + |sep|] == s[q..q + |sep|];
    }
  }

  /** Occurrences in a suffix are occurrences in s, shifted by where the
      suffix starts. */
  lemma ShiftNone(s: string, sep: string, d: nat, lo: int, hi: int)
    requires d <= |s| && 0 <= lo
    requires NoneInside(s[d..], sep, lo, hi)
    ensures NoneInside(s, sep, lo + d, hi + d)
  {
    forall q | lo + d <= q < hi + d
      ensures !OccursAt(s, sep, q)
    {
      OccursShift(s, sep, d, q);
    }
  }

  // ---------------------------------------------------------------- list.index, lower

  /** Python's `xs.index(x)`: the first position of x, None where Python raises. */
  function IndexOf(xs: seq<string>, x: string): (r: Option<nat>)
    ensures r.Some? ==> r.value < |xs| && xs[r.value] == x
    ensures r.Some? ==> forall j :: 0 <= j < r.value ==> xs[j] != x
    ensures r.None? <==> x !in xs
  {
    if xs == [] then None
    else if xs[0] == x then Some(0)
    else match IndexOf(xs[1..], x)
      case None => None
      case Some(j) => Some(j + 1)
  }

  function LowerChar(c: char): char
  {
    if 'A' <= c <= 'Z' then (c as int - 'A' as int + 'a' as int) as char else c
  }

  predicate IsUpper(c: char) {
    'A' <= c <= 'Z'
  }

  /** Python 2 `str.lower()` on byte strings: each ASCII capital becomes the
      letter 32 code points above it, every other character stays, so no
      capital is left. */
  function Lower(s: string): (r: string)
    ensures |r| == |s|
    ensures forall i :: 0 <= i < |s| ==>
              if IsUpper(s[i]) then r[i] as int == s[i] as int + 32 else r[i] == s[i]
    ensures forall i :: 0 <= i < |r| ==> !IsUpper(r[i])
  {
    seq(|s|, i requires 0 <= i < |s| => LowerChar(s[i]))
  }

  /** Two characters that are equal ignoring ASCII case: the same, or a
      capital and its small letter. */
  predicate SameIgnoringCase(c: char, d: char) {
    c == d || (IsUpper(c) && d as int == c as int + 32) || (IsUpper(d) && c as int == d as int + 32)
  }

  /** Comparing the lowered texts is comparing the texts ignoring ASCII case. */
  lemma LowerEqIgnoresCase(a: string, b: string)
    ensures Lower(a) == Lower(b) <==>
            |a| == |b| && forall i :: 0 <= i < |a| ==> SameIgnoringCase(a[i], b[i])
  {
    if Lower(a) == Lower(b) {
      forall i | 0 <= i < |a| ensures SameIgnoringCase(a[i], b[i]) {
        assert Lower(a)[i] == Lower(b)[i];
      }
    }
    if |a| == |b| && forall i :: 0 <= i < |a| ==> SameIgnoringCase(a[i], b[i]) {
      forall i | 0 <= i < |a| ensures Lower(a)[i] == Lower(b)[i] {
        assert SameIgnoringCase(a[i], b[i]);
      }
    }
  }
}
