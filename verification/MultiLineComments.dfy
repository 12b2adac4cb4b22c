/** `RemoveMultiLineComments`, which blanks out C-style comments in place. */
module MultiLineComments {
  import opened Wrappers
  import opened SourceText

  const BLANK := "/**/"

  // An end marker stands at or after index `from`.
  predicate HasEndMarker(s: string, from: nat): (has: bool)
    ensures has <==> exists k :: from <= k < |s| - 1 && s[k] == '*' && s[k + 1] == '/'
    decreases |s| - from
  {
    from + 1 < |s| && ((s[from] == '*' && s[from + 1] == '/') || HasEndMarker(s, from + 1))
  }

  /** What a line does: start a comment that goes beyond it, or end one. */
  datatype Mark = Mark(start: bool, end: bool)

  function MarkOf(line: string): Mark {
    var s := Strip(line);
    Mark(|s| >= 2 && s[0] == '/' && s[1] == '*' && !HasEndMarker(s, 2),
         |s| >= 2 && s[|s| - 2] == '*' && s[|s| - 1] == '/')
  }

  /** After white space alone a comment starts, and it does not end on the line. */
  ghost predicate StartsComment(line: string) {
    exists i :: 0 <= i < |line| - 1 && SpaceBefore(line, i) && CommentFrom(line, i)
  }

  /** An end marker with white space alone after it. */
  ghost predicate EndsComment(line: string) {
    exists j :: 2 <= j <= |line| && line[j - 2] == '*' && line[j - 1] == '/' && SpaceAfter(line, j)
  }

  /** A comment that starts here and does not end. */
  predicate CommentFrom(line: string, i: nat)
    requires i < |line| - 1
  {
    line[i] == '/' && line[i + 1] == '*' && !HasEndMarker(line, i + 2)
  }

  predicate SpaceBefore(line: string, i: int) {
    forall k :: 0 <= k < i && k < |line| ==> IsSpace(line[k])
  }

  predicate SpaceAfter(line: string, j: nat) {
    forall k :: j <= k < |line| ==> IsSpace(line[k])
  }

  /** The marks, read off the stripped line, in terms of the line itself. */
  lemma MarkMeaning(line: string)
    ensures MarkOf(line).start <==> StartsComment(line)
    ensures MarkOf(line).end <==> EndsComment(line)
  {
    var i, j := StripKeeps(line);
    var s := Strip(line);
    assert s == line[i..j] && forall k :: 0 <= k < |s| ==> s[k] == line[i + k];
    assert |s| >= 2 ==> s[|s| - 2] == line[j - 2] && s[|s| - 1] == line[j - 1];
    StartMeaning(line, i, j);
    EndMeaning(line, i, j);
  }

  /** White space ends at `i` and begins again at `j`. */
  predicate Margins(line: string, i: nat, j: nat) {
    && i <= j <= |line| && SpaceBefore(line, i) && SpaceAfter(line, j)
    && (i < j ==> !IsSpace(line[i]) && !IsSpace(line[j - 1]))
  }

  lemma StartMeaning(line: string, i: nat, j: nat)
    requires Margins(line, i, j)
    ensures StartsComment(line) <==> j - i >= 2 && line[i] == '/' && line[i + 1] == '*' && !HasEndMarker(line[i..j], 2)
  {
    StripSameMarker(line, i, j);
    if StartsComment(line) {
      var n :| 0 <= n < |line| - 1 && SpaceBefore(line, n) && CommentFrom(line, n);
      assert n == i && n + 1 < j;
    }
  }

  lemma EndMeaning(line: string, i: nat, j: nat)
    requires Margins(line, i, j)
    ensures EndsComment(line) <==> j - i >= 2 && line[j - 2] == '*' && line[j - 1] == '/'
  {
    if EndsComment(line) {
      var n :| 2 <= n <= |line| && line[n - 2] == '*' && line[n - 1] == '/' && SpaceAfter(line, n);
      assert n == j && i <= n - 2;
    }
  }

  /** White space holds no end marker, so stripping keeps all of them. */
  lemma StripSameMarker(line: string, i: nat, j: nat)
    requires i <= j <= |line| && SpaceAfter(line, j)
    ensures HasEndMarker(line[i..j], 2) <==> HasEndMarker(line, i + 2)
  {
    var s := line[i..j];
    if HasEndMarker(s, 2) {
      var k :| 2 <= k < |s| - 1 && s[k] == '*' && s[k + 1] == '/';
      assert line[i + k] == '*' && line[i + k + 1] == '/';
    }
    if HasEndMarker(line, i + 2) {
      var k :| i + 2 <= k < |line| - 1 && line[k] == '*' && line[k + 1] == '/';
      assert !IsSpace(line[k + 1]) && k + 1 < j;
      assert s[k - i] == '*' && s[k - i + 1] == '/';
    }
  }

  function Marks(lines: seq<string>): (ms: seq<Mark>)
    ensures |ms| == |lines|
  {
    if lines == [] then [] else Marks(lines[..|lines| - 1]) + [MarkOf(lines[|lines| - 1])]
  }

  lemma {:induction false} MarkAt(lines: seq<string>, k: nat)
    requires k < |lines|
    ensures Marks(lines)[k] == MarkOf(lines[k])
  {
    if k < |lines| - 1 {
      MarkAt(lines[..|lines| - 1], k);
    }
  }

  predicate NoEndFrom(ms: seq<Mark>, k: nat) {
    forall e :: k <= e < |ms| ==> !ms[e].end
  }

  /** Reading line by line: whether line `k` begins inside a comment. */
  predicate InComment(ms: seq<Mark>, k: nat)
    requires k <= |ms|
  {
    k > 0 && (InComment(ms, k - 1) || ms[k - 1].start) && !ms[k - 1].end
  }

  /** The line belongs to a comment that ends. */
  predicate Cleared(ms: seq<Mark>, k: nat)
    requires k < |ms|
  {
    (InComment(ms, k) || ms[k].start) && !NoEndFrom(ms, k)
  }

  /** A comment start without an end at or after it. */
  predicate OpenAt(ms: seq<Mark>, k: nat) {
    k < |ms| && ms[k].start && NoEndFrom(ms, k)
  }

  /** Every line is kept or blanked, as the line-by-line reading says. */
  function Cleaned(lines: seq<string>): (r: seq<string>)
    ensures |r| == |lines|
    ensures forall k :: 0 <= k < |lines| ==> r[k] == if Cleared(Marks(lines), k) then BLANK else lines[k]
  {
    seq(|lines|, k requires 0 <= k < |lines| => if Cleared(Marks(lines), k) then BLANK else lines[k])
  }

  // ----- the same, of the lines themselves

  /** A comment starts on line `b` and no line from there up to `k` ends one. */
  ghost predicate CommentSince(lines: seq<string>, b: nat, k: nat)
    requires b <= k < |lines|
  {
    StartsComment(lines[b]) && forall j :: b <= j < k ==> !EndsComment(lines[j])
  }

  ghost predicate EndsFrom(lines: seq<string>, k: nat) {
    exists e :: k <= e < |lines| && EndsComment(lines[e])
  }

  ghost predicate PartOfComment(lines: seq<string>, k: nat)
    requires k < |lines|
  {
    exists b: nat :: b <= k && CommentSince(lines, b, k)
  }

  /** The line is part of a comment that ends on it or later. */
  ghost predicate Erased(lines: seq<string>, k: nat)
    requires k < |lines|
  {
    PartOfComment(lines, k) && EndsFrom(lines, k)
  }

  lemma MarkTells(lines: seq<string>, k: nat)
    requires k < |lines|
    ensures Marks(lines)[k].start <==> StartsComment(lines[k])
    ensures Marks(lines)[k].end <==> EndsComment(lines[k])
  {
    MarkAt(lines, k);
    MarkMeaning(lines[k]);
  }

  lemma NoEndTells(lines: seq<string>, k: nat)
    ensures NoEndFrom(Marks(lines), k) <==> !EndsFrom(lines, k)
  {
    forall e: nat | e < |lines| ensures Marks(lines)[e].end <==> EndsComment(lines[e]) {
      MarkTells(lines, e);
    }
  }

  lemma PartNext(lines: seq<string>, k: nat)
    requires 0 < k < |lines|
    ensures PartOfComment(lines, k)
            <==> StartsComment(lines[k]) || (PartOfComment(lines, k - 1) && !EndsComment(lines[k - 1]))
  {
    if StartsComment(lines[k]) {
      assert CommentSince(lines, k, k);
    }
    if PartOfComment(lines, k - 1) && !EndsComment(lines[k - 1]) {
      var b: nat :| b <= k - 1 && CommentSince(lines, b, k - 1);
      assert CommentSince(lines, b, k);
    }
    if PartOfComment(lines, k) {
      var b: nat :| b <= k && CommentSince(lines, b, k);
      assert b < k ==> CommentSince(lines, b, k - 1);
    }
  }

  lemma {:induction false} InCommentTells(lines: seq<string>, k: nat)
    requires k < |lines|
    ensures InComment(Marks(lines), k) || Marks(lines)[k].start <==> PartOfComment(lines, k)
  {
    MarkTells(lines, k);
    if k == 0 {
      assert StartsComment(lines[0]) ==> CommentSince(lines, 0, 0);
    } else {
      InCommentTells(lines, k - 1);
      MarkTells(lines, k - 1);
      PartNext(lines, k);
    }
  }

  /** A line is blanked exactly when it belongs to a comment that ends, from the line that
      starts it to the line that ends it. */
  lemma BlankedIff(lines: seq<string>, k: nat)
    requires k < |lines|
    ensures Cleaned(lines)[k] == if Erased(lines, k) then "/**/" else lines[k]
  {
    InCommentTells(lines, k);
    NoEndTells(lines, k);
  }

  /** A comment is unfinished exactly when it starts and no line from there on ends one. */
  lemma UnfinishedIff(lines: seq<string>, k: nat)
    requires k < |lines|
    ensures OpenAt(Marks(lines), k) <==> StartsComment(lines[k]) && !EndsFrom(lines, k)
  {
    MarkTells(lines, k);
    NoEndTells(lines, k);
  }

  method FindNextMultiLineCommentStart(lines: array<string>, from: nat) returns (i: nat)
    requires from <= lines.Length
    ensures from <= i <= lines.Length
    ensures i < lines.Length ==> Marks(lines[..])[i].start
    ensures forall k :: from <= k < i ==> !Marks(lines[..])[k].start
  {
    i := from;
    while i < lines.Length
      invariant from <= i <= lines.Length
      invariant forall k :: from <= k < i ==> !Marks(lines[..])[k].start
    {
      MarkAt(lines[..], i);
      if MarkOf(lines[i]).start {
        return;
      }
      i := i + 1;
    }
  }

  method FindNextMultiLineCommentEnd(lines: array<string>, from: nat) returns (i: nat)
    requires from <= lines.Length
    ensures from <= i <= lines.Length
    ensures i < lines.Length ==> Marks(lines[..])[i].end
    ensures forall k :: from <= k < i ==> !Marks(lines[..])[k].end
  {
    i := from;
    while i < lines.Length
      invariant from <= i <= lines.Length
      invariant forall k :: from <= k < i ==> !Marks(lines[..])[k].end
    {
      MarkAt(lines[..], i);
      if MarkOf(lines[i]).end {
        return;
      }
      i := i + 1;
    }
  }

  function Blanked(lines: seq<string>, begin: nat, end: nat): (r: seq<string>)
    requires begin <= end <= |lines|
    ensures |r| == |lines| && forall k :: 0 <= k < |r| ==> r[k] == if begin <= k < end then BLANK else lines[k]
  {
    seq(|lines|, k requires 0 <= k < |lines| => if begin <= k < end then BLANK else lines[k])
  }

  method RemoveMultiLineCommentsFromRange(lines: array<string>, begin: nat, end: nat)
    requires begin <= end <= lines.Length
    modifies lines
    ensures lines[..] == Blanked(old(lines[..]), begin, end)
  {
    for i := begin to end
      invariant forall k :: 0 <= k < lines.Length ==> lines[k] == if begin <= k < i then BLANK else old(lines[k])
    {
      lines[i] := BLANK;
    }
  }

  lemma {:induction false} StaysOutside(ms: seq<Mark>, a: nat, b: nat)
    requires a <= b <= |ms| && !InComment(ms, a) && forall k :: a <= k < b ==> !ms[k].start
    ensures forall k :: a <= k <= b ==> !InComment(ms, k)
    decreases b - a
  {
    if a < b {
      StaysOutside(ms, a + 1, b);
    }
  }

  lemma {:induction false} StaysInside(ms: seq<Mark>, a: nat, b: nat)
    requires a <= b <= |ms| && InComment(ms, a) && forall k :: a <= k < b ==> !ms[k].end
    ensures forall k :: a <= k <= b ==> InComment(ms, k)
    decreases b - a
  {
    if a < b {
      StaysInside(ms, a + 1, b);
    }
  }

  lemma CommentCleared(ms: seq<Mark>, begin: nat, end: nat)
    requires begin <= end < |ms| && !InComment(ms, begin) && ms[begin].start && ms[end].end
    requires forall k :: begin <= k < end ==> !ms[k].end
    ensures forall k :: begin <= k <= end ==> Cleared(ms, k)
    ensures !InComment(ms, end + 1)
    ensures forall k :: 0 <= k <= end ==> !OpenAt(ms, k)
  {
    if begin < end {
      StaysInside(ms, begin + 1, end);
    }
  }

  /** The array is left as the line-by-line reading says, and an error names the first
      comment start that has no end at or after it. */
  method RemoveMultiLineComments(lines: array<string>) returns (error: Option<nat>)
    modifies lines
    ensures lines[..] == Cleaned(old(lines[..]))
    ensures
      var ms := Marks(old(lines[..]));
      match error
      case None => forall k :: !OpenAt(ms, k)
      case Some(number) => number > 0 && OpenAt(ms, number - 1) && forall k :: 0 <= k < number - 1 ==> !OpenAt(ms, k)
  {
    ghost var was, ms := lines[..], Marks(lines[..]);
    var i := 0;
    while i < lines.Length
      invariant i <= lines.Length && Progress(was, i, lines[..])
      invariant forall k :: 0 <= k < i ==> !OpenAt(ms, k)
      decreases lines.Length - i
    {
      var begin := FindNextMultiLineCommentStart(lines, i);
      NotCleared(was, i, begin, lines[..]);
      if begin >= lines.Length {
        return None;
      }
      var end := FindNextMultiLineCommentEnd(lines, begin);
      if end >= lines.Length {
        RestKept(was, begin, lines[..]);
        return Some(begin + 1);
      }
      RangeCleared(was, begin, end, lines[..]);
      RemoveMultiLineCommentsFromRange(lines, begin, end + 1);
      i := end + 1;
    }
    NotCleared(was, i, i, lines[..]);
    return None;
  }

  /** The lines before `i` are done, the others untouched, and `i` is outside any comment. */
  ghost predicate Progress(was: seq<string>, i: nat, now: seq<string>) {
    && |now| == |was| && i <= |was| && !InComment(Marks(was), i)
    && forall k :: 0 <= k < |was| ==> now[k] == if k < i then Cleaned(was)[k] else was[k]
  }

  /** A comment that does not end is the first one open, and nothing after it changes. */
  lemma RestKept(was: seq<string>, i: nat, now: seq<string>)
    requires Progress(was, i, now) && i < |was| && Marks(now)[i].start
    requires forall k :: i <= k < |was| ==> !Marks(now)[k].end
    ensures now == Cleaned(was) && OpenAt(Marks(was), i)
  {
    MarksFrom(was, i, now);
    assert forall k :: i <= k < |was| ==> !Cleared(Marks(was), k);
    assert forall k :: 0 <= k < |was| ==> now[k] == Cleaned(was)[k];
  }

  lemma RangeCleared(was: seq<string>, begin: nat, end: nat, before: seq<string>)
    requires Progress(was, begin, before) && begin <= end < |was|
    requires Marks(before)[begin].start && Marks(before)[end].end
    requires forall k :: begin <= k < end ==> !Marks(before)[k].end
    ensures Progress(was, end + 1, Blanked(before, begin, end + 1))
    ensures forall k :: 0 <= k <= end ==> !OpenAt(Marks(was), k)
  {
    MarksFrom(was, begin, before);
    CommentCleared(Marks(was), begin, end);
  }

  lemma MarksFrom(was: seq<string>, i: nat, now: seq<string>)
    requires Progress(was, i, now)
    ensures forall k :: i <= k < |was| ==> Marks(now)[k] == Marks(was)[k]
  {
    forall k | i <= k < |was| ensures Marks(now)[k] == Marks(was)[k] {
      assert now[k] == was[k];
      MarkAt(now, k);
      MarkAt(was, k);
    }
  }

  lemma NotCleared(was: seq<string>, i: nat, begin: nat, now: seq<string>)
    requires Progress(was, i, now) && begin <= |was| && i <= begin
    requires forall k :: i <= k < begin ==> !Marks(now)[k].start
    ensures Progress(was, begin, now) && forall k :: i <= k < begin ==> !OpenAt(Marks(was), k)
    ensures begin == |was| ==> now == Cleaned(was)
  {
    MarksFrom(was, i, now);
    StaysOutside(Marks(was), i, begin);
    assert forall k :: i <= k < begin ==> !Cleared(Marks(was), k);
  }

  // ----- a second run

  lemma BlankIsEnd()
    ensures MarkOf(BLANK) == Mark(false, true)
  {
    assert Strip(BLANK) == BLANK;
    assert BLANK[2] == '*' && BLANK[3] == '/';
  }

  /** What a run does to the marks. */
  lemma CleanedMarks(lines: seq<string>, k: nat)
    requires k < |lines|
    ensures Marks(Cleaned(lines))[k] == if Cleared(Marks(lines), k) then Mark(false, true) else Marks(lines)[k]
  {
    BlankIsEnd();
    MarkAt(lines, k);
    MarkAt(Cleaned(lines), k);
  }

  ghost predicate CleanedTo(ms: seq<Mark>, rs: seq<Mark>) {
    |rs| == |ms| && forall k :: 0 <= k < |ms| ==> rs[k] == if Cleared(ms, k) then Mark(false, true) else ms[k]
  }

  lemma {:induction false} CleanedInComment(ms: seq<Mark>, rs: seq<Mark>, k: nat)
    requires CleanedTo(ms, rs) && k <= |ms|
    ensures InComment(rs, k) <==> InComment(ms, k) && NoEndFrom(ms, k)
  {
    if k > 0 {
      CleanedInComment(ms, rs, k - 1);
      assert NoEndFrom(ms, k - 1) <==> !ms[k - 1].end && NoEndFrom(ms, k);
    }
  }

  /** Past an unfinished comment nothing was changed. */
  lemma TailKept(ms: seq<Mark>, rs: seq<Mark>, k: nat)
    requires CleanedTo(ms, rs) && NoEndFrom(ms, k)
    ensures NoEndFrom(rs, k)
  {
    assert forall e :: k <= e < |ms| ==> NoEndFrom(ms, e);
  }

  lemma NothingMoreToClear(ms: seq<Mark>, rs: seq<Mark>, k: nat)
    requires CleanedTo(ms, rs) && k < |ms|
    ensures !Cleared(rs, k)
    ensures OpenAt(rs, k) <==> OpenAt(ms, k)
  {
    CleanedInComment(ms, rs, k);
    if NoEndFrom(ms, k) {
      TailKept(ms, rs, k);
    } else {
      var e :| k <= e < |ms| && ms[e].end;
      assert rs[e].end;
    }
  }

  /** A second run changes nothing and reports the same. */
  lemma CleanedTwice(lines: seq<string>)
    ensures Cleaned(Cleaned(lines)) == Cleaned(lines)
    ensures forall k :: OpenAt(Marks(Cleaned(lines)), k) <==> OpenAt(Marks(lines), k)
  {
    var ms, rs := Marks(lines), Marks(Cleaned(lines));
    forall k | 0 <= k < |lines| ensures rs[k] == if Cleared(ms, k) then Mark(false, true) else ms[k] {
      CleanedMarks(lines, k);
    }
    forall k: nat | k < |lines| ensures !Cleared(rs, k) && (OpenAt(rs, k) <==> OpenAt(ms, k)) {
      NothingMoreToClear(ms, rs, k);
    }
  }

  /** Without an error no comment start is left. */
  lemma NoStartLeft(lines: seq<string>, k: nat)
    requires k < |lines| && forall s :: !OpenAt(Marks(lines), s)
    ensures !Marks(Cleaned(lines))[k].start
  {
    CleanedMarks(lines, k);
    assert !OpenAt(Marks(lines), k);
  }
}
