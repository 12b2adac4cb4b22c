/** The backward bracket scanner: `FindStartOfExpressionInLine` and
    `ReverseCloseExpression`.  Its stack holds closing characters and `>`. */
module BackwardScan {
  import opened AngleStack
  import opened Wrappers
  import opened SourceText
  import opened WellNested

  /** The index read next. */
  function NextIndex(line: string, i: nat): int
    requires i < |line|
  {
    if Acts(line, |line|, '>')[i] == SkipTwo then i - 2 else i - 1
  }

  /** A character that is skipped is no bracket. */
  lemma SkipsNoBracket(line: string, i: nat)
    requires i < |line|
    ensures NextIndex(line, i) == i - 1 || (NextIndex(line, i) == i - 2 && i > 0 && !IsBracket(line[i - 1]))
  {
    ActAt(line, |line|, i, '>');
  }

  function Step(line: string, i: nat, stack: string): Outcome
    requires i < |line|
  {
    Apply(Acts(line, |line|, '>')[i], stack, '>')
  }

  datatype LineResult = StartAt(pos: nat) | Pending(stack: string) | Broken

  function ScanLine(line: string, i: int, stack: string): LineResult
    requires -2 <= i < |line|
    decreases i + 2
  {
    if i < 0 then Pending(stack)
    else match Step(line, i, stack)
      case Done => StartAt(i)
      case Fail => Broken
      case Go(s) => ScanLine(line, NextIndex(line, i), s)
  }

  /** The scan across lines, as the place of the opening character.  `i` is the
      index read next, negative when the line is used up. */
  function ScanFrom(lines: Lines, l: nat, i: int, stack: string): (r: Option<(nat, nat)>)
    requires l < |lines| && -2 <= i < |lines[l]|
    ensures r.Some? ==>
      && IsPlace(lines, r.value.0, r.value.1) && r.value.1 < |lines[r.value.0]|
      && (r.value.0 < l || (r.value.0 == l && r.value.1 <= i))
    decreases l, i + 2
  {
    if i >= 0 then
      match Step(lines[l], i, stack)
      case Done => Some((l, i))
      case Fail => None
      case Go(s) => ScanFrom(lines, l, NextIndex(lines[l], i), s)
    else if stack == [] || l == 0 then None
    else ScanFrom(lines, l - 1, |lines[l - 1]| - 1, stack)
  }

  /** The line on which the scan ends, with or without a match. */
  function LastLine(lines: Lines, l: nat, i: int, stack: string): (last: nat)
    requires l < |lines| && -2 <= i < |lines[l]|
    ensures last <= l
    decreases l, i + 2
  {
    if i >= 0 then
      var r := Step(lines[l], i, stack);
      if r.Go? then LastLine(lines, l, NextIndex(lines[l], i), r.stack) else l
    else if stack == [] || l == 0 then l
    else LastLine(lines, l - 1, |lines[l - 1]| - 1, stack)
  }

  lemma {:induction false} ScanFromByLine(lines: Lines, l: nat, i: int, stack: string)
    requires l < |lines| && -2 <= i < |lines[l]|
    ensures ScanFrom(lines, l, i, stack) ==
      match ScanLine(lines[l], i, stack)
      case StartAt(p) => Some((l, p))
      case Broken => None
      case Pending(s) => ScanFrom(lines, l, -1, s)
    ensures LastLine(lines, l, i, stack) ==
      if ScanLine(lines[l], i, stack).Pending? then LastLine(lines, l, -1, ScanLine(lines[l], i, stack).stack) else l
    decreases i + 2
  {
    if i >= 0 && Step(lines[l], i, stack).Go? {
      ScanFromByLine(lines, l, NextIndex(lines[l], i), Step(lines[l], i, stack).stack);
    }
  }

  /** Pops the angle brackets and then the partner of an opening bracket, if that is on top. */
  method PopPartner(start: string, open: char) returns (rest: Option<string>)
    requires IsOpen(open)
    ensures var s := DropAngles(start, '>');
      rest == if s == [] || s[|s| - 1] != Partner(open) then None else Some(s[..|s| - 1])
  {
    var stack := PopAngles(start, '>');
    if stack == [] {
      return None;
    }
    var top := stack[|stack| - 1];
    if (open == '(' && top == ')') || (open == '[' && top == ']') || (open == '{' && top == '}') {
      return Some(stack[..|stack| - 1]);
    }
    return None;
  }

  method FindStartOfExpressionInLine(line: string, endpos: int, start: string)
    returns (startPos: int, newStack: Option<string>)
    requires -1 <= endpos < |line|
    ensures match ScanLine(line, endpos, start)
      case StartAt(p) => startPos == p && newStack == None
      case Broken => startPos == -1 && newStack == None
      case Pending(s) => startPos == -1 && newStack == Some(s)
  {
    var stack := start;
    var i := endpos;
    while i >= 0
      invariant -2 <= i < |line|
      invariant ScanLine(line, i, stack) == ScanLine(line, endpos, start)
    {
      ActAt(line, |line|, i, '>');
      var c := line[i];
      if c == ')' || c == ']' || c == '}' {
        stack := stack + [c];
      } else if c == '>' {
        if IgnoredAngle(line, i) {
          i := i - 1;
        } else {
          stack := stack + ['>'];
        }
      } else if c == '<' {
        if i > 0 && line[i - 1] == '<' {
          i := i - 1;
        } else {
          if stack != [] && stack[|stack| - 1] == '>' {
            stack := stack[..|stack| - 1];
            if stack == [] {
              return i, None;
            }
          }
        }
      } else if c == '(' || c == '[' || c == '{' {
        var rest := PopPartner(stack, c);
        if rest == None {
          return -1, None;
        }
        stack := rest.value;
        if stack == [] {
          return i, None;
        }
      } else if c == ';' {
        stack := PopAngles(stack, '>');
        if stack == [] {
          return -1, None;
        }
      }
      i := i - 1;
    }
    return -1, Some(stack);
  }

  /** `ReverseCloseExpression` as the place of the opening character. */
  function OpenAt(lines: Lines, l: nat, p: nat): (r: Option<(nat, nat)>)
    requires IsPlace(lines, l, p) && p < |lines[l]|
    ensures r.Some? ==>
      IsPlace(lines, r.value.0, r.value.1) && r.value.1 < |lines[r.value.0]| && NotAfter(r.value.0, r.value.1, l, p)
  {
    if Starts(lines[l], p) then ScanFrom(lines, l, p, []) else None
  }

  predicate Starts(line: string, p: nat)
    requires p < |line|
  {
    IsClose(line[p]) || line[p] == '>'
  }

  method ReverseCloseExpression(lines: Lines, linenum: nat, pos: nat)
    returns (line: string, startLine: nat, startPos: int)
    requires IsPlace(lines, linenum, pos) && pos < |lines[linenum]|
    ensures match OpenAt(lines, linenum, pos)
      case Some((l, p)) => line == lines[l] && startLine == l && startPos == p
      case None =>
        && startLine == 0 && startPos == -1
        && line == lines[if Starts(lines[linenum], pos) then LastLine(lines, linenum, pos, []) else linenum]
  {
    line := lines[linenum];
    if line[pos] !in ")}]>" {
      return line, 0, -1;
    }
    var l := linenum;
    var e, stack := FindStartOfExpressionInLine(line, pos, []);
    ScanFromByLine(lines, l, pos, []);
    if e > -1 {
      return line, l, e;
    }
    while stack.Some? && stack.value != [] && l > 0
      invariant l < |lines| && line == lines[l]
      invariant OpenAt(lines, linenum, pos) == if stack.Some? then ScanFrom(lines, l, -1, stack.value) else None
      invariant LastLine(lines, linenum, pos, []) == if stack.Some? then LastLine(lines, l, -1, stack.value) else l
      decreases l
    {
      l := l - 1;
      line := lines[l];
      ScanFromByLine(lines, l, |line| - 1, stack.value);
      e, stack := FindStartOfExpressionInLine(line, |line| - 1, stack.value);
      if e > -1 {
        return line, l, e;
      }
    }
    return line, 0, -1;
  }

  // ----- the scan and the plain stack discipline

  lemma ActFits(line: string, i: nat)
    requires i < |line|
    ensures Fits(Act(line, i, '>'), Partner(line[i]), '>')
  {
  }

  lemma StepProjects(line: string, i: nat, stack: string)
    requires i < |line| && Stack(stack, '>')
    ensures Projects(Partner(line[i]), stack, '>', Step(line, i, stack))
  {
    ActAt(line, |line|, i, '>');
    ActFits(line, i);
    ApplyProjects(Act(line, i, '>'), Partner(line[i]), stack, '>');
  }

  /** Reading to the left from index `i` of line `l`, with every bracket turned around,
      empties `st` at `(l', p')` and not before. */
  ghost predicate Reads(lines: Lines, l': nat, p': nat, l: nat, i: int, st: string)
    requires IsPlace(lines, l', p') && l < |lines| && -1 <= i < |lines[l]| && NotAfter(l', p', l, i + 1)
    decreases l, i + 1
  {
    if l' == l && p' == i + 1 then st == []
    else if i >= 0 then
      var m := Move(Partner(lines[l][i]), st);
      st != [] && m.Some? && Reads(lines, l', p', l, i - 1, m.value)
    else Reads(lines, l', p', l - 1, |lines[l - 1]| - 1, st)
  }

  /** Reading to the left up to `(l', p')` folds `st` to the empty stack. */
  ghost predicate Folds(lines: Lines, l': nat, p': nat, l: nat, i: int, st: string)
    requires IsPlace(lines, l', p') && l < |lines| && -1 <= i < |lines[l]| && NotAfter(l', p', l, i + 1)
    decreases l, i + 1
  {
    if l' == l && p' == i + 1 then st == []
    else if i >= 0 then
      var m := Move(Partner(lines[l][i]), st);
      m.Some? && Folds(lines, l', p', l, i - 1, m.value)
    else Folds(lines, l', p', l - 1, |lines[l - 1]| - 1, st)
  }

  lemma MirrorLast(t: string, c: char)
    ensures Mirror(t + [c]) == [Partner(c)] + Mirror(t) && Mirror(t + [c])[1..] == Mirror(t)
  {
    MirrorConcat(t, [c]);
  }

  /** Reading to the left is reading the mirrored text. */
  lemma {:induction false} ReadsMirror(lines: Lines, l': nat, p': nat, l: nat, i: int, st: string)
    requires IsPlace(lines, l', p') && p' < |lines[l']|
    requires l < |lines| && -1 <= i < |lines[l]| && NotAfter(l', p', l, i + 1)
    ensures Reads(lines, l', p', l, i, st) <==> Closes(Mirror(Between(lines, l', p', l, i + 1)), st)
    ensures Folds(lines, l', p', l, i, st) <==> Fold(Mirror(Between(lines, l', p', l, i + 1)), st) == Some([])
    decreases l, i + 1
  {
    if l' == l && p' == i + 1 {
      assert Between(lines, l', p', l, i + 1) == [];
    } else if i >= 0 {
      BetweenLast(lines, l', p', l, i);
      MirrorLast(Between(lines, l', p', l, i), lines[l][i]);
      var m := Move(Partner(lines[l][i]), st);
      if m.Some? {
        ReadsMirror(lines, l', p', l, i - 1, m.value);
      }
    } else {
      BetweenLineStart(lines, l', p', l);
      ReadsMirror(lines, l', p', l - 1, |lines[l - 1]| - 1, st);
    }
  }

  /** The rest of the scan after one step. */
  function ScanAfter(lines: Lines, l: nat, i: nat, r: Outcome, next: int): Option<(nat, nat)>
    requires l < |lines| && i < |lines[l]| && -2 <= next < i
  {
    match r
    case Done => Some((l, i))
    case Fail => None
    case Go(s) => ScanFrom(lines, l, next, s)
  }

  /** Above a closing bracket the scan stops exactly where the plain stack empties. */
  lemma {:induction false} ScanIffReads(lines: Lines, l: nat, i: int, stack: string, l': nat, p': nat)
    requires l < |lines| && -1 <= i < |lines[l]| && Stack(stack, '>') && stack != [] && stack[0] != '>'
    requires IsPlace(lines, l', p') && p' < |lines[l']| && NotAfter(l', p', l, i + 1)
    ensures ScanFrom(lines, l, i, stack) == Some((l', p')) <==> Reads(lines, l', p', l, i, Project(stack, '>'))
    decreases l, i + 1, 2
  {
    if l' == l && p' == i + 1 {
    } else if i >= 0 {
      StepProjects(lines[l], i, stack);
      SkipsNoBracket(lines[l], i);
      StepIffReads(lines, l, i, stack, Step(lines[l], i, stack), NextIndex(lines[l], i), l', p');
    } else {
      ScanIffReads(lines, l - 1, |lines[l - 1]| - 1, stack, l', p');
    }
  }

  lemma {:induction false} StepIffReads(
      lines: Lines, l: nat, i: nat, stack: string, r: Outcome, next: int, l': nat, p': nat)
    requires l < |lines| && i < |lines[l]| && stack != [] && stack[0] != '>'
    requires Projects(Partner(lines[l][i]), stack, '>', r)
    requires next == i - 1 || (next == i - 2 && i > 0 && !IsBracket(lines[l][i - 1]))
    requires IsPlace(lines, l', p') && p' < |lines[l']| && NotAfter(l', p', l, i)
    ensures ScanAfter(lines, l, i, r, next) == Some((l', p')) <==> Reads(lines, l', p', l, i, Project(stack, '>'))
    decreases l, i + 1, 1
  {
    match r
    case Go(s) => GoIffReads(lines, l, i, s, next, l', p');
    case Done => ReadsNothing(lines, l', p', l, i - 1);
    case Fail =>
  }

  lemma {:induction false} GoIffReads(lines: Lines, l: nat, i: nat, stack: string, next: int, l': nat, p': nat)
    requires l < |lines| && i < |lines[l]| && Stack(stack, '>') && stack != [] && stack[0] != '>'
    requires IsPlace(lines, l', p') && p' < |lines[l']| && NotAfter(l', p', l, i)
    requires next == i - 1 || (next == i - 2 && i > 0 && !IsBracket(lines[l][i - 1]))
    ensures ScanFrom(lines, l, next, stack) == Some((l', p')) <==> Reads(lines, l', p', l, i - 1, Project(stack, '>'))
    decreases l, i + 1, 0
  {
    if next == i - 1 {
      ScanIffReads(lines, l, i - 1, stack, l', p');
    } else if !(l' == l && p' == i) {
      ScanIffReads(lines, l, i - 2, stack, l', p');
    }
  }

  /** The empty stack is read at the place itself only. */
  lemma {:induction false} ReadsNothing(lines: Lines, l': nat, p': nat, l: nat, i: int)
    requires IsPlace(lines, l', p') && p' < |lines[l']|
    requires l < |lines| && -1 <= i < |lines[l]| && NotAfter(l', p', l, i + 1)
    ensures Reads(lines, l', p', l, i, []) <==> l' == l && p' == i + 1
    decreases l, i + 1
  {
    if !(l' == l && p' == i + 1) && i < 0 {
      ReadsNothing(lines, l', p', l - 1, |lines[l - 1]| - 1);
    }
  }

  /** From `)`, `]` or `}`, `ReverseCloseExpression` reports exactly the pairs of the grammar. */
  lemma OpenIffEnclosed(lines: Lines, l: nat, p: nat, l': nat, p': nat)
    requires IsPlace(lines, l, p) && p < |lines[l]| && IsClose(lines[l][p])
    requires IsPlace(lines, l', p') && p' < |lines[l']| && NotAfter(l', p', l, p)
    ensures OpenAt(lines, l, p) == Some((l', p')) <==> Enclosed(Between(lines, l', p', l, p + 1))
  {
    var c := lines[l][p];
    BracketStep(lines[l], p);
    ScanIffReads(lines, l, p - 1, [c], l', p');
    ReadsMirror(lines, l', p', l, p - 1, [Partner(c)]);
    BetweenLast(lines, l', p', l, p);
    MirroredPair(Between(lines, l', p', l, p), c);
  }

  lemma BracketStep(line: string, p: nat)
    requires p < |line| && IsClose(line[p])
    ensures Step(line, p, []) == Go([line[p]]) && NextIndex(line, p) == p - 1
    ensures Stack([line[p]], '>') && Project([line[p]], '>') == [Partner(line[p])]
  {
    ActAt(line, |line|, p, '>');
    OneBracket(line[p], '>');
    assert [] + [line[p]] == [line[p]];
  }

  lemma MirroredPair(t: string, close: char)
    requires IsClose(close)
    ensures Closes(Mirror(t), [Partner(close)]) <==> Enclosed(t + [close])
  {
    ClosesIffEnclosed(Partner(close), Mirror(t));
    MirrorConcat(t, [close]);
    MirrorEnclosed(t + [close]);
  }

  // ----- matches from any character

  /** A match reported for any stack folds the plain stack to the empty one. */
  lemma {:induction false} FoundFolds(lines: Lines, l: nat, i: int, stack: string, l': nat, p': nat)
    requires l < |lines| && -1 <= i < |lines[l]| && Stack(stack, '>')
    requires ScanFrom(lines, l, i, stack) == Some((l', p'))
    ensures Folds(lines, l', p', l, i, Project(stack, '>'))
    decreases l, i + 1, 3
  {
    if i >= 0 {
      StepProjects(lines[l], i, stack);
      SkipsNoBracket(lines[l], i);
      StepFolds(lines, l, i, stack, Step(lines[l], i, stack), NextIndex(lines[l], i), l', p');
    } else {
      FoundFolds(lines, l - 1, |lines[l - 1]| - 1, stack, l', p');
    }
  }

  lemma {:induction false} StepFolds(
      lines: Lines, l: nat, i: nat, stack: string, r: Outcome, next: int, l': nat, p': nat)
    requires l < |lines| && i < |lines[l]| && Projects(Partner(lines[l][i]), stack, '>', r)
    requires next == i - 1 || (next == i - 2 && i > 0 && !IsBracket(lines[l][i - 1]))
    requires ScanAfter(lines, l, i, r, next) == Some((l', p'))
    ensures Folds(lines, l', p', l, i, Project(stack, '>'))
    decreases l, i + 1, 1
  {
    if r.Go? {
      GoFolds(lines, l, i, r.stack, next, l', p');
    }
  }

  lemma {:induction false} GoFolds(lines: Lines, l: nat, i: nat, stack: string, next: int, l': nat, p': nat)
    requires l < |lines| && i < |lines[l]| && Stack(stack, '>')
    requires next == i - 1 || (next == i - 2 && i > 0 && !IsBracket(lines[l][i - 1]))
    requires ScanFrom(lines, l, next, stack) == Some((l', p'))
    ensures Folds(lines, l', p', l, i - 1, Project(stack, '>'))
    decreases l, i + 1, 0
  {
    FoundFolds(lines, l, next, stack, l', p');
  }

  /** Any match that `ReverseCloseExpression` reports, from `>` too, encloses well-nested text. */
  lemma MatchIsWellNested(lines: Lines, l: nat, p: nat)
    requires IsPlace(lines, l, p) && p < |lines[l]| && OpenAt(lines, l, p).Some?
    ensures var (l', p') := OpenAt(lines, l, p).value; WellNestedText(Between(lines, l', p', l, p + 1))
  {
    var (l', p') := OpenAt(lines, l, p).value;
    FoundFolds(lines, l, p, [], l', p');
    ReadsMirror(lines, l', p', l, p, []);
    FoldIffWellNested(Mirror(Between(lines, l', p', l, p + 1)));
    MirrorWellNested(Between(lines, l', p', l, p + 1));
  }

  /** Above a `>` only a `<` ends the scan. */
  lemma {:induction false} AngleMatch(lines: Lines, l: nat, i: int, stack: string)
    requires l < |lines| && -2 <= i < |lines[l]| && stack != [] && stack[0] == '>'
    requires ScanFrom(lines, l, i, stack).Some?
    ensures var (l', p') := ScanFrom(lines, l, i, stack).value; lines[l'][p'] == '<'
    decreases l, i + 2
  {
    if i >= 0 {
      ActAt(lines[l], |lines[l]|, i, '>');
      AngleBottom(Act(lines[l], i, '>'), stack, '>');
      if Step(lines[l], i, stack).Go? {
        AngleMatch(lines, l, NextIndex(lines[l], i), Step(lines[l], i, stack).stack);
      }
    } else {
      AngleMatch(lines, l - 1, |lines[l - 1]| - 1, stack);
    }
  }
}
