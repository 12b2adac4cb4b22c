/** The forward bracket scanner: `FindEndOfExpressionInLine`, `CloseExpression`
    and `_GetTextInside`. */
module ForwardScan {
  import opened AngleStack
  import opened Wrappers
  import opened SourceText
  import opened WellNested

  function Step(line: string, i: nat, stack: string): Outcome
    requires i < |line|
  {
    Apply(Acts(line, |line|, '<')[i], stack, '<')
  }

  datatype LineResult = EndAt(pos: nat) | Pending(stack: string) | Broken

  function ScanLine(line: string, i: nat, stack: string): LineResult
    requires i <= |line|
    decreases |line| - i
  {
    if i == |line| then Pending(stack)
    else match Step(line, i, stack)
      case Done => EndAt(i + 1)
      case Fail => Broken
      case Go(s) => ScanLine(line, i + 1, s)
  }

  /** The scan across lines, as the place just past the closing character. */
  function ScanFrom(lines: Lines, l: nat, i: nat, stack: string): (r: Option<(nat, nat)>)
    requires IsPlace(lines, l, i)
    ensures r.Some? ==>
      IsPlace(lines, r.value.0, r.value.1) && r.value.1 > 0 && NotAfter(l, i + 1, r.value.0, r.value.1)
    decreases |lines| - l, |lines[l]| - i
  {
    if i < |lines[l]| then
      match Step(lines[l], i, stack)
      case Done => Some((l, i + 1))
      case Fail => None
      case Go(s) => ScanFrom(lines, l, i + 1, s)
    else if stack == [] || l + 1 == |lines| then None
    else ScanFrom(lines, l + 1, 0, stack)
  }

  /** The line on which the scan ends, with or without a match. */
  function LastLine(lines: Lines, l: nat, i: nat, stack: string): (last: nat)
    requires IsPlace(lines, l, i)
    ensures l <= last < |lines|
    decreases |lines| - l, |lines[l]| - i
  {
    if i < |lines[l]| then
      var r := Step(lines[l], i, stack);
      if r.Go? then LastLine(lines, l, i + 1, r.stack) else l
    else if stack == [] || l + 1 == |lines| then l
    else LastLine(lines, l + 1, 0, stack)
  }

  lemma {:induction false} ScanFromByLine(lines: Lines, l: nat, i: nat, stack: string)
    requires IsPlace(lines, l, i)
    ensures ScanFrom(lines, l, i, stack) ==
      match ScanLine(lines[l], i, stack)
      case EndAt(p) => Some((l, p))
      case Broken => None
      case Pending(s) => ScanFrom(lines, l, |lines[l]|, s)
    ensures LastLine(lines, l, i, stack) ==
      if ScanLine(lines[l], i, stack).Pending?
      then LastLine(lines, l, |lines[l]|, ScanLine(lines[l], i, stack).stack)
      else l
    decreases |lines[l]| - i
  {
    if i < |lines[l]| && Step(lines[l], i, stack).Go? {
      ScanFromByLine(lines, l, i + 1, Step(lines[l], i, stack).stack);
    }
  }

  method FindEndOfExpressionInLine(line: string, startpos: nat, start: string)
    returns (endPos: int, newStack: Option<string>)
    requires startpos <= |line|
    ensures match ScanLine(line, startpos, start)
      case EndAt(p) => endPos == p && newStack == None
      case Broken => endPos == -1 && newStack == None
      case Pending(s) => endPos == -1 && newStack == Some(s)
  {
    var stack := start;
    for i := startpos to |line|
      invariant ScanLine(line, i, stack) == ScanLine(line, startpos, start)
    {
      ActAt(line, |line|, i, '<');
      var c := line[i];
      if c == '(' || c == '[' || c == '{' {
        stack := stack + [c];
      } else if c == '<' {
        if i > 0 && line[i - 1] == '<' {
          if stack != [] && stack[|stack| - 1] == '<' {
            stack := stack[..|stack| - 1];
            if stack == [] {
              return -1, None;
            }
          }
        } else if i > 0 && OperatorBefore(line, i) {
          continue;
        } else {
          stack := stack + ['<'];
        }
      } else if c == ')' || c == ']' || c == '}' {
        stack := PopAngles(stack, '<');
        if stack == [] {
          return -1, None;
        }
        var top := stack[|stack| - 1];
        if (top == '(' && c == ')') || (top == '[' && c == ']') || (top == '{' && c == '}') {
          stack := stack[..|stack| - 1];
          if stack == [] {
            return i + 1, None;
          }
        } else {
          return -1, None;
        }
      } else if c == '>' {
        if i > 0 && (line[i - 1] == '-' || OperatorBefore(line, i - 1)) {
          continue;
        }
        if stack != [] {
          if stack[|stack| - 1] == '<' {
            stack := stack[..|stack| - 1];
            if stack == [] {
              return i + 1, None;
            }
          }
        }
      } else if c == ';' {
        stack := PopAngles(stack, '<');
        if stack == [] {
          return -1, None;
        }
      }
    }
    return -1, Some(stack);
  }

  /** `CloseExpression` as the place past the match. */
  function CloseAt(lines: Lines, l: nat, p: nat): (r: Option<(nat, nat)>)
    requires IsPlace(lines, l, p) && p < |lines[l]|
    ensures r.Some? ==>
      IsPlace(lines, r.value.0, r.value.1) && r.value.1 > 0 && NotAfter(l, p + 1, r.value.0, r.value.1)
  {
    if Starts(lines[l], p) then ScanFrom(lines, l, p, []) else None
  }

  /** A bracket, or a `<` that is not part of `<<` or `<=` */
  predicate Starts(line: string, p: nat)
    requires p < |line|
  {
    IsOpen(line[p]) || (line[p] == '<' && !(p + 1 < |line| && (line[p + 1] == '<' || line[p + 1] == '=')))
  }

  method CloseExpression(lines: Lines, linenum: nat, pos: nat)
    returns (line: string, endLine: nat, endPos: int)
    requires IsPlace(lines, linenum, pos) && pos < |lines[linenum]|
    ensures match CloseAt(lines, linenum, pos)
      case Some((l, p)) => line == lines[l] && endLine == l && endPos == p
      case None =>
        && endLine == |lines| && endPos == -1
        && line == lines[if Starts(lines[linenum], pos) then LastLine(lines, linenum, pos, []) else linenum]
  {
    line := lines[linenum];
    if line[pos] !in "({[<"
       || (line[pos] == '<' && pos + 1 < |line| && (line[pos + 1] == '<' || line[pos + 1] == '=')) {
      return line, |lines|, -1;
    }
    var l := linenum;
    var e, stack := FindEndOfExpressionInLine(line, pos, []);
    ScanFromByLine(lines, l, pos, []);
    if e > -1 {
      return line, l, e;
    }
    while stack.Some? && stack.value != [] && l < |lines| - 1
      invariant l < |lines| && line == lines[l]
      invariant CloseAt(lines, linenum, pos) ==
        if stack.Some? then ScanFrom(lines, l, |line|, stack.value) else None
      invariant LastLine(lines, linenum, pos, []) ==
        if stack.Some? then LastLine(lines, l, |line|, stack.value) else l
      decreases |lines| - l
    {
      l := l + 1;
      line := lines[l];
      ScanFromByLine(lines, l, 0, stack.value);
      e, stack := FindEndOfExpressionInLine(line, 0, stack.value);
      if e > -1 {
        return line, l, e;
      }
    }
    return line, |lines|, -1;
  }

  // ----- the scan and the plain stack discipline

  lemma ActFits(line: string, i: nat)
    requires i < |line|
    ensures Fits(Act(line, i, '<'), line[i], '<')
  {
  }

  lemma StepProjects(line: string, i: nat, stack: string)
    requires i < |line| && Stack(stack, '<')
    ensures Projects(line[i], stack, '<', Step(line, i, stack))
  {
    ActAt(line, |line|, i, '<');
    ActFits(line, i);
    ApplyProjects(Act(line, i, '<'), line[i], stack, '<');
  }

  /** A match reported for any stack folds the plain stack to the empty one. */
  lemma {:induction false} FoundFolds(lines: Lines, l: nat, i: nat, stack: string)
    requires IsPlace(lines, l, i) && Stack(stack, '<')
    requires ScanFrom(lines, l, i, stack).Some?
    ensures var (l', p') := ScanFrom(lines, l, i, stack).value;
      Fold(Between(lines, l, i, l', p'), Project(stack, '<')) == Some([])
    decreases |lines| - l, |lines[l]| - i, 1
  {
    var (l', p') := ScanFrom(lines, l, i, stack).value;
    if i < |lines[l]| {
      StepProjects(lines[l], i, stack);
      BetweenFirst(lines, l, i, l', p');
      var rest := Between(lines, l, i + 1, l', p');
      assert ([lines[l][i]] + rest)[1..] == rest;
      if Step(lines[l], i, stack).Go? {
        FoundFolds(lines, l, i + 1, Step(lines[l], i, stack).stack);
      } else {
        assert rest == [];
      }
    } else {
      FoundFolds(lines, l + 1, 0, stack);
      BetweenLineEnd(lines, l, l', p');
    }
  }

  /** Above an opening bracket the scan stops exactly where the plain stack empties. */
  lemma {:induction false} ScanIffCloses(lines: Lines, l: nat, i: nat, stack: string, l': nat, p': nat)
    requires IsPlace(lines, l, i) && Stack(stack, '<') && stack != [] && stack[0] != '<'
    requires IsPlace(lines, l', p') && p' > 0 && NotAfter(l, i, l', p')
    ensures ScanFrom(lines, l, i, stack) == Some((l', p')) <==>
            Closes(Between(lines, l, i, l', p'), Project(stack, '<'))
    decreases |lines| - l, |lines[l]| - i, 1
  {
    if l == l' && i == p' {
    } else if i < |lines[l]| {
      StepProjects(lines[l], i, stack);
      StepIffCloses(lines, l, i, stack, Step(lines[l], i, stack), l', p');
    } else {
      ScanIffCloses(lines, l + 1, 0, stack, l', p');
      BetweenLineEnd(lines, l, l', p');
    }
  }

  /** The rest of the scan after one step. */
  function ScanAfter(lines: Lines, l: nat, i: nat, r: Outcome): Option<(nat, nat)>
    requires IsPlace(lines, l, i) && i < |lines[l]|
  {
    match r
    case Done => Some((l, i + 1))
    case Fail => None
    case Go(s) => ScanFrom(lines, l, i + 1, s)
  }

  lemma {:induction false} StepIffCloses(lines: Lines, l: nat, i: nat, stack: string, r: Outcome, l': nat, p': nat)
    requires IsPlace(lines, l, i) && i < |lines[l]| && stack != [] && stack[0] != '<'
    requires Projects(lines[l][i], stack, '<', r)
    requires IsPlace(lines, l', p') && p' > 0 && NotAfter(l, i + 1, l', p')
    ensures ScanAfter(lines, l, i, r) == Some((l', p')) <==>
            Closes(Between(lines, l, i, l', p'), Project(stack, '<'))
    decreases |lines| - l, |lines[l]| - i, 0
  {
    ClosesFirst(lines, l, i, l', p', Project(stack, '<'));
    match r
    case Go(s) => ScanIffCloses(lines, l, i + 1, s, l', p');
    case Done => BetweenEmpty(lines, l, i + 1, l', p');
    case Fail =>
  }

  lemma ClosesFirst(lines: Lines, l: nat, i: nat, l': nat, p': nat, st: string)
    requires IsPlace(lines, l, i) && IsPlace(lines, l', p') && i < |lines[l]| && NotAfter(l, i + 1, l', p')
    requires st != []
    ensures var m := Move(lines[l][i], st);
      Closes(Between(lines, l, i, l', p'), st) == (m.Some? && Closes(Between(lines, l, i + 1, l', p'), m.value))
  {
    BetweenFirst(lines, l, i, l', p');
    assert Between(lines, l, i, l', p')[1..] == Between(lines, l, i + 1, l', p');
  }

  /** Nothing lies before a place past a character only at that place itself. */
  lemma {:induction false} BetweenEmpty(lines: Lines, l: nat, i: nat, l': nat, p': nat)
    requires IsPlace(lines, l, i) && IsPlace(lines, l', p') && p' > 0 && NotAfter(l, i, l', p')
    ensures Between(lines, l, i, l', p') == [] <==> l == l' && i == p'
    decreases l' - l
  {
    if l < l' {
      BetweenEmpty(lines, l + 1, 0, l', p');
    }
  }

  /** From `(`, `[` or `{`, `CloseExpression` reports exactly the pairs of the
      grammar, whatever `<`, `>`, `<<`, `->`, `operator<` or `;` lie between. */
  lemma CloseIffEnclosed(lines: Lines, l: nat, p: nat, l': nat, p': nat)
    requires IsPlace(lines, l, p) && p < |lines[l]| && IsOpen(lines[l][p])
    requires IsPlace(lines, l', p') && p' > 0 && NotAfter(l, p + 1, l', p')
    ensures CloseAt(lines, l, p) == Some((l', p')) <==> Enclosed(Between(lines, l, p, l', p'))
  {
    var c := lines[l][p];
    BracketStep(lines[l], p);
    ScanIffCloses(lines, l, p + 1, [c], l', p');
    BetweenFirst(lines, l, p, l', p');
    ClosesIffEnclosed(c, Between(lines, l, p + 1, l', p'));
  }

  lemma BracketStep(line: string, p: nat)
    requires p < |line| && IsOpen(line[p])
    ensures Step(line, p, []) == Go([line[p]]) && Stack([line[p]], '<') && Project([line[p]], '<') == [line[p]]
  {
    ActAt(line, |line|, p, '<');
    OneBracket(line[p], '<');
    assert [] + [line[p]] == [line[p]];
  }

  // ----- template argument lists

  /** A `<` that `FindEndOfExpressionInLine` pushes. */
  predicate OpensTemplate(line: string, p: nat)
    requires p < |line|
  {
    line[p] == '<' && (p > 0 ==> line[p - 1] != '<' && !OperatorBefore(line, p))
  }

  /** Every semicolon of `t` lies inside a bracket that is open on the plain stack. */
  ghost predicate SemicolonsInside(t: string, st: string) {
    forall k :: 0 <= k < |t| && t[k] == ';' ==> Fold(t[..k], st) != Some([])
  }

  lemma {:induction false} AngleMatch(lines: Lines, l: nat, i: nat, stack: string)
    requires IsPlace(lines, l, i) && Stack(stack, '<') && stack != [] && stack[0] == '<'
    requires ScanFrom(lines, l, i, stack).Some?
    ensures var (l', p') := ScanFrom(lines, l, i, stack).value;
      lines[l'][p' - 1] == '>' && SemicolonsInside(Between(lines, l, i, l', p'), Project(stack, '<'))
    decreases |lines| - l, |lines[l]| - i
  {
    var (l', p') := ScanFrom(lines, l, i, stack).value;
    if i < |lines[l]| {
      StepProjects(lines[l], i, stack);
      AngleStep(lines[l], i, stack);
      if Step(lines[l], i, stack).Go? {
        AngleMatchGo(lines, l, i, Project(stack, '<'), Step(lines[l], i, stack).stack);
      } else {
        assert Between(lines, l, i, l, i + 1) == ['>'];
      }
    } else {
      AngleMatch(lines, l + 1, 0, stack);
      BetweenLineEnd(lines, l, l', p');
    }
  }

  lemma {:induction false} AngleMatchGo(lines: Lines, l: nat, i: nat, st: string, stack: string)
    requires IsPlace(lines, l, i) && i < |lines[l]| && Stack(stack, '<') && stack != [] && stack[0] == '<'
    requires Move(lines[l][i], st) == Some(Project(stack, '<')) && (lines[l][i] == ';' ==> st != [])
    requires ScanFrom(lines, l, i + 1, stack).Some?
    ensures var (l', p') := ScanFrom(lines, l, i + 1, stack).value;
      lines[l'][p' - 1] == '>' && SemicolonsInside(Between(lines, l, i, l', p'), st)
    decreases |lines| - l, |lines[l]| - i, 0
  {
    var (l', p') := ScanFrom(lines, l, i + 1, stack).value;
    AngleMatch(lines, l, i + 1, stack);
    SemicolonsBetween(lines, l, i, l', p', st);
  }

  lemma AngleStep(line: string, i: nat, stack: string)
    requires i < |line| && stack != [] && stack[0] == '<'
    ensures Step(line, i, stack).Done? ==> line[i] == '>'
    ensures Step(line, i, stack).Go? && line[i] == ';' ==> Project(stack, '<') != []
  {
    ActAt(line, |line|, i, '<');
    AngleBottom(Act(line, i, '<'), stack, '<');
  }

  lemma SemicolonsBetween(lines: Lines, l: nat, i: nat, l': nat, p': nat, st: string)
    requires IsPlace(lines, l, i) && i < |lines[l]| && IsPlace(lines, l', p') && NotAfter(l, i + 1, l', p')
    requires var m := Move(lines[l][i], st);
      m.Some? && SemicolonsInside(Between(lines, l, i + 1, l', p'), m.value)
    requires lines[l][i] == ';' ==> st != []
    ensures SemicolonsInside(Between(lines, l, i, l', p'), st)
  {
    BetweenFirst(lines, l, i, l', p');
    SemicolonsPrefixed(lines[l][i], Between(lines, l, i + 1, l', p'), st);
  }

  lemma SemicolonsPrefixed(c: char, rest: string, st: string)
    requires Move(c, st).Some? && SemicolonsInside(rest, Move(c, st).value)
    requires c == ';' ==> st != []
    ensures SemicolonsInside([c] + rest, st)
  {
    var t := [c] + rest;
    forall k | 0 <= k < |t| && t[k] == ';' ensures Fold(t[..k], st) != Some([]) {
      if k > 0 {
        assert rest[k - 1] == ';';
        assert t[..k][1..] == rest[..k - 1];
      }
    }
  }

  /** Any match that `CloseExpression` reports, from `<` too, encloses well-nested text. */
  lemma MatchIsWellNested(lines: Lines, l: nat, p: nat)
    requires IsPlace(lines, l, p) && p < |lines[l]| && CloseAt(lines, l, p).Some?
    ensures var (l', p') := CloseAt(lines, l, p).value; WellNestedText(Between(lines, l, p, l', p'))
  {
    var (l', p') := CloseAt(lines, l, p).value;
    FoundFolds(lines, l, p, []);
    FoldIffWellNested(Between(lines, l, p, l', p'));
  }

  lemma OpensStep(line: string, p: nat)
    requires p < |line| && OpensTemplate(line, p)
    ensures Step(line, p, []) == Go(['<']) && Stack(['<'], '<') && Move('<', []) == Some(Project(['<'], '<'))
  {
    ActAt(line, |line|, p, '<');
    assert [] + ['<'] == ['<'] && ['<'][..0] == [];
    assert Project(['<'], '<') == Project([], '<') == [];
  }

  /** When a `<` is neither the second of `<<` nor part of `operator<`, its match
      ends at a `>` and every semicolon before that is inside some bracket. */
  lemma TemplateMatch(lines: Lines, l: nat, p: nat)
    requires IsPlace(lines, l, p) && p < |lines[l]| && OpensTemplate(lines[l], p)
    requires CloseAt(lines, l, p).Some?
    ensures var (l', p') := CloseAt(lines, l, p).value;
      lines[l'][p' - 1] == '>' && SemicolonsInside(Between(lines, l, p, l', p'), [])
  {
    OpensStep(lines[l], p);
    assert ScanFrom(lines, l, p, []) == ScanFrom(lines, l, p + 1, ['<']);
    AngleMatchGo(lines, l, p, [], ['<']);
  }

  // ----- text inside a pair, on one string

  /** The plain kind-checking matcher: the place where the stack first empties. */
  function PlainMatch(text: string, i: nat, st: string): (r: Option<nat>)
    requires i <= |text|
    ensures r.Some? ==> i <= r.value <= |text|
    decreases |text| - i
  {
    if st == [] then Some(i)
    else if i == |text| || Move(text[i], st) == None then None
    else PlainMatch(text, i + 1, Move(text[i], st).value)
  }

  lemma {:induction false} PlainMatchCloses(text: string, i: nat, st: string)
    requires i <= |text| && PlainMatch(text, i, st).Some?
    ensures Closes(text[i..PlainMatch(text, i, st).value], st)
    decreases |text| - i
  {
    if st != [] {
      var p := PlainMatch(text, i, st).value;
      PlainMatchCloses(text, i + 1, Move(text[i], st).value);
      assert text[i..p][1..] == text[i + 1..p];
    }
  }

  /** On one line the scanner with its heuristics is the plain matcher. */
  lemma {:induction false} ScanLineIsPlain(text: string, i: nat, stack: string)
    requires i <= |text| && Stack(stack, '<') && stack != [] && stack[0] != '<'
    ensures var m := PlainMatch(text, i, Project(stack, '<'));
      match ScanLine(text, i, stack)
      case EndAt(p) => m == Some(p)
      case _ => m == None
    decreases |text| - i
  {
    if i < |text| {
      StepProjects(text, i, stack);
      if Step(text, i, stack).Go? {
        ScanLineIsPlain(text, i + 1, Step(text, i, stack).stack);
      }
    }
  }

  function Openers(closers: string): (st: string)
    ensures |st| == |closers| && forall k :: 0 <= k < |st| ==> st[k] == Partner(closers[k])
  {
    seq(|closers|, k requires 0 <= k < |closers| => Partner(closers[k]))
  }

  lemma PunctuationMoves(c: char, closers: string)
    requires closers != [] && forall d <- closers :: IsClose(d)
    ensures Move(c, Openers(closers)) ==
      if c == closers[|closers| - 1] then Some(Openers(closers[..|closers| - 1]))
      else if IsClose(c) then None
      else if IsOpen(c) then Some(Openers(closers + [Partner(c)]))
      else Some(Openers(closers))
  {
    assert closers[|closers| - 1] in closers;
    if IsOpen(c) {
      assert Openers(closers) + [c] == Openers(closers + [Partner(c)]);
    } else if IsClose(c) {
      assert Openers(closers)[..|closers| - 1] == Openers(closers[..|closers| - 1]);
    }
  }

  /** `_GetTextInside`, with the end of the start pattern's match as a parameter.
      It agrees with `FindEndOfExpressionInLine` on every text. */
  method GetTextInside(text: string, patternEnd: Option<nat>) returns (inside: Option<string>)
    requires patternEnd.Some? ==> 0 < patternEnd.value <= |text| && IsOpen(text[patternEnd.value - 1])
    ensures patternEnd == None ==> inside == None
    ensures patternEnd.Some? ==>
      var start := patternEnd.value;
      match ScanLine(text, start - 1, [])
      case EndAt(p) => start < p <= |text| && inside == Some(text[start..p - 1]) && Enclosed(text[start - 1..p])
      case _ => inside == None
  {
    if patternEnd == None {
      return None;
    }
    var start := patternEnd.value;
    var open := text[start - 1];
    var stack := [Partner(open)];
    var position := start;
    assert Openers(stack) == [open];
    while stack != [] && position < |text|
      invariant start <= position <= |text|
      invariant forall c <- stack :: IsClose(c)
      invariant PlainMatch(text, position, Openers(stack)) == PlainMatch(text, start, [open])
      invariant stack == [] ==> position > start
      decreases |text| - position
    {
      var c := text[position];
      PunctuationMoves(c, stack);
      if c == stack[|stack| - 1] {
        stack := stack[..|stack| - 1];
      } else if IsClose(c) {
        GetTextAgrees(text, start);
        return None;
      } else if IsOpen(c) {
        stack := stack + [Partner(c)];
      }
      position := position + 1;
    }
    GetTextAgrees(text, start);
    if stack != [] {
      return None;
    }
    return Some(text[start..position - 1]);
  }

  lemma GetTextAgrees(text: string, start: nat)
    requires 0 < start <= |text| && IsOpen(text[start - 1])
    ensures var m := PlainMatch(text, start, [text[start - 1]]);
      match ScanLine(text, start - 1, [])
      case EndAt(p) => m == Some(p) && start < p && Enclosed(text[start - 1..p])
      case _ => m == None
  {
    var open := text[start - 1];
    BracketStep(text, start - 1);
    ScanLineIsPlain(text, start, [open]);
    PlainMatchEncloses(text, start);
  }

  lemma PlainMatchEncloses(text: string, start: nat)
    requires 0 < start <= |text| && IsOpen(text[start - 1])
    ensures var m := PlainMatch(text, start, [text[start - 1]]);
      m.Some? ==> start < m.value && Enclosed(text[start - 1..m.value])
  {
    var open := text[start - 1];
    var m := PlainMatch(text, start, [open]);
    if m.Some? {
      PlainMatchCloses(text, start, [open]);
      ClosesIffEnclosed(open, text[start..m.value]);
      assert [open] + text[start..m.value] == text[start - 1..m.value];
    }
  }
}
