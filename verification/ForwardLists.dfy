/** Where `CloseExpression` finds the end, for every character it can start from. */
module ForwardLists {
  import opened AngleCounts
  import opened AngleStack
  import opened ForwardScan
  import opened SourceText
  import opened TemplateLists
  import opened WellNested
  import opened Wrappers

  /** The second of `<<`. */
  predicate EndsShift(line: string, i: nat)
    requires i < |line|
  {
    line[i] == '<' && i > 0 && line[i - 1] == '<'
  }

  /** A `<` that is neither the second of `<<` nor part of `operator<`. */
  ghost predicate OpensList(line: string, i: nat)
    requires i < |line|
  {
    line[i] == '<' && !EndsShift(line, i) && (i > 0 ==> !FollowsOperator(line, i))
  }

  /** A `>` that is not part of `->`, and not after `operator` and one more character. */
  ghost predicate ClosesList(line: string, i: nat)
    requires i < |line|
  {
    line[i] == '>' && (i > 0 ==> line[i - 1] != '-' && !FollowsOperator(line, i - 1))
  }

  ghost function PartAt(line: string, i: nat): Part
    requires i < |line|
  {
    if OpensList(line, i) then Raises
    else if ClosesList(line, i) then Lowers
    else if EndsShift(line, i) then Shifts
    else if line[i] == ';' then Ends
    else NoPart
  }

  ghost function CellAt(line: string, i: nat): Cell
    requires i < |line|
  {
    Cell(line[i], PartAt(line, i))
  }

  /** The text from `(l, i)` up to `(l', p')`. */
  ghost function Cells(lines: Lines, l: nat, i: nat, l': nat, p': nat): seq<Cell>
    requires IsPlace(lines, l, i) && IsPlace(lines, l', p') && NotAfter(l, i, l', p')
    decreases l' - l, |lines[l]| - i
  {
    if l == l' && i == p' then []
    else if i < |lines[l]| then [CellAt(lines[l], i)] + Cells(lines, l, i + 1, l', p')
    else Cells(lines, l + 1, 0, l', p')
  }

  lemma PartIs(line: string, i: nat)
    requires i < |line|
    ensures PartAt(line, i) == PartOf(Act(line, i, '<'), '<')
  {
    OperatorMeans(line, i);
    if i > 0 {
      OperatorMeans(line, i - 1);
    }
  }

  lemma StepCounts(line: string, i: nat, stack: string)
    requires i < |line| && Stack(stack, '<') && stack != [] && stack[0] == '<'
    ensures Counts(CellAt(line, i), stack, '<', Step(line, i, stack))
  {
    ActAt(line, |line|, i, '<');
    ActFits(line, i);
    PartIs(line, i);
    ApplyCounts(Act(line, i, '<'), CellAt(line, i), stack, '<');
  }

  /** Above a `<` the scan stops exactly where the text ends the outermost list. */
  lemma {:induction false} ScanIffRest(lines: Lines, l: nat, i: nat, stack: string, l': nat, p': nat)
    requires IsPlace(lines, l, i) && Stack(stack, '<') && stack != [] && stack[0] == '<'
    requires IsPlace(lines, l', p') && p' > 0 && NotAfter(l, i, l', p')
    ensures ScanFrom(lines, l, i, stack) == Some((l', p')) <==>
            IsRest(Cells(lines, l, i, l', p'), Project(stack, '<'), Lead(stack, '<'))
    decreases |lines| - l, |lines[l]| - i, 1
  {
    if l == l' && i == p' {
    } else if i < |lines[l]| {
      RestStep(lines, l, i, stack, l', p');
      StepIffRest(lines, l, i, Step(lines[l], i, stack), l', p');
    } else {
      ScanIffRest(lines, l + 1, 0, stack, l', p');
    }
  }

  lemma RestStep(lines: Lines, l: nat, i: nat, stack: string, l': nat, p': nat)
    requires IsPlace(lines, l, i) && i < |lines[l]| && Stack(stack, '<') && stack != [] && stack[0] == '<'
    requires IsPlace(lines, l', p') && NotAfter(l, i + 1, l', p')
    ensures var r := Step(lines[l], i, stack);
      && GoesOn(r, '<')
      && (IsRest(Cells(lines, l, i, l', p'), Project(stack, '<'), Lead(stack, '<'))
          <==> RestAfter(Cells(lines, l, i + 1, l', p'), '<', r))
  {
    StepCounts(lines[l], i, stack);
    CountsFirst(CellAt(lines[l], i), Cells(lines, l, i + 1, l', p'), stack, '<', Step(lines[l], i, stack));
  }

  lemma {:induction false} StepIffRest(lines: Lines, l: nat, i: nat, r: Outcome, l': nat, p': nat)
    requires IsPlace(lines, l, i) && i < |lines[l]| && GoesOn(r, '<')
    requires IsPlace(lines, l', p') && p' > 0 && NotAfter(l, i + 1, l', p')
    ensures ScanAfter(lines, l, i, r) == Some((l', p')) <==> RestAfter(Cells(lines, l, i + 1, l', p'), '<', r)
    decreases |lines| - l, |lines[l]| - i, 0
  {
    match r
    case Go(s) => ScanIffRest(lines, l, i + 1, s, l', p');
    case Done => CellsEmpty(lines, l, i + 1, l', p');
    case Fail =>
  }

  lemma {:induction false} CellsEmpty(lines: Lines, l: nat, i: nat, l': nat, p': nat)
    requires IsPlace(lines, l, i) && IsPlace(lines, l', p') && p' > 0 && NotAfter(l, i, l', p')
    ensures Cells(lines, l, i, l', p') == [] <==> l == l' && i == p'
    decreases l' - l
  {
    if l < l' && i == |lines[l]| {
      CellsEmpty(lines, l + 1, 0, l', p');
    }
  }

  // ----- the match of any character

  /** From a `<` that opens a list the scan stops exactly at the end of that list. */
  lemma ScanIffList(lines: Lines, l: nat, p: nat, l': nat, p': nat)
    requires IsPlace(lines, l, p) && p < |lines[l]| && OpensList(lines[l], p)
    requires IsPlace(lines, l', p') && p' > 0 && NotAfter(l, p + 1, l', p')
    ensures ScanFrom(lines, l, p, []) == Some((l', p')) <==> IsList(Cells(lines, l, p, l', p'))
  {
    OperatorMeans(lines[l], p);
    OpensStep(lines[l], p);
    ScanIffRest(lines, l, p + 1, ['<'], l', p');
    LeadPositive(['<'], '<');
    ListFirst(CellAt(lines[l], p), Cells(lines, l, p + 1, l', p'));
  }

  /** A character from which the scan starts afresh. */
  ghost predicate Opens(line: string, i: nat)
    requires i < |line|
  {
    IsOpen(line[i]) || OpensList(line, i)
  }

  /** The first character from `i` on that opens something, with no closing bracket and no
      statement end before it. */
  ghost function FirstOpening(line: string, i: nat): (q: Option<nat>)
    requires i <= |line|
    ensures q.Some? ==> i <= q.value < |line| && Opens(line, q.value)
    decreases |line| - i
  {
    if i == |line| then None
    else if Opens(line, i) then Some(i)
    else if IsClose(line[i]) || line[i] == ';' then None
    else FirstOpening(line, i + 1)
  }

  lemma EmptyStep(line: string, i: nat)
    requires i < |line| && !Opens(line, i)
    ensures Step(line, i, []) == if IsClose(line[i]) || line[i] == ';' then Fail else Go([])
  {
    ActAt(line, |line|, i, '<');
    OperatorMeans(line, i);
  }

  lemma {:induction false} ScanFromFirst(lines: Lines, l: nat, i: nat)
    requires IsPlace(lines, l, i)
    ensures var q := FirstOpening(lines[l], i);
      ScanFrom(lines, l, i, []) == if q == None then None else ScanFrom(lines, l, q.value, [])
    decreases |lines[l]| - i
  {
    if i < |lines[l]| && !Opens(lines[l], i) {
      EmptyStep(lines[l], i);
      if !IsClose(lines[l][i]) && lines[l][i] != ';' {
        ScanFromFirst(lines, l, i + 1);
      }
    }
  }

  /** The text between the places is one bracket pair, or one template argument list. */
  ghost predicate Pair(lines: Lines, l: nat, p: nat, l': nat, p': nat)
    requires IsPlace(lines, l, p) && p < |lines[l]| && IsPlace(lines, l', p') && NotAfter(l, p, l', p')
  {
    if IsOpen(lines[l][p]) then Enclosed(Between(lines, l, p, l', p')) else IsList(Cells(lines, l, p, l', p'))
  }

  /** The places that `CloseExpression` reports, for every start.  It starts at a bracket, or
      at a `<` that is not followed by `<` or `=`; from a `<` that opens no list the scan
      goes on to the first character of the line that opens something.  What that
      character opens ends at the reported place. */
  lemma CloseIffPair(lines: Lines, l: nat, p: nat, l': nat, p': nat)
    requires IsPlace(lines, l, p) && p < |lines[l]|
    requires IsPlace(lines, l', p') && p' > 0 && NotAfter(l, p + 1, l', p')
    ensures var line, q := lines[l], FirstOpening(lines[l], p);
      CloseAt(lines, l, p) == Some((l', p')) <==>
        && (|| IsOpen(line[p])
            || (line[p] == '<' && (p + 1 < |line| ==> line[p + 1] != '<' && line[p + 1] != '=')))
        && q.Some? && NotAfter(l, q.value + 1, l', p') && Pair(lines, l, q.value, l', p')
  {
    var q := FirstOpening(lines[l], p);
    ScanFromFirst(lines, l, p);
    if q.Some? && NotAfter(l, q.value + 1, l', p') {
      if IsOpen(lines[l][q.value]) {
        CloseIffEnclosed(lines, l, q.value, l', p');
      } else {
        ScanIffList(lines, l, q.value, l', p');
      }
    }
  }

  lemma {:induction false} ShortHasNoOperator(line: string, n: nat)
    requires n <= |line| && n < 8
    ensures !OperatorBefore(line, n)
  {
    if n > 0 && IsSpace(line[n - 1]) {
      ShortHasNoOperator(line, n - 1);
    }
  }

  lemma ShortStep(line: string, i: nat, stack: string)
    requires i < |line| && i < 8 && !IsBracket(line[i]) && line[i] != ';'
    requires i > 0 ==> (line[i] == '<' ==> line[i - 1] != '<') && (line[i] == '>' ==> line[i - 1] != '-')
    ensures Step(line, i, stack) ==
      if line[i] == '<' then Go(stack + ['<'])
      else if line[i] == '>' then Apply(PopAngle, stack, '<')
      else Go(stack)
  {
    ActAt(line, |line|, i, '<');
    ShortHasNoOperator(line, i);
    if i > 0 {
      ShortHasNoOperator(line, i - 1);
    }
  }

  lemma InnerLists(lines: Lines, line: string)
    requires lines == [line] && |line| == 8 && line[4] == 'c' && line[5] == '>' && line[6] == ' ' && line[7] == '>'
    ensures ScanFrom(lines, 0, 4, ['<', '<']) == Some((0, 8))
  {
    assert ['<', '<'][..1] == ['<'];
    ShortStep(line, 7, ['<']);
    ShortStep(line, 6, ['<']);
    assert ScanFrom(lines, 0, 6, ['<']) == Some((0, 8));
    ShortStep(line, 5, ['<', '<']);
    ShortStep(line, 4, ['<', '<']);
  }

  /** Each `>` closes one list: the outer list of `a<b<c> >` ends at its last character. */
  lemma NestedLists(line: string)
    requires line == "a<b<c> >"
    ensures CloseAt([line], 0, 1) == Some((0, 8))
  {
    var lines := [line];
    assert line[0] == 'a' && line[1] == '<' && line[2] == 'b' && line[3] == '<';
    InnerLists(lines, line);
    assert ['<'] + ['<'] == ['<', '<'] && [] + ['<'] == ['<'];
    ShortStep(line, 3, ['<']);
    ShortStep(line, 2, ['<']);
    assert ScanFrom(lines, 0, 2, ['<']) == Some((0, 8));
    ShortStep(line, 1, []);
  }
}
