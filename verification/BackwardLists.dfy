/** Where `ReverseCloseExpression` finds the start, for every character it can start from. */
module BackwardLists {
  import opened AngleCounts
  import opened AngleStack
  import opened BackwardScan
  import opened SourceText
  import opened TemplateLists
  import opened WellNested
  import opened Wrappers

  /** The `<` characters from `i` on that follow each other. */
  function Run(line: string, i: nat): nat
    requires i <= |line|
    decreases |line| - i
  {
    if i < |line| && line[i] == '<' then 1 + Run(line, i + 1) else 0
  }

  /** A `>` that is not part of `->`, of ` >= ` or of `operator>`. */
  ghost predicate OpensList(line: string, i: nat)
    requires i < |line|
  {
    && line[i] == '>'
    && (i > 0 ==>
          && line[i - 1] != '-' && !FollowsOperator(line, i)
          && !(IsSpace(line[i - 1]) && i + 2 < |line| && line[i + 1] == '=' && IsSpace(line[i + 2])))
  }

  /** The leftmost `<` of an odd number of them; the others are taken for shift operators. */
  predicate ClosesList(line: string, i: nat)
    requires i < |line|
  {
    line[i] == '<' && (i == 0 || line[i - 1] != '<') && Run(line, i) % 2 == 1
  }

  ghost function PartAt(line: string, i: nat): Part
    requires i < |line|
  {
    if OpensList(line, i) then Raises
    else if ClosesList(line, i) then Lowers
    else if line[i] == ';' then Ends
    else NoPart
  }

  /** The character as it is met on the way to the left. */
  ghost function CellAt(line: string, i: nat): Cell
    requires i < |line|
  {
    Cell(Partner(line[i]), PartAt(line, i))
  }

  /** The text from index `i` of line `l` to the left, down to `(l', p')`. */
  ghost function Cells(lines: Lines, l': nat, p': nat, l: nat, i: int): seq<Cell>
    requires IsPlace(lines, l', p') && l < |lines| && -1 <= i < |lines[l]| && NotAfter(l', p', l, i + 1)
    decreases l, i + 1
  {
    if l' == l && p' == i + 1 then []
    else if i >= 0 then [CellAt(lines[l], i)] + Cells(lines, l', p', l, i - 1)
    else Cells(lines, l', p', l - 1, |lines[l - 1]| - 1)
  }

  // ----- one step

  /** The scan has paired the `<` characters to the right of `i`. */
  predicate Paired(line: string, i: int)
    requires i < |line|
  {
    i >= 0 && line[i] == '<' ==> Run(line, i) % 2 == 1
  }

  lemma PairedNext(line: string, i: nat)
    requires i < |line| && Paired(line, i)
    ensures Paired(line, NextIndex(line, i))
  {
    ActAt(line, |line|, i, '>');
  }

  lemma PartIs(line: string, i: nat)
    requires i < |line| && Paired(line, i)
    ensures PartAt(line, i) == PartOf(Act(line, i, '>'), '>')
  {
    OperatorMeans(line, i);
  }

  /** A character that is skipped has no part. */
  lemma SkippedPart(line: string, i: nat)
    requires i < |line| && Paired(line, i) && NextIndex(line, i) == i - 2
    ensures i > 0 && CellAt(line, i - 1) == Cell(line[i - 1], NoPart) && !IsBracket(line[i - 1])
  {
    ActAt(line, |line|, i, '>');
  }

  lemma StepCounts(line: string, i: nat, stack: string)
    requires i < |line| && Paired(line, i) && Stack(stack, '>') && stack != [] && stack[0] == '>'
    ensures Counts(CellAt(line, i), stack, '>', Step(line, i, stack))
  {
    ActAt(line, |line|, i, '>');
    ActFits(line, i);
    PartIs(line, i);
    ApplyCounts(Act(line, i, '>'), CellAt(line, i), stack, '>');
  }

  // ----- the scan

  /** Above a `>` the scan stops exactly where the text ends the outermost list. */
  lemma {:induction false} ScanIffRest(lines: Lines, l: nat, i: int, stack: string, l': nat, p': nat)
    requires l < |lines| && -1 <= i < |lines[l]| && Paired(lines[l], i)
    requires Stack(stack, '>') && stack != [] && stack[0] == '>'
    requires IsPlace(lines, l', p') && p' < |lines[l']| && NotAfter(l', p', l, i + 1)
    ensures ScanFrom(lines, l, i, stack) == Some((l', p')) <==>
            IsRest(Cells(lines, l', p', l, i), Project(stack, '>'), Lead(stack, '>'))
    decreases l, i + 1, 2
  {
    if l' == l && p' == i + 1 {
    } else if i >= 0 {
      RestStep(lines, l, i, stack, l', p');
      SkipsNoBracket(lines[l], i);
      StepIffRest(lines, l, i, Step(lines[l], i, stack), l', p');
    } else {
      ScanIffRest(lines, l - 1, |lines[l - 1]| - 1, stack, l', p');
    }
  }

  lemma RestStep(lines: Lines, l: nat, i: nat, stack: string, l': nat, p': nat)
    requires l < |lines| && i < |lines[l]| && Paired(lines[l], i)
    requires Stack(stack, '>') && stack != [] && stack[0] == '>'
    requires IsPlace(lines, l', p') && NotAfter(l', p', l, i)
    ensures var r := Step(lines[l], i, stack);
      && GoesOn(r, '>')
      && (IsRest(Cells(lines, l', p', l, i), Project(stack, '>'), Lead(stack, '>'))
          <==> RestAfter(Cells(lines, l', p', l, i - 1), '>', r))
  {
    StepCounts(lines[l], i, stack);
    CountsFirst(CellAt(lines[l], i), Cells(lines, l', p', l, i - 1), stack, '>', Step(lines[l], i, stack));
  }

  lemma {:induction false} StepIffRest(lines: Lines, l: nat, i: nat, r: Outcome, l': nat, p': nat)
    requires l < |lines| && i < |lines[l]| && Paired(lines[l], i) && GoesOn(r, '>')
    requires IsPlace(lines, l', p') && p' < |lines[l']| && NotAfter(l', p', l, i)
    ensures ScanAfter(lines, l, i, r, NextIndex(lines[l], i)) == Some((l', p'))
            <==> RestAfter(Cells(lines, l', p', l, i - 1), '>', r)
    decreases l, i + 1, 1
  {
    match r
    case Go(s) => GoIffRest(lines, l, i, s, l', p');
    case Done => CellsEmpty(lines, l', p', l, i - 1);
    case Fail =>
  }

  lemma {:induction false} GoIffRest(lines: Lines, l: nat, i: nat, stack: string, l': nat, p': nat)
    requires l < |lines| && i < |lines[l]| && Paired(lines[l], i)
    requires Stack(stack, '>') && stack != [] && stack[0] == '>'
    requires IsPlace(lines, l', p') && p' < |lines[l']| && NotAfter(l', p', l, i)
    ensures ScanFrom(lines, l, NextIndex(lines[l], i), stack) == Some((l', p')) <==>
            IsRest(Cells(lines, l', p', l, i - 1), Project(stack, '>'), Lead(stack, '>'))
    decreases l, i + 1, 0
  {
    PairedNext(lines[l], i);
    SkipsNoBracket(lines[l], i);
    if NextIndex(lines[l], i) == i - 1 {
      ScanIffRest(lines, l, i - 1, stack, l', p');
    } else if !(l' == l && p' == i) {
      SkippedPart(lines[l], i);
      RestSkips(CellAt(lines[l], i - 1), Cells(lines, l', p', l, i - 2), stack, '>');
      ScanIffRest(lines, l, i - 2, stack, l', p');
    }
  }

  lemma {:induction false} CellsEmpty(lines: Lines, l': nat, p': nat, l: nat, i: int)
    requires IsPlace(lines, l', p') && p' < |lines[l']|
    requires l < |lines| && -1 <= i < |lines[l]| && NotAfter(l', p', l, i + 1)
    ensures Cells(lines, l', p', l, i) == [] <==> l' == l && p' == i + 1
    decreases l, i + 1
  {
    if !(l' == l && p' == i + 1) && i < 0 {
      CellsEmpty(lines, l', p', l - 1, |lines[l - 1]| - 1);
    }
  }

  // ----- the match of any character

  lemma OpensStep(line: string, p: nat)
    requires p < |line| && OpensList(line, p)
    ensures Step(line, p, []) == Go(['>']) && NextIndex(line, p) == p - 1
    ensures Paired(line, p - 1)
  {
    ActAt(line, |line|, p, '>');
    OperatorMeans(line, p);
    assert [] + ['>'] == ['>'];
  }

  lemma OpensScan(lines: Lines, l: nat, p: nat)
    requires IsPlace(lines, l, p) && p < |lines[l]| && OpensList(lines[l], p)
    ensures ScanFrom(lines, l, p, []) == ScanFrom(lines, l, p - 1, ['>'])
    ensures CellAt(lines[l], p) == Cell('>', Raises) && Paired(lines[l], p - 1)
  {
    OpensStep(lines[l], p);
  }

  lemma RestIsList(lines: Lines, l: nat, p: nat, l': nat, p': nat)
    requires IsPlace(lines, l, p) && p < |lines[l]| && CellAt(lines[l], p) == Cell('>', Raises)
    requires IsPlace(lines, l', p') && NotAfter(l', p', l, p)
    ensures IsList(Cells(lines, l', p', l, p))
            <==> IsRest(Cells(lines, l', p', l, p - 1), Project(['>'], '>'), Lead(['>'], '>'))
  {
    assert ['>'][..0] == [] && Project(['>'], '>') == Project([], '>') == [];
    LeadPositive(['>'], '>');
    ListFirst(CellAt(lines[l], p), Cells(lines, l', p', l, p - 1));
  }

  /** From a `>` that closes a list the scan stops exactly at the start of that list. */
  lemma ScanIffList(lines: Lines, l: nat, p: nat, l': nat, p': nat)
    requires IsPlace(lines, l, p) && p < |lines[l]| && OpensList(lines[l], p)
    requires IsPlace(lines, l', p') && p' < |lines[l']| && NotAfter(l', p', l, p)
    ensures ScanFrom(lines, l, p, []) == Some((l', p')) <==> IsList(Cells(lines, l', p', l, p))
  {
    OpensScan(lines, l, p);
    RestIsList(lines, l, p, l', p');
    ScanIffRest(lines, l, p - 1, ['>'], l', p');
  }

  /** A character from which the scan starts afresh. */
  ghost predicate Opens(line: string, i: nat)
    requires i < |line|
  {
    IsClose(line[i]) || OpensList(line, i)
  }

  /** The first character from `i` to the left that opens something for a reader in that
      direction, with no opening bracket and no statement end before it. */
  ghost function FirstOpening(line: string, i: int): (q: Option<nat>)
    requires -1 <= i < |line|
    ensures q.Some? ==> q.value <= i && Opens(line, q.value)
    decreases i + 1
  {
    if i < 0 then None
    else if Opens(line, i) then Some(i)
    else if IsOpen(line[i]) || line[i] == ';' then None
    else FirstOpening(line, i - 1)
  }

  lemma EmptyStep(line: string, i: nat)
    requires i < |line| && !Opens(line, i)
    ensures Step(line, i, []) == if IsOpen(line[i]) || line[i] == ';' then Fail else Go([])
    ensures NextIndex(line, i) == i - 1 || (NextIndex(line, i) == i - 2 && i > 0 && Passed(line, i - 1))
  {
    ActAt(line, |line|, i, '>');
    OperatorMeans(line, i);
  }

  /** A character that neither opens anything nor ends the search. */
  ghost predicate Passed(line: string, i: nat)
    requires i < |line|
  {
    !Opens(line, i) && !IsOpen(line[i]) && line[i] != ';'
  }

  lemma {:induction false} ScanFromFirst(lines: Lines, l: nat, i: int)
    requires l < |lines| && -1 <= i < |lines[l]|
    ensures var q := FirstOpening(lines[l], i);
      ScanFrom(lines, l, i, []) == if q == None then None else ScanFrom(lines, l, q.value, [])
    decreases i + 1
  {
    if i >= 0 && !Opens(lines[l], i) {
      EmptyStep(lines[l], i);
      if Passed(lines[l], i) {
        ScanFromFirst(lines, l, NextIndex(lines[l], i));
      }
    }
  }

  /** The text between the places is one bracket pair, or one template argument list. */
  ghost predicate Pair(lines: Lines, l': nat, p': nat, l: nat, p: nat)
    requires IsPlace(lines, l, p) && p < |lines[l]| && IsPlace(lines, l', p') && NotAfter(l', p', l, p)
  {
    if IsClose(lines[l][p]) then Enclosed(Between(lines, l', p', l, p + 1)) else IsList(Cells(lines, l', p', l, p))
  }

  /** The places that `ReverseCloseExpression` reports, for every start.  It starts at a
      closing bracket or at any `>`; from a `>` that is ignored the scan goes on to the
      first character to the left on the line that opens something.  What that
      character opens ends at the reported place. */
  lemma OpenIffPair(lines: Lines, l: nat, p: nat, l': nat, p': nat)
    requires IsPlace(lines, l, p) && p < |lines[l]|
    requires IsPlace(lines, l', p') && p' < |lines[l']| && NotAfter(l', p', l, p)
    ensures var q := FirstOpening(lines[l], p);
      OpenAt(lines, l, p) == Some((l', p')) <==>
        && (IsClose(lines[l][p]) || lines[l][p] == '>')
        && q.Some? && NotAfter(l', p', l, q.value) && Pair(lines, l', p', l, q.value)
  {
    var q := FirstOpening(lines[l], p);
    ScanFromFirst(lines, l, p);
    if q.Some? && NotAfter(l', p', l, q.value) {
      if IsClose(lines[l][q.value]) {
        OpenIffEnclosed(lines, l, q.value, l', p');
      } else {
        ScanIffList(lines, l, q.value, l', p');
      }
    }
  }
}
