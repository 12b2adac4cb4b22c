/** The scanners' stack above an angle bracket, as a count of open lists with a plain
    stack of brackets: one step of either scanner moves both as the text says. */
module AngleCounts {
  import opened AngleStack
  import opened TemplateLists
  import opened WellNested
  import opened Wrappers

  /** The angle brackets below the first bracket: the lists that are open outside all brackets. */
  function Lead(stack: string, angle: char): (n: nat)
    ensures n <= |stack|
  {
    if stack == [] then 0
    else
      var n := |stack| - 1;
      var below := Lead(stack[..n], angle);
      if stack[n] == angle && below == n then n + 1 else below
  }

  lemma {:induction false} LeadProject(stack: string, angle: char)
    ensures Project(stack, angle) == [] <==> Lead(stack, angle) == |stack|
  {
    if stack != [] {
      LeadProject(stack[..|stack| - 1], angle);
    }
  }

  lemma {:induction false} LeadPositive(stack: string, angle: char)
    ensures Lead(stack, angle) > 0 <==> stack != [] && stack[0] == angle
  {
    if |stack| > 1 {
      LeadPositive(stack[..|stack| - 1], angle);
    }
  }

  lemma LeadPush(stack: string, c: char, angle: char)
    ensures Lead(stack + [c], angle) ==
      Lead(stack, angle) + if c == angle && Project(stack, angle) == [] then 1 else 0
  {
    assert (stack + [c])[..|stack|] == stack;
    LeadProject(stack, angle);
  }

  lemma {:induction false} LeadDrop(stack: string, angle: char)
    ensures var s := DropAngles(stack, angle);
      if Project(stack, angle) == [] then s == [] else s != [] && Lead(s, angle) == Lead(stack, angle)
  {
    if stack != [] && stack[|stack| - 1] == angle {
      LeadDrop(stack[..|stack| - 1], angle);
      LeadProject(stack[..|stack| - 1], angle);
    }
  }

  /** The part that the action gives the character in the count. */
  function PartOf(act: Action, angle: char): Part {
    match act
    case Push(c) => if c == angle then Raises else NoPart
    case PopAngle => Lowers
    case Shift => Shifts
    case Clear => Ends
    case Match(_) => NoPart
    case Skip => NoPart
    case SkipTwo => NoPart
  }

  /** What one step does to the count and the plain stack. */
  ghost predicate Counts(cell: Cell, stack: string, angle: char, r: Outcome) {
    var st := Project(stack, angle);
    var m, h := Move(cell.c, st), Lead(stack, angle) + FirstWeight(cell, st);
    match r
    case Go(s) =>
      && Stack(s, angle) && s != [] && s[0] == angle
      && m == Some(Project(s, angle)) && h == Lead(s, angle) && (st == [] ==> cell.part != Ends)
    case Done => m == Some([]) && h == 0 && cell.part == Lowers
    case Fail => m == None || (st == [] && cell.part == Ends) || (h == 0 && cell.part != Lowers)
  }

  lemma PopCounts(act: Action, cell: Cell, stack: string, angle: char)
    requires (act == PopAngle || act == Shift) && cell.part == PartOf(act, angle) && !IsBracket(cell.c)
    requires Stack(stack, angle) && stack != [] && stack[0] == angle
    ensures Counts(cell, stack, angle, Apply(act, stack, angle))
  {
    LeadProject(stack, angle);
    LeadProject(stack[..|stack| - 1], angle);
  }

  /** Brackets that a scanner pushes are told apart by how they look to a forward reader. */
  lemma OpeningTells(a: char, b: char, angle: char)
    requires Pushes(angle, a) && Pushes(angle, b)
    ensures Opening(a) == Opening(b) <==> a == b
  {
  }

  lemma TopTells(c: char, st: string, top: char)
    requires IsClose(c) && top != Partner(c)
    ensures Move(c, st + [top]) == None
  {
  }

  /** A closing bracket that the scanner does not match has no partner on the plain stack. */
  lemma MatchFails(want: char, c: char, stack: string, angle: char)
    requires Fits(Match(want), c, angle) && Stack(stack, angle)
    requires Apply(Match(want), stack, angle).Fail?
    ensures Move(c, Project(stack, angle)) == None
  {
    var s := DropAngles(stack, angle);
    DropKeepsBrackets(stack, angle);
    if s != [] {
      var rest, top := s[..|s| - 1], s[|s| - 1];
      assert top in stack;
      OpeningTells(top, want, angle);
      assert Project(s, angle) == Project(rest, angle) + [Opening(top)];
      TopTells(c, Project(rest, angle), Opening(top));
    }
  }

  lemma MatchCounts(want: char, cell: Cell, stack: string, angle: char)
    requires Fits(Match(want), cell.c, angle) && cell.part == NoPart && !IsBracket(angle)
    requires Stack(stack, angle) && stack != [] && stack[0] == angle
    ensures Counts(cell, stack, angle, Apply(Match(want), stack, angle))
  {
    var r := Apply(Match(want), stack, angle);
    AngleBottom(Match(want), stack, angle);
    if r.Fail? {
      MatchFails(want, cell.c, stack, angle);
    } else {
      MatchProjects(want, cell.c, stack, angle);
      LeadDrop(stack, angle);
      MatchKeepsLead(want, stack, angle);
    }
  }

  lemma MatchKeepsLead(want: char, stack: string, angle: char)
    requires Apply(Match(want), stack, angle).Go?
    ensures Lead(Apply(Match(want), stack, angle).stack, angle) == Lead(DropAngles(stack, angle), angle)
  {
  }

  lemma PushCounts(b: char, cell: Cell, stack: string, angle: char)
    requires Fits(Push(b), cell.c, angle) && cell.part == PartOf(Push(b), angle) && !IsBracket(angle)
    requires Stack(stack, angle) && stack != [] && stack[0] == angle
    ensures Counts(cell, stack, angle, Go(stack + [b]))
  {
    PushProjects(b, cell.c, stack, angle);
    LeadPush(stack, b, angle);
  }

  lemma ClearCounts(cell: Cell, stack: string, angle: char)
    requires !IsBracket(cell.c) && cell.part == Ends && Stack(stack, angle) && stack != [] && stack[0] == angle
    ensures Counts(cell, stack, angle, Apply(Clear, stack, angle))
  {
    ClearProjects(cell.c, stack, angle);
    AngleBottom(Clear, stack, angle);
    LeadDrop(stack, angle);
  }

  lemma ApplyCounts(act: Action, cell: Cell, stack: string, angle: char)
    requires Fits(act, cell.c, angle) && cell.part == PartOf(act, angle) && !IsBracket(angle)
    requires Stack(stack, angle) && stack != [] && stack[0] == angle
    ensures Counts(cell, stack, angle, Apply(act, stack, angle))
  {
    match act
    case Push(b) => PushCounts(b, cell, stack, angle);
    case PopAngle => PopCounts(act, cell, stack, angle);
    case Shift => PopCounts(act, cell, stack, angle);
    case Match(want) => MatchCounts(want, cell, stack, angle);
    case Clear => ClearCounts(cell, stack, angle);
    case Skip =>
    case SkipTwo =>
  }

  /** The cells after a step with this outcome are the rest of the list. */
  ghost predicate RestAfter(rest: seq<Cell>, angle: char, r: Outcome) {
    match r
    case Done => rest == []
    case Fail => false
    case Go(s) => IsRest(rest, Project(s, angle), Lead(s, angle))
  }

  /** The scan goes on above an angle bracket. */
  predicate GoesOn(r: Outcome, angle: char) {
    r.Go? ==> Stack(r.stack, angle) && r.stack != [] && r.stack[0] == angle
  }

  /** A step that counts right decides about the rest of the list as its first cell does. */
  lemma CountsFirst(cell: Cell, rest: seq<Cell>, stack: string, angle: char, r: Outcome)
    requires stack != [] && stack[0] == angle && Counts(cell, stack, angle, r)
    ensures GoesOn(r, angle)
    ensures IsRest([cell] + rest, Project(stack, angle), Lead(stack, angle)) <==> RestAfter(rest, angle, r)
  {
    var cells := [cell] + rest;
    assert cells[0] == cell && cells[1..] == rest;
    RestFirst(cells, Project(stack, angle), Lead(stack, angle));
    if r.Go? {
      LeadPositive(r.stack, angle);
    }
  }

  /** A character without a part, which is no bracket, makes no difference. */
  lemma RestSkips(cell: Cell, rest: seq<Cell>, stack: string, angle: char)
    requires cell.part == NoPart && !IsBracket(cell.c) && stack != [] && stack[0] == angle
    ensures IsRest([cell] + rest, Project(stack, angle), Lead(stack, angle))
            <==> IsRest(rest, Project(stack, angle), Lead(stack, angle))
  {
    var cells := [cell] + rest;
    assert cells[0] == cell && cells[1..] == rest;
    RestFirst(cells, Project(stack, angle), Lead(stack, angle));
    LeadPositive(stack, angle);
  }
}
