/** The stack that both scanners keep: brackets that wait for their partner, mixed with
    tentative angle brackets that are dropped when they turn out to be operators.
    The forward scanner pushes `(`, `[`, `{` and `<`, the backward one `)`, `]`, `}`
    and `>`; otherwise they do the same to their stacks. */
module AngleStack {
  import opened SourceText
  import opened Wrappers
  import opened WellNested

  function DropAngles(stack: string, angle: char): (s: string)
    ensures s <= stack
    ensures s == [] || s[|s| - 1] != angle
  {
    if stack != [] && stack[|stack| - 1] == angle then DropAngles(stack[..|stack| - 1], angle) else stack
  }

  method PopAngles(start: string, angle: char) returns (stack: string)
    ensures stack == DropAngles(start, angle)
  {
    stack := start;
    while stack != [] && stack[|stack| - 1] == angle
      invariant DropAngles(stack, angle) == DropAngles(start, angle)
      decreases |stack|
    {
      stack := stack[..|stack| - 1];
    }
  }

  /** What a character asks of the stack. */
  datatype Action =
    | Push(c: char)
    | PopAngle              // the other end of a template argument list
    | Shift                 // the second character of a shift operator
    | Match(want: char)     // the other end of a bracket
    | Clear                 // the end of a statement
    | Skip
    | SkipTwo               // the next character is skipped as well

  /** What the loop of `FindEndOfExpressionInLine` does at a character. */
  function ForwardAct(line: string, i: nat): Action
    requires i < |line|
  {
    var c := line[i];
    if IsOpen(c) then Push(c)
    else if c == '<' then
      if i > 0 && line[i - 1] == '<' then Shift
      else if i > 0 && OperatorBefore(line, i) then Skip
      else Push('<')
    else if IsClose(c) then Match(Partner(c))
    else if c == '>' then
      if i > 0 && (line[i - 1] == '-' || OperatorBefore(line, i - 1)) then Skip else PopAngle
    else if c == ';' then Clear
    else Skip
  }

  /** The `>` at `i` is part of `->`, of ` >= ` or of `operator>`. */
  predicate IgnoredAngle(line: string, i: nat)
    requires i < |line|
  {
    i > 0 &&
    (line[i - 1] == '-'
     || (IsSpace(line[i - 1]) && i + 2 < |line| && line[i + 1] == '=' && IsSpace(line[i + 2]))
     || OperatorBefore(line, i))
  }

  /** What the loop of `FindStartOfExpressionInLine` does at a character. */
  function BackwardAct(line: string, i: nat): Action
    requires i < |line|
  {
    var c := line[i];
    if IsClose(c) then Push(c)
    else if c == '>' then if IgnoredAngle(line, i) then SkipTwo else Push('>')
    else if c == '<' then if i > 0 && line[i - 1] == '<' then SkipTwo else PopAngle
    else if IsOpen(c) then Match(Partner(c))
    else if c == ';' then Clear
    else Skip
  }

  function Act(line: string, i: nat, angle: char): Action
    requires i < |line|
  {
    if angle == '<' then ForwardAct(line, i) else BackwardAct(line, i)
  }

  /** The line as the actions of its first `n` characters. */
  function Acts(line: string, n: nat, angle: char): (acts: seq<Action>)
    requires n <= |line|
    ensures |acts| == n
  {
    if n == 0 then [] else Acts(line, n - 1, angle) + [Act(line, n - 1, angle)]
  }

  lemma {:induction false} ActAt(line: string, n: nat, i: nat, angle: char)
    requires i < n <= |line|
    ensures Acts(line, n, angle)[i] == Act(line, i, angle)
  {
    if i < n - 1 {
      ActAt(line, n - 1, i, angle);
    }
  }

  datatype Outcome = Go(stack: string) | Done | Fail

  function Apply(act: Action, stack: string, angle: char): Outcome {
    match act
    case Push(c) => Go(stack + [c])
    case PopAngle =>
      if stack == [] || stack[|stack| - 1] != angle then Go(stack)
      else if |stack| == 1 then Done
      else Go(stack[..|stack| - 1])
    case Shift =>
      if stack == [] || stack[|stack| - 1] != angle then Go(stack)
      else if |stack| == 1 then Fail
      else Go(stack[..|stack| - 1])
    case Match(want) =>
      var s := DropAngles(stack, angle);
      if s == [] || s[|s| - 1] != want then Fail
      else if |s| == 1 then Done
      else Go(s[..|s| - 1])
    case Clear =>
      var s := DropAngles(stack, angle);
      if s == [] then Fail else Go(s)
    case Skip => Go(stack)
    case SkipTwo => Go(stack)
  }

  // ----- the plain stack

  /** The brackets that a scanner with this angle bracket pushes. */
  predicate Pushes(angle: char, c: char) {
    if angle == '<' then IsOpen(c) else IsClose(c)
  }

  predicate Stack(stack: string, angle: char) {
    forall c <- stack :: c == angle || Pushes(angle, c)
  }

  /** A bracket as it looks to a reader for whom the scan goes forward. */
  function Opening(c: char): char {
    if IsClose(c) then Partner(c) else c
  }

  /** The stack without its angle brackets, as a stack of opening brackets. */
  function Project(stack: string, angle: char): (p: string)
    ensures stack != [] && stack[0] != angle ==> p != []
    ensures stack != [] && stack[|stack| - 1] != angle ==>
      p == Project(stack[..|stack| - 1], angle) + [Opening(stack[|stack| - 1])]
  {
    if stack == [] then []
    else if stack[|stack| - 1] == angle then Project(stack[..|stack| - 1], angle)
    else Project(stack[..|stack| - 1], angle) + [Opening(stack[|stack| - 1])]
  }

  lemma OneBracket(c: char, angle: char)
    requires Pushes(angle, c) && !IsBracket(angle)
    ensures Stack([c], angle) && Project([c], angle) == [Opening(c)]
  {
    assert [c][..0] == [] && [] + [Opening(c)] == [Opening(c)];
  }

  lemma {:induction false} DropKeepsBrackets(stack: string, angle: char)
    ensures Project(DropAngles(stack, angle), angle) == Project(stack, angle)
  {
    if stack != [] && stack[|stack| - 1] == angle {
      DropKeepsBrackets(stack[..|stack| - 1], angle);
    }
  }

  /** The action is right for a character that a forward reader sees as `c`. */
  predicate Fits(act: Action, c: char, angle: char) {
    match act
    case Push(b) => if b == angle then !IsBracket(c) else Pushes(angle, b) && IsOpen(c) && Opening(b) == c
    case Match(want) => Pushes(angle, want) && IsClose(c) && Opening(want) == Partner(c)
    case _ => !IsBracket(c)
  }

  /** What one step does to the plain stack. */
  ghost predicate Projects(c: char, stack: string, angle: char, r: Outcome) {
    var m := Move(c, Project(stack, angle));
    match r
    case Go(s) => Stack(s, angle) && m == Some(Project(s, angle)) && (stack != [] ==> s != [] && s[0] == stack[0])
    case Done => m == Some([])
    case Fail => stack != [] && stack[0] != angle ==> m == None
  }

  /** Whatever the angle-bracket heuristics do, brackets move as on the plain stack. */
  lemma ApplyProjects(act: Action, c: char, stack: string, angle: char)
    requires Fits(act, c, angle) && Stack(stack, angle) && !IsBracket(angle)
    ensures Projects(c, stack, angle, Apply(act, stack, angle))
  {
    match act
    case Push(b) => PushProjects(b, c, stack, angle);
    case Match(want) => MatchProjects(want, c, stack, angle);
    case Clear => ClearProjects(c, stack, angle);
    case _ =>
  }

  lemma PushProjects(b: char, c: char, stack: string, angle: char)
    requires Fits(Push(b), c, angle) && Stack(stack, angle) && !IsBracket(angle)
    ensures Projects(c, stack, angle, Go(stack + [b]))
  {
    assert (stack + [b])[..|stack|] == stack;
  }

  lemma MatchProjects(want: char, c: char, stack: string, angle: char)
    requires Fits(Match(want), c, angle) && Stack(stack, angle) && !IsBracket(angle)
    ensures Projects(c, stack, angle, Apply(Match(want), stack, angle))
  {
    var s := DropAngles(stack, angle);
    DropKeepsBrackets(stack, angle);
    if s != [] {
      var rest, top := s[..|s| - 1], s[|s| - 1];
      assert top in stack && Stack(rest, angle);
      assert (Project(rest, angle) + [Opening(top)])[..|Project(rest, angle)|] == Project(rest, angle);
      assert top == want <==> Opening(top) == Opening(want);
    }
  }

  lemma ClearProjects(c: char, stack: string, angle: char)
    requires !IsBracket(c) && Stack(stack, angle)
    ensures Projects(c, stack, angle, Apply(Clear, stack, angle))
  {
    DropKeepsBrackets(stack, angle);
    assert Stack(DropAngles(stack, angle), angle);
  }

  /** Above an angle bracket only the other end of a template argument list ends the
      scan, and the end of a statement is survived only above a bracket. */
  lemma AngleBottom(act: Action, stack: string, angle: char)
    requires stack != [] && stack[0] == angle
    ensures Apply(act, stack, angle).Done? ==> act == PopAngle
    ensures Apply(act, stack, angle).Go? && act == Clear ==> Project(stack, angle) != []
    ensures Apply(act, stack, angle).Go? ==>
      Apply(act, stack, angle).stack != [] && Apply(act, stack, angle).stack[0] == angle
  {
    var s := DropAngles(stack, angle);
    DropKeepsBrackets(stack, angle);
    assert s != [] ==> s[0] == angle;
  }
}
