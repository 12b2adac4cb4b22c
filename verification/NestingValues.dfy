/** What `NestingState.Update` does to the block stack and to the preprocessor
    checkpoints, on values.

    The regular expressions are abstracted: a `Line` records what they find on a
    line, and everything that `Update` then does with these findings is here. */
module NestingValues {
  import opened Wrappers

  datatype Kind = PlainBlock | ExternC | ClassBlock(name: string, isStruct: bool) | Namespace(name: string)

  datatype Asm = NoAsm | InsideAsm | EndAsm | BlockAsm

  datatype Block = Block(
    kind: Kind, startLine: nat, seenOpenBrace: bool, openParentheses: int, inlineAsm: Asm,
    access: string, isDerived: bool)

  type Stack = seq<Block>

  datatype Directive = NoDirective | If | Else | Endif

  datatype Token = OpenBrace(externC: bool, asm: bool) | SemicolonOrParenthesis | CloseBrace

  /** What is left of a line: an access specifier and the tokens `{`, `;`, `)`, `}`. */
  datatype Tail = Tail(access: Option<string>, tokens: seq<Token>)

  datatype ClassHead = ClassHead(name: string, isStruct: bool, inTemplateArguments: bool, tail: Tail)

  datatype Line = Line(
    number: nat,
    directive: Directive,
    depthChange: int,
    startsAsm: bool,
    namespaces: seq<(string, bool)>,  // name and whether its brace is on the line
    classHead: Option<ClassHead>,
    bareColon: bool,
    tail: Tail)

  function NewBlock(kind: Kind, number: nat, seenOpenBrace: bool): Block {
    var access := if kind.ClassBlock? && !kind.isStruct then "private" else "public";
    Block(kind, number, seenOpenBrace, 0, NoAsm, access, false)
  }

  predicate SeenOpenBrace(st: Stack) {
    st == [] || st[|st| - 1].seenOpenBrace
  }

  function CountParentheses(line: Line, b: Block): Block {
    var open := b.openParentheses + line.depthChange;
    var asm :=
      if b.inlineAsm == NoAsm || b.inlineAsm == EndAsm then
        if line.depthChange != 0 && open == 1 && line.startsAsm then InsideAsm else NoAsm
      else if b.inlineAsm == InsideAsm && open == 0 then EndAsm
      else b.inlineAsm;
    b.(openParentheses := open, inlineAsm := asm)
  }

  function Push(st: Stack, b: Block): Stack {
    st + [b]
  }

  function Pop(st: Stack): Stack
    requires st != []
  {
    st[..|st| - 1]
  }

  function ReplaceTop(st: Stack, b: Block): Stack
    requires st != []
  {
    st[|st| - 1 := b]
  }

  function Namespaces(line: Line, names: seq<(string, bool)>, st: Stack): Stack {
    if names == [] then st
    else Namespaces(line, names[1..], Push(st, NewBlock(Namespace(names[0].0), line.number, names[0].1)))
  }

  predicate StartsClass(line: Line, st: Stack) {
    && line.classHead.Some?
    && (st == [] || st[|st| - 1].openParentheses == 0)
    && !line.classHead.value.inTemplateArguments
  }

  function Classes(line: Line, st: Stack): Stack {
    if StartsClass(line, st) then
      var h := line.classHead.value;
      Push(st, NewBlock(ClassBlock(h.name, h.isStruct), line.number, false))
    else st
  }

  function TailOf(line: Line, st: Stack): Tail {
    if StartsClass(line, st) then line.classHead.value.tail else line.tail
  }

  function Heads(line: Line, tail: Tail, st: Stack): Stack {
    if st == [] || !st[|st| - 1].kind.ClassBlock? then st
    else
      var b := st[|st| - 1];
      var derived := b.isDerived || (!b.seenOpenBrace && line.bareColon);
      var access := if tail.access.Some? then tail.access.value else b.access;
      ReplaceTop(st, b.(isDerived := derived, access := access))
  }

  function OneToken(number: nat, token: Token, st: Stack): Stack {
    match token
    case OpenBrace(externC, asm) =>
      if !SeenOpenBrace(st) then ReplaceTop(st, st[|st| - 1].(seenOpenBrace := true))
      else if externC then Push(st, NewBlock(ExternC, number, true))
      else Push(st, NewBlock(PlainBlock, number, true).(inlineAsm := if asm then BlockAsm else NoAsm))
    case SemicolonOrParenthesis => if !SeenOpenBrace(st) then Pop(st) else st
    case CloseBrace => if st == [] then st else Pop(st)
  }

  function Tokens(number: nat, tokens: seq<Token>, st: Stack): Stack {
    if tokens == [] then st else Tokens(number, tokens[1..], OneToken(number, tokens[0], st))
  }

  function CountTop(line: Line, st: Stack): Stack {
    if st == [] then st else ReplaceTop(st, CountParentheses(line, st[|st| - 1]))
  }

  /** The stack effect of a line once its directive has been handled. */
  function Effect(line: Line, st: Stack): Stack {
    AfterCounting(line, CountTop(line, st))
  }

  function AfterCounting(line: Line, st: Stack): Stack {
    AfterNamespaces(line, Namespaces(line, line.namespaces, st))
  }

  function AfterNamespaces(line: Line, st: Stack): Stack {
    var tail := TailOf(line, st);
    Tokens(line.number, tail.tokens, Heads(line, tail, Classes(line, st)))
  }

  datatype Checkpoint = Checkpoint(beforeIf: Stack, beforeElse: Stack, seenElse: bool)

  datatype State = State(stack: Stack, pp: seq<Checkpoint>)

  const INITIAL := State([], [])

  /** `UpdatePreprocessor` */
  function Direct(d: Directive, s: State): State {
    var n := |s.pp|;
    match d
    case NoDirective => s
    case If => s.(pp := s.pp + [Checkpoint(s.stack, [], false)])
    case Else =>
      if n == 0 then s
      else
        var top := s.pp[n - 1];
        var saved := if top.seenElse then top else top.(seenElse := true, beforeElse := s.stack);
        State(top.beforeIf, s.pp[n - 1 := saved])
    case Endif =>
      if n == 0 then s
      else State(if s.pp[n - 1].seenElse then s.pp[n - 1].beforeElse else s.stack, s.pp[..n - 1])
  }

  /** `Update` */
  function Step(line: Line, s: State): State {
    var t := Direct(line.directive, s);
    t.(stack := Effect(line, t.stack))
  }

  function Run(lines: seq<Line>, s: State): State {
    if lines == [] then s else Run(lines[1..], Step(lines[0], s))
  }

  /** The lines' own effects and nothing else. */
  function Effects(lines: seq<Line>, st: Stack): Stack {
    if lines == [] then st else Effects(lines[1..], Effect(lines[0], st))
  }

  // ----- erasing the branches that are not taken

  /** For each open `#if`, whether its `#else` or `#elif` has been seen. */
  function NextFlags(d: Directive, flags: seq<bool>): seq<bool> {
    match d
    case NoDirective => flags
    case If => flags + [false]
    case Else => if flags == [] then flags else flags[|flags| - 1 := true]
    case Endif => if flags == [] then flags else flags[..|flags| - 1]
  }

  function FlagsAfter(lines: seq<Line>, flags: seq<bool>): seq<bool> {
    if lines == [] then flags else FlagsAfter(lines[1..], NextFlags(lines[0].directive, flags))
  }

  /** The file without every `#else` or `#elif` tail up to its `#endif`. */
  function Erase(lines: seq<Line>, flags: seq<bool>): seq<Line> {
    if lines == [] then []
    else
      var f := NextFlags(lines[0].directive, flags);
      (if true in f then [] else [lines[0]]) + Erase(lines[1..], f)
  }

  function FlagsOf(pp: seq<Checkpoint>): (f: seq<bool>)
    ensures |f| == |pp| && forall k :: 0 <= k < |pp| ==> f[k] == pp[k].seenElse
  {
    seq(|pp|, k requires 0 <= k < |pp| => pp[k].seenElse)
  }

  /** The stack that counts after every open `#if` is closed: the one saved at the
      outermost `#else` that is open, or the live one. */
  function Committed(pp: seq<Checkpoint>, live: Stack): Stack {
    if pp == [] then live
    else if pp[0].seenElse then pp[0].beforeElse
    else Committed(pp[1..], live)
  }

  lemma {:induction false} CommittedNoElse(pp: seq<Checkpoint>, live: Stack)
    requires true !in FlagsOf(pp)
    ensures Committed(pp, live) == live
  {
    if pp != [] {
      assert FlagsOf(pp)[0] == pp[0].seenElse;
      assert forall k :: 0 <= k < |pp| - 1 ==> FlagsOf(pp)[k + 1] == FlagsOf(pp[1..])[k];
      CommittedNoElse(pp[1..], live);
    }
  }

  /** The committed stack depends on the checkpoints up to the first open `#else`. */
  lemma {:induction false} CommittedAppend(pp: seq<Checkpoint>, c: Checkpoint, live: Stack)
    ensures Committed(pp + [c], live) ==
      if true in FlagsOf(pp) then Committed(pp, live) else if c.seenElse then c.beforeElse else live
    ensures true in FlagsOf(pp) ==> forall other :: Committed(pp, live) == Committed(pp, other)
  {
    if pp == [] {
      assert ([] + [c])[1..] == [];
    } else {
      assert (pp + [c])[1..] == pp[1..] + [c];
      assert FlagsOf(pp)[0] == pp[0].seenElse;
      assert FlagsOf(pp) == [pp[0].seenElse] + FlagsOf(pp[1..]);
      CommittedAppend(pp[1..], c, live);
    }
  }

  /** One line changes the committed stack by its own effect, or not at all when
      an `#else` is open after its directive. */
  lemma StepCommits(line: Line, s: State)
    ensures var s', f := Step(line, s), NextFlags(line.directive, FlagsOf(s.pp));
      && FlagsOf(s'.pp) == f
      && Committed(s'.pp, s'.stack)
         == if true in f then Committed(s.pp, s.stack) else Effect(line, Committed(s.pp, s.stack))
  {
    var t, f := Direct(line.directive, s), NextFlags(line.directive, FlagsOf(s.pp));
    DirectCommits(line.directive, s);
    assert Step(line, s).pp == t.pp;
    if true in f {
      var n := |t.pp|;
      assert t.pp == t.pp[..n - 1] + [t.pp[n - 1]];
      assert FlagsOf(t.pp) == FlagsOf(t.pp[..n - 1]) + [t.pp[n - 1].seenElse];
      CommittedAppend(t.pp[..n - 1], t.pp[n - 1], t.stack);
      CommittedAppend(t.pp[..n - 1], t.pp[n - 1], Step(line, s).stack);
    } else {
      CommittedNoElse(t.pp, t.stack);
      CommittedNoElse(t.pp, Step(line, s).stack);
    }
  }

  lemma DirectCommits(d: Directive, s: State)
    ensures var t := Direct(d, s);
      FlagsOf(t.pp) == NextFlags(d, FlagsOf(s.pp)) && Committed(t.pp, t.stack) == Committed(s.pp, s.stack)
  {
    var n, t := |s.pp|, Direct(d, s);
    match d
    case NoDirective =>
    case If =>
      CommittedAppend(s.pp, Checkpoint(s.stack, [], false), s.stack);
      if true !in FlagsOf(s.pp) { CommittedNoElse(s.pp, s.stack); }
    case Else =>
      if n > 0 {
        var rest := s.pp[..n - 1];
        assert s.pp == rest + [s.pp[n - 1]] && t.pp == rest + [t.pp[n - 1]];
        CommittedAppend(rest, s.pp[n - 1], s.stack);
        CommittedAppend(rest, t.pp[n - 1], t.stack);
      }
    case Endif =>
      if n > 0 {
        var rest := s.pp[..n - 1];
        assert s.pp == rest + [s.pp[n - 1]];
        CommittedAppend(rest, s.pp[n - 1], s.stack);
        if true !in FlagsOf(rest) { CommittedNoElse(rest, t.stack); }
      }
  }

  /** For every file, properly nested or not: the committed stack is what the lines
      outside `#else` tails do on their own. */
  lemma {:induction false} RunCommits(lines: seq<Line>, s: State)
    ensures var s' := Run(lines, s);
      && FlagsOf(s'.pp) == FlagsAfter(lines, FlagsOf(s.pp))
      && Committed(s'.pp, s'.stack) == Effects(Erase(lines, FlagsOf(s.pp)), Committed(s.pp, s.stack))
    decreases |lines|
  {
    if lines != [] {
      var line, f := lines[0], NextFlags(lines[0].directive, FlagsOf(s.pp));
      var rest := Erase(lines[1..], f);
      StepCommits(line, s);
      RunCommits(lines[1..], Step(line, s));
      assert [] + rest == rest && ([line] + rest)[1..] == rest;
    }
  }

  /** When no `#else` is open at the end of the file, as in every properly nested
      file, the nesting stack is that of the erased file. */
  lemma StackIgnoresElseTails(lines: seq<Line>)
    requires true !in FlagsAfter(lines, [])
    ensures Run(lines, INITIAL).stack == Effects(Erase(lines, []), [])
    ensures Run(Erase(lines, []), INITIAL).stack == Run(lines, INITIAL).stack
  {
    assert FlagsOf([]) == [];
    RunCommits(lines, INITIAL);
    CommittedNoElse(Run(lines, INITIAL).pp, Run(lines, INITIAL).stack);
    var erased := Erase(lines, []);
    EraseTwice(lines, []);
    RunCommits(erased, INITIAL);
    CommittedNoElse(Run(erased, INITIAL).pp, Run(erased, INITIAL).stack);
  }

  /** The open conditions that the erased file still shows, none with its `#else`. */
  function Shown(flags: seq<bool>): (g: seq<bool>)
    ensures true !in g && |g| <= |flags|
    ensures true !in flags ==> g == flags
    ensures true in flags ==> 0 < |g| && flags[|g| - 1] && true !in flags[..|g| - 1]
  {
    if flags == [] then []
    else if flags[0] then [false]
    else
      var g := Shown(flags[1..]);
      assert true in flags ==> true in flags[1..];
      assert true !in flags ==> true !in flags[1..];
      assert true in flags ==> flags[..|g|] == [false] + flags[1..][..|g| - 1];
      [false] + g
  }

  lemma ShownUnique(flags: seq<bool>, n: nat)
    requires n < |flags| && flags[n] && true !in flags[..n]
    ensures |Shown(flags)| == n + 1
  {
    var g := Shown(flags);
    assert flags[n] in flags;
    forall j | 0 <= j < n ensures !flags[j] {
      assert flags[..n][j] in flags[..n];
    }
    forall j | 0 <= j < |g| - 1 ensures !flags[j] {
      assert flags[..|g| - 1][j] in flags[..|g| - 1];
    }
  }

  lemma AllFalse(a: seq<bool>, b: seq<bool>)
    requires |a| == |b| && true !in a && true !in b
    ensures a == b
  {
    forall k | 0 <= k < |a| ensures a[k] == b[k] {
      assert a[k] in a && b[k] in b;
    }
  }

  lemma ElseStaysOpen(d: Directive, flags: seq<bool>)
    requires true in flags && d != Endif
    ensures true in NextFlags(d, flags)
  {
    var k :| 0 <= k < |flags| && flags[k];
    assert NextFlags(d, flags)[k];
  }

  lemma ShownNext(d: Directive, flags: seq<bool>)
    ensures var f := NextFlags(d, flags);
      Shown(f) == if true in f then Shown(flags) else NextFlags(d, Shown(flags))
  {
    var f, n, g := NextFlags(d, flags), |flags|, Shown(flags);
    if true in f {
      if true !in flags {
        assert f[..n - 1] == flags[..n - 1];
        ShownUnique(f, n - 1);
      } else if d == Endif {
        var k := |Shown(f)| - 1;
        assert f[..k] == flags[..k];
        ShownUnique(flags, k);
      } else {
        assert f[..|g| - 1] == flags[..|g| - 1];
        ShownUnique(f, |g| - 1);
      }
      AllFalse(Shown(f), g);
    } else if true in flags {
      if d != Endif { ElseStaysOpen(d, flags); }
      forall j | 0 <= j < n - 1 ensures !flags[j] {
        assert f[j] in f;
      }
      AllFalse(f, g[..n - 1]);
    }
  }

  /** Erasing is done in one go: the erased file has no `#else` tail left. */
  lemma {:induction false} EraseTwice(lines: seq<Line>, flags: seq<bool>)
    ensures var erased, g := Erase(lines, flags), Shown(flags);
      Erase(erased, g) == erased && true !in FlagsAfter(erased, g)
    decreases |lines|
  {
    if lines != [] {
      var f := NextFlags(lines[0].directive, flags);
      var rest := Erase(lines[1..], f);
      EraseTwice(lines[1..], f);
      ShownNext(lines[0].directive, flags);
      if true !in f {
        assert ([lines[0]] + rest)[1..] == rest;
      } else {
        assert [] + rest == rest;
      }
    }
  }

  // ----- properly nested files

  /** A properly nested file: plain lines and conditionals, each with any number of
      `#else` or `#elif` alternatives, nested to any depth. */
  datatype Regions =
    | Nil
    | OneLine(line: Line, rest: Regions)
    | Conditional(ifLine: Line, body: Regions, alternatives: Alternatives, endLine: Line, rest: Regions)

  datatype Alternatives = NoMore | Alternative(elseLine: Line, body: Regions, more: Alternatives)

  predicate Directed(r: Regions) {
    match r
    case Nil => true
    case OneLine(line, rest) => line.directive == NoDirective && Directed(rest)
    case Conditional(i, body, alts, e, rest) =>
      i.directive == If && e.directive == Endif && Directed(body) && DirectedAlternatives(alts) && Directed(rest)
  }

  predicate DirectedAlternatives(a: Alternatives) {
    match a
    case NoMore => true
    case Alternative(e, body, more) => e.directive == Else && Directed(body) && DirectedAlternatives(more)
  }

  function Flat(r: Regions): seq<Line> {
    match r
    case Nil => []
    case OneLine(line, rest) => [line] + Flat(rest)
    case Conditional(i, body, alts, e, rest) => [i] + (Flat(body) + (FlatAlternatives(alts) + ([e] + Flat(rest))))
  }

  function FlatAlternatives(a: Alternatives): seq<Line> {
    match a
    case NoMore => []
    case Alternative(e, body, more) => [e] + (Flat(body) + FlatAlternatives(more))
  }

  /** The same file with every conditional cut down to its first branch. */
  function FirstBranches(r: Regions): Regions {
    match r
    case Nil => Nil
    case OneLine(line, rest) => OneLine(line, FirstBranches(rest))
    case Conditional(i, body, _, e, rest) => Conditional(i, FirstBranches(body), NoMore, e, FirstBranches(rest))
  }

  lemma EraseHead(line: Line, after: seq<Line>, flags: seq<bool>)
    ensures var f := NextFlags(line.directive, flags);
      Erase([line] + after, flags) == (if true in f then [] else [line]) + Erase(after, f)
  {
    assert ([line] + after)[1..] == after;
  }

  /** Inside an open `#else` a properly nested part disappears. */
  lemma {:induction false} EraseDropped(r: Regions, flags: seq<bool>, after: seq<Line>)
    requires Directed(r) && true in flags
    ensures Erase(Flat(r) + after, flags) == Erase(after, flags)
    decreases r
  {
    match r
    case Nil =>
      assert Flat(r) + after == after;
    case OneLine(line, rest) =>
      assert Flat(r) + after == [line] + (Flat(rest) + after);
      EraseHead(line, Flat(rest) + after, flags);
      EraseDropped(rest, flags, after);
    case Conditional(i, body, alts, e, rest) =>
      var a1 := Flat(rest) + after;
      var a2 := FlatAlternatives(alts) + ([e] + a1);
      ConditionalShape(r, after);
      var f := flags + [false];
      assert forall x <- flags :: x in f;
      EraseHead(i, Flat(body) + a2, flags);
      EraseDropped(body, f, a2);
      EraseToEnd(alts, e, flags, a1);
      EraseDropped(rest, flags, after);
  }

  lemma ConditionalShape(r: Regions, after: seq<Line>)
    requires r.Conditional?
    ensures Flat(r) + after ==
      [r.ifLine] + (Flat(r.body) + (FlatAlternatives(r.alternatives) + ([r.endLine] + (Flat(r.rest) + after))))
  {
  }

  /** From the first `#else` on, only the `#endif` line is left. */
  lemma {:induction false} EraseToEnd(a: Alternatives, e: Line, flags: seq<bool>, after: seq<Line>)
    requires DirectedAlternatives(a) && e.directive == Endif
    ensures Erase(FlatAlternatives(a) + ([e] + after), flags + [false])
            == (if true in flags then [] else [e]) + Erase(after, flags)
    decreases a, 1
  {
    var f := flags + [false];
    var g := if a == NoMore then f else f[|flags| := true];
    EraseAlternatives(a, f, [e] + after);
    assert g[..|flags|] == flags;
    EraseHead(e, after, g);
  }

  lemma {:induction false} EraseAlternatives(a: Alternatives, flags: seq<bool>, after: seq<Line>)
    requires DirectedAlternatives(a) && flags != []
    ensures Erase(FlatAlternatives(a) + after, flags)
            == Erase(after, if a == NoMore then flags else flags[|flags| - 1 := true])
    decreases a, 0
  {
    match a
    case NoMore =>
      assert FlatAlternatives(a) + after == after;
    case Alternative(e, body, more) =>
      var a1 := FlatAlternatives(more) + after;
      var f := flags[|flags| - 1 := true];
      assert f[|flags| - 1] in f && f[|flags| - 1 := true] == f;
      assert FlatAlternatives(a) + after == [e] + (Flat(body) + a1);
      EraseHead(e, Flat(body) + a1, flags);
      EraseDropped(body, f, a1);
      EraseAlternatives(more, f, after);
  }

  /** Erasing keeps exactly the first branch of every conditional, at any depth. */
  lemma {:induction false} EraseKeepsFirstBranches(r: Regions, flags: seq<bool>, after: seq<Line>)
    requires Directed(r) && true !in flags
    ensures Erase(Flat(r) + after, flags) == Flat(FirstBranches(r)) + Erase(after, flags)
    decreases r
  {
    match r
    case Nil =>
      assert Flat(r) + after == after;
    case OneLine(line, rest) =>
      assert Flat(r) + after == [line] + (Flat(rest) + after);
      EraseHead(line, Flat(rest) + after, flags);
      EraseKeepsFirstBranches(rest, flags, after);
    case Conditional(i, body, alts, e, rest) =>
      var a1 := Flat(rest) + after;
      var a2 := FlatAlternatives(alts) + ([e] + a1);
      ConditionalShape(r, after);
      EraseHead(i, Flat(body) + a2, flags);
      EraseKeepsFirstBranches(body, flags + [false], a2);
      EraseToEnd(alts, e, flags, a1);
      EraseKeepsFirstBranches(rest, flags, after);
      var tail := [e] + Erase(a1, flags);
      assert Erase(a2, flags + [false]) == tail;
      assert Erase(Flat(r) + after, flags) == [i] + (Flat(FirstBranches(body)) + tail);
      FirstBranchesShape(r, Erase(after, flags));
  }

  lemma FirstBranchesShape(r: Regions, after: seq<Line>)
    requires r.Conditional?
    ensures Flat(FirstBranches(r)) + after
            == [r.ifLine] + (Flat(FirstBranches(r.body)) + ([r.endLine] + (Flat(FirstBranches(r.rest)) + after)))
  {
    ConditionalShape(FirstBranches(r), after);
    var tail := [r.endLine] + (Flat(FirstBranches(r.rest)) + after);
    assert [] + tail == tail;
  }

  lemma {:induction false} FlagsThrough(r: Regions, flags: seq<bool>, after: seq<Line>)
    requires Directed(r)
    ensures FlagsAfter(Flat(r) + after, flags) == FlagsAfter(after, flags)
    decreases r
  {
    match r
    case Nil =>
      assert Flat(r) + after == after;
    case OneLine(line, rest) =>
      assert Flat(r) + after == [line] + (Flat(rest) + after);
      FlagsHead(line, Flat(rest) + after, flags);
      FlagsThrough(rest, flags, after);
    case Conditional(i, body, alts, e, rest) =>
      var a1 := Flat(rest) + after;
      var a2 := FlatAlternatives(alts) + ([e] + a1);
      ConditionalShape(r, after);
      FlagsHead(i, Flat(body) + a2, flags);
      FlagsThrough(body, flags + [false], a2);
      FlagsToEnd(alts, e, flags, a1);
      FlagsThrough(rest, flags, after);
  }

  lemma FlagsHead(line: Line, after: seq<Line>, flags: seq<bool>)
    ensures FlagsAfter([line] + after, flags) == FlagsAfter(after, NextFlags(line.directive, flags))
  {
    assert ([line] + after)[1..] == after;
  }

  lemma {:induction false} FlagsToEnd(a: Alternatives, e: Line, flags: seq<bool>, after: seq<Line>)
    requires DirectedAlternatives(a) && e.directive == Endif
    ensures FlagsAfter(FlatAlternatives(a) + ([e] + after), flags + [false]) == FlagsAfter(after, flags)
    decreases a, 1
  {
    var f := flags + [false];
    var g := if a == NoMore then f else f[|flags| := true];
    FlagsThroughAlternatives(a, f, [e] + after);
    assert g[..|flags|] == flags;
    FlagsHead(e, after, g);
  }

  lemma {:induction false} FlagsThroughAlternatives(a: Alternatives, flags: seq<bool>, after: seq<Line>)
    requires DirectedAlternatives(a) && flags != []
    ensures FlagsAfter(FlatAlternatives(a) + after, flags)
            == FlagsAfter(after, if a == NoMore then flags else flags[|flags| - 1 := true])
    decreases a, 0
  {
    match a
    case NoMore =>
      assert FlatAlternatives(a) + after == after;
    case Alternative(e, body, more) =>
      var a1 := FlatAlternatives(more) + after;
      var f := flags[|flags| - 1 := true];
      assert f[|flags| - 1 := true] == f;
      assert FlatAlternatives(a) + after == [e] + (Flat(body) + a1);
      FlagsHead(e, Flat(body) + a1, flags);
      FlagsThrough(body, f, a1);
      FlagsThroughAlternatives(more, f, after);
  }

  /** A properly nested file leaves the stack of its first branches. */
  lemma NestedFileStack(r: Regions)
    requires Directed(r)
    ensures Run(Flat(r), INITIAL).stack == Effects(Flat(FirstBranches(r)), [])
    ensures Run(Flat(r), INITIAL).stack == Run(Flat(FirstBranches(r)), INITIAL).stack
  {
    assert Flat(r) + [] == Flat(r);
    FlagsThrough(r, [], []);
    EraseKeepsFirstBranches(r, [], []);
    assert Erase(Flat(r), []) == Flat(FirstBranches(r));
    StackIgnoresElseTails(Flat(r));
  }
}
