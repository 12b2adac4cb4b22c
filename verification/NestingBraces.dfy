/** What lines do to the block stack, said by counting braces, parentheses and heads. */
module NestingBraces {
  import opened Wrappers
  import opened NestingValues

  function Max(a: int, b: int): int {
    if a < b then b else a
  }

  // ----- braces of a token list

  function Opens(ts: seq<Token>): nat {
    if ts == [] then 0 else (if ts[0].OpenBrace? then 1 else 0) + Opens(ts[1..])
  }

  function Closes(ts: seq<Token>): nat {
    if ts == [] then 0 else (if ts[0] == CloseBrace then 1 else 0) + Closes(ts[1..])
  }

  /** The number of closing braces whose opening brace is not in the list. */
  function Unmatched(ts: seq<Token>): nat {
    if ts == [] then 0
    else
      var rest := Unmatched(ts[1..]);
      if ts[0] == CloseBrace then rest + 1 else if ts[0].OpenBrace? && rest > 0 then rest - 1 else rest
  }

  predicate Balanced(ts: seq<Token>) {
    Unmatched(ts) == 0 && Opens(ts) == Closes(ts)
  }

  /** The height of a stack after the tokens: it changes by opening minus closing braces, as
      far as the stack goes. */
  function Height(h: nat, ts: seq<Token>): int {
    Max(h, Unmatched(ts)) + Opens(ts) - Closes(ts)
  }

  /** By how much the first `k` tokens have more closing than opening braces. */
  function Excess(ts: seq<Token>, k: nat): int
    requires k <= |ts|
  {
    Closes(ts[..k]) - Opens(ts[..k])
  }

  function Weight(t: Token): int {
    if t == CloseBrace then 1 else if t.OpenBrace? then -1 else 0
  }

  lemma ExcessFirst(ts: seq<Token>, k: nat)
    requires 0 < k <= |ts|
    ensures Excess(ts, k) == Weight(ts[0]) + Excess(ts[1..], k - 1)
  {
    assert ts[..k][1..] == ts[1..][..k - 1];
  }

  /** The unmatched closing braces are the largest excess of a prefix. */
  lemma {:induction false} UnmatchedIsExcess(ts: seq<Token>)
    ensures forall k: nat :: k <= |ts| ==> Excess(ts, k) <= Unmatched(ts)
    ensures exists k: nat :: k <= |ts| && Excess(ts, k) == Unmatched(ts)
  {
    assert Excess(ts, 0) == 0;
    if ts != [] {
      UnmatchedIsExcess(ts[1..]);
      forall k: nat | k <= |ts| ensures Excess(ts, k) <= Unmatched(ts) {
        if k > 0 {
          ExcessFirst(ts, k);
        }
      }
      var j: nat :| j <= |ts[1..]| && Excess(ts[1..], j) == Unmatched(ts[1..]);
      ExcessFirst(ts, j + 1);
      assert Excess(ts, 0) == Unmatched(ts) || Excess(ts, j + 1) == Unmatched(ts);
    }
  }

  // ----- the brace law

  /** The block that an opening brace starts. */
  function BraceBlock(number: nat, t: Token): Block
    requires t.OpenBrace?
  {
    Block(if t.externC then ExternC else PlainBlock, number, true, 0,
          if t.asm && !t.externC then BlockAsm else NoAsm, "public", false)
  }

  /** The blocks of the opening braces whose closing brace is not in the list, in order. */
  function LeftOpen(number: nat, ts: seq<Token>): Stack {
    if ts == [] then []
    else if ts[0].OpenBrace? && Unmatched(ts[1..]) == 0 then [BraceBlock(number, ts[0])] + LeftOpen(number, ts[1..])
    else LeftOpen(number, ts[1..])
  }

  lemma {:induction false} LeftOpenCount(number: nat, ts: seq<Token>)
    ensures |LeftOpen(number, ts)| == Opens(ts) - Closes(ts) + Unmatched(ts)
  {
    if ts != [] {
      LeftOpenCount(number, ts[1..]);
    }
  }

  /** The block on top, and those that are on top after up to `n` pops, have seen their braces. */
  predicate SeenDown(st: Stack, n: nat) {
    forall k :: 0 <= k < |st| && |st| - 1 - n <= k ==> st[k].seenOpenBrace
  }

  /** What is left when `n` blocks are popped, as far as the stack goes. */
  function Popped(st: Stack, n: nat): Stack {
    if n < |st| then st[..|st| - n] else []
  }

  lemma PoppedPush(st: Stack, b: Block, n: nat)
    ensures Popped(st + [b], n) == if n == 0 then st + [b] else Popped(st, n - 1)
  {
    if 0 < n <= |st| {
      assert (st + [b])[..|st| + 1 - n] == st[..|st| + 1 - n];
    }
  }

  lemma PoppedPop(st: Stack, n: nat)
    requires st != []
    ensures Popped(Pop(st), n) == Popped(st, n + 1)
  {
  }

  lemma PushedFirst(st: Stack, b: Block, left: Stack)
    ensures (st + [b]) + left == st + ([b] + left)
  {
  }

  lemma OpenToken(number: nat, ts: seq<Token>, st: Stack)
    requires ts != [] && ts[0].OpenBrace?
    ensures Popped(st + [BraceBlock(number, ts[0])], Unmatched(ts[1..])) + LeftOpen(number, ts[1..]) ==
      Popped(st, Unmatched(ts)) + LeftOpen(number, ts)
  {
    var b, left, n := BraceBlock(number, ts[0]), LeftOpen(number, ts[1..]), Unmatched(ts[1..]);
    PoppedPush(st, b, n);
    if n == 0 {
      PushedFirst(st, b, left);
    }
  }

  lemma OtherToken(number: nat, ts: seq<Token>, st: Stack)
    requires ts != [] && !ts[0].OpenBrace? && SeenOpenBrace(st)
    ensures Popped(OneToken(number, ts[0], st), Unmatched(ts[1..])) == Popped(st, Unmatched(ts))
    ensures LeftOpen(number, ts) == LeftOpen(number, ts[1..])
  {
    if ts[0] == CloseBrace && st != [] {
      PoppedPop(st, Unmatched(ts[1..]));
    }
  }

  lemma SeenDownNext(number: nat, ts: seq<Token>, st: Stack)
    requires ts != [] && SeenDown(st, Unmatched(ts))
    ensures SeenOpenBrace(st) && SeenDown(OneToken(number, ts[0], st), Unmatched(ts[1..]))
    ensures ts[0].OpenBrace? ==> OneToken(number, ts[0], st) == st + [BraceBlock(number, ts[0])]
  {
  }

  /** Reading tokens pops a block for each unmatched closing brace, as far as the stack goes,
      and then pushes one for each brace left open. */
  lemma {:induction false} BraceLaw(number: nat, ts: seq<Token>, st: Stack)
    requires SeenDown(st, Unmatched(ts))
    ensures Tokens(number, ts, st) == Popped(st, Unmatched(ts)) + LeftOpen(number, ts)
  {
    if ts == [] {
      assert st + [] == st;
    } else {
      SeenDownNext(number, ts, st);
      BraceLaw(number, ts[1..], OneToken(number, ts[0], st));
      if ts[0].OpenBrace? {
        OpenToken(number, ts, st);
      } else {
        OtherToken(number, ts, st);
      }
    }
  }

  /** Tokens with balanced braces leave a stack whose top has seen its brace. */
  lemma BalancedLeaves(number: nat, ts: seq<Token>, st: Stack)
    requires Balanced(ts) && SeenOpenBrace(st)
    ensures Tokens(number, ts, st) == st
  {
    BraceLaw(number, ts, st);
    LeftOpenCount(number, ts);
  }

  /** The height changes by opening minus closing braces, as far as the stack goes. */
  lemma BraceHeight(number: nat, ts: seq<Token>, st: Stack)
    requires SeenDown(st, Unmatched(ts))
    ensures |Tokens(number, ts, st)| == Height(|st|, ts)
  {
    BraceLaw(number, ts, st);
    LeftOpenCount(number, ts);
  }

  lemma TokensLaw(number: nat, ts: seq<Token>, st: Stack)
    ensures SeenOpenBrace(st) && Balanced(ts) ==> Tokens(number, ts, st) == st
    ensures SeenDown(st, Unmatched(ts)) ==> |Tokens(number, ts, st)| == Height(|st|, ts)
  {
    if SeenOpenBrace(st) && Balanced(ts) {
      BalancedLeaves(number, ts, st);
    }
    if SeenDown(st, Unmatched(ts)) {
      BraceHeight(number, ts, st);
    }
  }

  /** The first token decides about a head that waits for its brace: an opening brace
      completes it, and any other token drops it. */
  lemma HeadLaw(number: nat, ts: seq<Token>, st: Stack, head: Block)
    requires ts != [] && !head.seenOpenBrace
    ensures Tokens(number, ts, st + [head]) ==
      Tokens(number, ts[1..], if ts[0].OpenBrace? then st + [head.(seenOpenBrace := true)] else st)
  {
    assert (st + [head])[..|st|] == st;
    assert (st + [head])[|st| := head.(seenOpenBrace := true)] == st + [head.(seenOpenBrace := true)];
  }

  // ----- lines

  /** A line without a directive that declares no namespace and no class. */
  predicate Plain(line: Line) {
    line.directive == NoDirective && line.namespaces == [] && line.classHead == None
  }

  /** The same block, with this many more parentheses open. */
  predicate SameBlock(b: Block, b': Block, depthChange: int) {
    && b'.kind == b.kind && b'.startLine == b.startLine && b'.seenOpenBrace == b.seenOpenBrace
    && b'.openParentheses == b.openParentheses + depthChange
  }

  /** The same stack, but for what is counted and noted in the top block. */
  predicate SameBlocks(st: Stack, st': Stack, depthChange: int) {
    && |st| == |st'|
    && (forall k :: 0 <= k < |st| - 1 ==> st'[k] == st[k])
    && (st != [] ==> SameBlock(st[|st| - 1], st'[|st| - 1], depthChange))
  }

  lemma HeadsSame(line: Line, st: Stack)
    ensures SameBlocks(st, Heads(line, line.tail, CountTop(line, st)), line.depthChange)
  {
  }

  /** The class on top notes a base class before its brace, and the access specifier; no
      other block does. */
  lemma HeadsNote(line: Line, tail: Tail, st: Stack)
    requires st != []
    ensures |Heads(line, tail, st)| == |st|
    ensures var b, b' := st[|st| - 1], Heads(line, tail, st)[|st| - 1];
      && b'.access == (if b.kind.ClassBlock? && tail.access.Some? then tail.access.value else b.access)
      && (b'.isDerived <==> b.isDerived || (b.kind.ClassBlock? && !b.seenOpenBrace && line.bareColon))
      && b'.inlineAsm == b.inlineAsm && SameBlock(b, b', 0)
  {
  }

  /** A plain line pops and pushes by its braces alone; the block that was on top counts
      its parentheses first. */
  lemma PlainLine(line: Line, s: State)
    requires Plain(line) && SeenDown(s.stack, Unmatched(line.tail.tokens))
    ensures var s', st := Step(line, s), Heads(line, line.tail, CountTop(line, s.stack));
      && s'.pp == s.pp && SameBlocks(s.stack, st, line.depthChange)
      && s'.stack == Popped(st, Unmatched(line.tail.tokens)) + LeftOpen(line.number, line.tail.tokens)
  {
    var st := Heads(line, line.tail, CountTop(line, s.stack));
    HeadsSame(line, s.stack);
    BraceLaw(line.number, line.tail.tokens, st);
  }

  /** With balanced braces it leaves the blocks that were there. */
  lemma BalancedLine(line: Line, s: State)
    requires Plain(line) && SeenOpenBrace(s.stack) && Balanced(line.tail.tokens)
    ensures SameBlocks(s.stack, Step(line, s).stack, line.depthChange)
  {
    HeadsSame(line, s.stack);
    BalancedLeaves(line.number, line.tail.tokens, Heads(line, line.tail, CountTop(line, s.stack)));
  }

  /** A line without a directive or namespace has a class head, which is not in a template
      argument list and not within parentheses that are still open after the line. */
  predicate DeclaresClass(line: Line, st: Stack) {
    && line.directive == NoDirective && line.namespaces == []
    && line.classHead.Some? && !line.classHead.value.inTemplateArguments
    && (st != [] ==> st[|st| - 1].openParentheses + line.depthChange == 0)
  }

  /** Any other class head is ignored. */
  lemma ClassIgnored(line: Line, s: State)
    requires line.directive == NoDirective && line.namespaces == [] && line.classHead.Some?
    requires !DeclaresClass(line, s.stack)
    ensures Step(line, s) == Step(line.(classHead := None), s)
  {
    var other, st := line.(classHead := None), CountTop(line, s.stack);
    assert CountTop(other, s.stack) == st && !StartsClass(line, st);
  }

  /** The block of a class head before its brace. */
  function HeadBlock(line: Line): Block
    requires line.classHead.Some?
  {
    var h := line.classHead.value;
    var access := if h.tail.access.Some? then h.tail.access.value else if h.isStruct then "public" else "private";
    Block(ClassBlock(h.name, h.isStruct), line.number, false, 0, NoAsm, access, line.bareColon)
  }

  lemma HeadPushed(line: Line, st: Stack)
    requires StartsClass(line, st)
    ensures Heads(line, line.classHead.value.tail, Classes(line, st)) == st + [HeadBlock(line)]
  {
    var h := line.classHead.value;
    var b := NewBlock(ClassBlock(h.name, h.isStruct), line.number, false);
    assert (st + [b])[|st| := HeadBlock(line)] == st + [HeadBlock(line)];
  }

  lemma ClassStep(line: Line, s: State)
    requires DeclaresClass(line, s.stack)
    ensures Step(line, s).pp == s.pp
    ensures Step(line, s).stack ==
      Tokens(line.number, line.classHead.value.tail.tokens, CountTop(line, s.stack) + [HeadBlock(line)])
  {
    HeadPushed(line, CountTop(line, s.stack));
  }

  /** A class head whose first token is not its brace is dropped: the other tokens of the
      line act as if the head were not there. */
  lemma ForwardDeclaration(line: Line, s: State)
    requires DeclaresClass(line, s.stack)
    requires line.classHead.value.tail.tokens != [] && !line.classHead.value.tail.tokens[0].OpenBrace?
    ensures var ts, st := line.classHead.value.tail.tokens, CountTop(line, s.stack);
      && Step(line, s) == State(Tokens(line.number, ts[1..], st), s.pp)
      && SameBlocks(s.stack, st, line.depthChange)
      && (SeenOpenBrace(s.stack) && Balanced(ts[1..]) ==> Step(line, s).stack == st)
  {
    ClassStep(line, s);
    HeadLaw(line.number, line.classHead.value.tail.tokens, CountTop(line, s.stack), HeadBlock(line));
    if SeenOpenBrace(s.stack) && Balanced(line.classHead.value.tail.tokens[1..]) {
      BalancedLeaves(line.number, line.classHead.value.tail.tokens[1..], CountTop(line, s.stack));
    }
  }

  /** A class head with its brace adds the class, and the rest of the line acts inside it. */
  lemma ClassDefinition(line: Line, s: State)
    requires DeclaresClass(line, s.stack)
    requires line.classHead.value.tail.tokens != [] && line.classHead.value.tail.tokens[0].OpenBrace?
    ensures var ts := line.classHead.value.tail.tokens;
      var st := CountTop(line, s.stack) + [HeadBlock(line).(seenOpenBrace := true)];
      && Step(line, s) == State(Tokens(line.number, ts[1..], st), s.pp)
      && (Balanced(ts[1..]) ==> Step(line, s).stack == st)
  {
    var ts := line.classHead.value.tail.tokens;
    var st := CountTop(line, s.stack) + [HeadBlock(line).(seenOpenBrace := true)];
    ClassStep(line, s);
    HeadLaw(line.number, ts, CountTop(line, s.stack), HeadBlock(line));
    if Balanced(ts[1..]) {
      BalancedLeaves(line.number, ts[1..], st);
    }
  }

  /** One block for each namespace, in order, that has seen its brace when that is on the line. */
  lemma {:induction false} NamespacesLaw(line: Line, names: seq<(string, bool)>, st: Stack)
    ensures var st' := Namespaces(line, names, st);
      && |st'| == |st| + |names| && (forall k :: 0 <= k < |st| ==> st'[k] == st[k])
      && forall k :: 0 <= k < |names| ==>
           st'[|st| + k] == Block(Namespace(names[k].0), line.number, names[k].1, 0, NoAsm, "public", false)
  {
    if names != [] {
      var b := NewBlock(Namespace(names[0].0), line.number, names[0].1);
      NamespacesLaw(line, names[1..], st + [b]);
      var st' := Namespaces(line, names, st);
      forall k | 0 <= k < |names|
        ensures st'[|st| + k] == Block(Namespace(names[k].0), line.number, names[k].1, 0, NoAsm, "public", false)
      {
        if k == 0 {
          assert st'[|st|] == (st + [b])[|st|];
        } else {
          assert st'[|st + [b]| + (k - 1)] == st'[|st| + k] && names[1..][k - 1] == names[k];
        }
      }
    }
  }

  // ----- many lines

  function AllTokens(lines: seq<Line>): seq<Token> {
    if lines == [] then [] else lines[0].tail.tokens + AllTokens(lines[1..])
  }

  lemma {:induction false} CountsAppend(a: seq<Token>, b: seq<Token>)
    ensures Opens(a + b) == Opens(a) + Opens(b) && Closes(a + b) == Closes(a) + Closes(b)
    ensures Unmatched(a + b) == Max(Unmatched(a), Unmatched(b) + Closes(a) - Opens(a))
  {
    if a == [] {
      assert a + b == b;
    } else {
      assert (a + b)[1..] == a[1..] + b;
      CountsAppend(a[1..], b);
    }
  }

  lemma HeightAppend(h: nat, a: seq<Token>, b: seq<Token>)
    requires Height(h, a) >= 0
    ensures Height(Height(h, a), b) == Height(h, a + b)
  {
    CountsAppend(a, b);
  }

  predicate AllSeen(st: Stack) {
    forall b <- st :: b.seenOpenBrace
  }

  lemma {:induction false} LeftOpenSeen(number: nat, ts: seq<Token>)
    ensures AllSeen(LeftOpen(number, ts))
  {
    if ts != [] {
      LeftOpenSeen(number, ts[1..]);
    }
  }

  lemma PlainEffect(line: Line, st: Stack)
    requires Plain(line) && AllSeen(st)
    ensures AllSeen(Effect(line, st))
    ensures |Effect(line, st)| == Height(|st|, line.tail.tokens)
  {
    var ts, st1 := line.tail.tokens, Heads(line, line.tail, CountTop(line, st));
    HeadsSame(line, st);
    BraceLaw(line.number, ts, st1);
    BraceHeight(line.number, ts, st1);
    LeftOpenSeen(line.number, ts);
  }

  /** Over any number of plain lines the height of a stack of complete blocks changes by their
      opening minus their closing braces, as far as the stack goes. */
  lemma {:induction false} PlainLines(lines: seq<Line>, st: Stack)
    requires AllSeen(st) && forall k :: 0 <= k < |lines| ==> Plain(lines[k])
    ensures AllSeen(Effects(lines, st))
    ensures |Effects(lines, st)| == Height(|st|, AllTokens(lines))
  {
    if lines != [] {
      PlainEffect(lines[0], st);
      PlainLines(lines[1..], Effect(lines[0], st));
      HeightAppend(|st|, lines[0].tail.tokens, AllTokens(lines[1..]));
    }
  }

  // ----- parentheses and inline assembly

  /** The parentheses that the first `k` lines leave open. */
  function Depth(lines: seq<Line>, k: nat): int
    requires k <= |lines|
  {
    if k == 0 then 0 else Depth(lines, k - 1) + lines[k - 1].depthChange
  }

  /** The block on top of the stack after the first `k` lines, when they do nothing but count. */
  function Counted(lines: seq<Line>, b: Block, k: nat): Block
    requires k <= |lines|
  {
    if k == 0 then b else CountParentheses(lines[k - 1], Counted(lines, b, k - 1))
  }

  lemma {:induction false} CountedDepth(lines: seq<Line>, b: Block, k: nat)
    requires k <= |lines|
    ensures SameBlock(b, Counted(lines, b, k), Depth(lines, k))
  {
    if k > 0 {
      CountedDepth(lines, b, k - 1);
    }
  }

  /** Line `j` starts inline assembly: it changes the parentheses to one open one. */
  predicate EntersAsm(lines: seq<Line>, b: Block, j: nat)
    requires j < |lines|
  {
    lines[j].startsAsm && lines[j].depthChange != 0 && b.openParentheses + Depth(lines, j + 1) == 1
  }

  /** Line `j` starts inline assembly, and the parentheses do not close up to line `k`. */
  ghost predicate InAsmSince(lines: seq<Line>, b: Block, j: nat, k: nat)
    requires j < k <= |lines|
  {
    EntersAsm(lines, b, j) && forall i :: j + 1 < i <= k ==> b.openParentheses + Depth(lines, i) != 0
  }

  ghost predicate InAsm(lines: seq<Line>, b: Block, k: nat)
    requires k <= |lines|
  {
    exists j: nat :: j < k && InAsmSince(lines, b, j, k)
  }

  lemma InAsmNext(lines: seq<Line>, b: Block, k: nat)
    requires k < |lines|
    ensures InAsm(lines, b, k + 1)
            <==> EntersAsm(lines, b, k) || (InAsm(lines, b, k) && b.openParentheses + Depth(lines, k + 1) != 0)
  {
    if EntersAsm(lines, b, k) {
      assert InAsmSince(lines, b, k, k + 1);
    }
    if InAsm(lines, b, k) && b.openParentheses + Depth(lines, k + 1) != 0 {
      var j: nat :| j < k && InAsmSince(lines, b, j, k);
      assert InAsmSince(lines, b, j, k + 1);
    }
    if InAsm(lines, b, k + 1) {
      var j: nat :| j < k + 1 && InAsmSince(lines, b, j, k + 1);
      if j < k {
        assert InAsmSince(lines, b, j, k);
      }
    }
  }

  /** A block is in inline assembly exactly since a line that started it, until its
      parentheses close; the line that closes them still ends it. */
  lemma {:induction false} AsmIff(lines: seq<Line>, b: Block, k: nat)
    requires k <= |lines| && b.inlineAsm == NoAsm
    ensures Counted(lines, b, k).inlineAsm == InsideAsm <==> InAsm(lines, b, k)
    ensures Counted(lines, b, k).inlineAsm == EndAsm
            <==> k > 0 && InAsm(lines, b, k - 1) && b.openParentheses + Depth(lines, k) == 0
    ensures Counted(lines, b, k).inlineAsm != BlockAsm
  {
    if k > 0 {
      AsmIff(lines, b, k - 1);
      CountedDepth(lines, b, k - 1);
      InAsmNext(lines, b, k - 1);
    }
  }

  /** A line on which nothing but parentheses is found. */
  predicate Quiet(line: Line) {
    Plain(line) && line.tail == Tail(None, []) && !line.bareColon
  }

  lemma QuietLine(line: Line, st: Stack)
    requires Quiet(line)
    ensures Effect(line, st) == CountTop(line, st)
  {
    var st1 := CountTop(line, st);
    if st1 != [] {
      assert st1[|st1| - 1 := st1[|st1| - 1]] == st1;
    }
  }

  lemma {:induction false} CountedFirst(lines: seq<Line>, b: Block, k: nat)
    requires 0 < k <= |lines|
    ensures Counted(lines, b, k) == Counted(lines[1..], CountParentheses(lines[0], b), k - 1)
  {
    if k > 1 {
      CountedFirst(lines, b, k - 1);
    }
  }

  /** Quiet lines only count in the block on top. */
  lemma {:induction false} QuietLines(lines: seq<Line>, st: Stack, b: Block)
    requires forall k :: 0 <= k < |lines| ==> Quiet(lines[k])
    ensures Effects(lines, st + [b]) == st + [Counted(lines, b, |lines|)]
  {
    if lines != [] {
      QuietLine(lines[0], st + [b]);
      var b' := CountParentheses(lines[0], b);
      assert (st + [b])[|st| := b'] == st + [b'];
      QuietLines(lines[1..], st, b');
      CountedFirst(lines, b, |lines|);
    }
  }

  // ----- one line, in short

  /** What a line without a directive makes of a stack. */
  ghost predicate LineLaw(line: Line, st: Stack, st': Stack) {
    var ts := line.tail.tokens;
    && (Plain(line) && SeenDown(st, Unmatched(ts)) ==>
          |st'| == Height(|st|, ts))
    && (Plain(line) && SeenOpenBrace(st) && Balanced(ts) ==> SameBlocks(st, st', line.depthChange))
    && (DeclaresClass(line, st) && SeenOpenBrace(st) ==>
          var hs := line.classHead.value.tail.tokens;
          && (hs != [] && !hs[0].OpenBrace? && Balanced(hs[1..]) ==> SameBlocks(st, st', line.depthChange))
          && (hs != [] && hs[0].OpenBrace? && Balanced(hs[1..]) ==>
                && |st'| == |st| + 1 && SameBlocks(st, st'[..|st|], line.depthChange)
                && st'[|st|] == HeadBlock(line).(seenOpenBrace := true)))
  }

  lemma PlainLineHeight(line: Line, s: State)
    requires Plain(line) && SeenDown(s.stack, Unmatched(line.tail.tokens))
    ensures |Step(line, s).stack| == Height(|s.stack|, line.tail.tokens)
  {
    HeadsSame(line, s.stack);
    BraceHeight(line.number, line.tail.tokens, Heads(line, line.tail, CountTop(line, s.stack)));
  }

  lemma CountTopSame(line: Line, st: Stack)
    ensures SameBlocks(st, CountTop(line, st), line.depthChange)
  {
  }

  lemma ClassLineLaw(line: Line, s: State)
    requires DeclaresClass(line, s.stack)
    requires line.classHead.value.tail.tokens != [] && Balanced(line.classHead.value.tail.tokens[1..])
    requires SeenOpenBrace(s.stack)
    ensures LineLaw(line, s.stack, Step(line, s).stack)
  {
    var st := CountTop(line, s.stack);
    CountTopSame(line, s.stack);
    if line.classHead.value.tail.tokens[0].OpenBrace? {
      ClassDefinition(line, s);
      assert (st + [HeadBlock(line).(seenOpenBrace := true)])[..|st|] == st;
    } else {
      ForwardDeclaration(line, s);
    }
  }

  lemma LineLawHolds(line: Line, s: State)
    requires line.directive == NoDirective
    ensures LineLaw(line, s.stack, Step(line, s).stack)
  {
    if Plain(line) {
      if SeenDown(s.stack, Unmatched(line.tail.tokens)) {
        PlainLineHeight(line, s);
      }
      if SeenOpenBrace(s.stack) && Balanced(line.tail.tokens) {
        BalancedLine(line, s);
      }
    } else if DeclaresClass(line, s.stack) && SeenOpenBrace(s.stack) {
      var hs := line.classHead.value.tail.tokens;
      if hs != [] && Balanced(hs[1..]) {
        ClassLineLaw(line, s);
      }
    }
  }
}
