/** `NestingState` with its block objects, which `Update` changes in place while
    preprocessor checkpoints hold other block objects.

    `Valid` says that the live stack and all checkpoints never share a block.
    That is why every method does to the objects exactly what `NestingValues`
    does to values, although `#endif` restores a checkpoint without copying it. */
module NestingState {
  import V = NestingValues
  import B = NestingBraces
  import opened Collections

  class BlockInfo {
    const kind: V.Kind
    const startLine: nat
    var seenOpenBrace: bool
    var openParentheses: int
    var inlineAsm: V.Asm
    var access: string
    var isDerived: bool

    function Value(): V.Block
      reads this
    {
      V.Block(kind, startLine, seenOpenBrace, openParentheses, inlineAsm, access, isDerived)
    }

    constructor (b: V.Block)
      ensures Value() == b
    {
      kind, startLine := b.kind, b.startLine;
      seenOpenBrace, openParentheses, inlineAsm := b.seenOpenBrace, b.openParentheses, b.inlineAsm;
      access, isDerived := b.access, b.isDerived;
    }

    /** Notes a base class before the brace, and the access specifier. */
    method ReadHead(line: V.Line, tail: V.Tail)
      modifies `isDerived, `access
      ensures isDerived == (old(isDerived) || (!seenOpenBrace && line.bareColon))
      ensures access == if tail.access.Some? then tail.access.value else old(access)
    {
      if !seenOpenBrace && line.bareColon {
        isDerived := true;
      }
      if tail.access.Some? {
        access := tail.access.value;
      }
    }

    method CountParentheses(line: V.Line)
      modifies this
      ensures Value() == V.CountParentheses(line, old(Value()))
    {
      openParentheses := openParentheses + line.depthChange;
      if inlineAsm == V.NoAsm || inlineAsm == V.EndAsm {
        if line.depthChange != 0 && openParentheses == 1 && line.startsAsm {
          inlineAsm := V.InsideAsm;
        } else {
          inlineAsm := V.NoAsm;
        }
      } else if inlineAsm == V.InsideAsm && openParentheses == 0 {
        inlineAsm := V.EndAsm;
      }
    }
  }

  ghost function Values(blocks: seq<BlockInfo>): (vs: V.Stack)
    reads blocks
    ensures |vs| == |blocks| && forall k :: 0 <= k < |vs| ==> vs[k] == blocks[k].Value()
  {
    seq(|blocks|, k requires 0 <= k < |blocks| reads blocks => blocks[k].Value())
  }

  /** `copy.deepcopy` of a stack */
  method DeepCopy(blocks: seq<BlockInfo>) returns (copy: seq<BlockInfo>)
    ensures forall b <- copy :: fresh(b)
    ensures NoDuplicates(copy) && Values(copy) == Values(blocks)
  {
    copy := [];
    for k := 0 to |blocks|
      invariant |copy| == k && NoDuplicates(copy) && forall b <- copy :: fresh(b)
      invariant Values(copy) == Values(blocks)[..k]
    {
      var b := new BlockInfo(blocks[k].Value());
      copy := copy + [b];
    }
  }

  /** `_PreprocessorInfo`; it is reached through `ppStack` alone, so a value does. */
  datatype PreprocessorInfo = PreprocessorInfo(
    stackBeforeIf: seq<BlockInfo>, stackBeforeElse: seq<BlockInfo>, seenElse: bool)
  {
    ghost function Blocks(): set<BlockInfo> {
      (set b <- stackBeforeIf) + (set b <- stackBeforeElse)
    }

    predicate Valid() {
      NoDuplicates(stackBeforeIf) && NoDuplicates(stackBeforeElse) && forall b <- stackBeforeIf :: b !in stackBeforeElse
    }

    ghost function Value(): V.Checkpoint
      reads Blocks()
    {
      V.Checkpoint(Values(stackBeforeIf), Values(stackBeforeElse), seenElse)
    }
  }

  ghost function CheckpointBlocks(infos: seq<PreprocessorInfo>): set<BlockInfo> {
    if infos == [] then {} else CheckpointBlocks(infos[..|infos| - 1]) + infos[|infos| - 1].Blocks()
  }

  ghost function Checkpoints(infos: seq<PreprocessorInfo>): (cs: seq<V.Checkpoint>)
    reads CheckpointBlocks(infos)
    ensures |cs| == |infos|
  {
    if infos == [] then [] else Checkpoints(infos[..|infos| - 1]) + [infos[|infos| - 1].Value()]
  }

  /** No block is in two checkpoints. */
  ghost predicate Saved(infos: seq<PreprocessorInfo>) {
    infos == [] ||
    var top, rest := infos[|infos| - 1], infos[..|infos| - 1];
    top.Valid() && Saved(rest) && top.Blocks() !! CheckpointBlocks(rest)
  }

  /** No block is in two places: not twice in the live stack, not in it and in a
      checkpoint, and not in two checkpoints. */
  ghost predicate Apart(stack: seq<BlockInfo>, infos: seq<PreprocessorInfo>) {
    NoDuplicates(stack) && Saved(infos) && forall b <- stack :: b !in CheckpointBlocks(infos)
  }

  lemma OnTop(infos: seq<PreprocessorInfo>, top: PreprocessorInfo)
    ensures var all := infos + [top];
      && CheckpointBlocks(all) == CheckpointBlocks(infos) + top.Blocks()
      && Checkpoints(all) == Checkpoints(infos) + [top.Value()]
      && (Saved(all) <==> Saved(infos) && top.Valid() && top.Blocks() !! CheckpointBlocks(infos))
  {
    assert (infos + [top])[..|infos|] == infos;
  }

  lemma LeavingStaysApart(stack: seq<BlockInfo>, infos: seq<PreprocessorInfo>)
    requires Apart(stack, infos) && infos != []
    ensures var n := |infos| - 1;
      && Apart(stack, infos[..n]) && Apart(infos[n].stackBeforeElse, infos[..n])
      && forall b <- infos[n].stackBeforeElse :: b in CheckpointBlocks(infos)
  {
    var top := infos[|infos| - 1];
    assert forall b <- top.stackBeforeElse :: b in top.Blocks();
  }

  class NestingState {
    var stack: seq<BlockInfo>
    var ppStack: seq<PreprocessorInfo>
    ghost var Repr: set<BlockInfo>

    ghost predicate Valid()
      reads this
    {
      && Apart(stack, ppStack)
      && (forall b <- stack :: b in Repr) && CheckpointBlocks(ppStack) <= Repr
    }

    ghost function View(): V.State
      reads this, stack, CheckpointBlocks(ppStack)
    {
      V.State(Values(stack), Checkpoints(ppStack))
    }

    constructor ()
      ensures Valid() && View() == V.INITIAL
    {
      stack, ppStack, Repr := [], [], {};
    }

    method Update(line: V.Line)
      requires Valid()
      modifies this, Repr
      ensures Valid() && fresh(Repr - old(Repr)) && View() == V.Step(line, old(View()))
      ensures line.directive == V.NoDirective ==> B.LineLaw(line, old(Values(stack)), Values(stack))
    {
      if line.directive == V.NoDirective {
        B.LineLawHolds(line, View());
      }
      UpdatePreprocessor(line.directive);
      UpdateBlocks(line);
    }

    /** All lines of a file.  In the end the block objects hold what the lines outside
        `#else` tails do on their own, if no `#else` is still open. */
    method Process(lines: seq<V.Line>)
      requires Valid() && View() == V.INITIAL
      modifies this, Repr
      ensures Valid() && View() == V.Run(lines, V.INITIAL)
      ensures true !in V.FlagsAfter(lines, []) ==> Values(stack) == V.Effects(V.Erase(lines, []), [])
    {
      var left := lines;
      while left != []
        invariant Valid() && fresh(Repr - old(Repr))
        invariant V.Run(left, View()) == V.Run(lines, V.INITIAL)
        decreases |left|
      {
        Update(left[0]);
        left := left[1..];
      }
      if true !in V.FlagsAfter(lines, []) {
        V.StackIgnoresElseTails(lines);
      }
    }

    method UpdateBlocks(line: V.Line)
      requires Valid()
      modifies `stack, `Repr, Repr
      ensures Valid() && fresh(Repr - old(Repr))
      ensures Values(stack) == V.Effect(line, old(Values(stack)))
      ensures Checkpoints(ppStack) == old(Checkpoints(ppStack))
    {
      CountTop(line);
      UpdateAfterCounting(line);
    }

    method UpdateAfterCounting(line: V.Line)
      requires Valid()
      modifies `stack, `Repr, Repr
      ensures Valid() && fresh(Repr - old(Repr))
      ensures Values(stack) == V.AfterCounting(line, old(Values(stack)))
      ensures Checkpoints(ppStack) == old(Checkpoints(ppStack))
    {
      PushNamespaces(line);
      UpdateAfterNamespaces(line);
    }

    method UpdateAfterNamespaces(line: V.Line)
      requires Valid()
      modifies `stack, `Repr, Repr
      ensures Valid() && fresh(Repr - old(Repr))
      ensures Values(stack) == V.AfterNamespaces(line, old(Values(stack)))
      ensures Checkpoints(ppStack) == old(Checkpoints(ppStack))
    {
      var tail := PushClass(line);
      ReadHead(line, tail);
      ReadTokens(line.number, tail.tokens);
    }

    method PushClass(line: V.Line) returns (tail: V.Tail)
      requires Valid()
      modifies `stack, `Repr
      ensures Valid() && fresh(Repr - old(Repr))
      ensures Values(stack) == V.Classes(line, old(Values(stack))) && tail == V.TailOf(line, old(Values(stack)))
      ensures Checkpoints(ppStack) == old(Checkpoints(ppStack))
    {
      tail := line.tail;
      if line.classHead.Some? && (stack == [] || stack[|stack| - 1].openParentheses == 0) {
        var head := line.classHead.value;
        if !head.inTemplateArguments {
          PushBlock(V.NewBlock(V.ClassBlock(head.name, head.isStruct), line.number, false));
          tail := head.tail;
        }
      }
    }

    /** Counting parentheses and entering or leaving inline assembly change the top
        block in place and nothing that a checkpoint holds. */
    method CountTop(line: V.Line)
      requires Valid()
      modifies Repr
      ensures Values(stack) == V.CountTop(line, old(Values(stack)))
      ensures Checkpoints(ppStack) == old(Checkpoints(ppStack))
    {
      if stack != [] {
        var top := stack[|stack| - 1];
        assert top !in CheckpointBlocks(ppStack);
        top.CountParentheses(line);
        assert Values(stack) == old(Values(stack))[|stack| - 1 := top.Value()];
      }
    }

    method PushBlock(b: V.Block)
      requires Valid()
      modifies `stack, `Repr
      ensures Valid() && Values(stack) == V.Push(old(Values(stack)), b)
      ensures Checkpoints(ppStack) == old(Checkpoints(ppStack))
      ensures fresh(Repr - old(Repr))
    {
      var block := new BlockInfo(b);
      stack := stack + [block];
      Repr := Repr + {block};
    }

    method PopBlock()
      requires Valid() && stack != []
      modifies `stack
      ensures Valid() && Values(stack) == V.Pop(old(Values(stack)))
      ensures Checkpoints(ppStack) == old(Checkpoints(ppStack))
    {
      stack := stack[..|stack| - 1];
    }

    method PushNamespaces(line: V.Line)
      requires Valid()
      modifies `stack, `Repr
      ensures Valid() && Values(stack) == V.Namespaces(line, line.namespaces, old(Values(stack)))
      ensures Checkpoints(ppStack) == old(Checkpoints(ppStack))
      ensures fresh(Repr - old(Repr))
    {
      var names := line.namespaces;
      while names != []
        invariant Valid() && Checkpoints(ppStack) == old(Checkpoints(ppStack))
        invariant V.Namespaces(line, names, Values(stack)) == V.Namespaces(line, line.namespaces, old(Values(stack)))
        invariant fresh(Repr - old(Repr))
        decreases |names|
      {
        PushBlock(V.NewBlock(V.Namespace(names[0].0), line.number, names[0].1));
        names := names[1..];
      }
    }

    method ReadHead(line: V.Line, tail: V.Tail)
      requires Valid()
      modifies Repr
      ensures Values(stack) == V.Heads(line, tail, old(Values(stack)))
      ensures Checkpoints(ppStack) == old(Checkpoints(ppStack))
    {
      if stack != [] && stack[|stack| - 1].kind.ClassBlock? {
        var top := stack[|stack| - 1];
        assert top !in CheckpointBlocks(ppStack);
        top.ReadHead(line, tail);
        assert Values(stack) == old(Values(stack))[|stack| - 1 := top.Value()];
      }
    }

    method ReadTokens(number: nat, tokens: seq<V.Token>)
      requires Valid()
      modifies `stack, `Repr, Repr
      ensures Valid() && fresh(Repr - old(Repr)) && Values(stack) == V.Tokens(number, tokens, old(Values(stack)))
      ensures Checkpoints(ppStack) == old(Checkpoints(ppStack))
      ensures V.SeenOpenBrace(old(Values(stack))) && B.Balanced(tokens) ==> Values(stack) == old(Values(stack))
      ensures B.SeenDown(old(Values(stack)), B.Unmatched(tokens)) ==> |stack| == B.Height(old(|stack|), tokens)
    {
      B.TokensLaw(number, tokens, Values(stack));
      var left := tokens;
      while left != []
        invariant Valid() && Checkpoints(ppStack) == old(Checkpoints(ppStack))
        invariant V.Tokens(number, left, Values(stack)) == V.Tokens(number, tokens, old(Values(stack)))
        invariant fresh(Repr - old(Repr))
        decreases |left|
      {
        ReadToken(number, left[0]);
        left := left[1..];
      }
    }

    method ReadToken(number: nat, token: V.Token)
      requires Valid()
      modifies `stack, `Repr, Repr
      ensures Valid() && Values(stack) == V.OneToken(number, token, old(Values(stack)))
      ensures Checkpoints(ppStack) == old(Checkpoints(ppStack))
      ensures fresh(Repr - old(Repr))
    {
      var seenOpenBrace := stack == [] || stack[|stack| - 1].seenOpenBrace;
      assert seenOpenBrace == V.SeenOpenBrace(Values(stack));
      match token
      case OpenBrace(externC, asm) =>
        if !seenOpenBrace {
          MarkOpenBrace();
        } else {
          PushBlock(
            if externC then V.NewBlock(V.ExternC, number, true)
            else V.NewBlock(V.PlainBlock, number, true).(inlineAsm := if asm then V.BlockAsm else V.NoAsm));
        }
      case SemicolonOrParenthesis =>
        if !seenOpenBrace {
          PopBlock();
        }
      case CloseBrace =>
        if stack != [] {
          PopBlock();
        }
    }

    method MarkOpenBrace()
      requires Valid() && stack != []
      modifies stack[|stack| - 1]
      ensures Values(stack) == V.ReplaceTop(old(Values(stack)), old(Values(stack))[|stack| - 1].(seenOpenBrace := true))
      ensures Checkpoints(ppStack) == old(Checkpoints(ppStack))
    {
      var top := stack[|stack| - 1];
      assert top !in CheckpointBlocks(ppStack);
      top.seenOpenBrace := true;
      assert Values(stack) == old(Values(stack))[|stack| - 1 := top.Value()];
    }

    method UpdatePreprocessor(d: V.Directive)
      requires Valid()
      modifies this
      ensures Valid() && View() == V.Direct(d, old(View()))
      ensures fresh(Repr - old(Repr))
    {
      if d == V.If {
        SaveBeforeIf();
      } else if d == V.Else {
        if ppStack != [] {
          EnterElse();
        }
      } else if d == V.Endif {
        if ppStack != [] {
          LeaveConditional();
        }
      }
    }

    method SaveBeforeIf()
      requires Valid()
      modifies `ppStack, `Repr
      ensures Valid() && fresh(Repr - old(Repr)) && View() == V.Direct(V.If, old(View()))
    {
      var copy := DeepCopy(stack);
      PushInfo(copy);
    }

    method PushInfo(copy: seq<BlockInfo>)
      requires Valid() && NoDuplicates(copy) && forall b <- copy :: b !in Repr
      modifies `ppStack, `Repr
      ensures Valid() && Checkpoints(ppStack) == old(Checkpoints(ppStack)) + [V.Checkpoint(Values(copy), [], false)]
      ensures Repr == old(Repr) + set b <- copy
    {
      var info := PreprocessorInfo(copy, [], false);
      OnTop(ppStack, info);
      assert info.Blocks() == set b <- copy;
      ppStack := ppStack + [info];
      Repr := Repr + info.Blocks();
    }

    method EnterElse()
      requires Valid() && ppStack != []
      modifies this
      ensures Valid() && fresh(Repr - old(Repr)) && View() == V.Direct(V.Else, old(View()))
    {
      ghost var was := View();
      if !ppStack[|ppStack| - 1].seenElse {
        RememberElse();
      }
      assert Checkpoints(ppStack) == V.Direct(V.Else, was).pp;
      RestoreBeforeIf();
    }

    method RememberElse()
      requires Valid() && ppStack != []
      modifies `ppStack, `Repr
      ensures Valid() && fresh(Repr - old(Repr)) && |ppStack| == old(|ppStack|)
      ensures
        var n := |ppStack| - 1;
        var top := old(Checkpoints(ppStack))[n];
        Checkpoints(ppStack) == old(Checkpoints(ppStack))[n := top.(seenElse := true, beforeElse := Values(stack))]
    {
      var n := |ppStack| - 1;
      ghost var rest, top := Checkpoints(ppStack[..n]), ppStack[n].Value();
      assert Checkpoints(ppStack) == rest + [top];
      SaveBeforeElse();
      assert Checkpoints(ppStack[..n]) == rest;
      assert ppStack[n].Value() == top.(seenElse := true, beforeElse := Values(stack));
      assert Checkpoints(ppStack) == rest + [ppStack[n].Value()];
    }

    method SaveBeforeElse()
      requires Valid() && ppStack != []
      modifies `ppStack, `Repr
      ensures Valid() && fresh(Repr - old(Repr)) && |ppStack| == old(|ppStack|)
      ensures
        var n := |ppStack| - 1;
        && ppStack[..n] == old(ppStack[..n])
        && ppStack[n].stackBeforeIf == old(ppStack[n].stackBeforeIf)
        && ppStack[n].seenElse && Values(ppStack[n].stackBeforeElse) == Values(stack)
    {
      var n := |ppStack| - 1;
      var saved := DeepCopy(stack);
      var top := ppStack[n].(seenElse := true, stackBeforeElse := saved);
      ppStack := ppStack[n := top];
      Repr := Repr + top.Blocks();
      assert ppStack[..n] == old(ppStack[..n]);
      assert forall b <- top.stackBeforeIf :: b in old(ppStack[n]).Blocks();
    }

    method Install(copy: seq<BlockInfo>)
      requires Valid() && NoDuplicates(copy) && forall b <- copy :: b !in Repr
      modifies `stack, `Repr
      ensures Valid() && stack == copy && Repr == old(Repr) + set b <- copy
    {
      stack := copy;
      Repr := Repr + set b <- copy;
    }

    method RestoreBeforeIf()
      requires Valid() && ppStack != []
      modifies `stack, `Repr
      ensures Valid() && fresh(Repr - old(Repr))
      ensures Values(stack) == Checkpoints(ppStack)[|ppStack| - 1].beforeIf
      ensures Checkpoints(ppStack) == old(Checkpoints(ppStack))
    {
      assert Checkpoints(ppStack)[|ppStack| - 1] == ppStack[|ppStack| - 1].Value();
      var copy := DeepCopy(ppStack[|ppStack| - 1].stackBeforeIf);
      Install(copy);
    }

    /** The checkpoint's own blocks become the live stack; they have no other user left. */
    method LeaveConditional()
      requires Valid() && ppStack != []
      modifies `stack, `ppStack
      ensures Valid() && View() == V.Direct(V.Endif, old(View()))
    {
      var n := |ppStack| - 1;
      var top := ppStack[n];
      LeavingStaysApart(stack, ppStack);
      if top.seenElse {
        stack := top.stackBeforeElse;
      }
      ppStack := ppStack[..n];
    }
  }
}
