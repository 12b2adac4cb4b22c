/** `NestingState.InTemplateArgumentList`, which hops over matched `<...>` with
    the forward scanner. */
module TemplateArguments {
  import opened Wrappers
  import opened SourceText
  import opened ForwardScan

  /** A character that says no or yes, or a `<` to be hopped over. */
  predicate IsDecisive(c: char) {
    SaysNo(c) || SaysYes(c) || c == '<'
  }

  predicate SaysNo(c: char) {
    c == '{' || c == '}' || c == ';'
  }

  predicate SaysYes(c: char) {
    c == '>' || c == '=' || c == '[' || c == ']' || c == '.'
  }

  /** The index of the last character of a match of `^[^{};=\[\]\.<>]*(.)` at `p`. */
  function NextToken(line: string, p: nat): (k: Option<nat>)
    ensures k == None <==> p >= |line|
    ensures k.Some? ==> p <= k.value < |line| && forall j :: p <= j < k.value ==> !IsDecisive(line[j])
    ensures k.Some? && !IsDecisive(line[k.value]) ==> k.value == |line| - 1
    decreases |line| - p
  {
    if p >= |line| then None
    else if IsDecisive(line[p]) || p == |line| - 1 then Some(p)
    else NextToken(line, p + 1)
  }

  /** A hop of the search: to the next line when nothing decides, over the whole
      of a matched `<...>` otherwise. */
  ghost predicate Hop(lines: Lines, l: nat, p: nat, l': nat, p': nat) {
    l < |lines| &&
    match NextToken(lines[l], p)
    case None => l' == l + 1 && p' == 0
    case Some(k) =>
      if lines[l][k] == '<' then CloseAt(lines, l, k) == Some((l', p'))
      else !IsDecisive(lines[l][k]) && l' == l + 1 && p' == 0
  }

  /** The place whose next token answers yes. */
  ghost predicate Decides(lines: Lines, l: nat, p: nat) {
    l < |lines| && NextToken(lines[l], p).Some? && SaysYes(lines[l][NextToken(lines[l], p).value])
  }

  ghost predicate Trail(lines: Lines, trail: seq<(nat, nat)>) {
    && trail != []
    && (forall k :: 0 <= k < |trail| - 1 ==> Hop(lines, trail[k].0, trail[k].1, trail[k + 1].0, trail[k + 1].1))
    && Decides(lines, trail[|trail| - 1].0, trail[|trail| - 1].1)
  }

  ghost predicate ReachesYes(lines: Lines, l: nat, p: nat) {
    exists trail :: Trail(lines, trail) && trail[0] == (l, p)
  }

  lemma FirstHop(lines: Lines, trail: seq<(nat, nat)>)
    requires Trail(lines, trail) && |trail| > 1
    ensures Hop(lines, trail[0].0, trail[0].1, trail[1].0, trail[1].1)
  {
  }

  lemma HopReaches(lines: Lines, l: nat, p: nat, l': nat, p': nat)
    requires Hop(lines, l, p, l', p')
    ensures ReachesYes(lines, l, p) <==> ReachesYes(lines, l', p')
  {
    if ReachesYes(lines, l', p') {
      var trail: seq<(nat, nat)> :| Trail(lines, trail) && trail[0] == (l', p');
      HopFirst(lines, l, p, trail);
    }
    if ReachesYes(lines, l, p) {
      var trail: seq<(nat, nat)> :| Trail(lines, trail) && trail[0] == (l, p);
      HopDone(lines, trail, l', p');
    }
  }

  lemma HopFirst(lines: Lines, l: nat, p: nat, trail: seq<(nat, nat)>)
    requires Trail(lines, trail) && Hop(lines, l, p, trail[0].0, trail[0].1)
    ensures ReachesYes(lines, l, p)
  {
    var longer := [(l, p)] + trail;
    forall k | 0 <= k < |longer| - 1
      ensures Hop(lines, longer[k].0, longer[k].1, longer[k + 1].0, longer[k + 1].1)
    {
      if k > 0 {
        assert longer[k] == trail[k - 1] && longer[k + 1] == trail[k - 1 + 1];
      }
    }
    assert Trail(lines, longer);
  }

  lemma HopDone(lines: Lines, trail: seq<(nat, nat)>, l': nat, p': nat)
    requires Trail(lines, trail) && Hop(lines, trail[0].0, trail[0].1, l', p')
    ensures ReachesYes(lines, l', p')
  {
    assert |trail| > 1;
    FirstHop(lines, trail);
    assert trail[1..][0] == (l', p');
    assert Trail(lines, trail[1..]);
  }

  /** Past the end, at a character that decides, and at a `<` without a match there is no hop. */
  predicate Stuck(lines: Lines, l: nat, p: nat) {
    l < |lines| ==>
      && NextToken(lines[l], p).Some?
      && var k := NextToken(lines[l], p).value;
         if lines[l][k] == '<' then CloseAt(lines, l, k) == None else IsDecisive(lines[l][k])
  }

  lemma StuckAnswers(lines: Lines, l: nat, p: nat)
    requires Stuck(lines, l, p)
    ensures ReachesYes(lines, l, p) <==> Decides(lines, l, p)
  {
    if Decides(lines, l, p) {
      assert Trail(lines, [(l, p)]);
    }
    if ReachesYes(lines, l, p) {
      var trail: seq<(nat, nat)> :| Trail(lines, trail) && trail[0] == (l, p);
      if |trail| > 1 {
        FirstHop(lines, trail);
        assert false;
      }
    }
  }

  /** A line without a deciding character is left for the next one. */
  lemma UndecidedLine(lines: Lines, l: nat, p: nat)
    requires l < |lines|
    requires var k := NextToken(lines[l], p); k == None || !IsDecisive(lines[l][k.value])
    ensures ReachesYes(lines, l, p) <==> ReachesYes(lines, l + 1, 0)
  {
    HopReaches(lines, l, p, l + 1, 0);
  }

  /** A character other than `<` decides. */
  lemma DecidedLine(lines: Lines, l: nat, p: nat)
    requires l < |lines| && NextToken(lines[l], p).Some?
    requires var c := lines[l][NextToken(lines[l], p).value]; IsDecisive(c) && c != '<'
    ensures ReachesYes(lines, l, p) <==> SaysYes(lines[l][NextToken(lines[l], p).value])
  {
    StuckAnswers(lines, l, p);
  }

  /** A `<` is hopped over if it has a match and says no otherwise. */
  lemma AngleLine(lines: Lines, l: nat, p: nat)
    requires l < |lines| && NextToken(lines[l], p).Some? && lines[l][NextToken(lines[l], p).value] == '<'
    ensures ReachesYes(lines, l, p) <==>
      match CloseAt(lines, l, NextToken(lines[l], p).value)
      case None => false
      case Some((l', p')) => ReachesYes(lines, l', p')
  {
    var end := CloseAt(lines, l, NextToken(lines[l], p).value);
    if end == None {
      StuckAnswers(lines, l, p);
    } else {
      HopReaches(lines, l, p, end.value.0, end.value.1);
    }
  }

  lemma PastTheEnd(lines: Lines, l: nat, p: nat)
    requires l >= |lines|
    ensures !ReachesYes(lines, l, p)
  {
    StuckAnswers(lines, l, p);
  }

  /** It ends on every file: each hop leaves fewer lines, or as many lines and
      fewer columns.  The answer is yes exactly when the hops lead to a deciding
      `>`, `=`, `[`, `]` or `.`. */
  method InTemplateArgumentList(lines: Lines, startLine: nat, startPos: nat) returns (inside: bool)
    ensures inside <==> ReachesYes(lines, startLine, startPos)
  {
    var l: nat, p: nat := startLine, startPos;
    while l < |lines|
      invariant ReachesYes(lines, l, p) <==> ReachesYes(lines, startLine, startPos)
      decreases |lines| - l, if l < |lines| && p < |lines[l]| then |lines[l]| - p else 0
    {
      var line := lines[l];
      var k := NextToken(line, p);
      if k == None {
        UndecidedLine(lines, l, p);
        l, p := l + 1, 0;
        continue;
      }
      var token := line[k.value];
      var pos := k.value + 1;
      if token == '{' || token == '}' || token == ';' {
        DecidedLine(lines, l, p);
        return false;
      }
      if token == '>' || token == '=' || token == '[' || token == ']' || token == '.' {
        DecidedLine(lines, l, p);
        return true;
      }
      if token != '<' {
        UndecidedLine(lines, l, p);
        pos := pos + 1;
        if pos >= |line| {
          l, pos := l + 1, 0;
        }
        p := pos;
        continue;
      }
      var _, endLine, endPos := CloseExpression(lines, l, pos - 1);
      AngleLine(lines, l, p);
      if endPos < 0 {
        return false;
      }
      l, p := endLine, endPos;
    }
    PastTheEnd(lines, l, p);
    return false;
  }
}
