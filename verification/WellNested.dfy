/** Well-nested text over the three bracket kinds `()`, `[]` and `{}`.

    `Nest` is a grammar for well-nested text and says what a correct bracket
    matcher means.  `Fold` and `Closes` are the plain stack disciplines that the
    scanners are compared with, and the lemmas tie both to the grammar.  A stack
    is a string of opening brackets with its top at the end. */
module WellNested {
  import opened Wrappers

  predicate IsOpen(c: char) {
    c == '(' || c == '[' || c == '{'
  }

  predicate IsClose(c: char) {
    c == ')' || c == ']' || c == '}'
  }

  predicate IsBracket(c: char) {
    IsOpen(c) || IsClose(c)
  }

  /** The bracket of the same kind facing the other way; other characters are kept. */
  function Partner(c: char): char {
    match c
    case '(' => ')'
    case ')' => '('
    case '[' => ']'
    case ']' => '['
    case '{' => '}'
    case '}' => '{'
    case _ => c
  }

  /** Derivations of well-nested text. */
  datatype Nest =
    | Empty
    | Plain(c: char, rest: Nest)
    | Group(open: char, inner: Nest, rest: Nest)

  predicate Proper(n: Nest) {
    match n
    case Empty => true
    case Plain(c, rest) => !IsBracket(c) && Proper(rest)
    case Group(open, inner, rest) => IsOpen(open) && Proper(inner) && Proper(rest)
  }

  function Yield(n: Nest): string {
    match n
    case Empty => []
    case Plain(c, rest) => [c] + Yield(rest)
    case Group(open, inner, rest) => [open] + Yield(inner) + [Partner(open)] + Yield(rest)
  }

  ghost predicate WellNestedText(t: string) {
    exists n :: Proper(n) && Yield(n) == t
  }

  /** A pair of matching brackets around well-nested text. */
  ghost predicate Enclosed(t: string) {
    |t| >= 2 && IsOpen(t[0]) && t[|t| - 1] == Partner(t[0]) && WellNestedText(t[1..|t| - 1])
  }

  /** One character's effect on the stack, or `None` for a closing bracket without its opener. */
  function Move(c: char, st: string): Option<string> {
    if IsOpen(c) then Some(st + [c])
    else if IsClose(c) then
      if |st| > 0 && st[|st| - 1] == Partner(c) then Some(st[..|st| - 1]) else None
    else Some(st)
  }

  function Fold(t: string, st: string): Option<string> {
    if t == [] then Some(st)
    else match Move(t[0], st)
      case None => None
      case Some(st') => Fold(t[1..], st')
  }

  /** Reading `t` empties the stack at its last character and never before. */
  predicate Closes(t: string, st: string) {
    if st == [] then t == []
    else t != [] && Move(t[0], st).Some? && Closes(t[1..], Move(t[0], st).value)
  }

  // ----- the grammar and the stack agree

  lemma GroupShape(open: char, inner: Nest, m: Nest, rest: string)
    ensures Yield(Group(open, inner, m)) + rest
            == [open] + (Yield(inner) + ([Partner(open)] + (Yield(m) + rest)))
  {
  }

  lemma {:induction false} YieldFolds(n: Nest, rest: string, st: string)
    requires Proper(n)
    ensures Fold(Yield(n) + rest, st) == Fold(rest, st)
  {
    match n
    case Empty =>
      assert Yield(n) + rest == rest;
    case Plain(c, m) =>
      assert Yield(n) + rest == [c] + (Yield(m) + rest);
      YieldFolds(m, rest, st);
    case Group(open, inner, m) =>
      var tail := [Partner(open)] + (Yield(m) + rest);
      GroupShape(open, inner, m, rest);
      YieldFolds(inner, tail, st + [open]);
      assert tail[1..] == Yield(m) + rest;
      assert (st + [open])[..|st|] == st;
      YieldFolds(m, rest, st);
  }

  lemma {:induction false} YieldCloses(n: Nest, rest: string, st: string)
    requires Proper(n) && st != []
    ensures Closes(Yield(n) + rest, st) == Closes(rest, st)
  {
    match n
    case Empty =>
      assert Yield(n) + rest == rest;
    case Plain(c, m) =>
      assert Yield(n) + rest == [c] + (Yield(m) + rest);
      YieldCloses(m, rest, st);
    case Group(open, inner, m) =>
      var tail := [Partner(open)] + (Yield(m) + rest);
      GroupShape(open, inner, m, rest);
      YieldCloses(inner, tail, st + [open]);
      assert tail[1..] == Yield(m) + rest;
      assert (st + [open])[..|st|] == st;
      YieldCloses(m, rest, st);
  }

  /** The bracket that closes the top of the stack, if any, before `rest`. */
  function Closing(st: string, rest: string): string {
    if st == [] then rest else [Partner(st[|st| - 1])] + rest
  }

  /** A reading that ends with the empty stack splits into a derivation, the
      bracket that closes the top of the stack, and the rest of the reading. */
  lemma {:induction false} Parse(t: string, st: string) returns (n: Nest, rest: string)
    requires Fold(t, st) == Some([])
    ensures Proper(n)
    ensures t == Yield(n) + Closing(st, rest)
    ensures if st == [] then rest == [] else Fold(rest, st[..|st| - 1]) == Some([])
    decreases |t|
  {
    if t == [] {
      n, rest := Empty, [];
    } else {
      assert t == [t[0]] + t[1..];
      if IsOpen(t[0]) {
        var inner, r := Parse(t[1..], st + [t[0]]);
        assert (st + [t[0]])[..|st|] == st;
        var m;
        m, rest := Parse(r, st);
        n := Group(t[0], inner, m);
        GroupShape(t[0], inner, m, Closing(st, rest));
      } else if IsClose(t[0]) {
        n, rest := Empty, t[1..];
      } else {
        var m;
        m, rest := Parse(t[1..], st);
        n := Plain(t[0], m);
      }
    }
  }

  lemma FoldIffWellNested(t: string)
    ensures Fold(t, []) == Some([]) <==> WellNestedText(t)
  {
    if Fold(t, []) == Some([]) {
      var n, _ := Parse(t, []);
    }
    if WellNestedText(t) {
      var n :| Proper(n) && Yield(n) == t;
      YieldFolds(n, [], []);
      assert t + [] == t;
    }
  }

  lemma {:induction false} ClosesFolds(t: string, st: string)
    requires Closes(t, st)
    ensures Fold(t, st) == Some([])
    decreases |t|
  {
    if st != [] {
      ClosesFolds(t[1..], Move(t[0], st).value);
    }
  }

  /** Plain kind-checking matching from an opening bracket finds exactly the
      texts of the grammar. */
  lemma ClosesIffEnclosed(open: char, t: string)
    requires IsOpen(open)
    ensures Closes(t, [open]) <==> Enclosed([open] + t)
  {
    var w := [open] + t;
    if Closes(t, [open]) {
      ClosesFolds(t, [open]);
      var n, rest := Parse(t, [open]);
      var tail := [Partner(open)] + rest;
      assert t == Yield(n) + tail;
      YieldCloses(n, tail, [open]);
      assert Closes(tail[1..], []);
      assert w[1..|w| - 1] == Yield(n);
    }
    if Enclosed(w) {
      var n :| Proper(n) && Yield(n) == w[1..|w| - 1];
      assert t == Yield(n) + [Partner(open)];
      YieldCloses(n, [Partner(open)], [open]);
      assert Closes([Partner(open)], [open]);
    }
  }

  // ----- reading from the right

  /** The text read from the right, with every bracket turned around. */
  function Mirror(t: string): (m: string)
    ensures |m| == |t|
    ensures forall k :: 0 <= k < |t| ==> m[k] == Partner(t[|t| - 1 - k])
  {
    seq(|t|, k requires 0 <= k < |t| => Partner(t[|t| - 1 - k]))
  }

  lemma MirrorConcat(a: string, b: string)
    ensures Mirror(a + b) == Mirror(b) + Mirror(a)
  {
  }

  lemma MirrorTwice(t: string)
    ensures Mirror(Mirror(t)) == t
  {
  }

  /** Derivations put side by side. */
  function Join(a: Nest, b: Nest): Nest {
    match a
    case Empty => b
    case Plain(c, rest) => Plain(c, Join(rest, b))
    case Group(open, inner, rest) => Group(open, inner, Join(rest, b))
  }

  lemma {:induction false} JoinYields(a: Nest, b: Nest)
    requires Proper(a) && Proper(b)
    ensures Proper(Join(a, b)) && Yield(Join(a, b)) == Yield(a) + Yield(b)
  {
    match a
    case Empty =>
    case Plain(c, rest) =>
      JoinYields(rest, b);
    case Group(open, inner, rest) =>
      JoinYields(rest, b);
  }

  lemma {:induction false} MirrorYield(n: Nest) returns (m: Nest)
    requires Proper(n)
    ensures Proper(m) && Yield(m) == Mirror(Yield(n))
  {
    match n
    case Empty =>
      m := Empty;
    case Plain(c, rest) =>
      var r := MirrorYield(rest);
      m := Join(r, Plain(c, Empty));
      JoinYields(r, Plain(c, Empty));
      MirrorConcat([c], Yield(rest));
    case Group(open, inner, rest) =>
      var i := MirrorYield(inner);
      var r := MirrorYield(rest);
      var g := Group(open, i, Empty);
      m := Join(r, g);
      JoinYields(r, g);
      MirrorGroup(open, Yield(inner), Yield(rest));
  }

  lemma MirrorGroup(open: char, inner: string, rest: string)
    requires IsOpen(open)
    ensures Mirror([open] + inner + [Partner(open)] + rest)
            == Mirror(rest) + ([open] + Mirror(inner) + [Partner(open)] + [])
  {
    var o, c := [open], [Partner(open)];
    MirrorConcat(o + inner + c, rest);
    MirrorConcat(o + inner, c);
    MirrorConcat(o, inner);
    assert Mirror(c) == o && Mirror(o) == c;
    assert Mirror(o + inner + c) == o + (Mirror(inner) + c);
  }

  lemma MirrorWellNested(t: string)
    ensures WellNestedText(Mirror(t)) <==> WellNestedText(t)
  {
    if WellNestedText(t) {
      var n :| Proper(n) && Yield(n) == t;
      var m := MirrorYield(n);
    }
    if WellNestedText(Mirror(t)) {
      var n :| Proper(n) && Yield(n) == Mirror(t);
      var m := MirrorYield(n);
      MirrorTwice(t);
    }
  }

  /** Matching from a closing bracket to the left finds the same pairs. */
  lemma MirrorEnclosed(t: string)
    ensures Enclosed(Mirror(t)) <==> Enclosed(t)
  {
    if |t| >= 2 {
      var m, inner := Mirror(t), t[1..|t| - 1];
      assert m[1..|m| - 1] == Mirror(inner);
      MirrorWellNested(inner);
    }
  }
}
