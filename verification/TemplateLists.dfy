/** Where a template argument list ends, on the text alone: angle brackets are counted
    outside inner brackets, and the list ends where the count first comes to zero.

    A cell is a character with its part in this count.  Texts are read in the
    direction of the scan, with brackets turned around for a scan to the left. */
module TemplateLists {
  import opened Wrappers
  import opened SourceText
  import opened WellNested

  datatype Part = Raises | Lowers | Shifts | Ends | NoPart

  datatype Cell = Cell(c: char, part: Part)

  function Weight(part: Part): int {
    match part
    case Raises => 1
    case Lowers => -1
    case Shifts => -1
    case _ => 0
  }

  /** The brackets that are open after the first `k` cells, on top of `st`. */
  function StackAt(cells: seq<Cell>, st: string, k: nat): Option<string>
    requires k <= |cells|
  {
    if k == 0 then Some(st)
    else
      var before := StackAt(cells, st, k - 1);
      if before == None then None else Move(cells[k - 1].c, before.value)
  }

  predicate Outside(cells: seq<Cell>, st: string, k: nat)
    requires k <= |cells|
  {
    StackAt(cells, st, k) == Some([])
  }

  /** The count after the first `k` cells, over those that are in no bracket. */
  function Count(cells: seq<Cell>, st: string, k: nat): int
    requires k <= |cells|
  {
    if k == 0 then 0
    else Count(cells, st, k - 1) + if Outside(cells, st, k - 1) then Weight(cells[k - 1].part) else 0
  }

  /** Every statement end is inside a bracket. */
  ghost predicate EndsInside(cells: seq<Cell>, st: string) {
    forall k: nat :: k < |cells| ==> (Outside(cells, st, k) ==> cells[k].part != Ends)
  }

  ghost predicate StaysPositive(cells: seq<Cell>, st: string, h: nat) {
    forall k: nat :: 0 < k < |cells| ==> h + Count(cells, st, k) > 0
  }

  /** With `h` lists and the brackets `st` open before them, the cells are the rest of the
      outermost list: brackets are well nested, no statement ends outside them, and the
      count first comes to zero at the last cell, which lowers it. */
  ghost predicate IsRest(cells: seq<Cell>, st: string, h: nat) {
    && cells != [] && Outside(cells, st, |cells|) && EndsInside(cells, st)
    && StaysPositive(cells, st, h) && h + Count(cells, st, |cells|) == 0
    && cells[|cells| - 1].part == Lowers
  }

  /** A whole template argument list. */
  ghost predicate IsList(cells: seq<Cell>) {
    IsRest(cells, [], 0)
  }

  // ----- cell by cell

  lemma {:induction false} StackAtFirst(cells: seq<Cell>, st: string, k: nat)
    requires 0 < k <= |cells|
    ensures var m := Move(cells[0].c, st);
      StackAt(cells, st, k) == if m == None then None else StackAt(cells[1..], m.value, k - 1)
  {
    if k > 1 {
      StackAtFirst(cells, st, k - 1);
    } else {
      assert StackAt(cells, st, 0) == Some(st);
    }
  }

  /** What the first cell adds to the count. */
  function FirstWeight(cell: Cell, st: string): int {
    if st == [] then Weight(cell.part) else 0
  }

  lemma {:induction false} CountFirst(cells: seq<Cell>, st: string, k: nat)
    requires 0 < k <= |cells| && Move(cells[0].c, st).Some?
    ensures Count(cells, st, k) ==
      FirstWeight(cells[0], st) + Count(cells[1..], Move(cells[0].c, st).value, k - 1)
  {
    if k > 1 {
      CountFirst(cells, st, k - 1);
      StackAtFirst(cells, st, k - 1);
    } else {
      assert Count(cells, st, 0) == 0 && StackAt(cells, st, 0) == Some(st);
    }
  }

  lemma OutsideFirst(cells: seq<Cell>, st: string, k: nat)
    requires 0 < k <= |cells| && Move(cells[0].c, st).Some?
    ensures Outside(cells, st, k) <==> Outside(cells[1..], Move(cells[0].c, st).value, k - 1)
  {
    StackAtFirst(cells, st, k);
  }

  lemma EndsInsideFirst(cells: seq<Cell>, st: string)
    requires cells != [] && Move(cells[0].c, st).Some?
    ensures EndsInside(cells, st)
            <==> (st == [] ==> cells[0].part != Ends) && EndsInside(cells[1..], Move(cells[0].c, st).value)
  {
    var st' := Move(cells[0].c, st).value;
    assert Outside(cells, st, 0) <==> st == [];
    if EndsInside(cells, st) {
      forall k: nat | k < |cells[1..]| ensures Outside(cells[1..], st', k) ==> cells[1..][k].part != Ends {
        OutsideFirst(cells, st, k + 1);
      }
    }
    if (st == [] ==> cells[0].part != Ends) && EndsInside(cells[1..], st') {
      forall k: nat | k < |cells| ensures Outside(cells, st, k) ==> cells[k].part != Ends {
        if k > 0 {
          OutsideFirst(cells, st, k);
        }
      }
    }
  }

  lemma StaysPositiveFirst(cells: seq<Cell>, st: string, h: nat, h': nat)
    requires cells != [] && Move(cells[0].c, st).Some? && h' == h + FirstWeight(cells[0], st)
    ensures StaysPositive(cells, st, h)
            <==> (|cells| > 1 ==> h' > 0) && StaysPositive(cells[1..], Move(cells[0].c, st).value, h')
  {
    var rest, st' := cells[1..], Move(cells[0].c, st).value;
    forall k: nat | 0 < k <= |cells| ensures h + Count(cells, st, k) == h' + Count(rest, st', k - 1) {
      CountFirst(cells, st, k);
    }
    assert Count(rest, st', 0) == 0;
    if StaysPositive(cells, st, h) {
      if |cells| > 1 {
        assert h + Count(cells, st, 1) > 0;
      }
      forall k: nat | 0 < k < |rest| ensures h' + Count(rest, st', k) > 0 {
        assert h + Count(cells, st, k + 1) > 0;
      }
    }
  }

  lemma RestOne(cells: seq<Cell>, st: string, h: nat)
    requires |cells| == 1
    ensures IsRest(cells, st, h) <==>
      && Move(cells[0].c, st) == Some([]) && (st == [] ==> cells[0].part != Ends)
      && h + FirstWeight(cells[0], st) == 0 && cells[0].part == Lowers
  {
    assert StackAt(cells, st, 0) == Some(st) && StackAt(cells, st, 1) == Move(cells[0].c, st);
    assert Count(cells, st, 0) == 0 && Count(cells, st, 1) == FirstWeight(cells[0], st);
    assert Outside(cells, st, 0) <==> st == [];
  }

  lemma RestStuck(cells: seq<Cell>, st: string, h: nat)
    requires cells != [] && Move(cells[0].c, st) == None
    ensures !IsRest(cells, st, h)
  {
    StackAtFirst(cells, st, |cells|);
  }

  lemma RestTooLow(cells: seq<Cell>, st: string, h: nat)
    requires |cells| > 1 && h + FirstWeight(cells[0], st) <= 0
    ensures !IsRest(cells, st, h)
  {
    assert StackAt(cells, st, 0) == Some(st) && Count(cells, st, 0) == 0;
    assert Count(cells, st, 1) == FirstWeight(cells[0], st);
  }

  lemma RestMore(cells: seq<Cell>, st: string, h: nat, st': string, h': nat)
    requires |cells| > 1 && Move(cells[0].c, st) == Some(st') && h' == h + FirstWeight(cells[0], st) && h' > 0
    ensures IsRest(cells, st, h) <==> (st == [] ==> cells[0].part != Ends) && IsRest(cells[1..], st', h')
  {
    var n := |cells|;
    OutsideFirst(cells, st, n);
    CountFirst(cells, st, n);
    EndsInsideFirst(cells, st);
    StaysPositiveFirst(cells, st, h, h');
    assert cells[1..][n - 2] == cells[n - 1];
  }

  /** The first cell of the rest of a list, and the cells after it. */
  lemma RestFirst(cells: seq<Cell>, st: string, h: nat)
    requires cells != []
    ensures var m, h' := Move(cells[0].c, st), h + FirstWeight(cells[0], st);
      IsRest(cells, st, h) <==>
        && m.Some? && (st == [] ==> cells[0].part != Ends)
        && if |cells| == 1 then m == Some([]) && h' == 0 && cells[0].part == Lowers
           else h' > 0 && IsRest(cells[1..], m.value, h')
  {
    var m, h' := Move(cells[0].c, st), h + FirstWeight(cells[0], st);
    if m == None {
      RestStuck(cells, st, h);
    } else if |cells| == 1 {
      RestOne(cells, st, h);
    } else if h' <= 0 {
      RestTooLow(cells, st, h);
    } else {
      RestMore(cells, st, h, m.value, h');
    }
  }

  /** A list begins with the cell that opens it. */
  lemma ListFirst(cell: Cell, rest: seq<Cell>)
    requires cell.part == Raises && !IsBracket(cell.c)
    ensures IsList([cell] + rest) <==> IsRest(rest, [], 1)
  {
    var cells := [cell] + rest;
    assert cells[0] == cell && cells[1..] == rest;
    RestFirst(cells, [], 0);
  }

  // ----- the text of the cells

  function Text(cells: seq<Cell>): string {
    if cells == [] then [] else [cells[0].c] + Text(cells[1..])
  }

  lemma FoldMore(c: char, t: string, st: string)
    ensures Fold([c] + t, st) == if Move(c, st) == None then None else Fold(t, Move(c, st).value)
  {
    assert ([c] + t)[1..] == t;
  }

  lemma {:induction false} FoldFirst(cells: seq<Cell>, st: string)
    ensures StackAt(cells, st, |cells|) == Fold(Text(cells), st)
  {
    if cells == [] {
      assert StackAt(cells, st, 0) == Some(st);
    } else {
      StackAtFirst(cells, st, |cells|);
      FoldMore(cells[0].c, Text(cells[1..]), st);
      var m := Move(cells[0].c, st);
      if m.Some? {
        FoldFirst(cells[1..], m.value);
      }
    }
  }

  /** A template argument list is well-nested text. */
  lemma ListIsWellNested(cells: seq<Cell>)
    requires IsList(cells)
    ensures WellNestedText(Text(cells))
  {
    FoldFirst(cells, []);
    FoldIffWellNested(Text(cells));
  }

  lemma {:induction false} StackAtPrefix(cells: seq<Cell>, st: string, k: nat)
    requires k <= |cells|
    ensures StackAt(cells, st, k) == StackAt(cells[..k], st, k)
  {
    StackAtSame(cells, cells[..k], st, k);
  }

  lemma {:induction false} StackAtSame(a: seq<Cell>, b: seq<Cell>, st: string, k: nat)
    requires k <= |a| && k <= |b| && a[..k] == b[..k]
    ensures StackAt(a, st, k) == StackAt(b, st, k)
  {
    if k > 0 {
      assert a[..k - 1] == a[..k][..k - 1] && b[..k - 1] == b[..k][..k - 1];
      assert a[k - 1] == a[..k][k - 1] && b[k - 1] == b[..k][k - 1];
      StackAtSame(a, b, st, k - 1);
    }
  }

  /** A cell is outside all brackets exactly when the text before it is well nested. */
  lemma OutsideIff(cells: seq<Cell>, k: nat)
    requires k <= |cells|
    ensures Outside(cells, [], k) <==> WellNestedText(Text(cells[..k]))
  {
    StackAtPrefix(cells, [], k);
    FoldFirst(cells[..k], []);
    FoldIffWellNested(Text(cells[..k]));
  }
}
