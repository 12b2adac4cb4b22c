/** The two multi-line scanners of cpplint undo each other. */
module ScannerLaws {
  import opened AngleStack
  import opened Wrappers
  import opened SourceText
  import opened WellNested
  import Forward = ForwardScan
  import Backward = BackwardScan

  /** A `>` at which the backward scanner starts although it then ignores it. */
  predicate StartsIgnored(line: string, i: nat)
    requires i < |line|
  {
    line[i] == '>' && IgnoredAngle(line, i)
  }

  /** For every file and every `(`, `[` or `{`, the forward scanner reports a place
      exactly when the backward scanner leads from the character before that
      place to the opening bracket, and that character is not a `>` that the
      backward scanner ignores. */
  lemma ScannersAreInverse(lines: Lines, l: nat, p: nat, l': nat, p': nat)
    requires IsPlace(lines, l, p) && p < |lines[l]| && IsOpen(lines[l][p])
    requires IsPlace(lines, l', p') && p' > 0
    ensures Forward.CloseAt(lines, l, p) == Some((l', p')) <==>
            Backward.OpenAt(lines, l', p' - 1) == Some((l, p)) && !StartsIgnored(lines[l'], p' - 1)
  {
    BracketsAreInverse(lines, l, p, l', p');
    if !IsClose(lines[l'][p' - 1]) && !StartsIgnored(lines[l'], p' - 1) && lines[l'][p' - 1] == '>' {
      AngleFindsNoBracket(lines, l, p, l', p' - 1);
    }
  }

  lemma BracketsAreInverse(lines: Lines, l: nat, p: nat, l': nat, p': nat)
    requires IsPlace(lines, l, p) && p < |lines[l]| && IsOpen(lines[l][p])
    requires IsPlace(lines, l', p') && p' > 0
    ensures Forward.CloseAt(lines, l, p) == Some((l', p')) <==>
            IsClose(lines[l'][p' - 1]) && Backward.OpenAt(lines, l', p' - 1) == Some((l, p))
  {
    if NotAfter(l, p + 1, l', p') {
      Forward.CloseIffEnclosed(lines, l, p, l', p');
      if IsClose(lines[l'][p' - 1]) {
        Backward.OpenIffEnclosed(lines, l', p' - 1, l, p);
      } else {
        var t := Between(lines, l, p, l', p');
        BetweenFirst(lines, l, p, l', p');
        if Enclosed(t) {
          BetweenLast(lines, l, p, l', p' - 1);
        }
      }
    }
  }

  /** From a `>` that it does not ignore the backward scanner finds no bracket. */
  lemma AngleFindsNoBracket(lines: Lines, l: nat, p: nat, l': nat, i: nat)
    requires IsPlace(lines, l, p) && p < |lines[l]| && IsOpen(lines[l][p])
    requires IsPlace(lines, l', i) && i < |lines[l']| && lines[l'][i] == '>' && !IgnoredAngle(lines[l'], i)
    ensures Backward.OpenAt(lines, l', i) != Some((l, p))
  {
    ActAt(lines[l'], |lines[l']|, i, '>');
    assert [] + ['>'] == ['>'];
    assert Backward.Step(lines[l'], i, []) == Go(['>']);
    if Backward.ScanFrom(lines, l', i - 1, ['>']).Some? {
      Backward.AngleMatch(lines, l', i - 1, ['>']);
    }
  }

  /** The condition is needed: in `(a)->` the backward scanner starts at the `>`, ignores
      the arrow and finds the bracket, which the forward scanner closes elsewhere. */
  lemma ArrowIsIgnored()
    ensures var lines := ["(a)->"];
      && Backward.OpenAt(lines, 0, 4) == Some((0, 0)) && StartsIgnored(lines[0], 4)
      && Forward.CloseAt(lines, 0, 0) == Some((0, 3))
  {
    var line := "(a)->";
    var lines := [line];
    var t := Between(lines, 0, 0, 0, 3);
    assert t == line[0..3] == ['(', 'a', ')'];
    assert Yield(Plain('a', Empty)) == ['a'] == t[1..2] && Proper(Plain('a', Empty));
    assert Enclosed(t);
    Forward.CloseIffEnclosed(lines, 0, 0, 0, 3);
    Backward.OpenIffEnclosed(lines, 0, 2, 0, 0);
    ActAt(line, 5, 4, '>');
    assert Backward.Step(line, 4, []) == Go([]) && Backward.NextIndex(line, 4) == 2;
  }
}
