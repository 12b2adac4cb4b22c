/** Cleansed source lines, positions in them and the character classes of the
    regular expressions that the scanners use.  White space and word characters
    are the ASCII ones. */
module SourceText {
  predicate IsSpace(c: char) {
    c == ' ' || '\t' <= c <= '\r'
  }

  predicate IsWord(c: char) {
    'a' <= c <= 'z' || 'A' <= c <= 'Z' || '0' <= c <= '9' || c == '_'
  }

  function TrimRight(s: string): string {
    if s != [] && IsSpace(s[|s| - 1]) then TrimRight(s[..|s| - 1]) else s
  }

  function TrimLeft(s: string): string {
    if s != [] && IsSpace(s[0]) then TrimLeft(s[1..]) else s
  }

  /** Python's `str.strip`. */
  function Strip(s: string): string {
    TrimLeft(TrimRight(s))
  }

  /** The part of the text that is left starts and ends with no white space, and only
      white space was cut off. */
  lemma StripKeeps(s: string) returns (i: nat, j: nat)
    ensures i <= j <= |s| && Strip(s) == s[i..j]
    ensures forall k :: 0 <= k < i || j <= k < |s| ==> IsSpace(s[k])
    ensures i < j ==> !IsSpace(s[i]) && !IsSpace(s[j - 1])
  {
    j := TrimRightKeeps(s);
    i := TrimLeftKeeps(s[..j]);
    PartOfPrefix(s, i, j);
  }

  lemma PartOfPrefix(s: string, i: nat, j: nat)
    requires i <= j <= |s|
    ensures s[..j][i..] == s[i..j]
    ensures forall k :: 0 <= k < j ==> s[..j][k] == s[k]
  {
  }

  lemma {:induction false} TrimRightKeeps(s: string) returns (j: nat)
    ensures j <= |s| && TrimRight(s) == s[..j] && forall k :: j <= k < |s| ==> IsSpace(s[k])
    ensures 0 < j ==> !IsSpace(s[j - 1])
  {
    if s != [] && IsSpace(s[|s| - 1]) {
      j := TrimRightKeeps(s[..|s| - 1]);
      assert s[..|s| - 1][..j] == s[..j];
    } else {
      j := |s|;
      assert s[..j] == s;
    }
  }

  lemma {:induction false} TrimLeftKeeps(s: string) returns (i: nat)
    ensures i <= |s| && TrimLeft(s) == s[i..] && forall k :: 0 <= k < i ==> IsSpace(s[k])
    ensures i < |s| ==> !IsSpace(s[i])
  {
    if s != [] && IsSpace(s[0]) {
      i := TrimLeftKeeps(s[1..]);
      assert s[1..][i..] == s[i + 1..];
      i := i + 1;
    } else {
      i := 0;
    }
  }

  /** `Search(r'\boperator\s*$', line[0:n])` */
  predicate OperatorBefore(line: string, n: nat)
    requires n <= |line|
  {
    if n > 0 && IsSpace(line[n - 1]) then OperatorBefore(line, n - 1)
    else
      && n >= 8
      && line[n - 8] == 'o' && line[n - 7] == 'p' && line[n - 6] == 'e' && line[n - 5] == 'r'
      && line[n - 4] == 'a' && line[n - 3] == 't' && line[n - 2] == 'o' && line[n - 1] == 'r'
      && (n == 8 || !IsWord(line[n - 9]))
  }

  /** The word `operator`, and then white space, ends at `n`. */
  ghost predicate FollowsOperator(line: string, n: nat)
    requires n <= |line|
  {
    exists j: nat :: j + 8 <= n && OperatorAt(line, j, n)
  }

  predicate OperatorAt(line: string, j: nat, n: nat)
    requires j + 8 <= n <= |line|
  {
    && line[j..j + 8] == "operator" && (j == 0 || !IsWord(line[j - 1]))
    && forall k :: j + 8 <= k < n ==> IsSpace(line[k])
  }

  lemma Spelled(line: string, j: nat)
    requires j + 8 <= |line|
    ensures line[j..j + 8] == "operator" <==>
      && line[j] == 'o' && line[j + 1] == 'p' && line[j + 2] == 'e' && line[j + 3] == 'r'
      && line[j + 4] == 'a' && line[j + 5] == 't' && line[j + 6] == 'o' && line[j + 7] == 'r'
  {
    var w, t := line[j..j + 8], "operator";
    assert forall k :: 0 <= k < 8 ==> w[k] == line[j + k];
    assert t[0] == 'o' && t[1] == 'p' && t[2] == 'e' && t[3] == 'r';
    assert t[4] == 'a' && t[5] == 't' && t[6] == 'o' && t[7] == 'r';
    if line[j] == 'o' && line[j + 1] == 'p' && line[j + 2] == 'e' && line[j + 3] == 'r'
       && line[j + 4] == 'a' && line[j + 5] == 't' && line[j + 6] == 'o' && line[j + 7] == 'r' {
      assert forall k :: 0 <= k < 8 ==> w[k] == t[k];
    }
  }

  lemma OperatorSpace(line: string, n: nat)
    requires 0 < n <= |line| && IsSpace(line[n - 1])
    ensures FollowsOperator(line, n) <==> FollowsOperator(line, n - 1)
  {
    if FollowsOperator(line, n - 1) {
      var j: nat :| j + 8 <= n - 1 && OperatorAt(line, j, n - 1);
      assert OperatorAt(line, j, n);
    }
    if FollowsOperator(line, n) {
      var j: nat :| j + 8 <= n && OperatorAt(line, j, n);
      Spelled(line, j);
      assert OperatorAt(line, j, n - 1);
    }
  }

  lemma OperatorHere(line: string, n: nat)
    requires 8 <= n <= |line| && !IsSpace(line[n - 1])
    ensures FollowsOperator(line, n) <==> OperatorAt(line, n - 8, n)
  {
    if FollowsOperator(line, n) {
      var j: nat :| j + 8 <= n && OperatorAt(line, j, n);
      assert j + 8 == n;
    }
  }

  /** The search for `operator` finds just that word. */
  lemma {:induction false} OperatorMeans(line: string, n: nat)
    requires n <= |line|
    ensures OperatorBefore(line, n) <==> FollowsOperator(line, n)
  {
    if n > 0 && IsSpace(line[n - 1]) {
      OperatorMeans(line, n - 1);
      OperatorSpace(line, n);
    } else if n >= 8 {
      Spelled(line, n - 8);
      OperatorHere(line, n);
    }
  }

  type Lines = seq<string>

  /** `(l, p)` is a place between two characters of the file. */
  predicate IsPlace(lines: Lines, l: int, p: int) {
    0 <= l < |lines| && 0 <= p <= |lines[l]|
  }

  predicate NotAfter(l: int, p: int, l': int, p': int) {
    l < l' || (l == l' && p <= p')
  }

  /** The characters from `(l, p)` up to `(l', p')`, line ends left out. */
  function Between(lines: Lines, l: int, p: int, l': int, p': int): string
    requires IsPlace(lines, l, p) && IsPlace(lines, l', p') && NotAfter(l, p, l', p')
    decreases l' - l
  {
    if l == l' then lines[l][p..p'] else lines[l][p..] + Between(lines, l + 1, 0, l', p')
  }

  lemma BetweenFirst(lines: Lines, l: int, p: int, l': int, p': int)
    requires IsPlace(lines, l, p) && IsPlace(lines, l', p') && p < |lines[l]|
    requires NotAfter(l, p + 1, l', p')
    ensures Between(lines, l, p, l', p') == [lines[l][p]] + Between(lines, l, p + 1, l', p')
  {
  }

  lemma BetweenLineEnd(lines: Lines, l: int, l': int, p': int)
    requires 0 <= l < l' && IsPlace(lines, l', p')
    ensures Between(lines, l, |lines[l]|, l', p') == Between(lines, l + 1, 0, l', p')
  {
    assert lines[l][|lines[l]|..] == [];
  }

  lemma {:induction false} BetweenLast(lines: Lines, l: int, p: int, l': int, p': int)
    requires IsPlace(lines, l, p) && IsPlace(lines, l', p') && p' < |lines[l']|
    requires NotAfter(l, p, l', p')
    ensures Between(lines, l, p, l', p' + 1) == Between(lines, l, p, l', p') + [lines[l'][p']]
    decreases l' - l
  {
    if l < l' {
      BetweenLast(lines, l + 1, 0, l', p');
    }
  }

  /** The start of a line and the end of the line before are the same place. */
  lemma {:induction false} BetweenLineStart(lines: Lines, l: int, p: int, l': int)
    requires IsPlace(lines, l, p) && IsPlace(lines, l', 0) && l < l'
    ensures Between(lines, l, p, l', 0) == Between(lines, l, p, l' - 1, |lines[l' - 1]|)
    decreases l' - l
  {
    if l + 1 < l' {
      BetweenLineStart(lines, l + 1, 0, l');
    }
  }
}
