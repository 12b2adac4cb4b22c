/** The include-order automaton `_IncludeState.CheckNextIncludeOrder`. */
module IncludeOrder {
  datatype Header = CSystem | CppSystem | OtherSystem | LikelyMine | PossiblyMine | Other

  // Sections, in the order in which they may come.
  const INITIAL := 0
  const MY_H := 1
  const C := 2
  const CPP := 3
  const OTHER_SYS := 4
  const OTHER_H := 5

  predicate IsSystem(h: Header) {
    h.CSystem? || h.CppSystem? || h.OtherSystem?
  }

  predicate IsMine(h: Header) {
    h.LikelyMine? || h.PossiblyMine?
  }

  function SectionOf(h: Header): int {
    match h
    case CSystem => C
    case CppSystem => CPP
    case OtherSystem => OTHER_SYS
    case LikelyMine => MY_H
    case PossiblyMine => MY_H
    case Other => OTHER_H
  }

  /** The earlier include `history[k]` forbids a later system header of the given section. */
  ghost predicate Forbids(history: seq<Header>, k: nat, section: int)
    requires k < |history|
  {
    var h := history[k];
    || (IsSystem(h) && SectionOf(h) > section)
    || h == Other
    || (IsMine(h) && exists j :: 0 <= j < k && !IsMine(history[j]))
  }

  /** The earlier include `history[k]` may not come before the system header: it is one of a
      later kind of system header, or any other header, or one of the file's own headers
      that is itself out of place. */
  ghost predicate TooLateFor(history: seq<Header>, k: nat, header: Header)
    requires k < |history|
  {
    var h := history[k];
    || (header == CSystem && (h == CppSystem || h == OtherSystem))
    || (header == CppSystem && h == OtherSystem)
    || h == Other
    || ((h == LikelyMine || h == PossiblyMine) && exists j :: 0 <= j < k && !IsMine(history[j]))
  }

  /** The section reached after the includes of `history` since the last reset. */
  ghost predicate Reached(history: seq<Header>, section: int) {
    && INITIAL <= section <= OTHER_H
    && (section <= MY_H <==> forall k :: 0 <= k < |history| ==> IsMine(history[k]))
    && (section == INITIAL <==> history == [])
    && Decided(history, section, C) && Decided(history, section, CPP) && Decided(history, section, OTHER_SYS)
  }

  /** The section has passed `s` exactly when an include forbids a header of section `s`. */
  ghost predicate Decided(history: seq<Header>, section: int, s: int) {
    section > s <==> exists k :: 0 <= k < |history| && Forbids(history, k, s)
  }

  datatype Directive = OpensConditional | StartsBranch | OtherDirective

  /** An include that was seen: the header and its line. */
  datatype Include = Include(header: string, line: nat)

  /** The include at `(s, k)` is the first of its header. */
  ghost predicate FirstOf(list: seq<seq<Include>>, header: string, s: nat, k: nat) {
    && s < |list| && k < |list[s]| && list[s][k].header == header
    && NotIn(list, header, s) && forall j :: 0 <= j < k ==> list[s][j].header != header
  }

  /** None of the first `n` sections has the header. */
  ghost predicate NotIn(list: seq<seq<Include>>, header: string, n: nat) {
    forall s :: 0 <= s < n && s < |list| ==> NotInSection(list[s], header)
  }

  ghost predicate NotInSection(section: seq<Include>, header: string) {
    forall k :: 0 <= k < |section| ==> section[k].header != header
  }

  class IncludeState {
    var section: int
    var lastHeader: string
    var includeList: seq<seq<Include>>
    ghost var history: seq<Header>

    ghost predicate Valid()
      reads this
    {
      Reached(history, section) && includeList != []
    }

    constructor ()
      ensures Valid() && history == [] && includeList == [[]]
    {
      section, lastHeader, history, includeList := INITIAL, "", [], [[]];
    }

    /** The line of the first include of the header, or -1. */
    method FindHeader(header: string) returns (line: int)
      ensures line == -1 <==> NotIn(includeList, header, |includeList|)
      ensures line != -1 ==> exists s: nat, k: nat ::
        FirstOf(includeList, header, s, k) && includeList[s][k].line == line
    {
      for s := 0 to |includeList|
        invariant NotIn(includeList, header, s)
      {
        var section := includeList[s];
        for k := 0 to |section|
          invariant forall j :: 0 <= j < k ==> section[j].header != header
        {
          if section[k].header == header {
            assert FirstOf(includeList, header, s, k) && !NotInSection(section, header);
            return section[k].line;
          }
        }
      }
      return -1;
    }

    /** Order checking starts afresh.  A new conditional gets a list of its own, and a new
        branch forgets the includes of the branch before; no list is ever dropped. */
    method ResetSection(directive: Directive)
      requires includeList != []
      modifies this
      ensures Valid() && history == [] && lastHeader == ""
      ensures
        var lists, n := old(includeList), |old(includeList)| - 1;
        match directive
        case OpensConditional => includeList == lists + [[]]
        case StartsBranch => includeList == lists[n := []]
        case OtherDirective => includeList == lists
    {
      section, lastHeader, history := INITIAL, "", [];
      if directive == OpensConditional {
        includeList := includeList + [[]];
      } else if directive == StartsBranch {
        includeList := includeList[|includeList| - 1 := []];
      }
    }

    /** An include is flagged exactly when it is a system header and an earlier one
        forbids it; the section never goes back. */
    method CheckNextIncludeOrder(header: Header) returns (flagged: bool)
      requires Valid()
      modifies this
      ensures Valid() && history == old(history) + [header] && includeList == old(includeList)
      ensures section >= old(section)
      ensures flagged <==> IsSystem(header) && exists k ::
        0 <= k < |old(history)| && Forbids(old(history), k, SectionOf(header))
      ensures flagged <==> IsSystem(header) && exists k ::
        0 <= k < |old(history)| && TooLateFor(old(history), k, header)
      ensures lastHeader == if flagged || section != old(section) then "" else old(lastHeader)
    {
      var lastSection := section;
      flagged := false;
      match header {
      case CSystem =>
        if section <= C { section := C; } else { flagged := true; }
      case CppSystem =>
        if section <= CPP { section := CPP; } else { flagged := true; }
      case OtherSystem =>
        if section <= OTHER_SYS { section := OTHER_SYS; } else { flagged := true; }
      case LikelyMine =>
        section := if section <= MY_H then MY_H else OTHER_H;
      case PossiblyMine =>
        section := if section <= MY_H then MY_H else OTHER_H;
      case Other =>
        section := OTHER_H;
      }
      if flagged || lastSection != section {
        lastHeader := "";
      }
      assert IsSystem(header) ==> Decided(history, lastSection, SectionOf(header));
      if IsSystem(header) {
        SameVerdict(history, header);
      }
      NextReached(history, lastSection, header, section);
      history := history + [header];
    }
  }

  lemma SameVerdict(history: seq<Header>, header: Header)
    requires IsSystem(header)
    ensures (exists k :: 0 <= k < |history| && Forbids(history, k, SectionOf(header)))
            <==> exists k :: 0 <= k < |history| && TooLateFor(history, k, header)
  {
    forall k | 0 <= k < |history| ensures Forbids(history, k, SectionOf(header)) <==> TooLateFor(history, k, header) {
    }
    if k :| 0 <= k < |history| && Forbids(history, k, SectionOf(header)) {
      assert TooLateFor(history, k, header);
    }
    if k :| 0 <= k < |history| && TooLateFor(history, k, header) {
      assert Forbids(history, k, SectionOf(header));
    }
  }

  lemma ForbidsKept(history: seq<Header>, header: Header, k: nat, s: int)
    requires k < |history|
    ensures Forbids(history + [header], k, s) <==> Forbids(history, k, s)
  {
    var more := history + [header];
    if IsMine(history[k]) {
      if j :| 0 <= j < k && !IsMine(more[j]) {
        assert !IsMine(history[j]);
      }
      if j :| 0 <= j < k && !IsMine(history[j]) {
        assert !IsMine(more[j]);
      }
    }
  }

  lemma NextReached(history: seq<Header>, section: int, header: Header, next: int)
    requires Reached(history, section) && Follows(section, header, next)
    ensures Reached(history + [header], next)
  {
    var more, n := history + [header], |history|;
    assert more[n] == header;
    assert (forall k :: 0 <= k < |more| ==> IsMine(more[k])) <==>
      (forall k :: 0 <= k < n ==> IsMine(history[k])) && IsMine(header) by {
      assert forall k :: 0 <= k < n ==> more[k] == history[k];
    }
    NextDecided(history, section, header, next, C);
    NextDecided(history, section, header, next, CPP);
    NextDecided(history, section, header, next, OTHER_SYS);
  }

  predicate Follows(section: int, header: Header, next: int) {
    next ==
      if IsSystem(header) then if section <= SectionOf(header) then SectionOf(header) else section
      else if IsMine(header) && section <= MY_H then MY_H
      else OTHER_H
  }

  lemma NextDecided(history: seq<Header>, section: int, header: Header, next: int, s: int)
    requires Reached(history, section) && Decided(history, section, s) && C <= s <= OTHER_SYS
    requires Follows(section, header, next)
    ensures Decided(history + [header], next, s)
  {
    var more, n := history + [header], |history|;
    if section > s {
      var k :| 0 <= k < n && Forbids(history, k, s);
      ForbidsKept(history, header, k, s);
    } else {
      forall k | 0 <= k < n ensures !Forbids(more, k, s) {
        ForbidsKept(history, header, k, s);
      }
      LastForbids(history, section, header, s);
      assert Forbids(more, n, s) <==> exists k :: 0 <= k < |more| && Forbids(more, k, s);
    }
  }

  lemma LastForbids(history: seq<Header>, section: int, header: Header, s: int)
    requires Reached(history, section)
    ensures Forbids(history + [header], |history|, s) <==>
      (IsSystem(header) && SectionOf(header) > s) || header == Other || (IsMine(header) && section > MY_H)
  {
    var more, n := history + [header], |history|;
    if IsMine(header) {
      if section > MY_H {
        var j :| 0 <= j < n && !IsMine(history[j]);
        assert !IsMine(more[j]);
      } else {
        assert forall j :: 0 <= j < n ==> more[j] == history[j];
      }
    }
  }
}
