/** GetNextVariableName driven to the end: it visits every variable in sight once, in slot order. */
module Enumeration {
  import opened Uefi
  import opened VariableMap
  import opened Storage

  /** The slots answered when each answer's name is fed back, for at most `calls` calls; a not-found ends the walk. */
  function Walk(s: seq<Variable>, atRuntime: bool, k: Key, calls: nat): seq<nat>
    decreases calls
  {
    if calls == 0 then []
    else
      var i := NextIndex(s, atRuntime, k);
      if i == |s| then [] else [i] + Walk(s, atRuntime, KeyOf(s[i]), calls - 1)
  }

  /** Strictly ascending, all from `low` on, and exactly the occupied slots, at runtime those with runtime access. */
  ghost predicate AllSeenInOrder(s: seq<Variable>, atRuntime: bool, low: nat, r: seq<nat>) {
    && (forall j :: 0 <= j < |r| ==> low <= r[j] < |s|)
    && (forall i, j :: 0 <= i < j < |r| ==> r[i] < r[j])
    && (forall i :: low <= i < |s| ==> (s[i] != FREE && (atRuntime ==> Runtime(s[i].attrs)) <==> i in r))
  }

  lemma {:induction false} AscendingLength(r: seq<nat>, low: nat, high: nat)
    requires low <= high && forall j :: 0 <= j < |r| ==> low <= r[j] < high
    requires forall i, j :: 0 <= i < j < |r| ==> r[i] < r[j]
    ensures |r| <= high - low
  {
    if r != [] {
      AscendingLength(r[1..], r[0] + 1, high);
    }
  }

  /** A visible variable is the first slot found under its own key. */
  lemma FindsItself(s: seq<Variable>, i: nat)
    requires TableWell(s) && i < |s| && s[i] != FREE
    ensures IndexOf(s, KeyOf(s[i]), 0) == i && !FirstUnitIsNul(s[i].name)
  {
    assert SlotWell(s[i]);
    FreeIffNul(s[i]);
    hide StoredWell;
    var r := IndexOf(s, KeyOf(s[i]), 0);
    assert r <= i;
    if r < i {
      assert s[r] != FREE by {
        assert s[r].name == s[i].name != [];
      }
    }
  }

  lemma {:induction false} WalkBehind(s: seq<Variable>, atRuntime: bool, i: nat, calls: nat)
    requires TableWell(s) && i < |s| && s[i] != FREE && calls >= |s| - i
    ensures AllSeenInOrder(s, atRuntime, i + 1, Walk(s, atRuntime, KeyOf(s[i]), calls))
    decreases calls
  {
    hide TableWell, AllSeenInOrder, NextFrom, Walk, Seen;
    WalkStep(s, atRuntime, i, calls);
    var next := NextFrom(s, atRuntime, i + 1);
    if next < |s| {
      SeenIsStored(s, atRuntime, i + 1);
      WalkBehind(s, atRuntime, next, calls - 1);
      WalkCons(s, atRuntime, i + 1, next, Walk(s, atRuntime, KeyOf(s[next]), calls - 1));
    } else {
      NothingSeen(s, atRuntime, i + 1);
    }
  }

  /** One call with the name of slot `i` answers with the next visible slot behind it. */
  lemma WalkStep(s: seq<Variable>, atRuntime: bool, i: nat, calls: nat)
    requires TableWell(s) && i < |s| && s[i] != FREE && calls > 0
    ensures var next := NextFrom(s, atRuntime, i + 1);
            Walk(s, atRuntime, KeyOf(s[i]), calls)
            == if next == |s| then [] else [next] + Walk(s, atRuntime, KeyOf(s[next]), calls - 1)
  {
    FindsItself(s, i);
    hide TableWell, NextFrom, IndexOf;
  }

  lemma SeenIsStored(s: seq<Variable>, atRuntime: bool, low: nat)
    requires low <= |s| && NextFrom(s, atRuntime, low) < |s|
    ensures low <= NextFrom(s, atRuntime, low) && s[NextFrom(s, atRuntime, low)] != FREE
  {
  }

  lemma NothingSeen(s: seq<Variable>, atRuntime: bool, low: nat)
    requires low <= |s| && NextFrom(s, atRuntime, low) == |s|
    ensures AllSeenInOrder(s, atRuntime, low, [])
  {
  }

  lemma WalkCons(s: seq<Variable>, atRuntime: bool, low: nat, next: nat, rest: seq<nat>)
    requires low <= |s| && next == NextFrom(s, atRuntime, low) < |s|
    requires AllSeenInOrder(s, atRuntime, next + 1, rest)
    ensures AllSeenInOrder(s, atRuntime, low, [next] + rest)
  {
    var r := [next] + rest;
    forall i | low <= i < |s|
      ensures Seen(s[i], atRuntime) <==> i in r
    {
      if i > next {
        assert i in r <==> i in rest;
      } else if i < next {
        assert i !in rest;
      }
    }
  }

  /**
   Starting from an empty name, 129 calls visit every variable visible in the current phase exactly once,
   in slot order; the walk then ends with not-found, because it is shorter than 129.
   */
  lemma EnumerationIsComplete(s: seq<Variable>, atRuntime: bool, guid: Guid)
    requires TableWell(s) && |s| == MAX_VAR_COUNT
    ensures var walk := Walk(s, atRuntime, Key([], guid), MAX_VAR_COUNT + 1);
            AllSeenInOrder(s, atRuntime, 0, walk) && |walk| <= MAX_VAR_COUNT
  {
    hide TableWell, Seen, AllSeenInOrder, Walk, NextFrom;
    var next := NextFrom(s, atRuntime, 0);
    WalkFirst(s, atRuntime, guid, MAX_VAR_COUNT + 1);
    if next < |s| {
      SeenIsStored(s, atRuntime, 0);
      WalkBehind(s, atRuntime, next, MAX_VAR_COUNT);
      WalkCons(s, atRuntime, 0, next, Walk(s, atRuntime, KeyOf(s[next]), MAX_VAR_COUNT));
    } else {
      NothingSeen(s, atRuntime, 0);
    }
    OrderedLength(s, atRuntime, Walk(s, atRuntime, Key([], guid), MAX_VAR_COUNT + 1));
  }

  /** The first call, with an empty name, answers with the first visible slot. */
  lemma WalkFirst(s: seq<Variable>, atRuntime: bool, guid: Guid, calls: nat)
    requires calls > 0
    ensures var next := NextFrom(s, atRuntime, 0);
            Walk(s, atRuntime, Key([], guid), calls)
            == if next == |s| then [] else [next] + Walk(s, atRuntime, KeyOf(s[next]), calls - 1)
  {
    hide NextFrom, IndexOf;
  }

  lemma OrderedLength(s: seq<Variable>, atRuntime: bool, r: seq<nat>)
    requires AllSeenInOrder(s, atRuntime, 0, r)
    ensures |r| <= |s|
  {
    AscendingLength(r, 0, |s|);
  }
}
