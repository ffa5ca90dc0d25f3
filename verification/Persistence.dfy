/** Saving the non-volatile variables to bytes and restoring them into an empty table. */
module Persistence {
  import opened Bytes
  import opened Uefi
  import opened VariableMap
  import opened Storage
  import opened Codec

  predicate IsSaved(v: Variable) {
    v != FREE && NonVolatile(v.attrs)
  }

  /** The non-volatile variables of all slots from `i` on but the last, copied in slot order. */
  function Saved(s: seq<Variable>, i: nat): (r: seq<Variable>)
    ensures |r| + i <= |s| - 1 || r == []
    decreases |s| - i
  {
    if i + 1 >= |s| then []
    else (if IsSaved(s[i]) then [Copied(s[i])] else []) + Saved(s, i + 1)
  }

  lemma {:induction false} SavedSkips(s: seq<Variable>, i: nat)
    requires i <= |s|
    ensures Saved(s, i) == Saved(s, NextFrom(s, false, i))
    decreases |s| - i
  {
    if i < |s| && s[i] == FREE {
      SavedSkips(s, i + 1);
    }
  }

  lemma SavedStep(s: seq<Variable>, at: nat, vars: seq<Variable>)
    requires at <= |s|
    ensures var i := NextFrom(s, false, at);
            vars + Saved(s, at)
            == if i + 1 >= |s| then vars
               else (if NonVolatile(s[i].attrs) then vars + [Copied(s[i])] else vars) + Saved(s, i + 1)
  {
    SavedSkips(s, at);
    var i := NextFrom(s, false, at);
    if i + 1 < |s| && NonVolatile(s[i].attrs) {
      assert vars + ([Copied(s[i])] + Saved(s, i + 1)) == (vars + [Copied(s[i])]) + Saved(s, i + 1);
    }
  }

  /** `retrieve_nonvolatile_vars`: one sweep over the table; afterwards the sweep is back at the first slot. */
  method RetrieveNonvolatile(table: VariableTable) returns (vars: seq<Variable>)
    requires table.Valid() && table.iterIndex == 0
    modifies table`iterIndex
    ensures vars == Saved(table.slots[..], 0) && table.iterIndex == 0
  {
    hide Saved, AsMap, TableWell, NonVolatile;
    ghost var s := table.slots[..];
    vars := [];
    while |vars| < MAX_VAR_COUNT
      invariant table.Valid() && table.iterIndex <= |s| && table.slots[..] == s
      invariant Saved(s, 0) == vars + Saved(s, table.iterIndex)
      decreases |s| - table.iterIndex
    {
      SavedStep(s, table.iterIndex, vars);
      var status, v := table.Iter();
      if status == NotFound {
        break;
      }
      if NonVolatile(v.attrs) {
        vars := vars + [Copied(v)];
      }
    }
  }

  // ---- Restoring

  /** Restoring one variable: authenticated ones keep the timestamp they were saved with. */
  function RestoreOne(m: Vars, v: Variable): Outcome {
    if TimeBased(v.attrs) then SetVarWithTimestamp(m, KeyOf(v), v.data, v.attrs, v.timestamp)
    else SetVar(m, KeyOf(v), v.data, v.attrs)
  }

  /** Restoring stops at the first write that does not succeed. */
  function RestoreAll(m: Vars, vars: seq<Variable>): Outcome
    decreases vars
  {
    if vars == [] then Outcome(Success, m)
    else
      var r := RestoreOne(m, vars[0]);
      if r.status != Success then r else RestoreAll(r.vars, vars[1..])
  }

  method Restore(table: VariableTable, vars: seq<Variable>) returns (status: Status)
    requires table.Valid() && forall v <- vars :: WellFormedName(v.name)
    modifies table`total, table`used, table.slots
    ensures table.Valid()
    ensures Outcome(status, table.Contents()) == RestoreAll(old(table.Contents()), vars)
  {
    hide AsMap, TableWell, SetVar, SetVarWithTimestamp;
    status := Success;
    for i := 0 to |vars|
      invariant table.Valid() && status == Success
      invariant RestoreAll(old(table.Contents()), vars) == RestoreAll(table.Contents(), vars[i..])
    {
      var v := vars[i];
      assert v in vars && vars[i..][0] == v && vars[i..][1..] == vars[i + 1..];
      if TimeBased(v.attrs) {
        status := table.SetWithTimestamp(KeyOf(v), v.data, v.attrs, v.timestamp);
      } else {
        status := table.Set(KeyOf(v), v.data, v.attrs);
      }
      if status != Success {
        return;
      }
    }
  }

  /** The non-volatile part of a store, without timestamps and signer digests. */
  function NonVolatilePart(m: Vars): Vars {
    map k | k in m && NonVolatile(m[k].attrs) :: Copied(m[k])
  }

  lemma NonVolatileIsNotZero(attrs: u32)
    requires NonVolatile(attrs)
    ensures attrs != 0
  {
  }

  lemma RestoreOneSaved(m: Vars, v: Variable)
    requires IsSaved(v) && StoredWell(KeyOf(v), v) && KeyOf(v) !in m && |m| < MAX_VAR_COUNT
    ensures RestoreOne(m, Copied(v)) == Outcome(Success, m[KeyOf(v) := Copied(v)])
  {
    NonVolatileIsNotZero(v.attrs);
    var k := KeyOf(v);
    assert Create(k, v.data, ClearAppend(v.attrs)) == Copied(v);
    assert m[k := Copied(v)][k := Copied(v)] == m[k := Copied(v)];
  }

  ghost function AddSaved(m: Vars, v: Variable): Vars {
    if IsSaved(v) then m[KeyOf(v) := Copied(v)] else m
  }

  lemma PrefixWell(s: seq<Variable>, i: nat)
    requires TableWell(s) && i <= |s|
    ensures TableWell(s[..i])
  {
    hide SlotWell;
  }

  lemma NewKey(s: seq<Variable>, i: nat)
    requires TableWell(s) && i < |s| && s[i] != FREE
    ensures KeyOf(s[i]) !in AsMap(s[..i])
  {
    PrefixWell(s, i);
    hide SlotWell, AsMap;
    MappedIffHeld(s[..i], KeyOf(s[i]));
  }

  /** One more slot adds its variable to the non-volatile part, if it is saved. */
  lemma PrefixStep(s: seq<Variable>, i: nat)
    requires TableWell(s) && i < |s|
    ensures NonVolatilePart(AsMap(s[..i + 1])) == AddSaved(NonVolatilePart(AsMap(s[..i])), s[i])
  {
    var t := s[..i + 1];
    assert t[..i] == s[..i] && t[i] == s[i];
    if s[i] != FREE {
      NewKey(s, i);
      AddPart(AsMap(s[..i]), s[i]);
    }
  }

  lemma AddPart(m: Vars, v: Variable)
    requires v != FREE && KeyOf(v) !in m
    ensures NonVolatilePart(m[KeyOf(v) := v]) == AddSaved(NonVolatilePart(m), v)
  {
    hide NonVolatile;
  }

  lemma PartIsSmall(s: seq<Variable>)
    requires TableWell(s)
    ensures |NonVolatilePart(AsMap(s))| <= |s|
  {
    var m := AsMap(s);
    CountIsSize(s);
    hide AsMap, TableWell, NonVolatile;
    var kept := NonVolatilePart(m);
    assert kept.Keys <= m.Keys;
    FewerKeys(kept.Keys, m.Keys);
  }

  lemma {:induction false} FewerKeys(a: set<Key>, b: set<Key>)
    requires a <= b
    ensures |a| <= |b|
  {
    if a != {} {
      var x :| x in a;
      FewerKeys(a - {x}, b - {x});
    }
  }

  /** Restoring what was saved from slot `i` on completes the non-volatile part of all slots but the last. */
  lemma {:induction false} RestoreFrom(s: seq<Variable>, i: nat)
    requires TableWell(s) && i < |s| <= MAX_VAR_COUNT
    ensures RestoreAll(NonVolatilePart(AsMap(s[..i])), Saved(s, i))
            == Outcome(Success, NonVolatilePart(AsMap(s[..|s| - 1])))
    decreases |s| - i
  {
    hide StoredWell, RestoreOne, AsMap, NonVolatilePart;
    if i + 1 < |s| {
      var m := NonVolatilePart(AsMap(s[..i]));
      assert SlotWell(s[i]);
      PrefixStep(s, i);
      RestoreFrom(s, i + 1);
      if IsSaved(s[i]) {
        RestoreSlot(s, i);
        assert Saved(s, i)[0] == Copied(s[i]) && Saved(s, i)[1..] == Saved(s, i + 1);
      } else {
        assert Saved(s, i) == Saved(s, i + 1);
      }
    }
  }

  lemma RestoreSlot(s: seq<Variable>, i: nat)
    requires TableWell(s) && i < |s| <= MAX_VAR_COUNT && IsSaved(s[i])
    ensures var m := NonVolatilePart(AsMap(s[..i]));
            RestoreOne(m, Copied(s[i])) == Outcome(Success, AddSaved(m, s[i]))
  {
    assert SlotWell(s[i]);
    PrefixWell(s, i);
    PartIsSmall(s[..i]);
    NewKey(s, i);
    hide TableWell, AsMap;
    RestoreOneSaved(NonVolatilePart(AsMap(s[..i])), s[i]);
  }

  lemma {:induction false} SavedPrintable(s: seq<Variable>, i: nat)
    requires TableWell(s) && i <= |s|
    ensures forall v <- Saved(s, i) :: Printable(v) && SanitizedName(v.name) == v.name && WellFormedName(v.name)
    decreases |s| - i
  {
    if i + 1 < |s| {
      SavedPrintable(s, i + 1);
      assert SlotWell(s[i]);
      if IsSaved(s[i]) {
        WellFormedNamesAreKept(s[i].name);
      }
    }
  }

  lemma SavedListRoundTrip(s: seq<Variable>)
    requires TableWell(s) && |s| == MAX_VAR_COUNT
    ensures DecodeList(EncodeList(Saved(s, 0)), MAX_VAR_COUNT) == Some(Saved(s, 0))
  {
    SavedPrintable(s, 0);
    hide TableWell, Saved, EncodeList, DecodeList, SanitizedName, DecodeRawList;
    ListRoundTrip(Saved(s, 0), MAX_VAR_COUNT);
  }

  /** What restoring into an empty table yields: the non-volatile part of all slots but the last. */
  lemma RestoreIsPrefix(s: seq<Variable>)
    requires TableWell(s) && 0 < |s| <= MAX_VAR_COUNT
    ensures RestoreAll(map[], Saved(s, 0)) == Outcome(Success, NonVolatilePart(AsMap(s[..|s| - 1])))
  {
    RestoreFrom(s, 0);
    assert s[..0] == [] && NonVolatilePart(map[]) == map[];
  }

  lemma PrefixIsAllIff(s: seq<Variable>)
    requires TableWell(s) && 0 < |s|
    ensures NonVolatilePart(AsMap(s[..|s| - 1])) == NonVolatilePart(AsMap(s)) <==> !IsSaved(s[|s| - 1])
  {
    var last := |s| - 1;
    PrefixStep(s, last);
    assert s[..last + 1] == s;
    if IsSaved(s[last]) {
      NewKey(s, last);
      hide AsMap, TableWell;
      assert KeyOf(s[last]) !in NonVolatilePart(AsMap(s[..last]));
    }
  }

  /**
   Saving a full-size table, printing and parsing the list, and restoring it into an empty table always succeeds.
   It reproduces the non-volatile variables (without timestamps and digests) exactly when the last slot does not
   hold one of them.
   */
  lemma SaveThenRestore(s: seq<Variable>)
    requires TableWell(s) && |s| == MAX_VAR_COUNT
    ensures DecodeList(EncodeList(Saved(s, 0)), MAX_VAR_COUNT) == Some(Saved(s, 0))
    ensures var r := RestoreAll(map[], Saved(s, 0));
            && r.status == Success
            && (r.vars == NonVolatilePart(AsMap(s)) <==> !IsSaved(s[MAX_VAR_COUNT - 1]))
  {
    hide TableWell, Saved, EncodeList, DecodeList, RestoreAll, AsMap, NonVolatilePart, IsSaved;
    SavedListRoundTrip(s);
    RestoreIsPrefix(s);
    PrefixIsAllIff(s);
  }

  // ---- Restoring any list

  /** The variables when the turn of variable `i` comes. */
  function RestoreTurn(m: Vars, vars: seq<Variable>, i: nat): Vars
    requires i <= |vars|
  {
    if i == 0 then m else RestoreOne(RestoreTurn(m, vars, i - 1), vars[i - 1]).vars
  }

  lemma {:induction false} RestoreFromTurn(m: Vars, vars: seq<Variable>, i: nat)
    requires i <= |vars|
    requires forall j :: 0 <= j < i ==> RestoreOne(RestoreTurn(m, vars, j), vars[j]).status == Success
    ensures RestoreAll(m, vars) == RestoreAll(RestoreTurn(m, vars, i), vars[i..])
  {
    hide RestoreOne;
    if i == 0 {
      assert vars[0..] == vars;
    } else {
      RestoreFromTurn(m, vars, i - 1);
      assert vars[i - 1..][0] == vars[i - 1] && vars[i - 1..][1..] == vars[i..];
    }
  }

  /** Restoring succeeds when every write in its turn does, and otherwise ends with the first that does not. */
  lemma RestoreInTurn(m: Vars, vars: seq<Variable>, i: nat)
    requires i <= |vars|
    requires forall j :: 0 <= j < i ==> RestoreOne(RestoreTurn(m, vars, j), vars[j]).status == Success
    ensures i == |vars| ==> RestoreAll(m, vars) == Outcome(Success, RestoreTurn(m, vars, i))
    ensures i < |vars| && RestoreOne(RestoreTurn(m, vars, i), vars[i]).status != Success ==>
              RestoreAll(m, vars) == RestoreOne(RestoreTurn(m, vars, i), vars[i])
  {
    hide RestoreOne, RestoreTurn;
    RestoreFromTurn(m, vars, i);
    if i < |vars| {
      assert vars[i..][0] == vars[i];
    }
  }

  /** A variable a list may carry: a name and data that fit, attributes, and no APPEND among them. */
  predicate Restorable(v: Variable) {
    |v.name| <= MAX_NAME_SIZE && 1 <= |v.data| <= MAX_DATA_SIZE && v.attrs != 0 && !AppendWrite(v.attrs)
  }

  /** What a restored variable is: as listed, its timestamp only if it is authenticated, and no signer. */
  predicate IsRestored(v: Variable, w: Variable) {
    && w.name == v.name && w.guid == v.guid && w.data == v.data && w.attrs == v.attrs && w.cert == ZERO_DIGEST
    && w.timestamp == if TimeBased(v.attrs) then v.timestamp else ZERO_TIME
  }

  lemma RestoreNew(m: Vars, v: Variable)
    requires Restorable(v) && KeyOf(v) !in m && |m| < MAX_VAR_COUNT
    ensures var r := RestoreOne(m, v);
            && r.status == Success && r.vars.Keys == m.Keys + {KeyOf(v)} && IsRestored(v, r.vars[KeyOf(v)])
            && forall k :: k in m ==> r.vars[k] == m[k]
  {
    hide AppendWrite, TimeBased, ClearAppend;
  }

  /**
   Restoring any list of distinct variables into a table with room for them succeeds, stores each of them as listed
   with the timestamp of the authenticated ones, and leaves what was there.
   */
  lemma {:induction false} RestoreStores(m: Vars, vars: seq<Variable>)
    requires |m| + |vars| <= MAX_VAR_COUNT && forall v <- vars :: Restorable(v) && KeyOf(v) !in m
    requires forall i, j :: 0 <= i < j < |vars| ==> KeyOf(vars[i]) != KeyOf(vars[j])
    ensures var r := RestoreAll(m, vars);
            && r.status == Success
            && (forall k :: k in m ==> k in r.vars && r.vars[k] == m[k])
            && (forall i :: 0 <= i < |vars| ==> KeyOf(vars[i]) in r.vars && IsRestored(vars[i], r.vars[KeyOf(vars[i])]))
    decreases |vars|
  {
    hide RestoreOne, Restorable, IsRestored;
    if vars != [] {
      var v := vars[0];
      assert v in vars;
      RestoreNew(m, v);
      var m' := RestoreOne(m, v).vars;
      assert |m'.Keys| == |m.Keys| + 1;
      forall w | w in vars[1..]
        ensures Restorable(w) && KeyOf(w) !in m'
      {
        assert w in vars;
        var j :| 0 <= j < |vars[1..]| && vars[1..][j] == w;
        assert vars[j + 1] == w;
      }
      RestoreStores(m', vars[1..]);
      var r := RestoreAll(m, vars).vars;
      forall i | 0 <= i < |vars|
        ensures KeyOf(vars[i]) in r && IsRestored(vars[i], r[KeyOf(vars[i])])
      {
        if i > 0 {
          assert vars[i] == vars[1..][i - 1];
        }
      }
    }
  }

  // ---- The whole way out and back

  /** `variable_list_bytes` for the non-volatile variables: a buffer of exactly the right size, none if there are none. */
  method VariableListBytes(table: VariableTable) returns (r: Option<bytes>)
    requires table.Valid() && table.iterIndex == 0
    modifies table`iterIndex
    ensures table.iterIndex == 0
    ensures var vars := Saved(table.slots[..], 0); r == if vars == [] then None else Some(EncodeList(vars))
  {
    hide Saved, AsMap, TableWell, EncodeList, EncodeVars;
    var vars := RetrieveNonvolatile(table);
    if vars == [] {
      return None;
    }
    SavedIsShort(table.slots[..]);
    ListParts(vars);
    var size := ListSize(vars);
    var out, code := SerializeVariableList(vars, size);
    return Some(out);
  }

  lemma SavedIsShort(s: seq<Variable>)
    ensures |Saved(s, 0)| <= |s|
  {
  }

  /** The start of a guest from a buffer: nothing happens unless it is a list, and the restoring writes are in order. */
  method RestoreFromBytes(table: VariableTable, buf: bytes) returns (ok: bool, status: Status)
    requires table.Valid()
    requires var vars := DecodeList(buf, MAX_VAR_COUNT); vars.Some? ==> forall v <- vars.value :: WellFormedName(v.name)
    modifies table`total, table`used, table.slots
    ensures table.Valid() && ok == DecodeList(buf, MAX_VAR_COUNT).Some?
    ensures Outcome(status, table.Contents())
            == match DecodeList(buf, MAX_VAR_COUNT)
               case None => Outcome(Success, old(table.Contents()))
               case Some(vars) => RestoreAll(old(table.Contents()), vars)
  {
    hide AsMap, TableWell, DecodeList, RestoreAll, WellFormedName;
    var vars := FromBytesToVars(buf, MAX_VAR_COUNT);
    if vars.None? {
      return false, Success;
    }
    ok := true;
    status := Restore(table, vars.value);
  }

  /**
   The start of a guest from a list saved before it: parsing succeeds, the assertion on every restoring write holds,
   and the table ends up with the non-volatile part of all slots but the last.
   */
  method RestoreSaved(table: VariableTable, buf: bytes, ghost s: seq<Variable>) returns (ok: bool)
    requires table.Valid() && table.Contents() == map[]
    requires TableWell(s) && |s| == MAX_VAR_COUNT && buf == EncodeList(Saved(s, 0))
    modifies table`total, table`used, table.slots
    ensures ok && table.Valid()
    ensures table.Contents() == NonVolatilePart(AsMap(s[..MAX_VAR_COUNT - 1]))
  {
    hide Saved, AsMap, TableWell, EncodeList, DecodeList, RestoreAll, NonVolatilePart, SanitizedName, Printable,
      WellFormedName;
    SavedListRoundTrip(s);
    RestoreIsPrefix(s);
    SavedPrintable(s, 0);
    var status;
    ok, status := RestoreFromBytes(table, buf);
    assert status == Success;
  }
}
