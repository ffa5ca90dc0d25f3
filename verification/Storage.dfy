/** The table of 128 variable slots with its counters, refining the finite map of VariableMap. */
module Storage {
  import opened Bytes
  import opened Uefi
  import opened VariableMap

  /** Slots are zeroed or hold a well-formed variable, and no two hold the same key. */
  predicate SlotWell(v: Variable) {
    v == FREE || StoredWell(KeyOf(v), v)
  }

  predicate TableWell(s: seq<Variable>) {
    && (forall i :: 0 <= i < |s| ==> SlotWell(s[i]))
    && (forall i, j :: 0 <= i < j < |s| && s[i] != FREE && s[j] != FREE ==> KeyOf(s[i]) != KeyOf(s[j]))
  }

  /** Slots change in place only: at most the one that held `k`, or else the first free one. */
  predicate OneSlot(s: seq<Variable>, t: seq<Variable>, k: Key) {
    |s| == |t| && forall i :: 0 <= i < |s| && s[i] != t[i] ==> Holds(s, k, i) || IsFirstFree(s, k, i)
  }

  predicate IsFirstFree(s: seq<Variable>, k: Key, i: nat) {
    && i < |s| && s[i] == FREE
    && (forall j :: 0 <= j < i ==> s[j] != FREE)
    && (forall j :: 0 <= j < |s| ==> !Holds(s, k, j))
  }

  /** The variables of a table, by key; in a well-formed table no slot hides another. */
  ghost function AsMap(s: seq<Variable>): Vars {
    if s == [] then map[]
    else
      var m, v := AsMap(s[..|s| - 1]), s[|s| - 1];
      if v == FREE then m else m[KeyOf(v) := v]
  }

  ghost function OccupiedCount(s: seq<Variable>): (n: nat)
    ensures n <= |s|
    ensures n == |s| <==> forall i :: 0 <= i < |s| ==> s[i] != FREE
  {
    if s == [] then 0
    else
      var last := |s| - 1;
      assert s[..last] + [s[last]] == s;
      OccupiedCount(s[..last]) + (if s[last] == FREE then 0 else 1)
  }

  /** Slot `i` holds the variable under `k`. */
  predicate Holds(s: seq<Variable>, k: Key, i: int) {
    0 <= i < |s| && s[i] != FREE && KeyOf(s[i]) == k
  }

  ghost function SlotOf(s: seq<Variable>, k: Key): (i: nat)
    requires k in AsMap(s)
    ensures Holds(s, k, i) && AsMap(s)[k] == s[i]
  {
    var last := |s| - 1;
    if Holds(s, k, last) then last else SlotOf(s[..last], k)
  }

  lemma {:induction false} HeldIsMapped(s: seq<Variable>, k: Key, i: int)
    requires TableWell(s) && Holds(s, k, i)
    ensures k in AsMap(s) && AsMap(s)[k] == s[i]
  {
    var last := |s| - 1;
    if i < last {
      var t := s[..last];
      assert forall j :: 0 <= j < |t| ==> t[j] == s[j];
      HeldIsMapped(t, k, i);
    }
  }

  /** A key is in the map exactly when some slot holds it. */
  lemma MappedIffHeld(s: seq<Variable>, k: Key)
    requires TableWell(s)
    ensures k in AsMap(s) <==> exists i :: Holds(s, k, i)
  {
    if k in AsMap(s) {
      assert Holds(s, k, SlotOf(s, k));
    }
    if i :| Holds(s, k, i) {
      HeldIsMapped(s, k, i);
    }
  }

  // ---- How changing one slot changes the map

  /** Away from the changed slot's keys, both tables hold the same. */
  lemma OtherSlots(s: seq<Variable>, i: nat, v: Variable, k: Key)
    requires i < |s| && TableWell(s) && TableWell(s[i := v])
    requires s[i] == FREE || KeyOf(s[i]) != k
    requires v == FREE || KeyOf(v) != k
    ensures k in AsMap(s) <==> k in AsMap(s[i := v])
    ensures k in AsMap(s) ==> AsMap(s)[k] == AsMap(s[i := v])[k]
  {
    hide StoredWell, AsMap;
    if k in AsMap(s) {
      HeldIsMapped(s[i := v], k, SlotOf(s, k));
    }
    if k in AsMap(s[i := v]) {
      HeldIsMapped(s, k, SlotOf(s[i := v], k));
    }
  }

  lemma WriteSlot(s: seq<Variable>, i: nat, v: Variable)
    requires TableWell(s) && i < |s| && v != FREE && SlotWell(v)
    requires if s[i] == FREE then KeyOf(v) !in AsMap(s) else KeyOf(v) == KeyOf(s[i])
    ensures TableWell(s[i := v]) && AsMap(s[i := v]) == AsMap(s)[KeyOf(v) := v]
  {
    hide StoredWell, AsMap;
    var t := s[i := v];
    forall j | 0 <= j < |s| && j != i && s[j] != FREE
      ensures KeyOf(s[j]) != KeyOf(v)
    {
      HeldIsMapped(s, KeyOf(s[j]), j);
    }
    assert TableWell(t);
    forall k
      ensures k in AsMap(t) <==> k == KeyOf(v) || k in AsMap(s)
      ensures k in AsMap(t) ==> AsMap(t)[k] == AsMap(s)[KeyOf(v) := v][k]
    {
      if k == KeyOf(v) {
        HeldIsMapped(t, k, i);
      } else {
        OtherSlots(s, i, v, k);
      }
    }
  }

  lemma FreeSlot(s: seq<Variable>, i: nat)
    requires TableWell(s) && i < |s| && s[i] != FREE
    ensures TableWell(s[i := FREE]) && AsMap(s[i := FREE]) == AsMap(s) - {KeyOf(s[i])}
  {
    hide StoredWell, AsMap;
    var t, key := s[i := FREE], KeyOf(s[i]);
    forall k
      ensures k in AsMap(t) <==> k != key && k in AsMap(s)
      ensures k in AsMap(t) ==> AsMap(t)[k] == AsMap(s)[k]
    {
      if k == key {
        MappedIffHeld(t, k);
      } else {
        OtherSlots(s, i, FREE, k);
      }
    }
  }

  /** The map has as many entries as there are occupied slots, hence at most one per slot. */
  lemma {:induction false} CountIsSize(s: seq<Variable>)
    requires TableWell(s)
    ensures |AsMap(s)| == OccupiedCount(s)
  {
    if s != [] {
      var last := |s| - 1;
      var t := s[..last];
      hide StoredWell;
      assert forall i :: 0 <= i < |t| ==> t[i] == s[i];
      CountIsSize(t);
      if s[last] != FREE {
        MappedIffHeld(t, KeyOf(s[last]));
      }
    }
  }

  lemma MapIsValid(s: seq<Variable>)
    requires TableWell(s) && |s| <= MAX_VAR_COUNT
    ensures ValidVars(AsMap(s))
  {
    hide AsMap;
    CountIsSize(s);
    forall k | k in AsMap(s)
      ensures StoredWell(k, AsMap(s)[k])
    {
      assert SlotWell(s[SlotOf(s, k)]);
    }
  }

  // ---- The table

  class VariableTable {
    const slots: array<Variable>
    var total: nat
    var used: nat
    var iterIndex: nat

    /** `total` counts the occupied slots and `used` charges each the largest possible variable. */
    ghost predicate Valid()
      reads this, slots
    {
      && slots.Length == MAX_VAR_COUNT
      && TableWell(slots[..])
      && total == |AsMap(slots[..])|
      && used == total * MAX_VARIABLE_SIZE
    }

    ghost function Contents(): Vars
      reads this, slots
    {
      AsMap(slots[..])
    }

    /** The whole state of the table, down to the slot each variable lies in. */
    ghost function State(): (seq<Variable>, nat, nat)
      reads this, slots
    {
      (slots[..], total, used)
    }

    constructor ()
      ensures Valid() && fresh(slots)
      ensures Contents() == map[] && iterIndex == 0
      ensures forall i :: 0 <= i < MAX_VAR_COUNT ==> slots[i] == FREE
    {
      slots := new Variable[MAX_VAR_COUNT](_ => FREE);
      total, used, iterIndex := 0, 0, 0;
      new;
      AllFree(slots[..]);
    }

    /** The slot holding `k`, or the number of slots when there is none. */
    method Find(k: Key) returns (i: nat)
      requires Valid() && k.name != []
      ensures i <= slots.Length && (i < slots.Length <==> k in Contents())
      ensures i < slots.Length ==> Holds(slots[..], k, i) && Contents()[k] == slots[i]
    {
      hide StoredWell, AsMap;
      i := 0;
      while i < slots.Length
        invariant i <= slots.Length
        invariant forall j :: 0 <= j < i ==> !Holds(slots[..], k, j)
      {
        if slots[i].name == k.name && slots[i].guid == k.guid {
          assert Holds(slots[..], k, i);
          HeldIsMapped(slots[..], k, i);
          return;
        }
        i := i + 1;
      }
      MappedIffHeld(slots[..], k);
    }

    method Remove(k: Key) returns (status: Status)
      requires Valid() && WellFormedName(k.name)
      modifies this`total, this`used, slots
      ensures Valid()
      ensures status == if k in old(Contents()) then Success else NotFound
      ensures Contents() == old(Contents()) - {k}
      ensures OneSlot(old(slots[..]), slots[..], k)
      ensures status != Success ==> State() == old(State())
    {
      var i := Find(k);
      hide StoredWell, AsMap;
      if i < slots.Length {
        FreeSlot(slots[..], i);
        RemovedOne(Contents(), k);
        slots[i] := FREE;
        assert slots[..] == old(slots[..])[i := FREE];
        used := used - (MAX_NAME_SIZE + MAX_DATA_SIZE);
        total := total - 1;
        return Success;
      }
      NothingRemoved(Contents(), k);
      return NotFound;
    }

    /** The first slot whose name starts with a NUL code unit; there is none exactly when the table is full. */
    method FirstFree() returns (i: nat)
      requires Valid()
      ensures i <= slots.Length && (i < slots.Length <==> |Contents()| < MAX_VAR_COUNT)
      ensures i < slots.Length ==> slots[i] == FREE && forall j :: 0 <= j < i ==> slots[..][j] != FREE
    {
      CountIsSize(slots[..]);
      hide AsMap;
      i := 0;
      while i < slots.Length
        invariant i <= slots.Length
        invariant forall j :: 0 <= j < i ==> slots[..][j] != FREE
      {
        assert SlotWell(slots[..][i]);
        if FirstUnitIsNul(slots[i].name) {
          FreeIffNul(slots[i]);
          assert slots[..][i] == FREE;
          return;
        }
        i := i + 1;
      }
    }

    /** Overwrites slot `i` with a variable of the same key, or fills it with a new one. */
    method Store(i: nat, v: Variable)
      requires Valid() && i < slots.Length && v != FREE && SlotWell(v)
      requires if slots[i] == FREE then KeyOf(v) !in Contents() else KeyOf(v) == KeyOf(slots[i])
      modifies this`total, this`used, slots
      ensures Valid() && Contents() == old(Contents())[KeyOf(v) := v]
      ensures slots[..] == old(slots[..])[i := v]
    {
      WriteSlot(slots[..], i, v);
      hide StoredWell, AsMap;
      if slots[i] == FREE {
        total := total + 1;
        used := used + (MAX_NAME_SIZE + MAX_DATA_SIZE);
      } else {
        HeldIsMapped(slots[..], KeyOf(v), i);
        SameSize(Contents(), KeyOf(v), v);
      }
      slots[i] := v;
      assert slots[..] == old(slots[..])[i := v];
    }

    /** SetVariable: the map-level write, done on slots; a refused write leaves every slot and counter as it was. */
    method Set(k: Key, data: bytes, attrs: u32) returns (status: Status)
      requires Valid() && WellFormedName(k.name)
      modifies this`total, this`used, slots
      ensures Valid()
      ensures Outcome(status, Contents()) == SetVar(old(Contents()), k, data, attrs)
      ensures OneSlot(old(slots[..]), slots[..], k)
      ensures status != Success ==> State() == old(State())
    {
      UsedIsSmall();
      if |k.name| > MAX_NAME_SIZE || |data| > MAX_DATA_SIZE || |data| + |k.name| + used > MAX_STORAGE_SIZE {
        return OutOfResources;
      }
      var append := AppendWrite(attrs);
      if (data == [] && !append) || attrs == 0 {
        status := Remove(k);
        return;
      }
      var stored := ClearAppend(attrs);
      WellFormedNamesAreKept(k.name);
      var i := Find(k);
      if i < slots.Length {
        if slots[i].attrs != stored {
          return InvalidParameter;
        }
        var (ret, v) := VariableSetData(slots[i].(name := SanitizedName(k.name)), data, append);
        if ret == -2 {
          return OutOfResources;
        } else if ret < 0 {
          return DeviceError;
        }
        assert SlotWell(slots[..][i]);
        Store(i, v.(attrs := stored));
        return Success;
      }
      NothingHeld(slots[..], k);
      i := FirstFree();
      if i < slots.Length && data != [] {
        Store(i, slots[i].(name := SanitizedName(k.name), data := data, guid := k.guid, attrs := stored));
        return Success;
      }
      return DeviceError;
    }

    /** The storage in use is the same charge per stored variable, and leaves room for the largest variable. */
    lemma UsedIsSmall()
      requires Valid()
      ensures used == |Contents()| * MAX_VARIABLE_SIZE
      ensures used + MAX_VARIABLE_SIZE <= MAX_STORAGE_SIZE
    {
      CountIsSize(slots[..]);
    }

    /** SetVariable with a timestamp: the status of the write is replaced by whether the variable is there afterwards. */
    method SetWithTimestamp(k: Key, data: bytes, attrs: u32, time: Time) returns (status: Status)
      requires Valid() && WellFormedName(k.name)
      modifies this`total, this`used, slots
      ensures Valid()
      ensures Outcome(status, Contents()) == SetVarWithTimestamp(old(Contents()), k, data, attrs, time)
      ensures OneSlot(old(slots[..]), slots[..], k)
      ensures status != Success ==> State() == old(State())
    {
      status := Set(k, data, attrs);
      if data == [] || attrs == 0 {
        return;
      }
      ghost var wrote := status == Success;
      hide SetVar;
      var i := Find(k);
      if i == slots.Length {
        if wrote {
          SuccessIsPresent(old(Contents()), k, data, attrs);
        }
        return NotFound;
      }
      assert SlotWell(slots[..][i]);
      SameSlot(old(slots[..]), slots[..], k, i, slots[i].(timestamp := time));
      Store(i, slots[i].(timestamp := time));
      return Success;
    }

    /** Writes the signer digest of a stored variable. */
    method SetCert(k: Key, cert: Digest)
      requires Valid() && WellFormedName(k.name) && k in Contents()
      modifies this`total, this`used, slots
      ensures Valid() && Contents() == old(Contents())[k := old(Contents())[k].(cert := cert)]
      ensures OneSlot(old(slots[..]), slots[..], k)
    {
      var i := Find(k);
      assert SlotWell(slots[..][i]);
      Store(i, slots[i].(cert := cert));
    }

    /** The first slot from `from` on whose variable may be seen in the current phase. */
    method NextSeen(from: nat, atRuntime: bool) returns (i: nat)
      requires Valid() && from <= slots.Length
      ensures i == NextFrom(slots[..], atRuntime, from)
    {
      hide StoredWell, AsMap;
      i := from;
      while i < slots.Length
        invariant from <= i <= slots.Length
        invariant NextFrom(slots[..], atRuntime, from) == NextFrom(slots[..], atRuntime, i)
      {
        assert SlotWell(slots[..][i]);
        FreeIffNul(slots[i]);
        if !FirstUnitIsNul(slots[i].name) && slots[i].name != [] && !(atRuntime && !Runtime(slots[i].attrs)) {
          return;
        }
        i := i + 1;
      }
    }

    /** GetNextVariableName: the slot of the answer, or the number of slots when there is no next variable. */
    method NextVariable(k: Key, atRuntime: bool) returns (i: nat)
      requires Valid()
      ensures i == NextIndex(slots[..], atRuntime, k)
    {
      hide StoredWell;
      if FirstUnitIsNul(k.name) {
        if total == 0 {
          EmptyTable(slots[..], atRuntime, 0);
          return slots.Length;
        }
        i := NextSeen(0, atRuntime);
        return;
      }
      hide AsMap;
      i := 0;
      while i < slots.Length
        invariant i <= slots.Length
        invariant IndexOf(slots[..], k, 0) == IndexOf(slots[..], k, i)
      {
        if slots[i].name == k.name && slots[i].guid == k.guid {
          break;
        }
        i := i + 1;
      }
      if i + 1 >= slots.Length {
        return slots.Length;
      }
      i := NextSeen(i + 1, atRuntime);
    }

    /**
     One step of the sweep over all variables. The variable in the last slot is copied but never yielded:
     reaching the end of the table is reported instead.
     */
    method Iter() returns (status: Status, v: Variable)
      requires Valid() && iterIndex <= slots.Length
      modifies this`iterIndex
      ensures iterIndex <= slots.Length
      ensures var i := NextFrom(slots[..], false, old(iterIndex));
              if i + 1 < slots.Length
              then status == Success && v == Copied(slots[i]) && iterIndex == i + 1
              else status == NotFound && iterIndex == 0
    {
      hide StoredWell, AsMap;
      v := FREE;
      while iterIndex < slots.Length
        invariant old(iterIndex) <= iterIndex <= slots.Length
        invariant NextFrom(slots[..], false, old(iterIndex)) == NextFrom(slots[..], false, iterIndex)
      {
        var p := slots[iterIndex];
        assert SlotWell(slots[..][iterIndex]);
        FreeIffNul(p);
        iterIndex := iterIndex + 1;
        if FirstUnitIsNul(p.name) || p.name == [] {
          continue;
        }
        v := Copied(p);
        break;
      }
      if iterIndex >= slots.Length {
        iterIndex := 0;
        return NotFound, v;
      }
      return Success, v;
    }
  }

  /** `variable_copy`: timestamp and signer digest are not copied. */
  function Copied(v: Variable): Variable {
    v.(timestamp := ZERO_TIME, cert := ZERO_DIGEST)
  }

  /** A variable the guest may see: at runtime only those with runtime access. */
  predicate Seen(v: Variable, atRuntime: bool) {
    v != FREE && (atRuntime ==> Runtime(v.attrs))
  }

  function NextFrom(s: seq<Variable>, atRuntime: bool, i: nat): (r: nat)
    requires i <= |s|
    ensures i <= r <= |s| && (r < |s| ==> Seen(s[r], atRuntime))
    ensures forall j :: i <= j < r ==> !Seen(s[j], atRuntime)
    decreases |s| - i
  {
    if i == |s| || Seen(s[i], atRuntime) then i else NextFrom(s, atRuntime, i + 1)
  }

  function IndexOf(s: seq<Variable>, k: Key, i: nat): (r: nat)
    requires i <= |s|
    ensures i <= r <= |s| && (r < |s| ==> KeyOf(s[r]) == k)
    ensures forall j :: i <= j < r ==> KeyOf(s[j]) != k
    decreases |s| - i
  {
    if i == |s| || KeyOf(s[i]) == k then i else IndexOf(s, k, i + 1)
  }

  /** The slot GetNextVariableName answers with: the first one seen, or the first one seen behind the named variable. */
  function NextIndex(s: seq<Variable>, atRuntime: bool, k: Key): (r: nat)
    ensures r <= |s| && (r < |s| ==> Seen(s[r], atRuntime))
  {
    if FirstUnitIsNul(k.name) then NextFrom(s, atRuntime, 0)
    else if IndexOf(s, k, 0) + 1 >= |s| then |s|
    else NextFrom(s, atRuntime, IndexOf(s, k, 0) + 1)
  }

  // ---- Names that end in a NUL code unit

  predicate EndsInNul(name: bytes)
    requires |name| >= 2
  {
    name[|name| - 2] == 0 && name[|name| - 1] == 0
  }

  /** What is stored for a name that was not found: the variable under the name without its trailing NUL. */
  function Stored(name: bytes, guid: Guid, data: bytes, attrs: u32): Variable {
    Create(Key(SanitizedName(name), guid), data, attrs)
  }

  /**
   Writing a variable that was not found into a free slot: it is found again under its name exactly when the name does
   not end in NUL, and keys stay unique exactly when no slot held the key it is stored under.
   */
  lemma FoundAgainIff(s: seq<Variable>, i: nat, name: bytes, guid: Guid, data: bytes, attrs: u32)
    requires TableWell(s) && i < |s| && s[i] == FREE && IndexOf(s, Key(name, guid), 0) == |s|
    requires |name| >= 2 && |name| % 2 == 0 && WellFormedName(SanitizedName(name))
    requires 1 <= |data| <= MAX_DATA_SIZE && !AppendWrite(attrs)
    ensures var v := Stored(name, guid, data, attrs);
            && (IndexOf(s[i := v], Key(name, guid), 0) < |s| <==> !EndsInNul(name))
            && (TableWell(s[i := v]) <==> KeyOf(v) !in AsMap(s))
  {
    hide SanitizedName, NoNul, AppendWrite, IndexOf, EndsInNul, AsMap;
    StoredKey(name);
    var v := Stored(name, guid, data, attrs);
    var t, k := s[i := v], Key(name, guid);
    assert t[i] == v && v != FREE && SlotWell(v);
    if KeyOf(v) !in AsMap(s) {
      WriteSlot(s, i, v);
    } else {
      var j := SlotOf(s, KeyOf(v));
      assert t[j] == s[j] && KeyOf(t[j]) == KeyOf(t[i]);
    }
    var r := IndexOf(t, k, 0);
    assert r < |t| ==> r == i;
    assert r == |t| ==> KeyOf(t[i]) != k;
  }

  lemma StoredKey(name: bytes)
    requires |name| >= 2 && |name| % 2 == 0
    ensures SanitizedName(name) == name <==> !EndsInNul(name)
    ensures EndsInNul(name) ==> SanitizedName(name) == name[..|name| - 2]
  {
  }

  /** A name with a NUL behind it is never found, and what is written under it lies under the key without the NUL. */
  lemma TrailingNulMisses(s: seq<Variable>, k: Key, data: bytes, attrs: u32)
    requires TableWell(s) && WellFormedName(k.name)
    ensures IndexOf(s, Key(k.name + [0, 0], k.guid), 0) == |s|
    ensures KeyOf(Stored(k.name + [0, 0], k.guid, data, attrs)) == k
  {
    hide SanitizedName, NoNul, AppendWrite, IndexOf, TableWell;
    LongName(k.name);
    var i := IndexOf(s, Key(k.name + [0, 0], k.guid), 0);
    if i < |s| {
      NameIsKept(s, i);
    }
  }

  lemma LongName(name: bytes)
    requires |name| >= 2 && |name| % 2 == 0
    ensures SanitizedName(name + [0, 0]) == name && name + [0, 0] != []
  {
    hide SanitizedName;
    var long := name + [0, 0];
    assert |long| % 2 == 0;
    StoredKey(long);
    assert long[..|long| - 2] == name;
  }

  lemma NameIsKept(s: seq<Variable>, i: nat)
    requires TableWell(s) && i < |s|
    ensures s[i].name == [] || SanitizedName(s[i].name) == s[i].name
  {
    hide SanitizedName, NoNul;
    assert SlotWell(s[i]);
    if s[i] != FREE {
      WellFormedNamesAreKept(s[i].name);
    }
  }

  lemma EmptyTable(s: seq<Variable>, atRuntime: bool, i: nat)
    requires TableWell(s) && |AsMap(s)| == 0 && i <= |s|
    ensures NextFrom(s, atRuntime, i) == |s|
  {
    hide StoredWell, AsMap;
    var r := NextFrom(s, atRuntime, i);
    if r < |s| {
      HeldIsMapped(s, KeyOf(s[r]), r);
    }
  }

  lemma NothingHeld(s: seq<Variable>, k: Key)
    requires TableWell(s) && k !in AsMap(s)
    ensures forall j :: 0 <= j < |s| ==> !Holds(s, k, j)
  {
    hide StoredWell, AsMap;
    MappedIffHeld(s, k);
  }

  /** A second write to the same variable goes to the same slot. */
  lemma SameSlot(s: seq<Variable>, t: seq<Variable>, k: Key, i: nat, v: Variable)
    requires OneSlot(s, t, k) && Holds(t, k, i)
    ensures OneSlot(s, t[i := v], k)
  {
    hide StoredWell;
    if s[i] == t[i] {
      assert Holds(s, k, i);
    }
  }

  lemma SuccessIsPresent(m: Vars, k: Key, data: bytes, attrs: u32)
    requires data != [] && attrs != 0 && SetVar(m, k, data, attrs).status == Success
    ensures k in SetVar(m, k, data, attrs).vars
  {
  }

  predicate FirstUnitIsNul(name: bytes) {
    (|name| >= 1 ==> name[0] == 0) && (|name| >= 2 ==> name[1] == 0)
  }

  lemma FreeIffNul(v: Variable)
    requires SlotWell(v)
    ensures FirstUnitIsNul(v.name) <==> v == FREE
  {
    if v != FREE {
      assert !(v.name[2 * 0] == 0 && v.name[2 * 0 + 1] == 0);
    }
  }

  lemma SameSize(m: Vars, k: Key, v: Variable)
    requires k in m
    ensures |m[k := v]| == |m|
  {
    assert m[k := v].Keys == m.Keys;
  }

  lemma {:induction false} AllFree(s: seq<Variable>)
    requires forall i :: 0 <= i < |s| ==> s[i] == FREE
    ensures TableWell(s) && AsMap(s) == map[]
  {
    if s != [] {
      AllFree(s[..|s| - 1]);
    }
  }

  lemma RemovedOne(m: Vars, k: Key)
    requires k in m
    ensures |m - {k}| == |m| - 1
  {
    assert (m - {k}).Keys == m.Keys - {k};
  }

  lemma NothingRemoved(m: Vars, k: Key)
    requires k !in m
    ensures m - {k} == m
  {
  }
}
