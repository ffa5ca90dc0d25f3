/** The variable store as a finite map from keys to variables: what the slot table is proved to refine. */
module VariableMap {
  import opened Bytes
  import opened Uefi

  datatype Variable = Variable(
    name: bytes, guid: Guid, data: bytes, attrs: u32, timestamp: Time, cert: Digest)

  /** A zeroed slot. */
  const FREE := Variable([], ZERO_GUID, [], 0, ZERO_TIME, ZERO_DIGEST)

  function KeyOf(v: Variable): Key {
    Key(v.name, v.guid)
  }

  type Vars = map<Key, Variable>

  datatype Outcome = Outcome(status: Status, vars: Vars)

  function Create(k: Key, data: bytes, attrs: u32): Variable {
    Variable(k.name, k.guid, data, attrs, ZERO_TIME, ZERO_DIGEST)
  }

  /** Every stored variable lies under its own key, has a well-formed name and data that fits, and never carries APPEND. */
  predicate StoredWell(k: Key, v: Variable) {
    && KeyOf(v) == k
    && WellFormedName(v.name)
    && 1 <= |v.data| <= MAX_DATA_SIZE
    && !AppendWrite(v.attrs)
  }

  predicate ValidVars(m: Vars) {
    |m| <= MAX_VAR_COUNT && forall k :: k in m ==> StoredWell(k, m[k])
  }

  /** What one write does to the variable it names. */
  datatype Effect = Refuse(status: Status) | Delete | Put(v: Variable)

  function Apply(m: Vars, k: Key, e: Effect): Outcome {
    match e
    case Refuse(status) => Outcome(status, m)
    case Delete => Outcome(Success, m - {k})
    case Put(v) => Outcome(Success, m[k := v])
  }

  /** Writing over an existing variable: the attributes must match, and an append must fit. */
  function OverwriteEffect(v: Variable, data: bytes, attrs: u32): Effect {
    if v.attrs != ClearAppend(attrs) then Refuse(InvalidParameter)
    else if data == [] then Refuse(DeviceError)
    else if !AppendWrite(attrs) then Put(v.(data := data))
    else if |v.data| + |data| > MAX_DATA_SIZE then Refuse(DeviceError)
    else Put(v.(data := v.data + data))
  }

  function SetEffect(m: Vars, k: Key, data: bytes, attrs: u32): Effect {
    if |k.name| > MAX_NAME_SIZE || |data| > MAX_DATA_SIZE then Refuse(OutOfResources)
    else if (data == [] && !AppendWrite(attrs)) || attrs == 0 then
      if k in m then Delete else Refuse(NotFound)
    else if k in m then OverwriteEffect(m[k], data, attrs)
    else if data == [] || |m| >= MAX_VAR_COUNT then Refuse(DeviceError)
    else Put(Create(k, data, ClearAppend(attrs)))
  }

  // ---- Setting the parts of one variable

  /** A trailing NUL code unit is left out of a stored name. */
  function SanitizedName(name: bytes): bytes {
    if |name| >= 2 && name[|name| / 2 * 2 - 2] == 0 && name[|name| / 2 * 2 - 1] == 0
    then name[..|name| - 2] else name
  }

  lemma WellFormedNamesAreKept(name: bytes)
    requires WellFormedName(name)
    ensures SanitizedName(name) == name
  {
    assert !(name[2 * (|name| / 2 - 1)] == 0 && name[2 * (|name| / 2 - 1) + 1] == 0);
  }

  const ENOMEM: int := 12

  /** The new data of a variable with a zero return code, or the variable unchanged with a negative one. */
  function VariableSetData(v: Variable, data: bytes, append: bool): (int, Variable) {
    if data == [] then (-1, v)
    else if |data| > MAX_DATA_SIZE then (-2, v)
    else if !append then (0, v.(data := data))
    else if |v.data| + |data| > MAX_DATA_SIZE then (-ENOMEM, v)
    else (0, v.(data := v.data + data))
  }

  /** SetVariable without authentication. */
  function SetVar(m: Vars, k: Key, data: bytes, attrs: u32): Outcome {
    Apply(m, k, SetEffect(m, k, data, attrs))
  }

  /**
   SetVariable that also records a timestamp. The status of the write itself is lost: whenever the variable
   exists afterwards the timestamp is stored and success is reported, even if the write was refused.
   */
  function SetVarWithTimestamp(m: Vars, k: Key, data: bytes, attrs: u32, time: Time): Outcome {
    var r := SetVar(m, k, data, attrs);
    if data == [] || attrs == 0 then r
    else if k in r.vars then Outcome(Success, r.vars[k := r.vars[k].(timestamp := time)])
    else Outcome(NotFound, r.vars)
  }

  lemma PutFrame(m: Vars, k: Key, v: Variable)
    requires ValidVars(m) && StoredWell(k, v) && (k in m || |m| < MAX_VAR_COUNT)
    ensures ValidVars(m[k := v]) && m[k := v] - {k} == m - {k}
  {
    hide StoredWell;
    if k in m {
      assert m[k := v].Keys == m.Keys;
    }
  }

  lemma DropFrame(m: Vars, k: Key)
    requires ValidVars(m)
    ensures ValidVars(m - {k}) && m - {k} - {k} == m - {k}
    ensures k in m ==> |m - {k}| == |m| - 1
  {
    hide StoredWell;
    assert (m - {k}).Keys == m.Keys - {k};
    if k !in m {
      assert m - {k} == m;
    }
  }

  lemma EffectWell(m: Vars, k: Key, data: bytes, attrs: u32)
    requires ValidVars(m) && WellFormedName(k.name)
    ensures match SetEffect(m, k, data, attrs)
            case Refuse(status) => status != Success
            case Delete => k in m
            case Put(v) => StoredWell(k, v) && (k in m || |m| < MAX_VAR_COUNT)
  {
  }

  /** A write touches no other key, keeps the store valid, and changes nothing unless it succeeds. */
  lemma SetVarFrame(m: Vars, k: Key, data: bytes, attrs: u32)
    requires ValidVars(m) && WellFormedName(k.name)
    ensures var r := SetVar(m, k, data, attrs);
            && ValidVars(r.vars)
            && (r.status != Success ==> r.vars == m)
            && r.vars - {k} == m - {k}
  {
    EffectWell(m, k, data, attrs);
    var e := SetEffect(m, k, data, attrs);
    hide SetEffect, ValidVars, StoredWell, WellFormedName;
    match e
    case Refuse(_) =>
    case Delete => DropFrame(m, k);
    case Put(v) => PutFrame(m, k, v);
  }

  /** A write of data leaves its variable stored, unless it was refused. */
  lemma AbsentMeansRefused(m: Vars, k: Key, data: bytes, attrs: u32)
    requires data != [] && attrs != 0 && k !in SetVar(m, k, data, attrs).vars
    ensures SetVar(m, k, data, attrs).vars == m
  {
  }

  lemma SetVarWithTimestampFrame(m: Vars, k: Key, data: bytes, attrs: u32, time: Time)
    requires ValidVars(m) && WellFormedName(k.name)
    ensures var r := SetVarWithTimestamp(m, k, data, attrs, time);
            && ValidVars(r.vars)
            && (r.status != Success ==> r.vars == m)
            && r.vars - {k} == m - {k}
  {
    hide SetVar, NoNul, AppendWrite, WellFormedName;
    SetVarFrame(m, k, data, attrs);
    var r := SetVar(m, k, data, attrs);
    if k in r.vars {
      var v := r.vars[k].(timestamp := time);
      assert StoredWell(k, v);
      PutFrame(r.vars, k, v);
    } else if data != [] && attrs != 0 {
      AbsentMeansRefused(m, k, data, attrs);
    }
  }

  /**
   When a reported success hides a refused write: over a stored variable the write with a timestamp always reports
   success, and is refused exactly when the attributes differ or an append does not fit; then only the timestamp moves.
   */
  lemma HiddenRefusalIff(m: Vars, k: Key, data: bytes, attrs: u32, time: Time)
    requires k in m && data != [] && attrs != 0 && |k.name| <= MAX_NAME_SIZE && |data| <= MAX_DATA_SIZE
    ensures SetVarWithTimestamp(m, k, data, attrs, time).status == Success
    ensures SetVar(m, k, data, attrs).status != Success <==>
            m[k].attrs != ClearAppend(attrs) || (AppendWrite(attrs) && |m[k].data| + |data| > MAX_DATA_SIZE)
    ensures SetVar(m, k, data, attrs).status != Success ==>
              SetVarWithTimestamp(m, k, data, attrs, time).vars == m[k := m[k].(timestamp := time)]
  {
    hide AppendWrite, ClearAppend;
  }

  /** Agreeing off one key is agreeing at every other key. */
  lemma SameElsewhere(m: Vars, m': Vars, k: Key, other: Key)
    requires m - {k} == m' - {k} && other != k
    ensures other in m <==> other in m'
    ensures other in m ==> m[other] == m'[other]
  {
    assert other in m - {k} <==> other in m;
    assert other in m' - {k} <==> other in m';
  }
}
