/** Which requests are turned down from their header, with which status, in terms of attribute masks. */
module Refusals {
  import opened Bytes
  import opened Uefi
  import opened SignatureLists
  import opened SignatureWalks
  import opened Crypto
  import opened VariableMap
  import opened AuthSpec
  import opened AuthProofs

  /** Each attribute is one bit of the attribute word, and clearing APPEND takes 0x40 away. */
  lemma AttributeMasks(a: u32)
    ensures NonVolatile(a) <==> a % 2 == 1
    ensures BootService(a) <==> a / 2 % 2 == 1
    ensures Runtime(a) <==> a / 4 % 2 == 1
    ensures HardwareError(a) <==> a / 8 % 2 == 1
    ensures CounterAuth(a) <==> a / 0x10 % 2 == 1
    ensures TimeBased(a) <==> a / 0x20 % 2 == 1
    ensures AppendWrite(a) <==> a / 0x40 % 2 == 1
    ensures ClearAppend(a) == if a / 0x40 % 2 == 1 then a - 0x40 else a
  {
    BitIs(a, 0);
    BitIs(a, 1);
    BitIs(a, 2);
    BitIs(a, 3);
    BitIs(a, 4);
    BitIs(a, 5);
    BitIs(a, 6);
    ClearedIs(a, 6);
    assert Pow2(6) == 2 * Pow2(5) && Pow2(5) == 2 * Pow2(4) && Pow2(4) == 2 * Pow2(3);
    assert Pow2(3) == 2 * Pow2(2) && Pow2(2) == 2 * Pow2(1) && Pow2(1) == 2 * Pow2(0);
  }

  function Pow2(i: nat): (r: nat)
    ensures r > 0
  {
    if i == 0 then 1 else 2 * Pow2(i - 1)
  }

  lemma DivDiv(a: nat, n: nat)
    requires n > 0
    ensures a / 2 / n == a / (2 * n)
  {
    var q, r := a / 2 / n, a / 2 % n;
    assert a / 2 == q * n + r;
    assert a == 2 * (a / 2) + a % 2;
    var rest := 2 * r + a % 2;
    assert 2 * (q * n) == q * (2 * n);
    assert a == q * (2 * n) + rest && 0 <= rest < 2 * n;
    DivUnique(a, 2 * n, q, rest);
  }

  lemma {:induction false} BitIs(a: nat, i: nat)
    ensures Bit(a, i) <==> a / Pow2(i) % 2 == 1
  {
    if i > 0 {
      BitIs(a / 2, i - 1);
      DivDiv(a, Pow2(i - 1));
    }
  }

  lemma {:induction false} ClearedIs(a: nat, i: nat)
    ensures ClearBit(a, i) == if Bit(a, i) then a - Pow2(i) else a
  {
    if i > 0 {
      ClearedIs(a / 2, i - 1);
    }
  }

  /**
   What is turned down from the header, in order: runtime access without boot-service access is an invalid parameter;
   the five variables the service keeps itself are write-protected; hardware error records are unsupported; both kinds
   of authentication at once are a security violation; counter-based authentication is unsupported. Nothing changes.
   */
  lemma HeaderRefusals(c: Crypto, host: bool, p: Platform, req: Request)
    requires WellFormedName(req.key.name) && req.key.name[0] != 0
    ensures var a, r := req.attrs, SetVariable(c, host, p, req);
            if a / 4 % 2 == 1 && a / 2 % 2 == 0 then r == Step(InvalidParameter, p)
            else if req.key == SECURE_BOOT || req.key == SETUP_MODE || req.key == AUDIT_MODE || req.key == DEPLOYED_MODE
                    || req.key == SIGNATURE_SUPPORT then r == Step(WriteProtected, p)
            else if a / 8 % 2 == 1 then r == Step(Unsupported, p)
            else if a / 0x20 % 2 == 1 && a / 0x10 % 2 == 1 then r == Step(SecurityViolation, p)
            else if a / 0x10 % 2 == 1 then r == Step(Unsupported, p)
            else !RefusedEarly(req)
  {
    hide Bit, Dispatch, SetVar, IsReadOnly, NoNul;
    AttributeMasks(req.attrs);
    Routes(req.key);
  }

  /** A name whose first byte is zero is an invalid parameter. */
  lemma ZeroNameRefused(c: Crypto, host: bool, p: Platform, req: Request)
    requires req.key.name == [] || req.key.name[0] == 0
    ensures SetVariable(c, host, p, req) == Step(InvalidParameter, p)
  {
  }

  /** PK, KEK, db, dbx and dbt must be non-volatile and time-based: anything else is an invalid parameter. */
  lemma DatabaseAttributes(c: Crypto, host: bool, p: Platform, req: Request)
    requires WellFormedName(req.key.name) && IsSecureBootVariable(req.key) && !RefusedEarly(req)
    ensures req.attrs % 2 == 0 || req.attrs / 0x20 % 2 == 0 ==>
              SetVariable(c, host, p, req) == Step(InvalidParameter, p)
  {
    hide Bit, VerifyAndUpdate, UpdateUnverified, UpdateMode, ProcessVariable, NamesPk, NamesKek, NamesDb, EvaluateAttrs,
      NameStartsWithZero, WellFormedName;
    AttributeMasks(req.attrs);
    Routes(req.key);
  }

  /**
   When a plain write succeeds: a delete exactly when the variable is stored; a write over a stored variable exactly
   when there is data, the attributes are the same and the result has at most 32768 bytes; a new variable exactly when
   there is data and fewer than 128 are stored.
   */
  lemma PlainSuccessIff(vars: Vars, k: Key, data: bytes, attrs: u32)
    requires WellFormedName(k.name)
    ensures var append := attrs / 0x40 % 2 == 1;
            SetVar(vars, k, data, attrs).status == Success <==>
            && |data| <= 32768
            && if attrs == 0 || (data == [] && !append) then k in vars
               else if k in vars then
                 && data != [] && vars[k].attrs == (if append then attrs - 0x40 else attrs)
                 && (append ==> |vars[k].data| + |data| <= 32768)
               else data != [] && |vars| < 128
  {
    hide Bit, ClearBit, NoNul;
    AttributeMasks(attrs);
  }

  /**
   How a plain write fails: data over 32768 bytes is out of resources, deleting what is not stored is not found,
   attributes that differ from the stored ones are an invalid parameter, and no data, an append that does not fit or a
   full table is a device error. A write that fails changes nothing.
   */
  lemma PlainFailure(vars: Vars, k: Key, data: bytes, attrs: u32)
    requires WellFormedName(k.name) && SetVar(vars, k, data, attrs).status != Success
    ensures var append, r := attrs / 0x40 % 2 == 1, SetVar(vars, k, data, attrs);
            && r.vars == vars
            && r.status == (if |data| > 32768 then OutOfResources
                            else if attrs == 0 || (data == [] && !append) then NotFound
                            else if k in vars && vars[k].attrs != (if append then attrs - 0x40 else attrs)
                            then InvalidParameter else DeviceError)
  {
    hide Bit, ClearBit, NoNul;
    AttributeMasks(attrs);
  }
}
