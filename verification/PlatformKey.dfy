/** How many entries the stored platform key has. */
module PlatformKey {
  import opened Bytes
  import opened Uefi
  import opened SignatureLists
  import opened SignatureWalks
  import opened Crypto
  import opened VariableMap
  import opened AuthSpec
  import opened AuthProofs
  import opened PlatformSteps
  import opened VariableHistory
  import opened SignedWrites

  function Entries(s: bytes): nat
    requires Complete(s)
  {
    |Items(Parse(s))|
  }

  lemma ConcatEntries(s: bytes, t: bytes)
    requires Complete(s) && Complete(t)
    ensures Complete(s + t) && Entries(s + t) == Entries(s) + Entries(t)
  {
    ParseConcat(s, t);
    ItemsConcat(Parse(s), Parse(t));
  }

  /** The format check lets at most one entry through for the platform key. */
  lemma AcceptedEntries(c: Crypto, payload: bytes)
    requires FormatStatus(c, PK, payload) == Success
    ensures Complete(payload) && Entries(payload) <= 1
  {
    OtherNames();
    Routes(PK);
    hide UpToNul, HeadsHaveKeys;
    if payload == [] {
      NothingLeft(payload);
    }
  }

  /** The request adds its payload to the stored platform key instead of replacing it. */
  predicate StoresAppend(vars: Vars, req: Request)
    requires PayloadFits(req.data)
  {
    PK in vars && AppendWrite(req.attrs) && Lands(vars[PK], PayloadOf(req.data), req.attrs)
  }

  /**
   A platform key with at most one entry keeps at most one, exactly unless an append with one entry is stored behind
   one that has an entry already: the format check counts the entries of the payload only.
   */
  lemma OneEntryIff(c: Crypto, host: bool, p: Platform, req: Request)
    requires VerifiedHasDigest(c) && Inv(host, p) && req.key == PK && |req.data| <= MAX_DATA_SIZE
    requires PK in p.vars ==> Complete(p.vars[PK].data) && Entries(p.vars[PK].data) <= 1
    ensures var r := SetVariable(c, host, p, req);
            r.status == Success && PK in r.platform.vars ==>
            && DescriptorFits(req.data) && Complete(PayloadOf(req.data)) && Complete(r.platform.vars[PK].data)
            && (Entries(r.platform.vars[PK].data) > 1 <==>
                StoresAppend(p.vars, req) && Entries(p.vars[PK].data) == 1 && Entries(PayloadOf(req.data)) == 1)
  {
    hide SetVariable, Inv, VerifyAndUpdate, VerifyStatus, Update, Complete, Lands, AppendWrite, FormatStatus,
      LengthField, DecodeTime, TimeBased, WellFormedName, Items, Parse;
    var r := SetVariable(c, host, p, req);
    if r.status == Success && PK in r.platform.vars {
      var via := if p.setup then ByPayload else ByPk;
      PkRewrite(c, host, p, req);
      AcceptedVerdict(c, p.vars, req, via);
      VerifiedFormat(c, p.vars, req, via);
      var payload := PayloadOf(req.data);
      AcceptedEntries(c, payload);
      OtherNames();
      SuccessStores(c, host, p, req);
      DistinctKeys();
      NothingLeft([]);
      if PK in p.vars {
        ConcatEntries(p.vars[PK].data, payload);
      }
    }
  }
}
