/** The request server: parses a request from the shared pages, serves it, and writes the answer over it. */
module Server {
  import opened Bytes
  import opened Uefi
  import opened SignatureWalks
  import opened Crypto
  import opened VariableMap
  import opened Storage
  import opened AuthSpec
  import opened PlatformSteps
  import opened PlatformRuns
  import opened AuthService
  import opened Wire

  /** The answer has been written over the front of the shared pages, and nothing else changed in them. */
  predicate Answered(before: bytes, after: bytes, answer: bytes) {
    |answer| <= |before| && after == answer + before[|answer|..]
  }

  /** A SetVariable request that is refused from its header alone, or whose data can be read without leaving it. */
  predicate Servable(c: Crypto, p: Platform, s: bytes)
    requires |s| >= MAX_REQUEST_SIZE
  {
    var r := ParseSet(s);
    r.BadSet? || RefusedEarly(r.req) || Readable(c, p, r.req)
  }

  method WriteAnswer(comm: array<byte>, answer: bytes)
    requires |answer| <= comm.Length
    modifies comm
    ensures Answered(old(comm[..]), comm[..], answer)
  {
    CopyInto(comm, 0, answer);
    assert comm[..] == comm[0..|answer|] + comm[|answer|..];
  }

  lemma NameFits(s: seq<Variable>, i: nat)
    requires TableWell(s) && i < |s|
    ensures |s[i].name| <= 254
  {
    assert SlotWell(s[i]);
  }

  class Server {
    const service: Service
    var atRuntime: bool

    constructor (service: Service)
      ensures this.service == service && !atRuntime
    {
      this.service := service;
      atRuntime := false;
    }

    ghost predicate Valid()
      reads this, service, service.table, service.table.slots
    {
      && service.table.Valid()
      && Inv(service.secureBootEnabled, service.State())
      && VerifiedHasDigest(service.crypto)
      && service.table.used <= MAX_STORAGE_SIZE
    }

    method HandleGetVariable(comm: array<byte>)
      requires service.table.Valid() && comm.Length == SHARED_SIZE
      requires VersionOf(comm[..]) == VERSION && CommandOf(comm[..]) == GET_VARIABLE
      modifies this`atRuntime, comm
      ensures var r := ParseGet(old(comm[..])); atRuntime == if r.BadGet? then old(atRuntime) else r.atRuntime
      ensures Answered(old(comm[..]), comm[..], ReplyGet(service.table.Contents(), old(comm[..])))
    {
      hide Answered, AsMap, TableWell, ParseGet, StatusBytes, TooSmallBytes, ToLE, Runtime, VersionOf, CommandOf,
        FromLE;
      MapIsValid(service.table.slots[..]);
      var s := comm[..];
      var r := ParseGet(s);
      if r.BadGet? {
        WriteAnswer(comm, StatusBytes(OutOfResources));
        return;
      }
      atRuntime := r.atRuntime;
      if r.key.name == [] {
        WriteAnswer(comm, StatusBytes(InvalidParameter));
        return;
      }
      var i := service.table.Find(r.key);
      if i == service.table.slots.Length {
        WriteAnswer(comm, StatusBytes(NotFound));
        return;
      }
      var v := service.table.slots[i];
      assert StoredWell(r.key, v);
      if atRuntime && !Runtime(v.attrs) {
        WriteAnswer(comm, StatusBytes(NotFound));
      } else if r.bufferSize < |v.data| {
        WriteAnswer(comm, TooSmallBytes(|v.data|));
      } else {
        WriteAnswer(comm, StatusBytes(Success) + ToLE(v.attrs, 4) + ToLE(|v.data|, 8) + v.data);
      }
    }

    method HandleGetNextVariable(comm: array<byte>)
      requires service.table.Valid() && comm.Length == SHARED_SIZE
      requires VersionOf(comm[..]) == VERSION && CommandOf(comm[..]) == GET_NEXT_VARIABLE
      modifies this`atRuntime, comm
      ensures var r := ParseNext(old(comm[..])); atRuntime == if r.BadGet? then old(atRuntime) else r.atRuntime
      ensures Answered(old(comm[..]), comm[..], ReplyNext(service.table.slots[..], old(comm[..])))
    {
      hide Answered, AsMap, TableWell, ParseNext, StatusBytes, TooSmallBytes, ToLE, NextIndex, VersionOf, CommandOf,
        FromLE;
      var s := comm[..];
      // the two assertions of the handler
      assert VersionOf(s) == 1;
      assert CommandOf(s) == GET_NEXT_VARIABLE;
      var r := ParseNext(s);
      if r.BadGet? {
        WriteAnswer(comm, StatusBytes(DeviceError));
        return;
      }
      atRuntime := r.atRuntime;
      var i := service.table.NextVariable(r.key, r.atRuntime);
      if i == service.table.slots.Length {
        WriteAnswer(comm, StatusBytes(NotFound));
        return;
      }
      var v := service.table.slots[i];
      NameFits(service.table.slots[..], i);
      if r.bufferSize < |v.name| + 2 {
        WriteAnswer(comm, TooSmallBytes(|v.name| + 2));
      } else {
        WriteAnswer(comm, StatusBytes(Success) + ToLE(|v.name|, 8) + v.name + v.guid);
      }
    }

    /** The remaining storage never goes below zero, because a valid table cannot use it up. */
    method HandleQueryVariableInfo(comm: array<byte>)
      requires service.table.used <= MAX_STORAGE_SIZE && comm.Length == SHARED_SIZE
      requires VersionOf(comm[..]) == VERSION && CommandOf(comm[..]) == QUERY_VARIABLE_INFO
      modifies comm
      ensures Answered(old(comm[..]), comm[..],
                       AnswerQuery(service.table.used, Read32(old(comm[..])[8..12])))
    {
      hide Answered, StatusBytes, ToLE, Runtime, BootService, FromLE, VersionOf, CommandOf;
      var s, used := comm[..], service.table.used;
      var attrs := Read32(s[8..12]);
      if attrs == 0 || (Runtime(attrs) && !BootService(attrs)) {
        WriteAnswer(comm, StatusBytes(InvalidParameter));
        return;
      }
      WriteAnswer(comm, StatusBytes(Success) + ToLE(MAX_STORAGE_SIZE, 8)
                        + ToLE(MAX_STORAGE_SIZE - used, 8) + ToLE(MAX_VARIABLE_SIZE, 8));
    }

    method HandleSetVariable(comm: array<byte>)
      requires Valid() && comm.Length == SHARED_SIZE
      requires VersionOf(comm[..]) == VERSION && CommandOf(comm[..]) == SET_VARIABLE
      requires Servable(service.crypto, service.State(), comm[..])
      modifies this`atRuntime, comm
      modifies service`setupMode, service.table`total, service.table`used, service.table.slots
      ensures Valid()
      ensures var r := ParseSet(old(comm[..])); atRuntime == if r.BadSet? then old(atRuntime) else r.atRuntime
      ensures var step := ServeSet(service.crypto, service.secureBootEnabled, old(service.State()), old(comm[..]));
              service.State() == step.platform && Answered(old(comm[..]), comm[..], StatusBytes(step.status))
    {
      hide VersionOf, CommandOf, FromLE, VerifiedHasDigest, Answered, AsMap, TableWell, Inv, ParseSet, StatusBytes,
        ToLE, SetVariable, Readable, RefusedEarly;
      var s := comm[..];
      // the assertion of the handler
      assert VersionOf(s) == VERSION;
      var r := ParseSet(s);
      if r.BadSet? {
        WriteAnswer(comm, StatusBytes(OutOfResources));
        return;
      }
      atRuntime := r.atRuntime;
      var status := Serve(r.req);
      WriteAnswer(comm, StatusBytes(status));
    }

    /** Serves a parsed SetVariable request from a private copy of its data. */
    method Serve(req: Request) returns (status: Status)
      requires Valid() && (RefusedEarly(req) || Readable(service.crypto, service.State(), req))
      modifies service`setupMode, service.table`total, service.table`used, service.table.slots
      ensures Valid()
      ensures Step(status, service.State())
              == SetVariable(service.crypto, service.secureBootEnabled, old(service.State()), req)
    {
      hide AsMap, TableWell, Inv, SetVariable, Readable, RefusedEarly, VerifiedHasDigest;
      var data := CopyOf(req.data);
      status := service.HandleSetVariable(req.key, data, req.attrs);
      service.table.UsedIsSmall();
    }

    /**
     The dispatcher: a request of another version is refused, an unknown command is left without an answer, and every
     other request gets exactly its reply over the front of the pages. The platform afterwards is the specified one.
     */
    method HandleRequest(comm: array<byte>, notified: bool)
      requires Valid() && comm.Length == SHARED_SIZE
      requires VersionOf(comm[..]) == VERSION && CommandOf(comm[..]) == SET_VARIABLE ==>
                 Servable(service.crypto, service.State(), comm[..])
      modifies this`atRuntime, comm
      modifies service`setupMode, service.table`total, service.table`used, service.table.slots
      ensures Valid()
      ensures service.State()
              == PlatformAfter(service.crypto, service.secureBootEnabled, old(service.State()), old(comm[..]))
      ensures match old(Reply(service, comm[..], notified))
              case None => comm[..] == old(comm[..])
              case Some(answer) => |answer| <= MAX_ANSWER_SIZE && Answered(old(comm[..]), comm[..], answer)
    {
      hide AsMap, TableWell, Inv, ParseSet, ParseGet, ParseNext, StatusBytes, ToLE, SetVariable, Servable,
        VersionOf, CommandOf, ReplyGet, ReplyNext, ServeSet, AnswerQuery, Answered, VerifiedHasDigest, FromLE;
      var s := comm[..];
      ReplyFits(service, s, notified);
      if VersionOf(s) != VERSION {
        WriteAnswer(comm, StatusBytes(DeviceError));
      } else if CommandOf(s) == GET_VARIABLE {
        HandleGetVariable(comm);
      } else if CommandOf(s) == SET_VARIABLE {
        HandleSetVariable(comm);
      } else if CommandOf(s) == GET_NEXT_VARIABLE {
        HandleGetNextVariable(comm);
      } else if CommandOf(s) == QUERY_VARIABLE_INFO {
        HandleQueryVariableInfo(comm);
      } else if CommandOf(s) == NOTIFY_SB_FAILURE {
        WriteAnswer(comm, StatusBytes(if notified then Success else DeviceError));
      }
    }
  }

  /** The reply to the request in the shared pages, from the state before it; None when there is no reply. */
  ghost function Reply(service: Service, s: bytes, notified: bool): Option<bytes>
    requires |s| == SHARED_SIZE && service.table.used <= MAX_STORAGE_SIZE
    reads service, service.table, service.table.slots
  {
    if VersionOf(s) != VERSION then Some(StatusBytes(DeviceError))
    else if CommandOf(s) == GET_VARIABLE then Some(ReplyGet(service.table.Contents(), s))
    else if CommandOf(s) == SET_VARIABLE then
      Some(StatusBytes(ServeSet(service.crypto, service.secureBootEnabled, service.State(), s).status))
    else if CommandOf(s) == GET_NEXT_VARIABLE then Some(ReplyNext(service.table.slots[..], s))
    else if CommandOf(s) == QUERY_VARIABLE_INFO then Some(AnswerQuery(service.table.used, Read32(s[8..12])))
    else if CommandOf(s) == NOTIFY_SB_FAILURE then Some(StatusBytes(if notified then Success else DeviceError))
    else None
  }

  /**
   The other replies, by their codes: any other version is a device error, a notification reports what came of it, and
   an unknown command gets none. A name that is too long is out of resources, and a device error for the next name.
   */
  lemma OtherReplies(service: Service, s: bytes, notified: bool)
    requires service.table.used <= MAX_STORAGE_SIZE && |s| == SHARED_SIZE
    ensures var r := Reply(service, s, notified);
            && (Read32(s[..4]) != 1 ==> r.Some? && |r.value| == 8 && Read64(r.value) == 0x8000_0000_0000_0007)
            && (Read32(s[..4]) == 1 && Read32(s[4..8]) > 4 ==> r == None)
            && (Read32(s[..4]) == 1 && Read32(s[4..8]) == 4 ==>
                r.Some? && |r.value| == 8 && Read64(r.value) == (if notified then 0 else 0x8000_0000_0000_0007))
            && (Read32(s[..4]) == 1 && Read32(s[4..8]) <= 1 && Read64(s[8..16]) > 256 ==>
                r.Some? && |r.value| == 8 && Read64(r.value) == 0x8000_0000_0000_0009)
            && (Read32(s[..4]) == 1 && Read32(s[4..8]) == 2 && Read64(s[16..24]) > 256 ==>
                r.Some? && |r.value| == 8 && Read64(r.value) == 0x8000_0000_0000_0007)
  {
    hide FromLE, ToLE, AsMap, SetVariable, AnswerGet, AnswerNext, AnswerQuery;
    Widths();
    ReadWrite(DeviceError.Code(), 8);
    ReadWrite(OutOfResources.Code(), 8);
    ReadWrite(Success.Code(), 8);
    assert s[8..][..8] == s[8..16] && s[16..][..8] == s[16..24];
  }

  lemma RepliesFit(slots: seq<Variable>, s: bytes)
    requires TableWell(slots) && |slots| <= MAX_VAR_COUNT && |s| >= MAX_REQUEST_SIZE
    ensures |ReplyGet(AsMap(slots), s)| <= MAX_ANSWER_SIZE && |ReplyNext(slots, s)| <= MAX_ANSWER_SIZE
  {
    MapIsValid(slots);
    hide AsMap, TableWell, ParseGet, ParseNext, AnswerGet, AnswerNext, StatusBytes;
    var get, next := ParseGet(s), ParseNext(s);
    if get.GetRequest? {
      AnswersFit(AsMap(slots), slots, get.key, get.bufferSize, get.atRuntime);
    }
    if next.GetRequest? {
      AnswersFit(AsMap(slots), slots, next.key, next.bufferSize, next.atRuntime);
    }
  }

  /** Whatever the 16 pages hold, the reply to them takes at most 32788 bytes. */
  lemma ReplyFits(service: Service, s: bytes, notified: bool)
    requires service.table.Valid() && service.table.used <= MAX_STORAGE_SIZE && |s| == SHARED_SIZE
    ensures var r := Reply(service, s, notified); r.Some? ==> |r.value| <= MAX_ANSWER_SIZE
  {
    hide AsMap, TableWell, StatusBytes, VersionOf, CommandOf, ReplyGet, ReplyNext, ServeSet, AnswerQuery, FromLE;
    RepliesFit(service.table.slots[..], s);
    QueryAnswerFits(service.table.used, Read32(s[8..12]));
  }

  /** Whatever the 16 pages hold, what a request does to the platform depends on their first 33069 bytes only. */
  lemma EffectIsLocal(c: Crypto, host: bool, p: Platform, s: bytes, t: bytes)
    requires |s| == |t| == SHARED_SIZE && s[..MAX_REQUEST_SIZE] == t[..MAX_REQUEST_SIZE]
    ensures PlatformAfter(c, host, p, s) == PlatformAfter(c, host, p, t)
  {
    hide ParseSet, SetVariable, FromLE;
    ParseIsLocal(s);
    ParseIsLocal(t);
    assert s[..8] == s[..MAX_REQUEST_SIZE][..8] == t[..8];
    assert s[..4] == s[..8][..4] == t[..4] && s[4..8] == s[..8][4..8] == t[4..8];
  }

  // ---- Runs of the dispatcher

  predicate ArePages(pages: seq<bytes>) {
    forall i :: 0 <= i < |pages| ==> |pages[i]| == SHARED_SIZE
  }

  /** The platform after a run of the dispatcher over one buffer after another. */
  function ServeAll(c: Crypto, host: bool, p: Platform, pages: seq<bytes>): Platform
    requires ArePages(pages)
  {
    if pages == [] then p else
      var last := |pages| - 1;
      PlatformAfter(c, host, ServeAll(c, host, p, pages[..last]), pages[last])
  }

  /** The SetVariable request in a buffer, if it holds one. */
  function RequestIn(s: bytes): seq<Request>
    requires |s| == SHARED_SIZE
  {
    if VersionOf(s) == VERSION && CommandOf(s) == SET_VARIABLE && ParseSet(s).SetRequest? then [ParseSet(s).req] else []
  }

  /** The SetVariable requests among the buffers. */
  function RequestsIn(pages: seq<bytes>): seq<Request>
    requires ArePages(pages)
  {
    if pages == [] then [] else
      var last := |pages| - 1;
      RequestsIn(pages[..last]) + RequestIn(pages[last])
  }

  lemma OnePage(c: Crypto, host: bool, p: Platform, s: bytes)
    requires |s| == SHARED_SIZE
    ensures var reqs := RequestIn(s);
            && |reqs| <= 1
            && PlatformAfter(c, host, p, s) == if reqs == [] then p else SetVariable(c, host, p, reqs[0]).platform
  {
    hide VersionOf, CommandOf, ParseSet, SetVariable;
  }

  /** Running the dispatcher over any buffers is running the requests in them, so every theorem about runs applies. */
  lemma {:induction false} DispatcherRuns(c: Crypto, host: bool, p: Platform, pages: seq<bytes>)
    requires ArePages(pages)
    ensures ServeAll(c, host, p, pages) == Run(c, host, p, RequestsIn(pages))
  {
    hide PlatformAfter, RequestIn, SetVariable;
    if pages != [] {
      var last := |pages| - 1;
      DispatcherRuns(c, host, p, pages[..last]);
      OnePage(c, host, ServeAll(c, host, p, pages[..last]), pages[last]);
      var before, all := RequestsIn(pages[..last]), RequestsIn(pages);
      if RequestIn(pages[last]) == [] {
        assert all == before;
      } else {
        assert all[..|all| - 1] == before;
      }
    }
  }

  /** Through every run of the dispatcher whose SetVariable requests have well-formed names the invariant holds. */
  lemma DispatcherKeepsInv(c: Crypto, host: bool, p: Platform, pages: seq<bytes>)
    requires VerifiedHasDigest(c) && Inv(host, p) && ArePages(pages) && WellNamed(RequestsIn(pages))
    ensures Inv(host, ServeAll(c, host, p, pages))
  {
    hide Inv, ServeAll, Run, WellFormedName;
    var reqs := RequestsIn(pages);
    DispatcherRuns(c, host, p, pages);
    RunKeepsInv(c, host, p, reqs, |reqs|);
    assert reqs[..|reqs|] == reqs;
  }

  lemma QueryAnswerFits(used: nat, attrs: u32)
    requires used <= MAX_STORAGE_SIZE
    ensures |AnswerQuery(used, attrs)| <= MAX_ANSWER_SIZE
  {
  }
}
