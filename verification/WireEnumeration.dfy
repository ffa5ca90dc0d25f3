/** GetNextVariableName driven through the shared pages, each answer's name fed into the next request. */
module WireEnumeration {
  import opened Bytes
  import opened Uefi
  import opened VariableMap
  import opened Storage
  import opened Wire
  import opened Enumeration

  // ---- Requests and answers as bytes

  function EncodeNext(k: Key, bufferSize: u64, atRuntime: bool): (s: bytes)
    ensures |s| == 41 + |k.name|
  {
    ToLE(VERSION, 4) + ToLE(GET_NEXT_VARIABLE, 4) + ToLE(bufferSize, 8) + ToLE(|k.name|, 8) + k.name + k.guid
    + [if atRuntime then 1 else 0]
  }

  lemma NextParts(k: Key, bufferSize: u64, atRuntime: bool, pad: bytes)
    ensures EncodeNext(k, bufferSize, atRuntime) + pad
            == (ToLE(VERSION, 4) + ToLE(GET_NEXT_VARIABLE, 4) + ToLE(bufferSize, 8))
               + (ToLE(|k.name|, 8) + (k.name + (k.guid + ([if atRuntime then 1 else 0] + pad))))
  {
    hide ToLE;
  }

  lemma NextRequestRoundTrip(k: Key, bufferSize: u64, atRuntime: bool, pad: bytes)
    requires |k.name| <= MAX_NAME_SIZE && |EncodeNext(k, bufferSize, atRuntime) + pad| >= MAX_REQUEST_SIZE
    ensures var s := EncodeNext(k, bufferSize, atRuntime) + pad;
            && VersionOf(s) == VERSION && CommandOf(s) == GET_NEXT_VARIABLE
            && ParseNext(s) == GetRequest(k, bufferSize, atRuntime)
  {
    hide ToLE, FromLE, EncodeNext;
    var s := EncodeNext(k, bufferSize, atRuntime) + pad;
    var flag := [if atRuntime then 1 else 0];
    var head := ToLE(VERSION, 4) + ToLE(GET_NEXT_VARIABLE, 4) + ToLE(bufferSize, 8);
    var rest := k.guid + (flag + pad);
    NextParts(k, bufferSize, atRuntime, pad);
    Widths();
    ReadWrite(bufferSize, 8);
    ReadWrite(VERSION, 4);
    ReadWrite(GET_NEXT_VARIABLE, 4);
    CutFront(head, ToLE(|k.name|, 8) + (k.name + rest));
    assert s[..4] == head[..4] == ToLE(VERSION, 4) && s[4..8] == head[4..8] == ToLE(GET_NEXT_VARIABLE, 4);
    assert s[8..16] == head[8..16] == ToLE(bufferSize, 8);
    ReadWrittenField(k.name, rest, MAX_NAME_SIZE);
    CutFront(k.guid, flag + pad);
    assert rest[16] == flag[0];
  }

  /** The successful answer that names a variable. */
  function NameAnswer(v: Variable): bytes {
    StatusBytes(Success) + ToLE(|v.name|, 8) + v.name + v.guid
  }

  predicate IsSuccess(answer: bytes) {
    |answer| >= 32 && answer[..8] == StatusBytes(Success) && |answer| == 32 + Read64(answer[8..16])
  }

  /** The key a guest reads from a successful answer. */
  function KeyIn(answer: bytes): Key
    requires IsSuccess(answer)
  {
    var n := Read64(answer[8..16]);
    Key(answer[16..16 + n], answer[16 + n..])
  }

  lemma AnswerRoundTrip(v: Variable)
    requires |v.name| <= MAX_NAME_SIZE
    ensures IsSuccess(NameAnswer(v)) && KeyIn(NameAnswer(v)) == KeyOf(v)
  {
    hide ToLE, FromLE, StatusBytes;
    var a, status, size := NameAnswer(v), StatusBytes(Success), ToLE(|v.name|, 8);
    Widths();
    ReadWrite(|v.name|, 8);
    assert a == status + (size + (v.name + v.guid));
    CutFront(status, size + (v.name + v.guid));
    CutFront(size, v.name + v.guid);
    CutFront(v.name, v.guid);
    assert a[8..16] == a[8..][..8] && a[16..] == a[8..][8..];
    assert a[16..16 + |v.name|] == a[16..][..|v.name|] && a[16 + |v.name|..] == a[16..][|v.name|..];
  }

  // ---- The walk

  /** The shared pages with the next request written over what they held. */
  function NextPage(k: Key, bufferSize: u64, atRuntime: bool, pages: bytes): bytes
    requires |pages| == SHARED_SIZE && |k.name| <= MAX_NAME_SIZE
  {
    var req := EncodeNext(k, bufferSize, atRuntime);
    req + pages[|req|..]
  }

  /** The answers to at most `calls` requests, each made from the name in the answer before it. */
  function WireWalk(s: seq<Variable>, atRuntime: bool, k: Key, bufferSize: u64, pages: bytes, calls: nat): seq<bytes>
    requires |pages| == SHARED_SIZE
    decreases calls
  {
    if calls == 0 || |k.name| > MAX_NAME_SIZE then []
    else
      var answer := ReplyNext(s, NextPage(k, bufferSize, atRuntime, pages));
      if IsSuccess(answer) then [answer] + WireWalk(s, atRuntime, KeyIn(answer), bufferSize, pages, calls - 1)
      else [answer]
  }

  function NameAnswers(s: seq<Variable>, walk: seq<nat>): seq<bytes>
    requires forall j :: 0 <= j < |walk| ==> walk[j] < |s|
  {
    if walk == [] then [] else [NameAnswer(s[walk[0]])] + NameAnswers(s, walk[1..])
  }

  /** One answer: the next visible variable by name, or not-found. */
  lemma OneAnswer(s: seq<Variable>, atRuntime: bool, k: Key, bufferSize: u64, pages: bytes)
    requires TableWell(s) && |pages| == SHARED_SIZE && |k.name| <= MAX_NAME_SIZE && bufferSize >= 256
    ensures var i := NextIndex(s, atRuntime, k);
            ReplyNext(s, NextPage(k, bufferSize, atRuntime, pages))
            == if i == |s| then StatusBytes(NotFound) else NameAnswer(s[i])
    ensures var i := NextIndex(s, atRuntime, k); i < |s| ==> |s[i].name| <= 254 && s[i] != FREE
  {
    hide ToLE, FromLE, EncodeNext, ParseNext, StatusBytes, NextIndex, TableWell, VersionOf, CommandOf;
    var req := EncodeNext(k, bufferSize, atRuntime);
    NextRequestRoundTrip(k, bufferSize, atRuntime, pages[|req|..]);
    var i := NextIndex(s, atRuntime, k);
    if i < |s| {
      VisibleName(s, i);
    }
  }

  lemma VisibleName(s: seq<Variable>, i: nat)
    requires TableWell(s) && i < |s|
    ensures |s[i].name| <= 254
  {
    assert SlotWell(s[i]);
  }

  lemma NotFoundIsNoSuccess()
    ensures !IsSuccess(StatusBytes(NotFound))
  {
  }

  lemma {:induction false} WireWalkIs(
      s: seq<Variable>, atRuntime: bool, k: Key, bufferSize: u64, pages: bytes, calls: nat)
    requires TableWell(s) && |pages| == SHARED_SIZE && |k.name| <= 254 && bufferSize >= 256
    requires |Walk(s, atRuntime, k, calls)| < calls
    ensures forall j :: 0 <= j < |Walk(s, atRuntime, k, calls)| ==> Walk(s, atRuntime, k, calls)[j] < |s|
    ensures WireWalk(s, atRuntime, k, bufferSize, pages, calls)
            == NameAnswers(s, Walk(s, atRuntime, k, calls)) + [StatusBytes(NotFound)]
    decreases calls
  {
    hide TableWell, NextIndex, NextPage, ReplyNext, IsSuccess, KeyIn, NameAnswer, StatusBytes;
    OneAnswer(s, atRuntime, k, bufferSize, pages);
    var i := NextIndex(s, atRuntime, k);
    if i == |s| {
      NotFoundIsNoSuccess();
    } else {
      AnswerRoundTrip(s[i]);
      var walk, rest := Walk(s, atRuntime, k, calls), Walk(s, atRuntime, KeyOf(s[i]), calls - 1);
      assert walk == [i] + rest && walk[1..] == rest;
      WireWalkIs(s, atRuntime, KeyOf(s[i]), bufferSize, pages, calls - 1);
      assert [NameAnswer(s[i])] + (NameAnswers(s, rest) + [StatusBytes(NotFound)])
          == ([NameAnswer(s[i])] + NameAnswers(s, rest)) + [StatusBytes(NotFound)];
    }
  }

  /**
   A guest that starts from the empty name, offers a buffer of at least 256 bytes and feeds each name back gets
   successful answers naming every variable visible in the current phase exactly once, in slot order, then not-found,
   within 129 requests.
   */
  lemma GuestEnumerates(s: seq<Variable>, atRuntime: bool, guid: Guid, bufferSize: u64, pages: bytes)
    requires TableWell(s) && |s| == MAX_VAR_COUNT && |pages| == SHARED_SIZE && bufferSize >= 256
    ensures var walk := Walk(s, atRuntime, Key([], guid), MAX_VAR_COUNT + 1);
            && AllSeenInOrder(s, atRuntime, 0, walk) && |walk| <= MAX_VAR_COUNT
            && WireWalk(s, atRuntime, Key([], guid), bufferSize, pages, MAX_VAR_COUNT + 1)
               == NameAnswers(s, walk) + [StatusBytes(NotFound)]
  {
    hide TableWell, Walk, WireWalk, Seen, StatusBytes;
    EnumerationIsComplete(s, atRuntime, guid);
    WireWalkIs(s, atRuntime, Key([], guid), bufferSize, pages, MAX_VAR_COUNT + 1);
  }
}
