/** The walks over raw signature-list bytes, each proved against the parsed records. */
module SignatureWalks {
  import opened Bytes
  import opened Uefi
  import opened SignatureLists
  import opened Crypto

  const X509_GUID: Guid :=
    [0xA1, 0x59, 0xC0, 0xA5, 0xE4, 0x94, 0xA7, 0x4A, 0x87, 0xB5, 0xAB, 0x15, 0x5C, 0x2B, 0xF0, 0x72]

  // ---- Which dispatch a key takes: names are compared up to their first NUL

  predicate NamesPk(k: Key) {
    k.guid == GLOBAL_GUID && UpToNul(k.name) == PK_NAME
  }

  predicate NamesKek(k: Key) {
    k.guid == GLOBAL_GUID && UpToNul(k.name) == KEK_NAME
  }

  predicate NamesDb(k: Key) {
    k.guid == SECURITY_DATABASE_GUID && UpToNul(k.name) in {DB_NAME, DBX_NAME, DBT_NAME}
  }

  // ---- A walk keeps a pointer and the number of bytes left behind it: together, the rest of the buffer

  lemma ChopStep(rest: bytes, size: nat)
    requires 0 < size && Multiple(|rest|, size) && |Chop(rest, size)| > 0
    ensures size <= |rest| && Multiple(|rest[size..]|, size)
    ensures Chop(rest, size) == [rest[..size]] + Chop(rest[size..], size)
  {
  }

  /** The entry count as the walks compute it, by dividing the body size. */
  method CountEntries(body: bytes, size: nat) returns (count: nat)
    requires 0 < size && Multiple(|body|, size)
    ensures count == |Chop(body, size)|
  {
    FlattenChop(body, size);
    count := |body| / size;
  }

  method WholeNumber(n: nat, size: nat) returns (whole: bool)
    requires size > 0
    ensures whole <==> Multiple(n, size)
  {
    MultipleIsMod(n, size);
    whole := n % size == 0;
  }

  lemma {:induction false} ListItemMembers(sigType: Guid, sigSize: nat, es: seq<bytes>, x: Item)
    ensures x in ListItems(sigType, sigSize, es) <==> x.sigType == sigType && x.sigSize == sigSize && x.entry in es
  {
    if es != [] {
      ListItemMembers(sigType, sigSize, es[1..], x);
    }
  }

  /** Whether an item occurs in the rest of a walk: in the record at the pointer or behind it. */
  lemma WalkItem(rest: bytes, x: Item)
    requires Complete(rest) && rest != []
    ensures var next := rest[ListSizeAt(rest)..];
            && CompleteHead(rest) && Complete(next) && |next| < |rest|
            && (x in Items(Parse(rest)) <==>
                (x.sigType == TypeAt(rest) && x.sigSize == SigSizeAt(rest) && x.entry in ParseHead(rest).entries)
                || x in Items(Parse(next)))
  {
    ParseCons(rest);
    var l := ParseHead(rest);
    PrintCons(l, Parse(rest[ListSizeAt(rest)..]));
    ListItemMembers(l.sigType, l.sigSize, l.entries, x);
  }

  // ---- Filtering out entries that are already stored

  method EntryInBody(body: bytes, size: nat, cert: bytes) returns (found: bool)
    requires 0 < size && Multiple(|body|, size)
    ensures found <==> cert in Chop(body, size)
  {
    var count := CountEntries(body, size);
    ghost var occurs := cert in Chop(body, size);
    hide Chop, Multiple;
    found := false;
    var j, rest := 0, body;
    while j < count
      invariant j <= count && Multiple(|rest|, size) && count - j == |Chop(rest, size)|
      invariant !found && (occurs <==> cert in Chop(rest, size))
    {
      ChopStep(rest, size);
      if cert == rest[..size] {
        return true;
      }
      rest := rest[size..];
      j := j + 1;
    }
  }

  method EntryStored(data: bytes, sigType: Guid, sigSize: nat, cert: bytes) returns (found: bool)
    requires Complete(data)
    ensures found <==> Item(sigType, sigSize, cert) in Items(Parse(data))
  {
    hide Items, Parse, FromLE, Multiple, Chop;
    ghost var item := Item(sigType, sigSize, cert);
    ghost var stored := item in Items(Parse(data));
    found := false;
    var rest := data;
    while |rest| > 0 && |rest| >= ListSizeAt(rest)
      invariant Complete(rest)
      invariant !found && (stored <==> item in Items(Parse(rest)))
    {
      WalkItem(rest, item);
      if TypeAt(rest) == sigType && SigSizeAt(rest) == sigSize {
        found := EntryInBody(BodyAt(rest), SigSizeAt(rest), cert);
        if found {
          return;
        }
      }
      rest := rest[ListSizeAt(rest)..];
    }
    NothingLeft(rest);
  }

  lemma NothingLeft(s: bytes)
    requires |s| == 0
    ensures Complete(s) && Parse(s) == [] && Items(Parse(s)) == []
  {
  }

  lemma {:induction false} FlattenSnoc(es: seq<bytes>, e: bytes)
    ensures Flatten(es + [e]) == Flatten(es) + e
  {
    if es == [] {
      assert [e][1..] == [];
    } else {
      FlattenSnoc(es[1..], e);
      assert (es + [e])[1..] == es[1..] + [e];
      Assoc(es[0], Flatten(es[1..]), e);
    }
  }

  lemma TimesStep(n: nat, size: nat)
    requires n > 0
    ensures n * size == size + (n - 1) * size
  {
  }

  lemma {:induction false} FlattenSize(es: seq<bytes>, size: nat)
    requires SameSize(es, size)
    ensures |Flatten(es)| == |es| * size
  {
    if es != [] {
      assert es[0] in es;
      FlattenSize(es[1..], size);
      TimesStep(|es|, size);
    }
  }

  /** A record of `list` cut down to the entries `kept`: nothing at all when none is left. */
  function PrintKept(l: SigList, kept: seq<bytes>): bytes {
    if kept == [] then [] else PrintList(l.(entries := kept))
  }

  /** The record as it stands in the buffer while entries are being copied: its size field is still the old one. */
  function CopiedSoFar(head: bytes, kept: seq<bytes>): bytes {
    if kept == [] then [] else head + Flatten(kept)
  }

  lemma CopiedNext(head: bytes, kept: seq<bytes>, e: bytes)
    ensures CopiedSoFar(head, kept + [e]) == (if kept == [] then head else CopiedSoFar(head, kept)) + e
  {
    FlattenSnoc(kept, e);
    Assoc(head, Flatten(kept), e);
  }

  /** How one entry at the pointer adds to the entries kept. */
  lemma FreshStep(known: seq<Item>, sigType: Guid, size: nat, rest: bytes, kept: seq<bytes>)
    requires 0 < size && Multiple(|rest|, size) && |Chop(rest, size)| > 0
    ensures size <= |rest| && Multiple(|rest[size..]|, size)
    ensures |Chop(rest, size)| == 1 + |Chop(rest[size..], size)|
    ensures kept + Fresh(known, sigType, size, Chop(rest, size))
            == (if Item(sigType, size, rest[..size]) in known then kept else kept + [rest[..size]])
               + Fresh(known, sigType, size, Chop(rest[size..], size))
  {
    ChopStep(rest, size);
    var cert, next := rest[..size], Chop(rest[size..], size);
    assert ([cert] + next)[1..] == next;
    Assoc(kept, [cert], Fresh(known, sigType, size, next));
  }

  lemma FreshEnd(known: seq<Item>, sigType: Guid, size: nat, rest: bytes, kept: seq<bytes>)
    requires |Chop(rest, size)| == 0
    ensures kept + Fresh(known, sigType, size, Chop(rest, size)) == kept
  {
  }

  /** Appends the entries of a record body that are not stored in `data`, after the record's header. */
  method CopyFreshEntries(data: bytes, sigType: Guid, size: nat, head: bytes, body: bytes)
    returns (out: bytes, copied: nat)
    requires Complete(data) && 0 < size && Multiple(|body|, size)
    ensures var kept := Fresh(Items(Parse(data)), sigType, size, Chop(body, size));
            copied == |kept| && out == CopiedSoFar(head, kept)
    ensures |out| <= |head| + |body|
  {
    ghost var known := Items(Parse(data));
    var count := CountEntries(body, size);
    ghost var kept: seq<bytes> := [];
    ghost var all := Fresh(known, sigType, size, Chop(body, size));
    hide Items, Parse, Complete, Chop, Fresh, Multiple;
    out, copied := [], 0;
    var i, rest := 0, body;
    while i < count
      invariant i <= count && Multiple(|rest|, size) && count - i == |Chop(rest, size)|
      invariant all == kept + Fresh(known, sigType, size, Chop(rest, size))
      invariant copied == |kept| && out == CopiedSoFar(head, kept)
      invariant |out| + |rest| <= |head| + |body| && |rest| <= |body|
    {
      FreshStep(known, sigType, size, rest, kept);
      var cert := rest[..size];
      var stored := EntryStored(data, sigType, size, cert);
      if !stored {
        CopiedNext(head, kept, cert);
        if copied == 0 {
          out := head;
        }
        out := out + cert;
        copied := copied + 1;
        kept := kept + [cert];
      }
      rest := rest[size..];
      i := i + 1;
    }
    FreshEnd(known, sigType, size, rest, kept);
  }

  lemma KeptSize(list: bytes, kept: seq<bytes>)
    requires CompleteHead(list) && forall e :: e in kept ==> e in ParseHead(list).entries
    ensures |Flatten(kept)| == |kept| * SigSizeAt(list)
  {
    FlattenChop(BodyAt(list), SigSizeAt(list));
    FlattenSize(kept, SigSizeAt(list));
  }

  lemma SixParts(t: bytes, s: bytes, a: bytes, b: bytes, h: bytes, f: bytes)
    requires |t| == 16 && |s| == 4
    ensures t + s + a + b + h + f == t + s + (a + b + h + f)
    ensures (t + s + (a + b + h + f))[..16] == t && (t + s + (a + b + h + f))[20..] == a + b + h + f
  {
  }

  /** Overwriting the size field of a copied record turns it into the printed form of the cut-down record. */
  lemma PatchedSize(list: bytes, kept: seq<bytes>)
    requires CompleteHead(list) && kept != []
    ensures var l := ParseHead(list);
            var raw := CopiedSoFar(list[..HEADER_SIZE + |l.header|], kept);
            |raw| == ListSize(l.(entries := kept))
            && raw[..16] + ToLE(|raw|, 4) + raw[20..] == PrintList(l.(entries := kept))
  {
    hide Flatten, FromLE, ToLE, Chop, Multiple;
    var l := ParseHead(list);
    ReprintHeader(list);
    Halves(list[..HEADER_SIZE + |l.header|], HEADER_SIZE);
    assert list[..HEADER_SIZE + |l.header|][..HEADER_SIZE] == list[..HEADER_SIZE];
    assert list[..HEADER_SIZE + |l.header|][HEADER_SIZE..] == l.header;
    var a, b := ToLE(|l.header|, 4), ToLE(l.sigSize, 4);
    SixParts(l.sigType, ToLE(ListSizeAt(list), 4), a, b, l.header, Flatten(kept));
    SixParts(l.sigType, ToLE(ListSize(l.(entries := kept)), 4), a, b, l.header, Flatten(kept));
  }

  /** One record of the new data: its unknown entries are copied and its size field is rewritten. */
  method FilterOneList(data: bytes, list: bytes) returns (out: bytes)
    requires Complete(data) && CompleteHead(list)
    ensures |out| <= ListSizeAt(list)
    ensures var l := ParseHead(list);
            out == PrintKept(l, Fresh(Items(Parse(data)), l.sigType, l.sigSize, l.entries))
  {
    var head, copied := list[..HEADER_SIZE + HeaderSizeAt(list)], 0;
    ghost var l := ParseHead(list);
    ghost var kept := Fresh(Items(Parse(data)), l.sigType, l.sigSize, l.entries);
    out, copied := CopyFreshEntries(data, TypeAt(list), SigSizeAt(list), head, BodyAt(list));
    if copied != 0 {
      PatchedSize(list, kept);
      KeptSize(list, kept);
      var size := HEADER_SIZE + HeaderSizeAt(list) + copied * SigSizeAt(list);
      out := out[..16] + ToLE(size, 4) + out[20..];
    }
  }

  /** What filtering still has to write when the walk stands before the records `s`. */
  ghost function FilterRest(known: seq<Item>, s: bytes): bytes
    requires Complete(s)
  {
    PrintLists(FilterLists(known, Parse(s)))
  }

  lemma FilterCons(known: seq<Item>, l: SigList, rest: seq<SigList>)
    ensures PrintLists(FilterLists(known, [l] + rest))
            == PrintKept(l, Fresh(known, l.sigType, l.sigSize, l.entries)) + PrintLists(FilterLists(known, rest))
  {
    hide PrintList, Fresh;
    var kept := Fresh(known, l.sigType, l.sigSize, l.entries);
    assert ([l] + rest)[1..] == rest;
    if kept == [] {
      assert FilterLists(known, [l] + rest) == FilterLists(known, rest);
    } else {
      PrintCons(l.(entries := kept), FilterLists(known, rest));
    }
  }

  lemma FilterStep(known: seq<Item>, rest: bytes, before: bytes)
    requires Complete(rest) && rest != []
    ensures var next := rest[ListSizeAt(rest)..];
            CompleteHead(rest) && Complete(next) && |next| == |rest| - ListSizeAt(rest)
    ensures var l := ParseHead(rest);
            before + FilterRest(known, rest)
            == before + PrintKept(l, Fresh(known, l.sigType, l.sigSize, l.entries))
               + FilterRest(known, rest[ListSizeAt(rest)..])
  {
    ParseCons(rest);
    var l, next := ParseHead(rest), rest[ListSizeAt(rest)..];
    FilterCons(known, l, Parse(next));
    Assoc(before, PrintKept(l, Fresh(known, l.sigType, l.sigSize, l.entries)), FilterRest(known, next));
  }

  /**
   Removes from the records in `buf[offset..offset + size]`, in place, the entries stored in `data`.
   What is left in the buffer is the set difference of the parsed entries, reprinted.
   */
  method FilterSignatureList(data: bytes, buf: array<byte>, offset: nat, size: nat) returns (newSize: nat)
    requires offset + size <= buf.Length
    requires Complete(data) && Complete(buf[offset..offset + size])
    modifies buf
    ensures newSize <= size
    ensures buf[offset..offset + newSize] == FilterBytes(data, old(buf[offset..offset + size]))
    ensures buf[..offset] == old(buf[..offset]) && buf[offset + newSize..] == old(buf[offset + newSize..])
  {
    if size == 0 {
      return 0;
    }
    var kept := FilterInto(data, buf[offset..offset + size]);
    hide FilterBytes, Complete;
    newSize := |kept|;
    CopyInto(buf, offset, kept);
  }

  /** `memcpy` of `src` into a buffer. */
  method CopyInto(buf: array<byte>, offset: nat, src: bytes)
    requires offset + |src| <= buf.Length
    modifies buf
    ensures buf[offset..offset + |src|] == src
    ensures buf[..offset] == old(buf[..offset]) && buf[offset + |src|..] == old(buf[offset + |src|..])
  {
    forall i | 0 <= i < |src| {
      buf[offset + i] := src[i];
    }
  }

  /** The filtering loop: reads the new records, gathers the kept ones; these never outgrow what was read. */
  method FilterInto(data: bytes, incoming: bytes) returns (out: bytes)
    requires Complete(data) && Complete(incoming)
    ensures out == FilterBytes(data, incoming) && |out| <= |incoming|
  {
    ghost var known := Items(Parse(data));
    ghost var result := FilterRest(known, incoming);
    assert FilterBytes(data, incoming) == result && FilterRest(known, []) == [];
    hide Items, Parse, FilterRest, PrintKept, Fresh, FilterBytes, FromLE, Multiple, Chop, ParseHead;
    out := [];
    var rest := incoming;
    while |rest| > 0 && |rest| >= ListSizeAt(rest)
      invariant Complete(rest) && |out| + |rest| <= |incoming|
      invariant result == out + FilterRest(known, rest)
    {
      FilterStep(known, rest, out);
      var kept := FilterOneList(data, rest);
      out := out + kept;
      rest := rest[ListSizeAt(rest)..];
    }
  }

  // ---- The format check

  const ANY_SIZE: nat := 0xFFFF_FFFF

  const SHA256_GUID: Guid :=
    [0x26, 0x16, 0xC4, 0xC1, 0x4C, 0x50, 0x92, 0x40, 0xAC, 0xA9, 0x41, 0xF9, 0x36, 0x93, 0x43, 0x28]

  const RSA2048_GUID: Guid :=
    [0xE8, 0x66, 0x57, 0x3C, 0x9C, 0x26, 0x34, 0x4E, 0xAA, 0x14, 0xED, 0x77, 0x6E, 0x85, 0xB3, 0xB6]

  const RSA2048_SHA256_GUID: Guid :=
    [0x90, 0x61, 0xB3, 0xE2, 0x9B, 0x87, 0x3D, 0x4A, 0xAD, 0x8D, 0xF2, 0xE7, 0xBB, 0xA3, 0x27, 0x84]

  const SHA1_GUID: Guid :=
    [0x12, 0xA5, 0x6C, 0x82, 0x10, 0xCF, 0xC9, 0x4A, 0xB1, 0x87, 0xBE, 0x01, 0x49, 0x66, 0x31, 0xBD]

  const RSA2048_SHA1_GUID: Guid :=
    [0x4F, 0x44, 0xF8, 0x67, 0x43, 0x87, 0xF1, 0x48, 0xA3, 0x28, 0x1E, 0xAA, 0xB8, 0x73, 0x60, 0x80]

  const SHA224_GUID: Guid :=
    [0x33, 0x52, 0x6E, 0x0B, 0x5C, 0xA6, 0xC9, 0x44, 0x94, 0x07, 0xD9, 0xAB, 0x83, 0xBF, 0xC8, 0xBD]

  const SHA384_GUID: Guid :=
    [0x07, 0x53, 0x3E, 0xFF, 0xD0, 0x9F, 0xC9, 0x48, 0x85, 0xF1, 0x8A, 0xD5, 0x6C, 0x70, 0x1E, 0x01]

  const SHA512_GUID: Guid :=
    [0xAE, 0x0F, 0x3E, 0x09, 0xC4, 0xA6, 0x50, 0x4F, 0x9F, 0x1B, 0xD4, 0x1E, 0x2B, 0x89, 0xC1, 0x9A]

  const X509_SHA256_GUID: Guid :=
    [0x92, 0xA4, 0xD2, 0x3B, 0xC0, 0x96, 0x79, 0x40, 0xB4, 0x20, 0xFC, 0xF9, 0x8E, 0xF1, 0x03, 0xED]

  const X509_SHA384_GUID: Guid :=
    [0x6E, 0x87, 0x76, 0x70, 0xC2, 0x80, 0xE6, 0x4E, 0xAA, 0xD2, 0x28, 0xB3, 0x49, 0xA6, 0x86, 0x5B]

  const X509_SHA512_GUID: Guid :=
    [0x63, 0xBF, 0x6D, 0x44, 0x02, 0x25, 0xDA, 0x4C, 0xBC, 0xFA, 0x24, 0x65, 0xD2, 0xB0, 0xFE, 0x9D]

  /** Supported signature types with the size of their data, or ANY_SIZE; the type-specific header must be empty. */
  const SUPPORTED: seq<(Guid, nat)> := [
    (SHA256_GUID, 32),
    (RSA2048_GUID, 256),
    (RSA2048_SHA256_GUID, 256),
    (SHA1_GUID, 20),
    (RSA2048_SHA1_GUID, 256),
    (X509_GUID, ANY_SIZE),
    (SHA224_GUID, 28),
    (SHA384_GUID, 48),
    (SHA512_GUID, 64),
    (X509_SHA256_GUID, 48),
    (X509_SHA384_GUID, 64),
    (X509_SHA512_GUID, 80)]

  /** The first row of the table for a type, or its length. */
  function TypeRow(t: Guid, i: nat): (r: nat)
    requires i <= |SUPPORTED|
    ensures i <= r <= |SUPPORTED|
    decreases |SUPPORTED| - i
  {
    if i == |SUPPORTED| || SUPPORTED[i].0 == t then i else TypeRow(t, i + 1)
  }

  predicate SupportedSizes(t: Guid, headerSize: nat, sigSize: nat) {
    var row := TypeRow(t, 0);
    && row < |SUPPORTED|
    && headerSize == 0
    && (SUPPORTED[row].1 == ANY_SIZE || sigSize == 16 + SUPPORTED[row].1)
  }

  predicate SupportedList(l: SigList) {
    SupportedSizes(l.sigType, |l.header|, l.sigSize)
  }

  /** Complete records of supported types: what every stored signature database must be. */
  predicate WellFormedLists(s: bytes) {
    Complete(s) && forall l <- Parse(s) :: SupportedList(l)
  }

  /** The certificate bytes at the first entry of a record, when the buffer holds that many. */
  function CertAt(s: bytes): Option<bytes> {
    if |s| >= HEADER_SIZE && SigSizeAt(s) >= 16 && HEADER_SIZE + HeaderSizeAt(s) + SigSizeAt(s) <= |s| then
      Some(s[HEADER_SIZE + HeaderSizeAt(s) + 16..HEADER_SIZE + HeaderSizeAt(s) + SigSizeAt(s)])
    else None
  }

  predicate HeadHasKey(c: Crypto, s: bytes)
    requires |s| >= HEADER_SIZE
  {
    TypeAt(s) == X509_GUID ==> CertAt(s).Some? && c.hasRsaKey(CertAt(s).value)
  }

  /** Every X.509 record starts with a certificate that has an RSA key. */
  predicate HeadsHaveKeys(c: Crypto, s: bytes)
    requires Complete(s)
    decreases |s|
  {
    s == [] || (HeadHasKey(c, s) && HeadsHaveKeys(c, s[ListSizeAt(s)..]))
  }

  predicate Acceptable(c: Crypto, isPk: bool, s: bytes) {
    WellFormedLists(s) && HeadsHaveKeys(c, s) && (isPk ==> |Items(Parse(s))| <= 1)
  }

  /** The verdict of the format check: only signature databases are looked at. */
  function FormatStatus(c: Crypto, k: Key, s: bytes): Status {
    if s == [] || !(NamesPk(k) || NamesKek(k) || NamesDb(k)) || Acceptable(c, NamesPk(k), s)
    then Success else InvalidParameter
  }

  /** Each record the walk meets claims at least the size of its header, so that walking makes progress. */
  predicate ListsCoverHeaders(s: bytes)
    decreases |s|
  {
    |s| >= HEADER_SIZE ==>
      && ListSizeAt(s) >= HEADER_SIZE
      && (ListSizeAt(s) <= |s| ==> ListsCoverHeaders(s[ListSizeAt(s)..]))
  }

  method FindTypeRow(t: Guid) returns (i: nat)
    ensures i == TypeRow(t, 0)
  {
    i := 0;
    while i < |SUPPORTED|
      invariant i <= |SUPPORTED| && TypeRow(t, i) == TypeRow(t, 0)
    {
      if SUPPORTED[i].0 == t {
        return;
      }
      i := i + 1;
    }
  }

  /** The checks made on one record, and the number of entries it adds. */
  method CheckRecord(c: Crypto, s: bytes) returns (ok: bool, count: nat)
    requires |s| >= HEADER_SIZE && HEADER_SIZE <= ListSizeAt(s) <= |s|
    ensures ok <==> CompleteHead(s) && SupportedList(ParseHead(s)) && HeadHasKey(c, s)
    ensures ok ==> count == |ParseHead(s).entries|
  {
    hide FromLE, Multiple, Chop, SupportedSizes;
    ok, count := false, 0;
    var supported := CheckSizes(TypeAt(s), HeaderSizeAt(s), SigSizeAt(s));
    if !supported {
      return;
    }
    if TypeAt(s) == X509_GUID {
      var cert := CertAt(s);
      if cert.None? || !c.hasRsaKey(cert.value) {
        return;
      }
    }
    SupportedIsBig(TypeAt(s), HeaderSizeAt(s), SigSizeAt(s));
    ok := WholeNumber(ListSizeAt(s) - HEADER_SIZE - HeaderSizeAt(s), SigSizeAt(s));
    if ok {
      count := CountEntries(BodyAt(s), SigSizeAt(s));
    }
  }

  /** The sizes in a record header against the table of supported types. */
  method CheckSizes(t: Guid, headerSize: nat, sigSize: nat) returns (ok: bool)
    ensures ok <==> SupportedSizes(t, headerSize, sigSize)
  {
    hide TypeRow;
    var row := FindTypeRow(t);
    if row == |SUPPORTED| {
      return false;
    }
    if SUPPORTED[row].1 != ANY_SIZE && sigSize != 16 + SUPPORTED[row].1 {
      return false;
    }
    ok := headerSize == 0;
  }

  /** Only X.509 entries may have any size; the others are never empty. */
  lemma SupportedIsBig(t: Guid, headerSize: nat, sigSize: nat)
    requires SupportedSizes(t, headerSize, sigSize)
    ensures headerSize == 0 && (t != X509_GUID ==> sigSize >= 16)
  {
    var row := TypeRow(t, 0);
    if SUPPORTED[row].1 == ANY_SIZE {
      OnlyX509IsAnySize(t);
    }
  }

  lemma OnlyX509IsAnySize(t: Guid)
    requires TypeRow(t, 0) < |SUPPORTED| && SUPPORTED[TypeRow(t, 0)].1 == ANY_SIZE
    ensures t == X509_GUID
  {
  }

  /** The verdict on the rest of a walk. */
  predicate AcceptableRest(c: Crypto, s: bytes) {
    WellFormedLists(s) && HeadsHaveKeys(c, s)
  }

  lemma AcceptableStep(c: Crypto, s: bytes)
    requires |s| > 0 && CompleteHead(s)
    ensures AcceptableRest(c, s) <==>
            SupportedList(ParseHead(s)) && HeadHasKey(c, s) && AcceptableRest(c, s[ListSizeAt(s)..])
    ensures Complete(s[ListSizeAt(s)..]) ==>
              |Items(Parse(s))| == |ParseHead(s).entries| + |Items(Parse(s[ListSizeAt(s)..]))|
  {
    var next := s[ListSizeAt(s)..];
    if Complete(next) {
      ParseCons(s);
      PrintCons(ParseHead(s), Parse(next));
      assert forall l :: l in Parse(s) <==> l == ParseHead(s) || l in Parse(next);
    }
  }

  /**
   Accepts exactly the buffers that split into complete records of supported types whose X.509 records
   start with an RSA certificate, with at most one entry in all for the platform key.
   */
  method CheckSignatureListFormat(c: Crypto, k: Key, data: bytes) returns (status: Status)
    requires NamesPk(k) || NamesKek(k) || NamesDb(k) ==> ListsCoverHeaders(data)
    ensures status == FormatStatus(c, k, data)
  {
    if |data| == 0 {
      return Success;
    }
    var isPk := false;
    if NamesPk(k) {
      isPk := true;
    } else if !(NamesKek(k) || NamesDb(k)) {
      return Success;
    }
    ghost var verdict := AcceptableRest(c, data);
    assert verdict <==> WellFormedLists(data) && HeadsHaveKeys(c, data);
    hide AcceptableRest, CompleteHead, ParseHead, FromLE, UpToNul, Items, Parse, WellFormedLists, HeadsHaveKeys;
    var rest, sigCount := data, 0;
    while |rest| >= HEADER_SIZE && |rest| >= ListSizeAt(rest)
      invariant ListsCoverHeaders(rest)
      invariant verdict <==> AcceptableRest(c, rest)
      invariant Complete(rest) ==> Complete(data) && |Items(Parse(data))| == sigCount + |Items(Parse(rest))|
      decreases |rest|
    {
      var ok, count := CheckRecord(c, rest);
      if !ok {
        RejectedHead(c, rest);
        return InvalidParameter;
      }
      AcceptableStep(c, rest);
      sigCount := sigCount + count;
      rest := rest[ListSizeAt(rest)..];
    }
    if |rest| != 0 {
      RejectedRest(c, rest);
      return InvalidParameter;
    }
    AcceptedEnd(c, rest);
    if isPk && sigCount > 1 {
      return InvalidParameter;
    }
    return Success;
  }

  lemma RejectedHead(c: Crypto, s: bytes)
    requires |s| >= HEADER_SIZE && !(CompleteHead(s) && SupportedList(ParseHead(s)) && HeadHasKey(c, s))
    ensures !AcceptableRest(c, s)
  {
    if CompleteHead(s) {
      AcceptableStep(c, s);
    }
  }

  lemma RejectedRest(c: Crypto, s: bytes)
    requires |s| > 0 && !(|s| >= HEADER_SIZE && |s| >= ListSizeAt(s))
    ensures !AcceptableRest(c, s)
  {
  }

  lemma AcceptedEnd(c: Crypto, s: bytes)
    requires |s| == 0
    ensures Complete(s) && AcceptableRest(c, s) && |Items(Parse(s))| == 0
  {
  }

  /** The check has an independent reading: the accepted buffers are the printed forms of supported records. */
  lemma WellFormedIffPrinted(s: bytes)
    ensures WellFormedLists(s) <==>
            exists ls :: WholeLists(ls) && (forall l <- ls :: SupportedList(l)) && PrintLists(ls) == s
  {
    if WellFormedLists(s) {
      PrintParse(s);
    }
    forall ls | WholeLists(ls) && (forall l <- ls :: SupportedList(l)) && PrintLists(ls) == s
      ensures WellFormedLists(s)
    {
      ParsePrint(ls);
    }
  }

  // ---- What appending keeps

  lemma WellFormedConcat(s: bytes, t: bytes)
    requires WellFormedLists(s) && WellFormedLists(t)
    ensures WellFormedLists(s + t)
  {
    ParseConcat(s, t);
  }

  lemma {:induction false} FilterKeepsSupported(known: seq<Item>, ls: seq<SigList>)
    requires forall l <- ls :: SupportedList(l)
    ensures forall l <- FilterLists(known, ls) :: SupportedList(l)
  {
    if ls != [] {
      assert ls[0] in ls;
      FilterKeepsSupported(known, ls[1..]);
    }
  }

  lemma WellFormedFilter(s: bytes, t: bytes)
    requires Complete(s) && WellFormedLists(t)
    ensures WellFormedLists(FilterBytes(s, t))
  {
    FilterBytesMeaning(s, t);
    FilterKeepsSupported(Items(Parse(s)), Parse(t));
  }

  // ---- Looking for a signer in the key exchange keys

  predicate EntryParses(c: Crypto, e: bytes) {
    |e| >= 16 && c.parsesX509(e[16..])
  }

  predicate EntryVerifies(c: Crypto, sig: bytes, blob: bytes, e: bytes) {
    EntryParses(c, e) && c.verify(sig, e[16..], blob)
  }

  /** The walk over one record reaches a verifying entry: it never gets past an entry that does not parse. */
  predicate Reaches(c: Crypto, sig: bytes, blob: bytes, es: seq<bytes>) {
    es != [] && EntryParses(c, es[0]) && (EntryVerifies(c, sig, blob, es[0]) || Reaches(c, sig, blob, es[1..]))
  }

  predicate ListsReach(c: Crypto, sig: bytes, blob: bytes, ls: seq<SigList>) {
    ls != [] &&
    ((ls[0].sigType == X509_GUID && Reaches(c, sig, blob, ls[0].entries)) || ListsReach(c, sig, blob, ls[1..]))
  }

  method VerifyList(c: Crypto, sig: bytes, blob: bytes, body: bytes, size: nat) returns (ok: bool)
    requires 0 < size && Multiple(|body|, size)
    ensures ok <==> Reaches(c, sig, blob, Chop(body, size))
  {
    var count := CountEntries(body, size);
    ghost var reaches := Reaches(c, sig, blob, Chop(body, size));
    hide Chop, Multiple;
    ok := false;
    var i, rest := 0, body;
    while i < count
      invariant i <= count && Multiple(|rest|, size) && !ok
      invariant reaches <==> Reaches(c, sig, blob, Chop(rest, size))
      invariant count - i == |Chop(rest, size)|
                || (count - i < |Chop(rest, size)| && !EntryParses(c, Chop(rest, size)[0]))
    {
      ChopStep(rest, size);
      var cert := rest[..size];
      i := i + 1;
      // An entry that does not parse is skipped without moving the pointer
      if |cert| >= 16 && c.parsesX509(cert[16..]) {
        if c.verify(sig, cert[16..], blob) {
          return true;
        }
        assert Chop(rest, size)[1..] == Chop(rest[size..], size);
        rest := rest[size..];
      }
    }
  }

  method VerifyKekLists(c: Crypto, kek: bytes, sig: bytes, blob: bytes) returns (ok: bool)
    requires Complete(kek)
    ensures ok <==> ListsReach(c, sig, blob, Parse(kek))
  {
    ghost var reaches := ListsReach(c, sig, blob, Parse(kek));
    assert !ListsReach(c, sig, blob, []);
    hide FromLE, Multiple, Chop, Parse, ListsReach, Reaches;
    ok := false;
    var rest := kek;
    while |rest| > 0 && |rest| >= ListSizeAt(rest)
      invariant Complete(rest) && !ok
      invariant reaches <==> ListsReach(c, sig, blob, Parse(rest))
    {
      ReachStep(c, sig, blob, rest);
      if TypeAt(rest) == X509_GUID {
        ok := VerifyList(c, sig, blob, BodyAt(rest), SigSizeAt(rest));
        if ok {
          return;
        }
      }
      rest := rest[ListSizeAt(rest)..];
    }
    NothingLeft(rest);
  }

  lemma ReachStep(c: Crypto, sig: bytes, blob: bytes, rest: bytes)
    requires Complete(rest) && rest != []
    ensures var next := rest[ListSizeAt(rest)..];
            && CompleteHead(rest) && Complete(next) && |next| < |rest|
            && (ListsReach(c, sig, blob, Parse(rest)) <==>
                (TypeAt(rest) == X509_GUID && Reaches(c, sig, blob, ParseHead(rest).entries))
                || ListsReach(c, sig, blob, Parse(next)))
  {
    ParseCons(rest);
    assert Parse(rest)[1..] == Parse(rest[ListSizeAt(rest)..]);
  }

  /** A record is accepted through entry `j`: the first that verifies, with every entry before it parsing. */
  ghost predicate SignerAt(c: Crypto, sig: bytes, blob: bytes, l: SigList, j: int) {
    && l.sigType == X509_GUID && 0 <= j < |l.entries|
    && EntryVerifies(c, sig, blob, l.entries[j])
    && forall i :: 0 <= i < j ==> EntryParses(c, l.entries[i])
  }

  lemma {:induction false} ReachesIff(c: Crypto, sig: bytes, blob: bytes, es: seq<bytes>)
    ensures Reaches(c, sig, blob, es) <==>
            exists j :: SignerAt(c, sig, blob, SigList(X509_GUID, [], 0, es), j)
  {
    var l := SigList(X509_GUID, [], 0, es);
    if es != [] {
      var l' := SigList(X509_GUID, [], 0, es[1..]);
      ReachesIff(c, sig, blob, es[1..]);
      if EntryVerifies(c, sig, blob, es[0]) {
        assert SignerAt(c, sig, blob, l, 0);
      } else if Reaches(c, sig, blob, es) {
        var j :| SignerAt(c, sig, blob, l', j);
        assert SignerAt(c, sig, blob, l, j + 1);
      }
      if j :| SignerAt(c, sig, blob, l, j) {
        if j > 0 {
          assert EntryParses(c, l.entries[0]);
          assert SignerAt(c, sig, blob, l', j - 1) by {
            forall i | 0 <= i < j - 1
              ensures EntryParses(c, l'.entries[i])
            {
              assert l'.entries[i] == l.entries[i + 1];
            }
          }
        }
      }
    }
  }

  /**
   The key exchange key verdict, for any complete database: some X.509 record holds a verifying entry that is
   preceded only by entries that parse.
   */
  lemma {:induction false} KekVerdict(c: Crypto, sig: bytes, blob: bytes, ls: seq<SigList>)
    ensures ListsReach(c, sig, blob, ls) <==> exists l, j :: l in ls && SignerAt(c, sig, blob, l, j)
  {
    if ls != [] {
      KekVerdict(c, sig, blob, ls[1..]);
      var l := ls[0];
      ReachesIff(c, sig, blob, l.entries);
      if l.sigType == X509_GUID && Reaches(c, sig, blob, l.entries) {
        var j :| SignerAt(c, sig, blob, SigList(X509_GUID, [], 0, l.entries), j);
        assert l in ls && SignerAt(c, sig, blob, l, j);
      } else if ListsReach(c, sig, blob, ls) {
        var l', j :| l' in ls[1..] && SignerAt(c, sig, blob, l', j);
        assert l' in ls;
      }
      if l', j :| l' in ls && SignerAt(c, sig, blob, l', j) {
        if l' == l {
          assert SignerAt(c, sig, blob, SigList(X509_GUID, [], 0, l.entries), j);
        } else {
          assert l' in ls[1..];
        }
      }
    }
  }

  ghost predicate AllParse(c: Crypto, ls: seq<SigList>) {
    forall l, e :: l in ls && l.sigType == X509_GUID && e in l.entries ==> EntryParses(c, e)
  }

  /** When every X.509 entry parses, the verdict is simply that some X.509 entry verifies. */
  lemma KekVerdictWhenAllParse(c: Crypto, sig: bytes, blob: bytes, ls: seq<SigList>)
    requires AllParse(c, ls)
    ensures ListsReach(c, sig, blob, ls) <==>
            exists l, e :: l in ls && l.sigType == X509_GUID && e in l.entries && EntryVerifies(c, sig, blob, e)
  {
    KekVerdict(c, sig, blob, ls);
    if l, e :| l in ls && l.sigType == X509_GUID && e in l.entries && EntryVerifies(c, sig, blob, e) {
      var j :| 0 <= j < |l.entries| && l.entries[j] == e;
      assert SignerAt(c, sig, blob, l, j);
    }
    if l, j :| l in ls && SignerAt(c, sig, blob, l, j) {
      assert l.entries[j] in l.entries;
    }
  }

  /** Without that condition it is not: an entry that does not parse hides the ones behind it. */
  lemma UnparsableEntryHides(c: Crypto, sig: bytes, blob: bytes, first: bytes, bad: bytes, good: bytes)
    requires EntryParses(c, first) && !EntryVerifies(c, sig, blob, first)
    requires !EntryParses(c, bad) && EntryVerifies(c, sig, blob, good)
    ensures !ListsReach(c, sig, blob, [SigList(X509_GUID, [], |bad|, [first, bad, good])])
    ensures ListsReach(c, sig, blob, [SigList(X509_GUID, [], |bad|, [first, good, bad])])
  {
    assert [first, bad, good][1..] == [bad, good] && [first, good, bad][1..] == [good, bad];
    assert !Reaches(c, sig, blob, [bad, good]) && Reaches(c, sig, blob, [good, bad]);
    var hides := SigList(X509_GUID, [], |bad|, [first, bad, good]);
    var shows := SigList(X509_GUID, [], |bad|, [first, good, bad]);
    assert !ListsReach(c, sig, blob, []) && [hides][1..] == [] && [shows][1..] == [];
  }
}
