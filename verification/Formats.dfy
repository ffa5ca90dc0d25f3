/** What the format check accepts, spelled out on lists. */
module Formats {
  import opened Bytes
  import opened Uefi
  import opened SignatureLists
  import opened SignatureWalks
  import opened Crypto
  import opened AuthSpec
  import opened AuthProofs
  import opened Verdicts

  // ---- The supported types

  /** The entry sizes the service supports: an owner of 16 bytes and data of the size its type calls for. */
  predicate SizeIsRight(t: Guid, sigSize: nat) {
    || t == X509_GUID
    || (t == SHA1_GUID && sigSize == 36)
    || (t == SHA224_GUID && sigSize == 44)
    || (t == SHA256_GUID && sigSize == 48)
    || (t == SHA384_GUID && sigSize == 64)
    || (t == SHA512_GUID && sigSize == 80)
    || ((t == RSA2048_GUID || t == RSA2048_SHA1_GUID || t == RSA2048_SHA256_GUID) && sigSize == 272)
    || (t == X509_SHA256_GUID && sigSize == 64)
    || (t == X509_SHA384_GUID && sigSize == 80)
    || (t == X509_SHA512_GUID && sigSize == 96)
  }

  /** The first bytes of the types in the table tell them apart. */
  const FIRST_BYTES: bytes := [0x26, 0xE8, 0x90, 0x12, 0x4F, 0xA1, 0x33, 0x07, 0xAE, 0x92, 0x6E, 0x63]

  lemma FirstByte(i: nat)
    requires i < |SUPPORTED|
    ensures SUPPORTED[i].0[0] == FIRST_BYTES[i]
  {
  }

  lemma {:induction false} RowFrom(t: Guid, i: nat, k: nat)
    requires k <= i < |SUPPORTED| && SUPPORTED[i].0 == t && forall j :: k <= j < i ==> SUPPORTED[j].0 != t
    ensures TypeRow(t, k) == i
    decreases i - k
  {
    if k < i {
      RowFrom(t, i, k + 1);
    }
  }

  lemma RowOf(i: nat)
    requires i < |SUPPORTED|
    ensures TypeRow(SUPPORTED[i].0, 0) == i
  {
    var t := SUPPORTED[i].0;
    forall j | 0 <= j < i
      ensures SUPPORTED[j].0 != t
    {
      FirstByte(i);
      FirstByte(j);
    }
    hide TypeRow;
    RowFrom(t, i, 0);
  }

  lemma {:induction false} RowHasType(t: Guid, k: nat)
    requires k <= |SUPPORTED|
    ensures TypeRow(t, k) < |SUPPORTED| ==> SUPPORTED[TypeRow(t, k)].0 == t
    decreases |SUPPORTED| - k
  {
    if k < |SUPPORTED| && SUPPORTED[k].0 != t {
      RowHasType(t, k + 1);
    }
  }

  /** A record is supported exactly when it has no type-specific header and entries of the size its type calls for. */
  lemma SupportedIff(t: Guid, headerSize: nat, sigSize: nat)
    ensures SupportedSizes(t, headerSize, sigSize) <==> headerSize == 0 && SizeIsRight(t, sigSize)
  {
    hide TypeRow;
    RowHasType(t, 0);
    forall i | 0 <= i < |SUPPORTED|
      ensures TypeRow(SUPPORTED[i].0, 0) == i
    {
      RowOf(i);
    }
    assert SUPPORTED[0].0 == SHA256_GUID && SUPPORTED[1].0 == RSA2048_GUID && SUPPORTED[2].0 == RSA2048_SHA256_GUID;
    assert SUPPORTED[3].0 == SHA1_GUID && SUPPORTED[4].0 == RSA2048_SHA1_GUID && SUPPORTED[5].0 == X509_GUID;
    assert SUPPORTED[6].0 == SHA224_GUID && SUPPORTED[7].0 == SHA384_GUID && SUPPORTED[8].0 == SHA512_GUID;
    assert SUPPORTED[9].0 == X509_SHA256_GUID && SUPPORTED[10].0 == X509_SHA384_GUID;
    assert SUPPORTED[11].0 == X509_SHA512_GUID;
  }

  // ---- The certificates at the front of X.509 lists

  /** Every X.509 list starts with a certificate that has an RSA key. */
  predicate KeysAreRight(c: Crypto, ls: seq<SigList>) {
    forall l <- ls :: l.sigType == X509_GUID && l.entries != [] ==>
      |l.entries[0]| >= 16 && c.hasRsaKey(l.entries[0][16..])
  }

  predicate CertListsHaveEntries(ls: seq<SigList>) {
    forall l <- ls :: l.sigType == X509_GUID ==> l.entries != []
  }

  lemma HeadKeyIff(c: Crypto, s: bytes)
    requires Complete(s) && s != []
    ensures var l := Parse(s)[0];
            l.entries != [] ==>
            (HeadHasKey(c, s) <==>
             (l.sigType == X509_GUID ==> |l.entries[0]| >= 16 && c.hasRsaKey(l.entries[0][16..])))
  {
    hide FromLE, CertAt, Multiple, Chop, CertificateIn;
    ParseCons(s);
    var l := Parse(s)[0];
    assert l.sigType == TypeAt(s);
    if l.entries != [] {
      var e := l.entries[0];
      assert FirstEntryIs(s, e);
      forall cert
        ensures CertAt(s) == Some(cert) <==> |e| >= 16 && cert == e[16..]
      {
        CertificateIff(s, cert);
        FirstEntry(s, e, cert);
      }
      if |e| >= 16 {
        assert CertAt(s) == Some(e[16..]);
      }
    }
  }

  lemma {:induction false} HeadsIff(c: Crypto, s: bytes)
    requires Complete(s)
    ensures HeadsHaveKeys(c, s) ==> KeysAreRight(c, Parse(s))
    ensures CertListsHaveEntries(Parse(s)) && KeysAreRight(c, Parse(s)) ==> HeadsHaveKeys(c, s)
    decreases |s|
  {
    hide HeadHasKey;
    if s != [] {
      ParseCons(s);
      var l, next := Parse(s)[0], s[ListSizeAt(s)..];
      assert Parse(s)[1..] == Parse(next);
      HeadKeyIff(c, s);
      HeadsIff(c, next);
      assert forall m :: m in Parse(s) <==> m == l || m in Parse(next);
      EmptyOthers(c, s);
    }
  }

  /** A head that is no certificate list asks for nothing. */
  lemma EmptyOthers(c: Crypto, s: bytes)
    requires Complete(s) && s != []
    ensures Parse(s)[0].sigType != X509_GUID ==> HeadHasKey(c, s)
  {
    hide FromLE, CertAt;
    ParseCons(s);
    assert Parse(s)[0].sigType == TypeAt(s);
  }

  // ---- The verdict

  function EntryCount(ls: seq<SigList>): nat {
    if ls == [] then 0 else |ls[0].entries| + EntryCount(ls[1..])
  }

  lemma {:induction false} ItemCount(ls: seq<SigList>)
    ensures |Items(ls)| == EntryCount(ls)
  {
    if ls != [] {
      ItemCount(ls[1..]);
    }
  }

  /** Lists the service may store under a key: supported, with RSA certificates in front, and one entry for PK. */
  predicate ListsAreRight(c: Crypto, k: Key, ls: seq<SigList>) {
    && (forall l <- ls :: l.header == [] && SizeIsRight(l.sigType, l.sigSize))
    && KeysAreRight(c, ls)
    && (k == PK ==> EntryCount(ls) <= 1)
  }

  /**
   The format check on a secure-boot variable: what passes is complete and right; and what is complete and right passes,
   provided every X.509 list has an entry. Everything else is an invalid parameter, and other variables always pass.
   */
  lemma FormatIff(c: Crypto, k: Key, s: bytes)
    requires WellFormedName(k.name)
    ensures !IsSecureBootVariable(k) || s == [] ==> FormatStatus(c, k, s) == Success
    ensures FormatStatus(c, k, s) == Success || FormatStatus(c, k, s) == InvalidParameter
    ensures IsSecureBootVariable(k) && s != [] && FormatStatus(c, k, s) == Success ==>
              Complete(s) && ListsAreRight(c, k, Parse(s))
    ensures Complete(s) && CertListsHaveEntries(Parse(s)) && ListsAreRight(c, k, Parse(s)) ==>
              FormatStatus(c, k, s) == Success
  {
    hide UpToNul, NamesPk, NamesKek, NamesDb, SupportedSizes, SizeIsRight, HeadsHaveKeys, KeysAreRight, Parse, Complete,
      Items, EntryCount, NoNul;
    Routes(k);
    if Complete(s) {
      HeadsIff(c, s);
      ItemCount(Parse(s));
      forall l | l in Parse(s)
        ensures SupportedList(l) <==> l.header == [] && SizeIsRight(l.sigType, l.sigSize)
      {
        SupportedIff(l.sigType, |l.header|, l.sigSize);
      }
    }
  }

  // ---- What filtering leaves, spelled out on lists

  /** Some list of this type and entry size holds the entry. */
  ghost predicate HoldsEntry(ls: seq<SigList>, t: Guid, size: nat, e: bytes) {
    exists l :: l in ls && l.sigType == t && l.sigSize == size && e in l.entries
  }

  lemma {:induction false} ItemIff(ls: seq<SigList>, t: Guid, size: nat, e: bytes)
    ensures Item(t, size, e) in Items(ls) <==> HoldsEntry(ls, t, size, e)
  {
    if ls != [] {
      ItemIff(ls[1..], t, size, e);
      var l := ls[0];
      ListItemMembers(l.sigType, l.sigSize, l.entries, Item(t, size, e));
      assert Items(ls) == ListItems(l.sigType, l.sigSize, l.entries) + Items(ls[1..]);
      if HoldsEntry(ls, t, size, e) {
        var m :| m in ls && m.sigType == t && m.sigSize == size && e in m.entries;
        assert m == l || m in ls[1..];
      }
      if HoldsEntry(ls[1..], t, size, e) {
        var m :| m in ls[1..] && m.sigType == t && m.sigSize == size && e in m.entries;
        assert m in ls;
      }
    }
  }

  /**
   An entry is left by the filter exactly when it was sent and no stored list of the same type and entry size holds the
   same bytes; no list without entries is left.
   */
  lemma FilterIff(stored: bytes, sent: bytes, t: Guid, size: nat, e: bytes)
    requires Complete(stored) && Complete(sent)
    ensures Complete(FilterBytes(stored, sent)) && |FilterBytes(stored, sent)| <= |sent|
    ensures HoldsEntry(Parse(FilterBytes(stored, sent)), t, size, e) <==>
            HoldsEntry(Parse(sent), t, size, e) && !HoldsEntry(Parse(stored), t, size, e)
    ensures forall l <- Parse(FilterBytes(stored, sent)) :: l.entries != []
  {
    hide FilterBytes, Parse, Complete, Items, Difference, HoldsEntry;
    FilterBytesMeaning(stored, sent);
    ItemIff(Parse(FilterBytes(stored, sent)), t, size, e);
    ItemIff(Parse(sent), t, size, e);
    ItemIff(Parse(stored), t, size, e);
    DifferenceMembers(Items(Parse(sent)), Items(Parse(stored)), Item(t, size, e));
  }
}
