/**
 Signature databases (section 32.4.1 of the UEFI Specification 2.10): a value is a concatenation of
 EFI_SIGNATURE_LIST records, each a 28-byte header, an optional type-specific header and equally sized entries.
 This module gives the records as a datatype, their printed form, the parser, and the laws between them.
 */
module SignatureLists {
  import opened Bytes
  import opened Uefi

  const HEADER_SIZE: nat := 28

  /** An entry is an owner GUID followed by the signature data, `sigSize` bytes in all. */
  datatype SigList = SigList(sigType: Guid, header: bytes, sigSize: nat, entries: seq<bytes>)

  function Flatten(es: seq<bytes>): bytes {
    if es == [] then [] else es[0] + Flatten(es[1..])
  }

  function ListSize(l: SigList): nat {
    HEADER_SIZE + |l.header| + |Flatten(l.entries)|
  }

  predicate SameSize(es: seq<bytes>, size: nat) {
    forall e <- es :: |e| == size
  }

  predicate WholeList(l: SigList) {
    0 < l.sigSize < 0x1_0000_0000 && SameSize(l.entries, l.sigSize) && ListSize(l) < 0x1_0000_0000
  }

  predicate WholeLists(ls: seq<SigList>) {
    forall l <- ls :: WholeList(l)
  }

  function PrintHeader(sigType: Guid, listSize: nat, headerSize: nat, sigSize: nat): (s: bytes)
    ensures |s| == HEADER_SIZE
  {
    sigType + ToLE(listSize, 4) + ToLE(headerSize, 4) + ToLE(sigSize, 4)
  }

  function PrintList(l: SigList): (s: bytes)
    ensures |s| == ListSize(l)
  {
    PrintHeader(l.sigType, ListSize(l), |l.header|, l.sigSize) + l.header + Flatten(l.entries)
  }

  function PrintLists(ls: seq<SigList>): bytes {
    if ls == [] then [] else PrintList(ls[0]) + PrintLists(ls[1..])
  }

  // The header fields at the start of a buffer

  function TypeAt(s: bytes): Guid
    requires |s| >= HEADER_SIZE
  {
    s[..16]
  }

  function ListSizeAt(s: bytes): u32
    requires |s| >= HEADER_SIZE
  {
    Read32(s[16..20])
  }

  function HeaderSizeAt(s: bytes): u32
    requires |s| >= HEADER_SIZE
  {
    Read32(s[20..24])
  }

  function SigSizeAt(s: bytes): u32
    requires |s| >= HEADER_SIZE
  {
    Read32(s[24..28])
  }

  /** `n` is a whole number of `size`s. */
  predicate Multiple(n: nat, size: nat) {
    n == 0 || (0 < size <= n && Multiple(n - size, size))
  }

  function Chop(body: bytes, size: nat): seq<bytes> {
    if size == 0 || |body| < size then [] else [body[..size]] + Chop(body[size..], size)
  }

  /** The buffer starts with a complete record of whole entries. */
  predicate CompleteHead(s: bytes) {
    && |s| >= HEADER_SIZE
    && HEADER_SIZE + HeaderSizeAt(s) <= ListSizeAt(s) <= |s|
    && SigSizeAt(s) > 0
    && Multiple(ListSizeAt(s) - HEADER_SIZE - HeaderSizeAt(s), SigSizeAt(s))
  }

  /** The buffer splits into complete records of whole entries, with nothing left over. */
  predicate Complete(s: bytes)
    decreases |s|
  {
    s == [] || (CompleteHead(s) && Complete(s[ListSizeAt(s)..]))
  }

  function BodyAt(s: bytes): bytes
    requires CompleteHead(s)
  {
    s[HEADER_SIZE + HeaderSizeAt(s)..ListSizeAt(s)]
  }

  function ParseHead(s: bytes): SigList
    requires CompleteHead(s)
  {
    SigList(TypeAt(s), s[HEADER_SIZE..HEADER_SIZE + HeaderSizeAt(s)], SigSizeAt(s), Chop(BodyAt(s), SigSizeAt(s)))
  }

  function Parse(s: bytes): seq<SigList>
    requires Complete(s)
    decreases |s|
  {
    if s == [] then [] else [ParseHead(s)] + Parse(s[ListSizeAt(s)..])
  }

  // Chopping a body into entries and joining them again

  lemma {:induction false} MultipleIsMod(n: nat, size: nat)
    requires size > 0
    ensures Multiple(n, size) <==> n % size == 0
  {
    if n >= size {
      MultipleIsMod(n - size, size);
      DivStep(n, size);
    }
  }

  lemma NextMultiple(a: int, size: nat)
    ensures (a + 1) * size == a * size + size
  {
  }

  lemma {:induction false} MulLess(a: int, b: int, size: nat)
    requires a < b
    ensures a * size + size <= b * size
    decreases b - a
  {
    NextMultiple(b - 1, size);
    if a + 1 < b {
      MulLess(a, b - 1, size);
    }
  }

  lemma DivUnique(n: nat, size: nat, q: int, r: nat)
    requires 0 < size && n == q * size + r && r < size
    ensures n / size == q && n % size == r
  {
    var q' := n / size;
    assert n == q' * size + n % size;
    if q' < q {
      MulLess(q', q, size);
    } else if q < q' {
      MulLess(q, q', size);
    }
  }

  lemma DivStep(n: nat, size: nat)
    requires 0 < size <= n
    ensures (n - size) % size == n % size
    ensures n / size == (n - size) / size + 1
  {
    var q, r := n / size, n % size;
    assert n == q * size + r;
    assert n - size == (q - 1) * size + r;
    DivUnique(n - size, size, q - 1, r);
  }

  lemma {:induction false} FlattenChop(body: bytes, size: nat)
    requires size > 0 && Multiple(|body|, size)
    ensures Flatten(Chop(body, size)) == body
    ensures SameSize(Chop(body, size), size)
    ensures |Chop(body, size)| == |body| / size
  {
    if body != [] {
      FlattenChop(body[size..], size);
      DivStep(|body|, size);
      assert Chop(body, size)[1..] == Chop(body[size..], size);
      assert body == body[..size] + body[size..];
    }
  }

  lemma {:induction false} ChopFlatten(es: seq<bytes>, size: nat)
    requires size > 0 && SameSize(es, size)
    ensures Multiple(|Flatten(es)|, size)
    ensures Chop(Flatten(es), size) == es
  {
    if es != [] {
      assert es[0] in es;
      ChopFlatten(es[1..], size);
      var body := Flatten(es);
      assert body[..size] == es[0] && body[size..] == Flatten(es[1..]);
      assert es == [es[0]] + es[1..];
    }
  }

  // Parsing and printing undo each other

  lemma FieldParts(t: bytes, a: bytes, b: bytes, c: bytes, rest: bytes)
    requires |t| == 16 && |a| == |b| == |c| == 4
    ensures var s := t + a + b + c + rest;
            s[..16] == t && s[16..20] == a && s[20..24] == b && s[24..28] == c
  {
  }

  lemma HeaderFields(sigType: Guid, listSize: u32, headerSize: u32, sigSize: u32, rest: bytes)
    ensures var s := PrintHeader(sigType, listSize, headerSize, sigSize) + rest;
            && TypeAt(s) == sigType && ListSizeAt(s) == listSize
            && HeaderSizeAt(s) == headerSize && SigSizeAt(s) == sigSize
  {
    Widths();
    ReadWrite(listSize, 4);
    ReadWrite(headerSize, 4);
    ReadWrite(sigSize, 4);
    FieldParts(sigType, ToLE(listSize, 4), ToLE(headerSize, 4), ToLE(sigSize, 4), rest);
  }

  lemma ReprintHeader(s: bytes)
    requires |s| >= HEADER_SIZE
    ensures PrintHeader(TypeAt(s), ListSizeAt(s), HeaderSizeAt(s), SigSizeAt(s)) == s[..HEADER_SIZE]
  {
    WriteRead(s[16..20]);
    WriteRead(s[20..24]);
    WriteRead(s[24..28]);
    assert s[..28] == s[..16] + s[16..20] + s[20..24] + s[24..28];
  }

  lemma FourParts(a: bytes, b: bytes, c: bytes, d: bytes)
    ensures a + b + c + d == a + (b + c + d)
    ensures var s := a + (b + c + d);
            && s[|a|..|a| + |b|] == b && s[|a| + |b|..|a| + |b| + |c|] == c && s[|a| + |b| + |c|..] == d
  {
  }

  lemma ParseParts(head: bytes, l: SigList, rest: bytes)
    requires WholeList(l) && |head| == HEADER_SIZE
    requires var s := head + (l.header + Flatten(l.entries) + rest);
             && TypeAt(s) == l.sigType && ListSizeAt(s) == ListSize(l)
             && HeaderSizeAt(s) == |l.header| && SigSizeAt(s) == l.sigSize
    ensures var s := head + (l.header + Flatten(l.entries) + rest);
            CompleteHead(s) && ParseHead(s) == l && s[ListSizeAt(s)..] == rest
  {
    FourParts(head, l.header, Flatten(l.entries), rest);
    ChopFlatten(l.entries, l.sigSize);
  }

  lemma ParsePrintedHead(l: SigList, rest: bytes)
    requires WholeList(l)
    ensures var s := PrintList(l) + rest;
            && CompleteHead(s) && ParseHead(s) == l
            && ListSizeAt(s) == ListSize(l) && s[ListSizeAt(s)..] == rest
  {
    var head, body := PrintHeader(l.sigType, ListSize(l), |l.header|, l.sigSize), Flatten(l.entries);
    HeaderFields(l.sigType, ListSize(l), |l.header|, l.sigSize, l.header + body + rest);
    FourParts(head, l.header, body, rest);
    ParseParts(head, l, rest);
  }

  /** Printing any whole records gives a complete buffer that parses to the same records. */
  lemma {:induction false} ParsePrint(ls: seq<SigList>)
    requires WholeLists(ls)
    ensures Complete(PrintLists(ls))
    ensures Parse(PrintLists(ls)) == ls
  {
    if ls != [] {
      assert ls[0] in ls;
      ParsePrint(ls[1..]);
      ParsePrintedHead(ls[0], PrintLists(ls[1..]));
      assert ls == [ls[0]] + ls[1..];
    }
  }

  lemma Assoc<T>(a: seq<T>, b: seq<T>, c: seq<T>)
    ensures a + b + c == a + (b + c)
  {
  }

  lemma Halves(s: bytes, i: nat)
    requires i <= |s|
    ensures s[..i] + s[i..] == s
  {
  }

  lemma SplitAt(s: bytes, i: nat, j: nat, k: nat)
    requires i <= j <= k <= |s|
    ensures s[..i] + s[i..j] + s[j..k] == s[..k]
  {
  }

  lemma PrintParsedHead(s: bytes)
    requires CompleteHead(s)
    ensures WholeList(ParseHead(s))
    ensures ListSize(ParseHead(s)) == ListSizeAt(s)
    ensures PrintList(ParseHead(s)) == s[..ListSizeAt(s)]
  {
    var l, h := ParseHead(s), HEADER_SIZE + HeaderSizeAt(s);
    FlattenChop(BodyAt(s), SigSizeAt(s));
    assert Flatten(l.entries) == s[h..ListSizeAt(s)];
    assert |l.header| == HeaderSizeAt(s);
    assert ListSize(l) == ListSizeAt(s);
    ReprintHeader(s);
    SplitAt(s, HEADER_SIZE, h, ListSizeAt(s));
  }

  lemma PrintCons(l: SigList, ls: seq<SigList>)
    ensures PrintLists([l] + ls) == PrintList(l) + PrintLists(ls)
    ensures Items([l] + ls) == ListItems(l.sigType, l.sigSize, l.entries) + Items(ls)
  {
    assert ([l] + ls)[1..] == ls;
  }

  lemma ParseCons(s: bytes)
    requires Complete(s) && s != []
    ensures var rest := s[ListSizeAt(s)..];
            Complete(rest) && |rest| < |s| && Parse(s) == [ParseHead(s)] + Parse(rest)
  {
  }

  lemma WholeCons(l: SigList, ls: seq<SigList>)
    requires WholeList(l) && WholeLists(ls)
    ensures WholeLists([l] + ls)
  {
  }

  /** Reprinting the parse of any complete buffer gives the buffer back. */
  lemma {:induction false} PrintParse(s: bytes)
    requires Complete(s)
    ensures WholeLists(Parse(s))
    ensures PrintLists(Parse(s)) == s
    decreases |s|
  {
    if s != [] {
      ParseCons(s);
      var head, rest := ParseHead(s), s[ListSizeAt(s)..];
      PrintParse(rest);
      PrintParsedHead(s);
      WholeCons(head, Parse(rest));
      PrintCons(head, Parse(rest));
      Halves(s, ListSizeAt(s));
    }
  }

  /** A buffer is complete exactly when it is the printed form of some whole records. */
  lemma CompleteIffPrinted(s: bytes)
    ensures Complete(s) <==> exists ls :: WholeLists(ls) && PrintLists(ls) == s
  {
    if Complete(s) {
      PrintParse(s);
    }
    forall ls | WholeLists(ls) && PrintLists(ls) == s
      ensures Complete(s)
    {
      ParsePrint(ls);
    }
  }

  lemma {:induction false} PrintConcat(a: seq<SigList>, b: seq<SigList>)
    ensures PrintLists(a + b) == PrintLists(a) + PrintLists(b)
  {
    if a == [] {
      assert a + b == b;
    } else {
      PrintConcat(a[1..], b);
      PrintCons(a[0], a[1..] + b);
      assert a + b == [a[0]] + (a[1..] + b);
      Assoc(PrintList(a[0]), PrintLists(a[1..]), PrintLists(b));
    }
  }

  /** Parsing a concatenation is concatenating the parses. */
  lemma ParseConcat(s: bytes, t: bytes)
    requires Complete(s) && Complete(t)
    ensures Complete(s + t)
    ensures Parse(s + t) == Parse(s) + Parse(t)
  {
    PrintParse(s);
    PrintParse(t);
    PrintConcat(Parse(s), Parse(t));
    ParsePrint(Parse(s) + Parse(t));
  }

  // Removing from new records the entries that already occur in old ones

  /** An entry together with what it is compared under: the type and entry size of its list. */
  datatype Item = Item(sigType: Guid, sigSize: nat, entry: bytes)

  function ListItems(sigType: Guid, sigSize: nat, es: seq<bytes>): (r: seq<Item>)
    ensures |r| == |es|
    ensures forall e :: e in es ==> Item(sigType, sigSize, e) in r
  {
    if es == [] then [] else [Item(sigType, sigSize, es[0])] + ListItems(sigType, sigSize, es[1..])
  }

  /** All entries of all records, in order. */
  function Items(ls: seq<SigList>): seq<Item> {
    if ls == [] then [] else ListItems(ls[0].sigType, ls[0].sigSize, ls[0].entries) + Items(ls[1..])
  }

  /** The elements of `a` that are not in `b`, in the order of `a`. */
  function Difference(a: seq<Item>, b: seq<Item>): seq<Item> {
    if a == [] then []
    else (if a[0] in b then [] else [a[0]]) + Difference(a[1..], b)
  }

  lemma {:induction false} DifferenceMembers(a: seq<Item>, b: seq<Item>, x: Item)
    ensures x in Difference(a, b) <==> x in a && x !in b
  {
    if a != [] {
      DifferenceMembers(a[1..], b, x);
    }
  }

  function Fresh(known: seq<Item>, sigType: Guid, sigSize: nat, es: seq<bytes>): (r: seq<bytes>)
    ensures |r| <= |es|
    ensures forall e :: e in r ==> e in es
  {
    if es == [] then []
    else (if Item(sigType, sigSize, es[0]) in known then [] else [es[0]]) + Fresh(known, sigType, sigSize, es[1..])
  }

  /** Each new record keeps its unknown entries; a record left without entries is dropped. */
  function FilterLists(known: seq<Item>, incoming: seq<SigList>): seq<SigList> {
    if incoming == [] then []
    else
      var l := incoming[0];
      var kept := Fresh(known, l.sigType, l.sigSize, l.entries);
      (if kept == [] then [] else [l.(entries := kept)]) + FilterLists(known, incoming[1..])
  }

  lemma {:induction false} FreshIsShorter(known: seq<Item>, sigType: Guid, sigSize: nat, es: seq<bytes>)
    ensures |Flatten(Fresh(known, sigType, sigSize, es))| <= |Flatten(es)|
  {
    if es != [] {
      FreshIsShorter(known, sigType, sigSize, es[1..]);
      var kept, rest := Fresh(known, sigType, sigSize, es), Fresh(known, sigType, sigSize, es[1..]);
      if Item(sigType, sigSize, es[0]) in known {
        assert kept == rest;
      } else {
        assert kept[0] == es[0] && kept[1..] == rest;
      }
    }
  }

  lemma {:induction false} FreshIsDifference(known: seq<Item>, sigType: Guid, sigSize: nat, es: seq<bytes>)
    ensures ListItems(sigType, sigSize, Fresh(known, sigType, sigSize, es))
            == Difference(ListItems(sigType, sigSize, es), known)
  {
    if es != [] {
      FreshIsDifference(known, sigType, sigSize, es[1..]);
      var kept := Fresh(known, sigType, sigSize, es);
      var rest := Fresh(known, sigType, sigSize, es[1..]);
      assert ListItems(sigType, sigSize, es)[1..] == ListItems(sigType, sigSize, es[1..]);
      if Item(sigType, sigSize, es[0]) in known {
        assert kept == rest;
      } else {
        assert kept[0] == es[0] && kept[1..] == rest;
      }
    }
  }

  lemma {:induction false} DifferenceConcat(a: seq<Item>, b: seq<Item>, c: seq<Item>)
    ensures Difference(a + b, c) == Difference(a, c) + Difference(b, c)
  {
    if a == [] {
      assert a + b == b;
    } else {
      DifferenceConcat(a[1..], b, c);
      var x := if a[0] in c then [] else [a[0]];
      assert (a + b)[1..] == a[1..] + b;
      assert x + (Difference(a[1..], c) + Difference(b, c)) == (x + Difference(a[1..], c)) + Difference(b, c);
    }
  }

  /** Filtering is set difference on the entries, in order; what remains are whole, non-empty records, no longer than before. */
  lemma {:induction false} FilterIsDifference(known: seq<Item>, incoming: seq<SigList>)
    requires WholeLists(incoming)
    ensures Items(FilterLists(known, incoming)) == Difference(Items(incoming), known)
    ensures WholeLists(FilterLists(known, incoming))
    ensures forall l <- FilterLists(known, incoming) :: l.entries != []
    ensures |PrintLists(FilterLists(known, incoming))| <= |PrintLists(incoming)|
  {
    if incoming != [] {
      var l := incoming[0];
      assert l in incoming;
      FilterIsDifference(known, incoming[1..]);
      FreshIsDifference(known, l.sigType, l.sigSize, l.entries);
      FreshIsShorter(known, l.sigType, l.sigSize, l.entries);
      DifferenceConcat(ListItems(l.sigType, l.sigSize, l.entries), Items(incoming[1..]), known);
      var kept := Fresh(known, l.sigType, l.sigSize, l.entries);
      var out, rest := FilterLists(known, incoming), FilterLists(known, incoming[1..]);
      if kept == [] {
        assert out == rest;
      } else {
        assert out[0] == l.(entries := kept) && out[1..] == rest;
        assert WholeList(l.(entries := kept));
      }
    }
  }

  lemma {:induction false} ItemsConcat(a: seq<SigList>, b: seq<SigList>)
    ensures Items(a + b) == Items(a) + Items(b)
  {
    if a == [] {
      assert a + b == b;
    } else {
      ItemsConcat(a[1..], b);
      PrintCons(a[0], a[1..] + b);
      assert a + b == [a[0]] + (a[1..] + b);
      Assoc(ListItems(a[0].sigType, a[0].sigSize, a[0].entries), Items(a[1..]), Items(b));
    }
  }

  lemma ListsHaveItems(ls: seq<SigList>)
    requires ls != [] && forall l <- ls :: l.entries != []
    ensures Items(ls) != []
  {
    assert ls[0] in ls;
  }

  /** The bytes an append adds: the new records without the entries already stored. */
  function FilterBytes(stored: bytes, added: bytes): bytes {
    if Complete(stored) && Complete(added) then PrintLists(FilterLists(Items(Parse(stored)), Parse(added))) else added
  }

  /** The output is complete, no longer than the input, and holds exactly the entries that were not stored before. */
  lemma FilterBytesMeaning(s: bytes, t: bytes)
    requires Complete(s) && Complete(t)
    ensures Complete(FilterBytes(s, t)) && |FilterBytes(s, t)| <= |t|
    ensures Parse(FilterBytes(s, t)) == FilterLists(Items(Parse(s)), Parse(t))
    ensures Items(Parse(FilterBytes(s, t))) == Difference(Items(Parse(t)), Items(Parse(s)))
    ensures forall l <- Parse(FilterBytes(s, t)) :: l.entries != []
  {
    PrintParse(t);
    FilterIsDifference(Items(Parse(s)), Parse(t));
    ParsePrint(FilterLists(Items(Parse(s)), Parse(t)));
  }

  lemma HasMember(s: seq<Item>)
    requires s != []
    ensures exists x :: x in s
  {
    assert s[0] in s;
  }

  /** Records whose every entry is stored leave nothing to append. */
  lemma FilterKnown(s: bytes, t: bytes)
    requires Complete(s) && Complete(t)
    requires forall x :: x in Items(Parse(t)) ==> x in Items(Parse(s))
    ensures FilterBytes(s, t) == []
  {
    FilterBytesMeaning(s, t);
    var left := Parse(FilterBytes(s, t));
    forall x
      ensures x !in Items(left)
    {
      DifferenceMembers(Items(Parse(t)), Items(Parse(s)), x);
    }
    if left != [] {
      ListsHaveItems(left);
      HasMember(Items(left));
    }
    PrintParse(FilterBytes(s, t));
  }

  /** Once the filtered records have been appended, filtering the same records again leaves nothing. */
  lemma FilterIdempotent(s: bytes, t: bytes)
    requires Complete(s) && Complete(t)
    ensures Complete(s + FilterBytes(s, t))
    ensures FilterBytes(s + FilterBytes(s, t), t) == []
  {
    var f := FilterBytes(s, t);
    FilterBytesMeaning(s, t);
    ParseConcat(s, f);
    ItemsConcat(Parse(s), Parse(f));
    forall x | x in Items(Parse(t))
      ensures x in Items(Parse(s + f))
    {
      DifferenceMembers(Items(Parse(t)), Items(Parse(s)), x);
    }
    FilterKnown(s + f, t);
  }
}
