/**
 A reader of stored ZIP archives that starts at the end record and follows the stored
 offsets, and what it recovers from the archives the writer makes.
 */
module ZipReader {
  import opened Bytes
  import opened Crc32
  import opened Wrappers
  import opened Zip

  datatype Item = Item(name: seq<byte>, data: seq<byte>, size: nat, crc: nat)

  function ItemOf(f: File): Item {
    Item(f.name, f.data, |f.data|, Crc(f.data))
  }

  function Items(files: seq<File>): seq<Item> {
    if files == [] then [] else [ItemOf(files[0])] + Items(files[1..])
  }

  // ---- Reading ----------------------------------------------------------------

  /** A little-endian field of k bytes. */
  function Field(bytes: seq<byte>, at: nat, k: nat): nat
    requires at + k <= |bytes|
  {
    FromLittle(bytes[at..at + k])
  }

  /** The data of the file whose local header is at the offset. */
  function ReadLocal(bytes: seq<byte>, at: nat, size: nat): Option<seq<byte>> {
    if at + 30 > |bytes| || Field(bytes, at, 4) != LOCAL_SIGNATURE then None else
    var start := at + 30 + Field(bytes, at + 26, 2) + Field(bytes, at + 28, 2);
    if start + size > |bytes| then None else Some(bytes[start..start + size])
  }

  /** One entry of the central directory, checked against its data; and where the next is. */
  function ReadEntry(bytes: seq<byte>, at: nat): Option<(Item, nat)> {
    if at + 46 > |bytes| || Field(bytes, at, 4) != CENTRAL_SIGNATURE then None else
    var nameLen := Field(bytes, at + 28, 2);
    if at + 46 + nameLen > |bytes| then None else
    var crc, size := Field(bytes, at + 16, 4), Field(bytes, at + 20, 4);
    match ReadLocal(bytes, Field(bytes, at + 42, 4), size)
    case None => None
    case Some(data) =>
      if Crc(data) != crc then None
      else Some((Item(bytes[at + 46..at + 46 + nameLen], data, size, crc),
                 at + 46 + nameLen + Field(bytes, at + 30, 2) + Field(bytes, at + 32, 2)))
  }

  /** That many entries, one after the other, each read at its position. */
  function ReadEntries(entry: nat -> Option<(Item, nat)>, at: nat, count: nat): Option<seq<Item>>
    decreases count
  {
    if count == 0 then Some([]) else
    match entry(at)
    case None => None
    case Some((item, next)) =>
      match ReadEntries(entry, next, count - 1)
      case None => None
      case Some(rest) => Some([item] + rest)
  }

  function EntriesOf(bytes: seq<byte>): nat -> Option<(Item, nat)> {
    (at: nat) => ReadEntry(bytes, at)
  }

  function Read(bytes: seq<byte>): Option<seq<Item>> {
    if |bytes| < 22 || Field(bytes, |bytes| - 22, 4) != END_SIGNATURE then None
    else ReadEntries(EntriesOf(bytes), Field(bytes, |bytes| - 6, 4), Field(bytes, |bytes| - 12, 2))
  }

  // ---- Fields of the records --------------------------------------------------

  /** The record stands at the position. */
  predicate At(bytes: seq<byte>, at: nat, record: seq<byte>) {
    at + |record| <= |bytes| && bytes[at..at + |record|] == record
  }

  lemma PartAt(bytes: seq<byte>, at: nat, a: seq<byte>, b: seq<byte>)
    requires At(bytes, at, a + b)
    ensures At(bytes, at, a) && At(bytes, at + |a|, b)
  {
    assert bytes[at..at + |a + b|][..|a|] == bytes[at..at + |a|] == a;
    assert bytes[at..at + |a + b|][|a|..] == bytes[at + |a|..at + |a| + |b|] == b;
  }

  lemma FieldReads(bytes: seq<byte>, at: nat, v: nat, k: nat)
    requires At(bytes, at, LittleEndian(v, k)) && v < Pow256(k)
    ensures Field(bytes, at, k) == v
  {
    LittleEndianExact(v, k);
  }

  lemma Powers()
    ensures Pow256(2) == TWO_16 && Pow256(4) == TWO_32
  {
  }

  predicate Storable(f: File) {
    |f.name| < TWO_16 && |f.data| < TWO_32
  }

  lemma FactsRead(bytes: seq<byte>, at: nat, f: File)
    requires At(bytes, at, Facts(f)) && Storable(f)
    ensures Field(bytes, at, 4) == Crc(f.data) && Field(bytes, at + 4, 4) == |f.data| && Field(bytes, at + 12, 2) == |f.name|
  {
    Powers();
    var crc, size, name := LittleEndian(Crc(f.data), 4), LittleEndian(|f.data|, 4), LittleEndian(|f.name|, 2);
    PartAt(bytes, at, crc + size + size, name);
    PartAt(bytes, at, crc + size, size);
    PartAt(bytes, at, crc, size);
    FieldReads(bytes, at, Crc(f.data), 4);
    FieldReads(bytes, at + 4, |f.data|, 4);
    FieldReads(bytes, at + 12, |f.name|, 2);
  }

  lemma LocalParts(bytes: seq<byte>, at: nat, f: File)
    requires At(bytes, at, Local(f))
    ensures At(bytes, at, LocalStart()) && At(bytes, at + 14, Facts(f)) && At(bytes, at + 28, NO_EXTRA)
    ensures At(bytes, at + 30, f.name) && At(bytes, at + 30 + |f.name|, f.data)
  {
    PartAt(bytes, at, LocalStart() + Facts(f) + NO_EXTRA + f.name, f.data);
    PartAt(bytes, at, LocalStart() + Facts(f) + NO_EXTRA, f.name);
    PartAt(bytes, at, LocalStart() + Facts(f), NO_EXTRA);
    PartAt(bytes, at, LocalStart(), Facts(f));
  }

  lemma LocalReads(bytes: seq<byte>, at: nat, f: File)
    requires At(bytes, at, Local(f)) && Storable(f)
    ensures ReadLocal(bytes, at, |f.data|) == Some(f.data)
  {
    LocalParts(bytes, at, f);
    FactsRead(bytes, at + 14, f);
    SignatureReads(bytes, at, LOCAL_SIGNATURE, LittleEndian(20, 2), [0, 0, 0, 0, 0, 0, 0, 0]);
    Zeros(2);
    FieldReads(bytes, at + 28, 0, 2);
    LocalFrom(bytes, at, f);
  }

  /** The data of a file, given the fields of its header. */
  lemma LocalFrom(bytes: seq<byte>, at: nat, f: File)
    requires At(bytes, at + 30 + |f.name|, f.data) && Field(bytes, at, 4) == LOCAL_SIGNATURE
    requires Field(bytes, at + 26, 2) == |f.name| && Field(bytes, at + 28, 2) == 0
    ensures ReadLocal(bytes, at, |f.data|) == Some(f.data)
  {
  }

  lemma SignatureReads(bytes: seq<byte>, at: nat, signature: nat, a: seq<byte>, b: seq<byte>)
    requires At(bytes, at, LittleEndian(signature, 4) + a + b) && signature < TWO_32
    ensures Field(bytes, at, 4) == signature
  {
    Powers();
    PartAt(bytes, at, LittleEndian(signature, 4) + a, b);
    PartAt(bytes, at, LittleEndian(signature, 4), a);
    FieldReads(bytes, at, signature, 4);
  }

  lemma CentralParts(bytes: seq<byte>, at: nat, f: File, offset: nat)
    requires At(bytes, at, Central(f, offset))
    ensures At(bytes, at, CentralStart()) && At(bytes, at + 16, Facts(f)) && At(bytes, at + 30, NO_ATTRIBUTES)
    ensures At(bytes, at + 42, LittleEndian(offset, 4)) && At(bytes, at + 46, f.name)
  {
    var start, facts, off := CentralStart(), Facts(f), LittleEndian(offset, 4);
    PartAt(bytes, at, start + facts + NO_ATTRIBUTES + off, f.name);
    PartAt(bytes, at, start + facts + NO_ATTRIBUTES, off);
    PartAt(bytes, at, start + facts, NO_ATTRIBUTES);
    PartAt(bytes, at, start, facts);
  }

  lemma CentralFields(bytes: seq<byte>, at: nat, f: File, offset: nat)
    requires At(bytes, at, Central(f, offset)) && Storable(f) && offset < TWO_32
    ensures Field(bytes, at, 4) == CENTRAL_SIGNATURE && Field(bytes, at + 16, 4) == Crc(f.data)
    ensures Field(bytes, at + 20, 4) == |f.data| && Field(bytes, at + 28, 2) == |f.name|
    ensures Field(bytes, at + 30, 2) == 0 && Field(bytes, at + 32, 2) == 0 && Field(bytes, at + 42, 4) == offset
    ensures At(bytes, at + 46, f.name)
  {
    Powers();
    CentralParts(bytes, at, f, offset);
    FieldReads(bytes, at + 42, offset, 4);
    ZeroFields(bytes, at + 30);
    FactsRead(bytes, at + 16, f);
    SignatureReads(bytes, at, CENTRAL_SIGNATURE, LittleEndian(20, 2) + LittleEndian(20, 2), [0, 0, 0, 0, 0, 0, 0, 0]);
  }

  lemma ZeroFields(bytes: seq<byte>, at: nat)
    requires At(bytes, at, NO_ATTRIBUTES)
    ensures Field(bytes, at, 2) == 0 && Field(bytes, at + 2, 2) == 0
  {
    assert NO_ATTRIBUTES == [0, 0] + [0, 0] + [0, 0, 0, 0, 0, 0, 0, 0];
    PartAt(bytes, at, [0, 0] + [0, 0], [0, 0, 0, 0, 0, 0, 0, 0]);
    PartAt(bytes, at, [0, 0], [0, 0]);
    Zeros(2);
    Powers();
    FieldReads(bytes, at, 0, 2);
    FieldReads(bytes, at + 2, 0, 2);
  }

  function AfterCentral(f: File, at: nat): nat {
    at + 46 + |f.name|
  }

  lemma EntryReads(bytes: seq<byte>, at: nat, f: File, offset: nat)
    requires At(bytes, at, Central(f, offset)) && At(bytes, offset, Local(f)) && Storable(f) && offset < TWO_32
    ensures EntriesOf(bytes)(at) == Some((ItemOf(f), AfterCentral(f, at)))
  {
    CentralFields(bytes, at, f, offset);
    LocalReads(bytes, offset, f);
    assert |Central(f, offset)| == 46 + |f.name|;
    EntryFrom(bytes, at, f, offset);
  }

  /** An entry, given its fields. */
  lemma EntryFrom(bytes: seq<byte>, at: nat, f: File, offset: nat)
    requires at + 46 + |f.name| <= |bytes| && At(bytes, at + 46, f.name)
    requires Field(bytes, at, 4) == CENTRAL_SIGNATURE && Field(bytes, at + 16, 4) == Crc(f.data)
    requires Field(bytes, at + 20, 4) == |f.data| && Field(bytes, at + 28, 2) == |f.name|
    requires Field(bytes, at + 30, 2) == 0 && Field(bytes, at + 32, 2) == 0 && Field(bytes, at + 42, 4) == offset
    requires ReadLocal(bytes, offset, |f.data|) == Some(f.data)
    ensures EntriesOf(bytes)(at) == Some((ItemOf(f), AfterCentral(f, at)))
  {
  }

  // ---- Whole archives ---------------------------------------------------------

  lemma NoWrap(n: nat)
    requires n < TWO_32
    ensures n % TWO_32 == n
  {
  }

  predicate AllStorable(files: seq<File>) {
    files == [] || (Storable(files[0]) && AllStorable(files[1..]))
  }

  /** The entries read from a position on are those of the files. */
  predicate Yields(entry: nat -> Option<(Item, nat)>, files: seq<File>, at: nat)
    decreases |files|
  {
    files == []
    || (entry(at) == Some((ItemOf(files[0]), AfterCentral(files[0], at)))
        && Yields(entry, files[1..], AfterCentral(files[0], at)))
  }

  /** A directory from `at` on for files that stand from `offset` on. */
  predicate Linked(bytes: seq<byte>, files: seq<File>, at: nat, offset: nat) {
    && AllStorable(files) && offset + |Locals(files)| < TWO_32
    && At(bytes, at, Centrals(files, offset)) && At(bytes, offset, Locals(files))
  }

  function AfterLocal(f: File, offset: nat): nat {
    offset + 30 + |f.name| + |f.data|
  }

  lemma CentralsSplit(files: seq<File>, offset: nat)
    requires files != [] && offset + |Local(files[0])| < TWO_32
    ensures Centrals(files, offset) == Central(files[0], offset) + Centrals(files[1..], AfterLocal(files[0], offset))
  {
    var next := AfterLocal(files[0], offset);
    LocalEnds(files[0], offset);
    NoWrap(next);
    CentralsStep(files, offset, next);
  }

  lemma LocalEnds(f: File, offset: nat)
    ensures offset + |Local(f)| == AfterLocal(f, offset)
  {
  }

  lemma CentralsStep(files: seq<File>, offset: nat, next: nat)
    requires files != [] && next == (offset + |Local(files[0])|) % TWO_32
    ensures Centrals(files, offset) == Central(files[0], offset) + Centrals(files[1..], next)
  {
  }

  lemma CentralsHead(bytes: seq<byte>, files: seq<File>, at: nat, offset: nat)
    requires files != [] && At(bytes, at, Centrals(files, offset)) && offset + |Local(files[0])| < TWO_32
    ensures At(bytes, at, Central(files[0], offset))
    ensures At(bytes, AfterCentral(files[0], at), Centrals(files[1..], AfterLocal(files[0], offset)))
  {
    CentralsSplit(files, offset);
    PartAt(bytes, at, Central(files[0], offset), Centrals(files[1..], AfterLocal(files[0], offset)));
  }

  lemma LocalsHead(bytes: seq<byte>, files: seq<File>, offset: nat)
    requires files != [] && At(bytes, offset, Locals(files))
    ensures At(bytes, offset, Local(files[0])) && At(bytes, AfterLocal(files[0], offset), Locals(files[1..]))
    ensures |Locals(files)| == |Local(files[0])| + |Locals(files[1..])|
  {
    PartAt(bytes, offset, Local(files[0]), Locals(files[1..]));
  }

  /** What follows the first entry and its file. */
  lemma TailLinked(bytes: seq<byte>, files: seq<File>, at: nat, offset: nat)
    requires files != [] && Linked(bytes, files, at, offset)
    ensures At(bytes, at, Central(files[0], offset)) && At(bytes, offset, Local(files[0]))
    ensures Linked(bytes, files[1..], AfterCentral(files[0], at), AfterLocal(files[0], offset))
  {
    LocalsHead(bytes, files, offset);
    CentralsHead(bytes, files, at, offset);
  }

  /** Following links step by step. */
  ghost predicate Follows(entry: nat -> Option<(Item, nat)>, linked: (seq<File>, nat, nat) -> bool) {
    forall files: seq<File>, at: nat, offset: nat :: files != [] && linked(files, at, offset) ==>
      && entry(at) == Some((ItemOf(files[0]), AfterCentral(files[0], at)))
      && linked(files[1..], AfterCentral(files[0], at), AfterLocal(files[0], offset))
  }

  lemma {:induction false} LinksYield(entry: nat -> Option<(Item, nat)>, linked: (seq<File>, nat, nat) -> bool,
                                      files: seq<File>, at: nat, offset: nat)
    requires Follows(entry, linked) && linked(files, at, offset)
    ensures Yields(entry, files, at)
    decreases |files|
  {
    if files != [] {
      LinksYield(entry, linked, files[1..], AfterCentral(files[0], at), AfterLocal(files[0], offset));
    }
  }

  /** The directory leads to the files. */
  lemma DirectoryYields(bytes: seq<byte>, files: seq<File>, at: nat, offset: nat)
    requires Linked(bytes, files, at, offset)
    ensures Yields(EntriesOf(bytes), files, at)
  {
    var linked := (fs: seq<File>, a: nat, o: nat) => Linked(bytes, fs, a, o);
    forall fs: seq<File>, a: nat, o: nat | fs != [] && linked(fs, a, o)
      ensures EntriesOf(bytes)(a) == Some((ItemOf(fs[0]), AfterCentral(fs[0], a)))
      ensures linked(fs[1..], AfterCentral(fs[0], a), AfterLocal(fs[0], o))
    {
      TailLinked(bytes, fs, a, o);
      EntryReads(bytes, a, fs[0], o);
    }
    LinksYield(EntriesOf(bytes), linked, files, at, offset);
  }

  lemma {:induction false} EntriesRead(entry: nat -> Option<(Item, nat)>, files: seq<File>, at: nat, count: nat)
    requires count <= |files| && Yields(entry, files, at)
    ensures ReadEntries(entry, at, count) == Some(Items(files[..count]))
    decreases count
  {
    if count > 0 {
      EntriesRead(entry, files[1..], AfterCentral(files[0], at), count - 1);
      ItemsStep(files, count);
    }
  }

  lemma ItemsStep(files: seq<File>, count: nat)
    requires 0 < count <= |files|
    ensures Items(files[..count]) == [ItemOf(files[0])] + Items(files[1..][..count - 1])
  {
    assert files[..count][1..] == files[1..][..count - 1];
  }

  lemma EndReads(bytes: seq<byte>, at: nat, count: nat, size: nat, start: nat)
    requires At(bytes, at, End(count, size, start)) && start < TWO_32
    ensures Field(bytes, at, 4) == END_SIGNATURE && Field(bytes, at + 10, 2) == count % TWO_16
    ensures Field(bytes, at + 16, 4) == start
  {
    Powers();
    var sig, zeros := LittleEndian(END_SIGNATURE, 4), [0, 0, 0, 0];
    var c, s, o := LittleEndian(count, 2), LittleEndian(size, 4), LittleEndian(start, 4);
    PartAt(bytes, at, sig + zeros + c + c + s + o, [0, 0]);
    PartAt(bytes, at, sig + zeros + c + c + s, o);
    FieldReads(bytes, at + 16, start, 4);
    PartAt(bytes, at, sig + zeros + c + c, s);
    PartAt(bytes, at, sig + zeros + c, c);
    LittleEndianRoundTrip(count, 2);
    SignatureReads(bytes, at, END_SIGNATURE, zeros, c);
  }

  lemma AtParts(a: seq<byte>, b: seq<byte>, c: seq<byte>)
    ensures At(a + b + c, 0, a) && At(a + b + c, |a|, b) && At(a + b + c, |a| + |b|, c)
  {
  }

  predicate ShortNames(files: seq<File>) {
    files == [] || (|files[0].name| < TWO_16 && ShortNames(files[1..]))
  }

  lemma {:induction false} SmallIsStorable(files: seq<File>)
    requires |Locals(files)| < TWO_32 && ShortNames(files)
    ensures AllStorable(files)
  {
    if files != [] {
      SmallIsStorable(files[1..]);
    }
  }

  lemma ReadsAt(bytes: seq<byte>, count: nat, size: nat, start: nat)
    requires |bytes| >= 22 && At(bytes, |bytes| - 22, End(count, size, start)) && start < TWO_32
    ensures Read(bytes) == ReadEntries(EntriesOf(bytes), start, count % TWO_16)
  {
    EndReads(bytes, |bytes| - 22, count, size, start);
  }

  /** What a reader gets back: as many files as the 16-bit count says, exactly as they were. */
  lemma ArchiveReads(files: seq<File>)
    requires |Archive(files)| < TWO_32 && ShortNames(files)
    ensures Read(Archive(files)) == Some(Items(files[..|files| % TWO_16]))
  {
    var locals, centrals := Locals(files), Centrals(files, 0);
    var end := End(|files|, |centrals|, |locals|);
    AtParts(locals, centrals, end);
    SmallIsStorable(files);
    ReadsAt(Archive(files), |files|, |centrals|, |locals|);
    Remainder(|files|);
    DirectoryYields(Archive(files), files, |locals|, 0);
    EntriesRead(EntriesOf(Archive(files)), files, |locals|, |files| % TWO_16);
  }

  lemma {:induction false} ItemsLength(files: seq<File>)
    ensures |Items(files)| == |files|
  {
    if files != [] {
      ItemsLength(files[1..]);
    }
  }

  lemma SameItems(r: Option<seq<Item>>, files: seq<File>, n: nat)
    requires n <= |files| && r == Some(Items(files[..n]))
    ensures r == Some(Items(files)) <==> n == |files|
  {
    ItemsLength(files);
    ItemsLength(files[..n]);
    assert n == |files| ==> files[..n] == files;
  }

  lemma Remainder(n: nat)
    ensures n % TWO_16 <= n && (n % TWO_16 == n <==> n < TWO_16)
  {
  }

  /** Reading gives back all the files, in order, exactly when their number fits its field. */
  lemma RoundTrip(files: seq<File>)
    requires |Archive(files)| < TWO_32 && ShortNames(files)
    ensures Read(Archive(files)) == Some(Items(files)) <==> |files| < TWO_16
  {
    ArchiveReads(files);
    Remainder(|files|);
    SameItems(Read(Archive(files)), files, |files| % TWO_16);
  }
}
