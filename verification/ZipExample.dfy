/**
 Archives byte by byte, as sections 4.3.7, 4.3.12 and 4.3.16 of the PKWARE APPNOTE lay them out:
 the empty one, and one file named `a` that holds the digits 123456789.
 */
module ZipExample {
  import opened Bytes
  import opened Crc32
  import opened Zip
  import CrcDivision

  /** Four bytes, the least significant first. */
  lemma Word(v: nat, a: byte, b: byte, c: byte, d: byte)
    requires v == a + 0x100 * b + 0x1_0000 * c + 0x100_0000 * d
    ensures LittleEndian(v, 4) == [a, b, c, d]
  {
    FourBytes(v);
    assert v / 0x100 == b + 0x100 * c + 0x1_0000 * d;
    assert v / 0x100 / 0x100 == c + 0x100 * d;
  }

  lemma Half(v: nat, a: byte, b: byte)
    requires v == a + 0x100 * b
    ensures LittleEndian(v, 2) == [a, b]
  {
    assert v / 0x100 == b && v % 0x100 == a;
    assert LittleEndian(v, 2) == [a] + LittleEndian(b, 1);
    assert LittleEndian(b, 1) == [b] + LittleEndian(b / 256, 0);
  }

  lemma LocalStartBytes()
    ensures LocalStart() == [0x50, 0x4b, 3, 4] + [20, 0] + [0, 0, 0, 0, 0, 0, 0, 0]
  {
    Word(LOCAL_SIGNATURE, 0x50, 0x4b, 3, 4);
    Half(20, 20, 0);
  }

  lemma CentralStartBytes()
    ensures CentralStart() == [0x50, 0x4b, 1, 2] + [20, 0] + [20, 0] + [0, 0, 0, 0, 0, 0, 0, 0]
  {
    Word(CENTRAL_SIGNATURE, 0x50, 0x4b, 1, 2);
    Half(20, 20, 0);
  }

  lemma Ends(count: byte, size: byte, start: byte)
    ensures End(count, size, start)
         == [0x50, 0x4b, 5, 6, 0, 0, 0, 0, count, 0, count, 0, size, 0, 0, 0, start, 0, 0, 0, 0, 0]
  {
    Word(END_SIGNATURE, 0x50, 0x4b, 5, 6);
    Half(count, count, 0);
    Word(size, size, 0, 0, 0);
    Word(start, start, 0, 0, 0);
  }

  lemma EmptyArchive()
    ensures Archive([]) == [0x50, 0x4b, 5, 6, 0, 0, 0, 0, 0, 0, 0, 0, 0, 0, 0, 0, 0, 0, 0, 0, 0, 0]
  {
    Ends(0, 0, 0);
    assert Archive([]) == End(0, 0, 0);
  }

  /** Checksum, two sizes and length of the name. */
  const FACTS: seq<byte> := [0x26, 0x39, 0xf4, 0xcb, 9, 0, 0, 0, 9, 0, 0, 0, 1, 0]

  lemma DigitFacts(f: File)
    requires f.data == [49, 50, 51, 52, 53, 54, 55, 56, 57] && |f.name| == 1
    ensures Facts(f) == FACTS
  {
    CrcDivision.CheckValue(f.data);
    Word(Crc(f.data), 0x26, 0x39, 0xf4, 0xcb);
    Word(|f.data|, 9, 0, 0, 0);
    Half(|f.name|, 1, 0);
    assert Facts(f) == [0x26, 0x39, 0xf4, 0xcb] + [9, 0, 0, 0] + [9, 0, 0, 0] + [1, 0];
  }

  /** The local header and the file, the directory, and the end record. */
  lemma OneFileArchive(f: File)
    requires f.name == [97] && f.data == [49, 50, 51, 52, 53, 54, 55, 56, 57]
    ensures Archive([f])
         == ([0x50, 0x4b, 3, 4] + [20, 0] + [0, 0, 0, 0, 0, 0, 0, 0] + FACTS + [0, 0] + f.name + f.data)
          + ([0x50, 0x4b, 1, 2] + [20, 0] + [20, 0] + [0, 0, 0, 0, 0, 0, 0, 0] + FACTS
             + [0, 0, 0, 0, 0, 0, 0, 0, 0, 0, 0, 0] + [0, 0, 0, 0] + f.name)
          + [0x50, 0x4b, 5, 6, 0, 0, 0, 0, 1, 0, 1, 0, 47, 0, 0, 0, 40, 0, 0, 0, 0, 0]
  {
    OneFile(f, [f]);
    DigitFacts(f);
    LocalBytes(f);
    CentralBytes(f, 0);
    Ends(1, 47, 40);
  }

  lemma LocalBytes(f: File)
    requires Facts(f) == FACTS
    ensures Local(f) == [0x50, 0x4b, 3, 4] + [20, 0] + [0, 0, 0, 0, 0, 0, 0, 0] + FACTS + [0, 0] + f.name + f.data
  {
    LocalStartBytes();
  }

  lemma CentralBytes(f: File, offset: nat)
    requires Facts(f) == FACTS && offset == 0
    ensures Central(f, offset) == [0x50, 0x4b, 1, 2] + [20, 0] + [20, 0] + [0, 0, 0, 0, 0, 0, 0, 0] + FACTS
                                  + [0, 0, 0, 0, 0, 0, 0, 0, 0, 0, 0, 0] + [0, 0, 0, 0] + f.name
  {
    CentralStartBytes();
    Word(offset, 0, 0, 0, 0);
  }

  lemma OneFile(f: File, files: seq<File>)
    requires |f.name| == 1 && |f.data| == 9 && files == [f]
    ensures Archive(files) == Local(f) + Central(f, 0) + End(1, 47, 40)
  {
    OneLocal(f, files);
    OneCentral(f, files, 0);
  }

  lemma OneLocal(f: File, files: seq<File>)
    requires files == [f]
    ensures Locals(files) == Local(f)
  {
    assert files[1..] == [] && Local(f) + [] == Local(f);
  }

  lemma OneCentral(f: File, files: seq<File>, offset: nat)
    requires files == [f]
    ensures Centrals(files, offset) == Central(f, offset)
  {
    assert files[1..] == [] && Central(f, offset) + [] == Central(f, offset);
  }
}
