/**
 The ZIP writer of `make_zip` (`src/handlers/admin/export.cpp`): local file headers, central
 directory and end record as sections 4.3.7, 4.3.12 and 4.3.16 of the PKWARE APPNOTE lay them
 out, for stored (uncompressed) files.
 */
module Zip {
  import opened Bytes
  import opened Crc32

  datatype File = File(name: seq<byte>, data: seq<byte>)

  const LOCAL_SIGNATURE := 0x04034b50
  const CENTRAL_SIGNATURE := 0x02014b50
  const END_SIGNATURE := 0x06054b50
  const TWO_16: nat := 0x1_0000
  const TWO_32: nat := 0x1_0000_0000

  // ---- Records ----------------------------------------------------------------

  /** What both headers say about a file: checksum, two sizes, length of the name. */
  function Facts(f: File): (r: seq<byte>)
    ensures |r| == 14
  {
    LittleEndian(Crc(f.data), 4) + LittleEndian(|f.data|, 4) + LittleEndian(|f.data|, 4) + LittleEndian(|f.name|, 2)
  }

  function LocalStart(): (r: seq<byte>)
    ensures |r| == 14
  {
    LittleEndian(LOCAL_SIGNATURE, 4) + LittleEndian(20, 2) + [0, 0, 0, 0, 0, 0, 0, 0]
  }

  function CentralStart(): (r: seq<byte>)
    ensures |r| == 16
  {
    LittleEndian(CENTRAL_SIGNATURE, 4) + LittleEndian(20, 2) + LittleEndian(20, 2) + [0, 0, 0, 0, 0, 0, 0, 0]
  }

  const NO_EXTRA: seq<byte> := [0, 0]
  const NO_ATTRIBUTES: seq<byte> := [0, 0, 0, 0, 0, 0, 0, 0, 0, 0, 0, 0]

  function Local(f: File): (r: seq<byte>)
    ensures |r| == 30 + |f.name| + |f.data|
  {
    LocalStart() + Facts(f) + NO_EXTRA + f.name + f.data
  }

  function Central(f: File, offset: nat): (r: seq<byte>)
    ensures |r| == 46 + |f.name|
  {
    CentralStart() + Facts(f) + NO_ATTRIBUTES + LittleEndian(offset, 4) + f.name
  }

  function End(count: nat, size: nat, start: nat): (r: seq<byte>)
    ensures |r| == 22
  {
    LittleEndian(END_SIGNATURE, 4) + [0, 0, 0, 0] + LittleEndian(count, 2) + LittleEndian(count, 2)
    + LittleEndian(size, 4) + LittleEndian(start, 4) + [0, 0]
  }

  // ---- The archive ------------------------------------------------------------

  function Locals(files: seq<File>): seq<byte> {
    if files == [] then [] else Local(files[0]) + Locals(files[1..])
  }

  /** The running offset is a 32-bit variable. */
  function Centrals(files: seq<File>, offset: nat): seq<byte> {
    if files == [] then []
    else Central(files[0], offset) + Centrals(files[1..], (offset + |Local(files[0])|) % TWO_32)
  }

  function Archive(files: seq<File>): seq<byte> {
    var locals, centrals := Locals(files), Centrals(files, 0);
    locals + centrals + End(|files|, |centrals|, |locals|)
  }

  // ---- Writing ----------------------------------------------------------------

  method WriteLe16(o: seq<byte>, v: nat) returns (r: seq<byte>)
    ensures r == o + LittleEndian(v, 2)
  {
    r := o + [v % 256];
    r := r + [v / 256 % 256];
    assert LittleEndian(v, 2) == [v % 256] + LittleEndian(v / 256, 1);
    assert LittleEndian(v / 256, 1) == [v / 256 % 256] + LittleEndian(v / 256 / 256, 0);
  }

  method WriteLe32(o: seq<byte>, v: nat) returns (r: seq<byte>)
    ensures r == o + LittleEndian(v, 4)
  {
    r := o + [v % 256];
    r := r + [v / 256 % 256];
    r := r + [v / 256 / 256 % 256];
    r := r + [v / 256 / 256 / 256 % 256];
    FourBytes(v);
  }

  lemma FourBytes(v: nat)
    ensures LittleEndian(v, 4) == [v % 256, v / 256 % 256, v / 256 / 256 % 256, v / 256 / 256 / 256 % 256]
  {
    var v1 := v / 256;
    var v2 := v1 / 256;
    var v3 := v2 / 256;
    assert LittleEndian(v3, 1) == [v3 % 256] + LittleEndian(v3 / 256, 0) == [v3 % 256];
    assert LittleEndian(v2, 2) == [v2 % 256] + LittleEndian(v3, 1);
    assert LittleEndian(v1, 3) == [v1 % 256] + LittleEndian(v2, 2);
  }

  method WriteFacts(o: seq<byte>, f: File, crc: word) returns (r: seq<byte>)
    requires crc == Crc(f.data)
    ensures r == o + Facts(f)
  {
    r := WriteLe32(o, crc);
    r := WriteLe32(r, |f.data|);
    r := WriteLe32(r, |f.data|);
    r := WriteLe16(r, |f.name|);
    FactsParts(o, f);
  }

  lemma FactsParts(o: seq<byte>, f: File)
    ensures o + LittleEndian(Crc(f.data), 4) + LittleEndian(|f.data|, 4) + LittleEndian(|f.data|, 4) + LittleEndian(|f.name|, 2)
            == o + Facts(f)
  {
  }

  lemma Zeros(k: nat)
    ensures k == 2 ==> LittleEndian(0, k) == [0, 0]
    ensures k == 4 ==> LittleEndian(0, k) == [0, 0, 0, 0]
  {
    assert LittleEndian(0, 1) == [0] + LittleEndian(0, 0) == [0];
    assert LittleEndian(0, 2) == [0] + LittleEndian(0, 1) == [0, 0];
    assert LittleEndian(0, 3) == [0] + LittleEndian(0, 2) == [0, 0, 0];
    assert LittleEndian(0, 4) == [0] + LittleEndian(0, 3);
  }

  method WriteZeros16(o: seq<byte>, count: nat) returns (r: seq<byte>)
    ensures |r| == |o| + 2 * count && r[..|o|] == o && forall i :: |o| <= i < |r| ==> r[i] == 0
  {
    r := o;
    Zeros(2);
    for i := 0 to count
      invariant |r| == |o| + 2 * i && r[..|o|] == o && forall j :: |o| <= j < |r| ==> r[j] == 0
    {
      r := WriteLe16(r, 0);
    }
  }

  method WriteLocal(o: seq<byte>, f: File, crc: word) returns (r: seq<byte>)
    requires crc == Crc(f.data)
    ensures r == o + Local(f)
  {
    r := WriteLe32(o, LOCAL_SIGNATURE);
    r := WriteLe16(r, 20);
    ghost var start := r;
    r := WriteZeros16(r, 4);
    assert r == start + [0, 0, 0, 0, 0, 0, 0, 0];
    assert r == o + LocalStart();
    r := WriteFacts(r, f, crc);
    Zeros(2);
    r := WriteLe16(r, 0);
    r := r + f.name;
    r := r + f.data;
    LocalParts(o, LocalStart(), Facts(f), f);
  }

  lemma LocalParts(o: seq<byte>, start: seq<byte>, facts: seq<byte>, f: File)
    ensures o + start + facts + NO_EXTRA + f.name + f.data == o + (start + facts + NO_EXTRA + f.name + f.data)
  {
  }

  method WriteCentral(o: seq<byte>, f: File, crc: word, offset: nat) returns (r: seq<byte>)
    requires crc == Crc(f.data)
    ensures r == o + Central(f, offset)
  {
    r := WriteLe32(o, CENTRAL_SIGNATURE);
    r := WriteLe16(r, 20);
    r := WriteLe16(r, 20);
    ghost var start := r;
    r := WriteZeros16(r, 4);
    assert r == start + [0, 0, 0, 0, 0, 0, 0, 0];
    assert r == o + CentralStart();
    r := WriteFacts(r, f, crc);
    r := WriteCentralTail(r, offset);
    r := r + f.name;
    CentralParts(o, f, offset);
  }

  method WriteCentralTail(o: seq<byte>, offset: nat) returns (r: seq<byte>)
    ensures r == o + NO_ATTRIBUTES + LittleEndian(offset, 4)
  {
    r := WriteZeros16(o, 6);
    assert r == o + NO_ATTRIBUTES;
    r := WriteLe32(r, offset);
  }

  lemma CentralParts(o: seq<byte>, f: File, offset: nat)
    ensures o + CentralStart() + Facts(f) + NO_ATTRIBUTES + LittleEndian(offset, 4) + f.name == o + Central(f, offset)
  {
  }

  method WriteEnd(o: seq<byte>, count: nat, size: nat, start: nat) returns (r: seq<byte>)
    ensures r == o + End(count, size, start)
  {
    r := WriteLe32(o, END_SIGNATURE);
    ghost var signed := r;
    r := WriteZeros16(r, 2);
    assert r == signed + [0, 0, 0, 0];
    r := WriteLe16(r, count);
    r := WriteLe16(r, count);
    r := WriteLe32(r, size);
    r := WriteLe32(r, start);
    Zeros(2);
    r := WriteLe16(r, 0);
    EndParts(o, LittleEndian(count, 2), LittleEndian(size, 4), LittleEndian(start, 4));
  }

  lemma EndParts(o: seq<byte>, c: seq<byte>, s: seq<byte>, t: seq<byte>)
    ensures var sig, zeros, z := LittleEndian(END_SIGNATURE, 4), [0, 0, 0, 0], [0, 0];
            o + sig + zeros + c + c + s + t + z == o + (sig + zeros + c + c + s + t + z)
  {
  }

  lemma Regroup(a: seq<byte>, b: seq<byte>, c: seq<byte>)
    ensures a + (b + c) == (a + b) + c
  {
  }

  method MakeZip(files: seq<File>) returns (out: seq<byte>)
    ensures out == Archive(files)
  {
    var central;
    out, central := WriteFiles(files);
    var start, size := |out|, |central|;
    out := out + central;
    out := WriteEnd(out, |files|, size, start);
  }

  /** The loop over the files, with its running offset. */
  method WriteFiles(files: seq<File>) returns (out: seq<byte>, central: seq<byte>)
    ensures out == Locals(files) && central == Centrals(files, 0)
  {
    out, central := [], [];
    var offset: nat := 0;
    assert files[0..] == files;
    for i := 0 to |files|
      invariant out + Locals(files[i..]) == Locals(files)
      invariant central + Centrals(files[i..], offset) == Centrals(files, 0)
    {
      var f := files[i];
      ghost var rest := files[i + 1..];
      assert files[i..][1..] == rest;
      var crc := Crc32Raw(f.data);
      ghost var next := (offset + |Local(f)|) % TWO_32;
      Regroup(out, Local(f), Locals(rest));
      Regroup(central, Central(f, offset), Centrals(rest, next));
      var lh := |out|;
      out := WriteLocal(out, f, crc);
      central := WriteCentral(central, f, crc, offset);
      offset := (offset + (|out| - lh)) % TWO_32;
    }
    assert files[|files|..] == [];
  }
}
