/** Reading and validating sketch artifacts (unoq_ota/artifact.py). */
module Artifact {
  import opened Wrappers

  const HEADER_OFFSET := 7
  const SKETCH_MAGIC := 0x2341
  const SMALLEST_ELF := 52

  datatype Header = Header(ver: byte, length: nat, magic: nat, flags: byte)

  /** `struct.unpack_from("<H", data, at)`. */
  function Le16(data: Bytes, at: nat): nat
    requires at + 2 <= |data|
  {
    data[at] as int + 0x100 * data[at + 1] as int
  }

  /** `struct.unpack_from("<I", data, at)`. */
  function Le32(data: Bytes, at: nat): nat
    requires at + 4 <= |data|
  {
    Le16(data, at) + 0x1_0000 * Le16(data, at + 2)
  }

  /** `struct.pack("<H", n)`. */
  function Pack16(n: nat): (r: Bytes)
    requires n < 0x1_0000
    ensures |r| == 2 && Le16(r, 0) == n
  {
    [n % 0x100, n / 0x100]
  }

  /** `struct.pack("<I", n)`. */
  function Pack32(n: nat): (r: Bytes)
    requires n < 0x1_0000_0000
    ensures |r| == 4 && Le32(r, 0) == n
  {
    Pack16(n % 0x1_0000) + Pack16(n / 0x1_0000)
  }

  lemma Unpack16(data: Bytes, at: nat)
    requires at + 2 <= |data|
    ensures Le16(data, at) < 0x1_0000 && Pack16(Le16(data, at)) == [data[at], data[at + 1]]
  {
  }

  /** Four bytes are the packing of the number they are read as, wherever they stand. */
  lemma UnpackThenPack(data: Bytes, at: nat)
    requires at + 4 <= |data|
    ensures Le32(data, at) < 0x1_0000_0000 && Pack32(Le32(data, at)) == data[at..at + 4]
  {
    Unpack16(data, at);
    Unpack16(data, at + 2);
    assert Le32(data, at) % 0x1_0000 == Le16(data, at) && Le32(data, at) / 0x1_0000 == Le16(data, at + 2);
    assert data[at..at + 4] == [data[at], data[at + 1]] + [data[at + 2], data[at + 3]];
  }

  /** FLAG_WAIT_FOR_APP is bit 3. */
  predicate WaitsForApp(flags: byte) {
    flags as int / 8 % 2 == 1
  }

  /** `parse_header`: None where it raises ArtifactError. */
  function ParseHeader(data: Bytes): Option<Header> {
    if |data| < HEADER_OFFSET + 8 then None
    else Some(Header(data[HEADER_OFFSET], Le32(data, 8), Le16(data, 12), data[14]))
  }

  function TableEnd(data: Bytes): int
    requires |data| >= SMALLEST_ELF
  {
    Le32(data, 32) + Le16(data, 48) * Le16(data, 46)
  }

  /** `load_artifact` on bytes it could read: true where it returns, false where it raises ArtifactError. */
  predicate Loads(data: Bytes) {
    && |data| >= SMALLEST_ELF
    && var header := ParseHeader(data).value;
       && header.ver == 1
       && header.magic == SKETCH_MAGIC
       && !WaitsForApp(header.flags)
       && header.length == |data|
       && TableEnd(data) == |data|
  }

  /** The number that bytes denote, least significant first. */
  function Number(bytes: Bytes): nat {
    if bytes == [] then 0 else bytes[0] as int + 0x100 * Number(bytes[1..])
  }

  lemma FirstByte(data: Bytes, i: nat, j: nat)
    requires i < j <= |data|
    ensures Number(data[i..j]) == data[i] as int + 0x100 * Number(data[i + 1..j])
  {
    assert data[i..j][1..] == data[i + 1..j];
  }

  lemma ReadsTwo(data: Bytes, at: nat)
    requires at + 2 <= |data|
    ensures Number(data[at..at + 2]) == Le16(data, at)
  {
    FirstByte(data, at, at + 2);
    FirstByte(data, at + 1, at + 2);
    assert data[at + 2..at + 2] == [];
  }

  lemma ReadsFour(data: Bytes, at: nat)
    requires at + 4 <= |data|
    ensures Number(data[at..at + 4]) == Le32(data, at)
  {
    FirstByte(data, at, at + 4);
    FirstByte(data, at + 1, at + 4);
    ReadsTwo(data, at + 2);
  }

  /**
    An artifact, byte by byte: at offset 7 the header's version 1, the file's own length, the magic, and flags that do
    not ask the loader to wait for an application; and a section table that ends where the file ends.
   */
  ghost predicate IsArtifact(data: Bytes) {
    && |data| >= 52
    && data[7] == 1 && Number(data[8..12]) == |data|
    && data[12] == 0x41 && data[13] == 0x23 && data[14] % 16 < 8
    && Number(data[32..36]) + Number(data[48..50]) * Number(data[46..48]) == |data|
  }

  lemma LoadsIffArtifact(data: Bytes)
    ensures Loads(data) <==> IsArtifact(data)
  {
    if |data| >= SMALLEST_ELF {
      ReadsFour(data, 8);
      ReadsFour(data, 32);
      ReadsTwo(data, 46);
      ReadsTwo(data, 48);
      assert WaitsForApp(data[14]) <==> data[14] % 16 >= 8;
      assert Le16(data, 12) == SKETCH_MAGIC <==> data[12] == 0x41 && data[13] == 0x23;
    }
  }

  /** The header depends on the first fifteen bytes and on nothing after them. */
  lemma HeaderIsInTheFirstBytes(data: Bytes, rest: Bytes)
    requires |data| >= HEADER_OFFSET + 8
    ensures ParseHeader(data[..HEADER_OFFSET + 8] + rest) == ParseHeader(data)
  {
    var other := data[..HEADER_OFFSET + 8] + rest;
    assert forall i :: 0 <= i < HEADER_OFFSET + 8 ==> other[i] == data[i];
  }

  /**
    The whole-file identity makes accepted artifacts prefix-free: whatever is cut off the end of one, or added
    to it, the result is refused.
   */
  lemma AcceptedArtifactsArePrefixFree(short: Bytes, rest: Bytes)
    requires Loads(short) && rest != []
    ensures !Loads(short + rest)
    ensures forall k :: 0 <= k < |short| ==> !Loads(short[..k])
  {
    assert short[..HEADER_OFFSET + 8] + (short[HEADER_OFFSET + 8..] + rest) == short + rest;
    HeaderIsInTheFirstBytes(short, short[HEADER_OFFSET + 8..] + rest);
    forall k | 0 <= k < |short|
      ensures !Loads(short[..k])
    {
      if k >= SMALLEST_ELF {
        assert short[..HEADER_OFFSET + 8] + short[HEADER_OFFSET + 8..k] == short[..k];
        HeaderIsInTheFirstBytes(short, short[HEADER_OFFSET + 8..k]);
      }
    }
  }

  /**
    `detect_drift`: whether the resident firmware disagrees with what current.bin says was flashed.
    `believed` is None when there is no current.bin; `resident` is None when the SWD read or its parse raised.
   */
  function DetectDrift(believed: Option<Bytes>, resident: Option<Header>): bool {
    match (believed, resident)
    case (Some(data), Some(found)) =>
      (match ParseHeader(data)
       case Some(expected) => (expected.length, expected.magic) != (found.length, found.magic)
       case None => true)
    case _ => true
  }

  /** Sixteen bytes are read back; over an intact resident image of sixteen or more they are its own first bytes. */
  function ReadBack(image: Bytes): Option<Header> {
    if |image| < 16 then None else ParseHeader(image[..16])
  }

  /** The belief agrees with an MCU that runs exactly the believed image; a refused comparison always counts as drift. */
  lemma NoDriftWhenResidentIsBelieved(image: Bytes)
    requires Loads(image)
    ensures !DetectDrift(Some(image), ReadBack(image))
    ensures DetectDrift(Some(image), None) && DetectDrift(None, ReadBack(image))
  {
    assert image[..HEADER_OFFSET + 8] + [image[15]] == image[..16];
    HeaderIsInTheFirstBytes(image, [image[15]]);
  }

  /** What the drift check compares is the length and the magic: six bytes, from offset 8 on. */
  lemma DriftIsInSixBytes(believed: Bytes, resident: Bytes)
    requires |believed| >= 15 && |resident| >= 16
    ensures DetectDrift(Some(believed), ReadBack(resident)) <==> believed[8..14] != resident[8..14]
  {
    assert resident[..16][8..14] == resident[8..14];
    SixBytesDecide(believed, resident[..16]);
  }

  lemma SixBytesDecide(a: Bytes, b: Bytes)
    requires |a| >= 15 && |b| >= 15
    ensures Le32(a, 8) == Le32(b, 8) && Le16(a, 12) == Le16(b, 12) <==> a[8..14] == b[8..14]
  {
    if Le32(a, 8) == Le32(b, 8) && Le16(a, 12) == Le16(b, 12) {
      UnpackThenPack(a, 8);
      UnpackThenPack(b, 8);
      Unpack16(a, 12);
      Unpack16(b, 12);
      assert a[8..14] == a[8..12] + [a[12], a[13]] && b[8..14] == b[8..12] + [b[12], b[13]];
    } else if a[8..14] == b[8..14] {
      assert forall i :: 0 <= i < 6 ==> a[8..14][i] == a[8 + i] && b[8..14][i] == b[8 + i];
    }
  }

  /** Two accepted artifacts of different sizes are always told apart by the drift check. */
  lemma DriftSeesADifferentSize(believed: Bytes, resident: Bytes)
    requires Loads(believed) && Loads(resident)
    ensures DetectDrift(Some(believed), ReadBack(resident)) <==> |believed| != |resident|
  {
    assert resident[..HEADER_OFFSET + 8] + [resident[15]] == resident[..16];
    HeaderIsInTheFirstBytes(resident, [resident[15]]);
  }
}
