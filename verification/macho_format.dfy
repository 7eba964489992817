/** Mach-O bytes: the parts of the header, load commands and sections that the schema-section
    reader looks at (OS X ABI Mach-O File Format Reference, structures `mach_header(_64)`,
    `segment_command(_64)` and `section(_64)`), with their encodings. */
module MachoFormat {
  type byte = b: int | 0 <= b < 256
  type Bytes = seq<byte>

  datatype Bits = Bits32 | Bits64
  datatype Endian = Little | Big

  const U32: nat := 0x1_0000_0000
  const U64: nat := 0x1_0000_0000_0000_0000

  // ----- integers

  function FromLe(b: Bytes): nat {
    if b == [] then 0 else b[0] + 256 * FromLe(b[1..])
  }

  function ToLe(n: nat, width: nat): (b: Bytes)
    ensures |b| == width
  {
    if width == 0 then [] else [n % 256] + ToLe(n / 256, width - 1)
  }

  function Reverse(b: Bytes): (r: Bytes)
    ensures |r| == |b|
  {
    if b == [] then [] else Reverse(b[1..]) + [b[0]]
  }

  lemma {:induction false} ReverseAppend(b: Bytes, x: byte)
    ensures Reverse(b + [x]) == [x] + Reverse(b)
  {
    if b != [] {
      ReverseAppend(b[1..], x);
      assert (b + [x])[1..] == b[1..] + [x];
    }
  }

  lemma {:induction false} ReverseTwice(b: Bytes)
    ensures Reverse(Reverse(b)) == b
  {
    if b != [] {
      ReverseTwice(b[1..]);
      ReverseAppend(Reverse(b[1..]), b[0]);
    }
  }

  function FromBytes(b: Bytes, endian: Endian): nat {
    match endian
    case Little => FromLe(b)
    case Big => FromLe(Reverse(b))
  }

  function ToBytes(n: nat, width: nat, endian: Endian): (b: Bytes)
    ensures |b| == width
  {
    match endian
    case Little => ToLe(n, width)
    case Big => Reverse(ToLe(n, width))
  }

  function Pow256(k: nat): nat {
    if k == 0 then 1 else 256 * Pow256(k - 1)
  }

  lemma {:induction false} LeRoundTrip(n: nat, width: nat)
    requires n < Pow256(width)
    ensures FromLe(ToLe(n, width)) == n
    decreases width
  {
    if width > 0 {
      assert n / 256 < Pow256(width - 1);
      LeRoundTrip(n / 256, width - 1);
      assert ToLe(n, width)[1..] == ToLe(n / 256, width - 1);
    }
  }

  lemma {:induction false} LeBounded(b: Bytes)
    ensures FromLe(b) < Pow256(|b|)
  {
    if b != [] {
      LeBounded(b[1..]);
    }
  }

  lemma IntRoundTrip(n: nat, width: nat, endian: Endian)
    requires n < Pow256(width)
    ensures FromBytes(ToBytes(n, width, endian), endian) == n
  {
    LeRoundTrip(n, width);
    ReverseTwice(ToLe(n, width));
  }

  lemma PowWidths()
    ensures Pow256(4) == U32 && Pow256(8) == U64
  {
    assert Pow256(1) == 256;
    assert Pow256(2) == 0x1_0000;
    assert Pow256(3) == 0x100_0000;
    assert Pow256(4) == U32;
    assert Pow256(5) == 0x100_0000_0000;
    assert Pow256(6) == 0x1_0000_0000_0000;
    assert Pow256(7) == 0x100_0000_0000_0000;
  }

  // ----- names

  const SEGMENT_NAME: Bytes := [0x5f, 0x5f, 0x44, 0x41, 0x54, 0x41] // "__DATA"
  const SECTION_NAME: Bytes := [0x5f, 0x5f, 0x70, 0x67, 0x72, 0x78, 0x73, 0x63] // "__pgrxsc"

  /** The bytes before the first NUL. */
  function TrimNul(b: Bytes): (r: Bytes)
    ensures r <= b && 0 !in r
    ensures |r| < |b| ==> b[|r|] == 0
  {
    if b == [] || b[0] == 0 then [] else [b[0]] + TrimNul(b[1..])
  }

  // ----- layout

  const LC_SEGMENT: nat := 0x1
  const LC_SEGMENT_64: nat := 0x19

  /** Sizes and field offsets that differ between the two word sizes. */
  datatype Layout = Layout(headerLen: nat, segmentCmd: nat, segmentLen: nat, nsectsAt: nat,
                           sectionLen: nat, sizeAt: nat, sizeWidth: nat, offsetAt: nat)

  function LayoutOf(bits: Bits): Layout {
    match bits
    case Bits32 => Layout(28, LC_SEGMENT, 56, 48, 68, 36, 4, 40)
    case Bits64 => Layout(32, LC_SEGMENT_64, 72, 64, 80, 40, 8, 48)
  }

  /** The first four bytes, read big-endian. */
  function Magic(bits: Bits, endian: Endian): nat {
    match (bits, endian)
    case (Bits32, Little) => 0xcefaedfe
    case (Bits32, Big) => 0xfeedface
    case (Bits64, Little) => 0xcffaedfe
    case (Bits64, Big) => 0xfeedfacf
  }

  // ----- encodings

  /** A section header; `addr` and `rest` are fields the reader never looks at. */
  datatype Section = Section(sectName: Bytes, segName: Bytes, addr: Bytes, size: nat, offset: nat, rest: Bytes) {
    ghost predicate Fits(bits: Bits) {
      var l := LayoutOf(bits);
      && |sectName| == |segName| == 16
      && |addr| == l.sizeAt - 32 && |rest| == l.sectionLen - l.offsetAt - 4
      && size < Pow256(l.sizeWidth) && offset < U32
    }

    predicate IsSchema() {
      TrimNul(sectName) == SECTION_NAME && TrimNul(segName) == SEGMENT_NAME
    }
  }

  function EncodeSection(bits: Bits, endian: Endian, s: Section): Bytes {
    s.sectName + s.segName + s.addr + ToBytes(s.size, LayoutOf(bits).sizeWidth, endian)
    + ToBytes(s.offset, 4, endian) + s.rest
  }

  function EncodeSections(bits: Bits, endian: Endian, ss: seq<Section>): Bytes {
    if ss == [] then [] else EncodeSection(bits, endian, ss[0]) + EncodeSections(bits, endian, ss[1..])
  }

  /** A load command: a segment of the file's own word size, or anything else. `middle`,
      `flags` and `tail` are bytes the reader skips. */
  datatype Command =
    | Segment(segName: Bytes, middle: Bytes, flags: Bytes, sections: seq<Section>, tail: Bytes)
    | Opaque(cmd: nat, body: Bytes)
  {
    ghost predicate Fits(bits: Bits) {
      var l := LayoutOf(bits);
      match this
      case Segment(segName, middle, flags, sections, tail) =>
        && |segName| == 16 && |middle| == l.nsectsAt - 24 && |flags| == 4
        && (forall i :: 0 <= i < |sections| ==> sections[i].Fits(bits))
        && l.segmentLen + |sections| * l.sectionLen + |tail| < U32
      case Opaque(cmd, body) => cmd < U32 && cmd != l.segmentCmd && 8 + |body| < U32
    }

    function Length(bits: Bits): nat {
      match this
      case Segment(_, _, _, sections, tail) => LayoutOf(bits).segmentLen + |sections| * LayoutOf(bits).sectionLen + |tail|
      case Opaque(_, body) => 8 + |body|
    }

    function Number(bits: Bits): nat {
      match this
      case Segment(_, _, _, _, _) => LayoutOf(bits).segmentCmd
      case Opaque(cmd, _) => cmd
    }

    /** What follows the command number and the command size. */
    function Body(bits: Bits, endian: Endian): Bytes {
      match this
      case Segment(segName, middle, flags, sections, tail) =>
        segName + middle + ToBytes(|sections|, 4, endian) + flags + EncodeSections(bits, endian, sections) + tail
      case Opaque(_, body) => body
    }
  }

  function EncodeCommand(bits: Bits, endian: Endian, c: Command): Bytes {
    ToBytes(c.Number(bits), 4, endian) + ToBytes(c.Length(bits), 4, endian) + c.Body(bits, endian)
  }

  function EncodeCommands(bits: Bits, endian: Endian, cs: seq<Command>): Bytes {
    if cs == [] then [] else EncodeCommand(bits, endian, cs[0]) + EncodeCommands(bits, endian, cs[1..])
  }

  /** The header; `cpu` and `flags` stand for the fields around the command count. */
  function EncodeHeader(bits: Bits, endian: Endian, cpu: Bytes, ncmds: nat, flags: Bytes): Bytes {
    ToBytes(Magic(bits, endian), 4, Big) + cpu + ToBytes(ncmds, 4, endian) + flags
  }

  ghost predicate HeaderFits(bits: Bits, cpu: Bytes, flags: Bytes) {
    |cpu| == 12 && |flags| == LayoutOf(bits).headerLen - 20
  }

  // ----- sizes

  lemma SectionLength(bits: Bits, endian: Endian, s: Section)
    requires s.Fits(bits)
    ensures |EncodeSection(bits, endian, s)| == LayoutOf(bits).sectionLen
  {
  }

  lemma {:induction false} SectionsLength(bits: Bits, endian: Endian, ss: seq<Section>)
    requires forall i :: 0 <= i < |ss| ==> ss[i].Fits(bits)
    ensures |EncodeSections(bits, endian, ss)| == |ss| * LayoutOf(bits).sectionLen
  {
    if ss != [] {
      SectionLength(bits, endian, ss[0]);
      SectionsLength(bits, endian, ss[1..]);
    }
  }

  lemma CommandLength(bits: Bits, endian: Endian, c: Command)
    requires c.Fits(bits)
    ensures |EncodeCommand(bits, endian, c)| == c.Length(bits)
  {
    if c.Segment? {
      SectionsLength(bits, endian, c.sections);
    }
  }
}
