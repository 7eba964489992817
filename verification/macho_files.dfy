/** Mach-O files written out byte by byte, and what the reader makes of them: numbers, magic bytes and
    names are literal here, so that nothing is shared with the reader. */
module MachoFiles {
  import opened Sequences
  import opened MachoFormat
  import opened MachoReader
  import opened MachoRoundTrip
  import opened Wrappers

  // ----- words

  /** A 32-bit number. */
  function Word(n: nat, endian: Endian): (b: Bytes)
    requires n < 0x1_0000_0000
    ensures |b| == 4
  {
    var b0, b1, b2, b3 := n % 256, n / 256 % 256, n / 0x1_0000 % 256, n / 0x100_0000 % 256;
    match endian
    case Little => [b0, b1, b2, b3]
    case Big => [b3, b2, b1, b0]
  }

  /** A number of the file's word size. */
  function Address(n: nat, bits: Bits, endian: Endian): (b: Bytes)
    requires n < 0x1_0000_0000 || (bits == Bits64 && n < 0x1_0000_0000_0000_0000)
    ensures |b| == if bits == Bits32 then 4 else 8
  {
    match (bits, endian)
    case (Bits32, _) => Word(n, endian)
    case (Bits64, Little) => Word(n % 0x1_0000_0000, Little) + Word(n / 0x1_0000_0000, Little)
    case (Bits64, Big) => Word(n / 0x1_0000_0000, Big) + Word(n % 0x1_0000_0000, Big)
  }

  function MagicBytes(bits: Bits, endian: Endian): Bytes {
    match (bits, endian)
    case (Bits32, Little) => [0xce, 0xfa, 0xed, 0xfe]
    case (Bits32, Big) => [0xfe, 0xed, 0xfa, 0xce]
    case (Bits64, Little) => [0xcf, 0xfa, 0xed, 0xfe]
    case (Bits64, Big) => [0xfe, 0xed, 0xfa, 0xcf]
  }

  /** "__DATA" and "__pgrxsc", padded to 16 bytes. */
  const DATA: Bytes := [0x5f, 0x5f, 0x44, 0x41, 0x54, 0x41, 0, 0, 0, 0, 0, 0, 0, 0, 0, 0]
  const PGRXSC: Bytes := [0x5f, 0x5f, 0x70, 0x67, 0x72, 0x78, 0x73, 0x63, 0, 0, 0, 0, 0, 0, 0, 0]

  lemma {:induction false} ToLeFrom(b: Bytes)
    ensures ToLe(FromLe(b), |b|) == b
  {
    if b != [] {
      ToLeFrom(b[1..]);
      LowByte(b[0], FromLe(b[1..]));
    }
  }

  lemma LowByte(a: byte, m: nat)
    ensures (a + 256 * m) % 256 == a && (a + 256 * m) / 256 == m
  {
  }

  lemma {:induction false} FromLeConcat(a: Bytes, b: Bytes)
    ensures FromLe(a + b) == FromLe(a) + Pow256(|a|) * FromLe(b)
  {
    if a == [] {
      assert a + b == b;
    } else {
      FromLeConcat(a[1..], b);
      assert (a + b)[1..] == a[1..] + b;
      Distribute(FromLe(a[1..]), Pow256(|a| - 1), FromLe(b));
    }
  }

  lemma Distribute(x: nat, p: nat, y: nat)
    ensures 256 * (x + p * y) == 256 * x + 256 * p * y
  {
  }

  lemma Value4(a: byte, b: byte, c: byte, d: byte)
    ensures FromLe([a, b, c, d]) == a + 256 * b + 0x1_0000 * c + 0x100_0000 * d
  {
    assert [a, b, c, d][1..] == [b, c, d] && [b, c, d][1..] == [c, d] && [c, d][1..] == [d] && [d][1..] == [];
    assert FromLe([d]) == d && FromLe([c, d]) == c + 256 * d && FromLe([b, c, d]) == b + 256 * (c + 256 * d);
  }

  lemma Digits4(n: nat)
    requires n < 0x1_0000_0000
    ensures n % 256 + 256 * (n / 256 % 256) + 0x1_0000 * (n / 0x1_0000 % 256) + 0x100_0000 * (n / 0x100_0000 % 256) == n
  {
    assert n / 256 / 256 == n / 0x1_0000 && n / 0x1_0000 / 256 == n / 0x100_0000;
  }

  lemma Reverse4(a: byte, b: byte, c: byte, d: byte)
    ensures Reverse([a, b, c, d]) == [d, c, b, a]
  {
    assert [a, b, c, d][1..] == [b, c, d] && [b, c, d][1..] == [c, d] && [c, d][1..] == [d];
    assert Reverse([d]) == [d] && Reverse([c, d]) == [d, c] && Reverse([b, c, d]) == [d, c, b];
  }

  lemma WordIs(n: nat, endian: Endian)
    requires n < 0x1_0000_0000
    ensures Word(n, endian) == ToBytes(n, 4, endian)
  {
    var b0, b1, b2, b3 := n % 256, n / 256 % 256, n / 0x1_0000 % 256, n / 0x100_0000 % 256;
    Value4(b0, b1, b2, b3);
    Digits4(n);
    ToLeFrom([b0, b1, b2, b3]);
    Reverse4(b0, b1, b2, b3);
  }

  lemma {:induction false} ReverseConcat(a: Bytes, b: Bytes)
    ensures Reverse(a + b) == Reverse(b) + Reverse(a)
  {
    if a == [] {
      assert a + b == b;
    } else {
      ReverseConcat(a[1..], b);
      assert (a + b)[1..] == a[1..] + b;
    }
  }

  lemma TwoWords(low: nat, high: nat)
    requires low < 0x1_0000_0000 && high < 0x1_0000_0000
    ensures ToLe(low + 0x1_0000_0000 * high, 8) == ToLe(low, 4) + ToLe(high, 4)
  {
    PowWidths();
    LeRoundTrip(low, 4);
    LeRoundTrip(high, 4);
    FromLeConcat(ToLe(low, 4), ToLe(high, 4));
    ToLeFrom(ToLe(low, 4) + ToLe(high, 4));
  }

  lemma AddressIs(n: nat, bits: Bits, endian: Endian)
    requires n < 0x1_0000_0000 || (bits == Bits64 && n < 0x1_0000_0000_0000_0000)
    ensures Address(n, bits, endian) == ToBytes(n, if bits == Bits32 then 4 else 8, endian)
  {
    if bits == Bits32 {
      WordIs(n, endian);
    } else {
      var low, high := n % 0x1_0000_0000, n / 0x1_0000_0000;
      TwoWords(low, high);
      WordIs(low, endian);
      WordIs(high, endian);
      ReverseConcat(ToLe(low, 4), ToLe(high, 4));
    }
  }

  lemma BigWord(a: byte, b: byte, c: byte, d: byte)
    ensures ToBytes(d + 256 * c + 0x1_0000 * b + 0x100_0000 * a, 4, Big) == [a, b, c, d]
  {
    Value4(d, c, b, a);
    ToLeFrom([d, c, b, a]);
    Reverse4(d, c, b, a);
  }

  lemma MagicIs(bits: Bits, endian: Endian)
    ensures MagicBytes(bits, endian) == ToBytes(Magic(bits, endian), 4, Big)
  {
    var m := MagicBytes(bits, endian);
    BigWord(m[0], m[1], m[2], m[3]);
  }

  // ----- a minimal library

  function Zeros(n: nat): (b: Bytes)
    ensures |b| == n
  {
    seq(n, _ => 0)
  }

  /** The size can be written in the file. */
  predicate SizeFits(bits: Bits, size: nat) {
    size < 0x1_0000_0000 || (bits == Bits64 && size + 184 < 0x1_0000_0000_0000_0000)
  }

  /** Where the payload starts: behind header, segment command and section. */
  function PayloadAt(bits: Bits): nat {
    if bits == Bits32 then 28 + 56 + 68 else 32 + 72 + 80
  }

  /** A library with one segment command of one section, as the tests build it for 64 bits. */
  function MinimalMacho(bits: Bits, endian: Endian, addr: nat, payload: Bytes): Bytes
    requires addr < 0x1_0000_0000 && SizeFits(bits, |payload|)
  {
    MinimalHeader(bits, endian) + MinimalSegment(bits, endian, |payload|) + MinimalSection(bits, endian, addr, |payload|) + payload
  }

  /** Magic, cpu type and subtype, file type 6, one command, size of the commands, flags, and a
      reserved word in 64-bit files. */
  function MinimalHeader(bits: Bits, endian: Endian): Bytes {
    MagicBytes(bits, endian) + Zeros(8) + Word(6, endian) + Word(1, endian)
    + (if bits == Bits32 then Word(124, endian) + Zeros(4) else Word(152, endian) + Zeros(8))
  }

  /** Command number, command size, name, vmaddr, vmsize, fileoff, filesize, two protections, one
      section, flags. */
  function MinimalSegment(bits: Bits, endian: Endian, size: nat): Bytes
    requires SizeFits(bits, size)
  {
    SegmentStart(bits, endian) + DATA
    + Address(0, bits, endian) + Address(size, bits, endian) + Address(PayloadAt(bits), bits, endian) + Address(size, bits, endian)
    + Zeros(8) + Word(1, endian) + Zeros(4)
  }

  function SegmentStart(bits: Bits, endian: Endian): Bytes {
    if bits == Bits32 then Word(1, endian) + Word(124, endian) else Word(0x19, endian) + Word(152, endian)
  }

  /** Section and segment name, addr, size, offset; then align, reloff, nreloc, flags and two reserved
      words, three in 64-bit files. */
  function MinimalSection(bits: Bits, endian: Endian, addr: nat, size: nat): Bytes
    requires addr < 0x1_0000_0000 && SizeFits(bits, size)
  {
    PGRXSC + DATA + Address(addr, bits, endian) + Address(size, bits, endian) + Word(PayloadAt(bits), endian)
    + (if bits == Bits32 then Zeros(24) else Zeros(28))
  }

  // The same file as an encoding.

  function TheSection(bits: Bits, endian: Endian, addr: nat, size: nat): Section
    requires addr < 0x1_0000_0000 && SizeFits(bits, size)
  {
    Section(PGRXSC, DATA, Address(addr, bits, endian), size, PayloadAt(bits), if bits == Bits32 then Zeros(24) else Zeros(28))
  }

  function TheMiddle(bits: Bits, endian: Endian, size: nat): Bytes
    requires SizeFits(bits, size)
  {
    Address(0, bits, endian) + Address(size, bits, endian) + Address(PayloadAt(bits), bits, endian) + Address(size, bits, endian)
    + Zeros(8)
  }

  function TheSegment(bits: Bits, endian: Endian, addr: nat, size: nat): Command
    requires addr < 0x1_0000_0000 && SizeFits(bits, size)
  {
    Segment(DATA, TheMiddle(bits, endian, size), Zeros(4), [TheSection(bits, endian, addr, size)], [])
  }

  function TheCpu(endian: Endian): Bytes {
    Zeros(8) + Word(6, endian)
  }

  function TheFlags(bits: Bits, endian: Endian): Bytes {
    if bits == Bits32 then Word(124, endian) + Zeros(4) else Word(152, endian) + Zeros(8)
  }

  lemma FilePartsFit(bits: Bits, endian: Endian, addr: nat, size: nat)
    requires addr < 0x1_0000_0000 && SizeFits(bits, size)
    ensures HeaderFits(bits, TheCpu(endian), TheFlags(bits, endian))
    ensures TheSegment(bits, endian, addr, size).Fits(bits) && TheSegment(bits, endian, addr, size).Length(bits) == PayloadAt(bits) - LayoutOf(bits).headerLen
  {
    PowWidths();
    assert TheSection(bits, endian, addr, size).Fits(bits);
  }

  lemma HeaderIs(bits: Bits, endian: Endian)
    ensures MinimalHeader(bits, endian) == EncodeHeader(bits, endian, TheCpu(endian), 1, TheFlags(bits, endian))
  {
    MagicIs(bits, endian);
    WordIs(1, endian);
    HeaderGroups(MagicBytes(bits, endian), Zeros(8), Word(6, endian), Word(1, endian), TheFlags(bits, endian));
  }

  lemma HeaderGroups(magic: Bytes, z: Bytes, kind: Bytes, one: Bytes, flags: Bytes)
    ensures magic + z + kind + one + flags == magic + (z + kind) + one + flags
  {
  }

  lemma SectionIs(bits: Bits, endian: Endian, addr: nat, size: nat)
    requires addr < 0x1_0000_0000 && SizeFits(bits, size)
    ensures EncodeSections(bits, endian, [TheSection(bits, endian, addr, size)]) == MinimalSection(bits, endian, addr, size)
  {
    var s := TheSection(bits, endian, addr, size);
    AddressIs(size, bits, endian);
    WordIs(PayloadAt(bits), endian);
    assert EncodeSection(bits, endian, s) == MinimalSection(bits, endian, addr, size);
    assert [s][1..] == [] && EncodeSections(bits, endian, []) == [];
    assert EncodeSection(bits, endian, s) + [] == EncodeSection(bits, endian, s);
  }

  lemma CommandIs(bits: Bits, endian: Endian, addr: nat, size: nat)
    requires addr < 0x1_0000_0000 && SizeFits(bits, size)
    ensures EncodeCommands(bits, endian, [TheSegment(bits, endian, addr, size)])
         == MinimalSegment(bits, endian, size) + MinimalSection(bits, endian, addr, size)
  {
    var c, section := TheSegment(bits, endian, addr, size), MinimalSection(bits, endian, addr, size);
    CommandStartIs(bits, endian, c.Number(bits), c.Length(bits));
    FilePartsFit(bits, endian, addr, size);
    SectionIs(bits, endian, addr, size);
    WordIs(1, endian);
    SegmentGroups(SegmentStart(bits, endian), DATA, Address(0, bits, endian), Address(size, bits, endian),
                  Address(PayloadAt(bits), bits, endian), Zeros(8), Word(1, endian), Zeros(4), section);
    OneCommand(bits, endian, c);
  }

  lemma OneCommand(bits: Bits, endian: Endian, c: Command)
    ensures EncodeCommands(bits, endian, [c]) == EncodeCommand(bits, endian, c)
  {
    assert [c][1..] == [] && EncodeCommands(bits, endian, []) == [];
    assert EncodeCommand(bits, endian, c) + [] == EncodeCommand(bits, endian, c);
  }

  lemma CommandStartIs(bits: Bits, endian: Endian, number: nat, length: nat)
    ensures number == (if bits == Bits32 then 1 else 0x19) && length == (if bits == Bits32 then 124 else 152) ==>
      SegmentStart(bits, endian) == ToBytes(number, 4, endian) + ToBytes(length, 4, endian)
  {
    WordIs(1, endian);
    WordIs(124, endian);
    WordIs(0x19, endian);
    WordIs(152, endian);
  }

  lemma SegmentGroups(start: Bytes, name: Bytes, zero: Bytes, size: Bytes, off: Bytes, z: Bytes, one: Bytes, z4: Bytes, section: Bytes)
    ensures start + name + zero + size + off + size + z + one + z4 + section
         == start + (name + (zero + size + off + size + z) + one + z4 + section + [])
  {
  }

  lemma DataIs()
    ensures TrimNul(DATA) == SEGMENT_NAME
  {
    TrimPadded(SEGMENT_NAME, 10);
    assert DATA == SEGMENT_NAME + Zeros(10);
  }

  lemma PgrxscIs()
    ensures TrimNul(PGRXSC) == SECTION_NAME
  {
    TrimPadded(SECTION_NAME, 8);
    assert PGRXSC == SECTION_NAME + Zeros(8);
  }

  lemma {:induction false} TrimPadded(name: Bytes, n: nat)
    requires 0 !in name
    ensures TrimNul(name + Zeros(n)) == name
  {
    var padded := name + Zeros(n);
    if name != [] {
      TrimPadded(name[1..], n);
      assert padded[1..] == name[1..] + Zeros(n);
      assert name == [name[0]] + name[1..];
    }
  }

  lemma FileIs(bits: Bits, endian: Endian, addr: nat, size: nat)
    requires addr < 0x1_0000_0000 && SizeFits(bits, size)
    ensures var file := EncodeFile(bits, endian, TheCpu(endian), TheFlags(bits, endian), [TheSegment(bits, endian, addr, size)]);
      && file == MinimalHeader(bits, endian) + MinimalSegment(bits, endian, size) + MinimalSection(bits, endian, addr, size)
      && |file| == PayloadAt(bits)
  {
    HeaderIs(bits, endian);
    CommandIs(bits, endian, addr, size);
    Associate(MinimalHeader(bits, endian), MinimalSegment(bits, endian, size), MinimalSection(bits, endian, addr, size));
  }

  lemma SchemaIs(bits: Bits, endian: Endian, addr: nat, size: nat)
    requires addr < 0x1_0000_0000 && SizeFits(bits, size)
    ensures SchemaOf(TheSegment(bits, endian, addr, size)) == Some(TheSection(bits, endian, addr, size))
  {
    DataIs();
    PgrxscIs();
  }

  /** A file with one segment command and the payload right behind it. */
  lemma OneSegment(bits: Bits, endian: Endian, cpu: Bytes, flags: Bytes, segment: Command, s: Section, payload: Bytes)
    requires HeaderFits(bits, cpu, flags) && segment.Fits(bits) && SchemaOf(segment) == Some(s)
    requires s.offset == |EncodeFile(bits, endian, cpu, flags, [segment])| && s.size == |payload| && s.offset + s.size < U64
    ensures SchemaSection(EncodeFile(bits, endian, cpu, flags, [segment]) + payload) == Ok(Some(payload))
  {
    var file := EncodeFile(bits, endian, cpu, flags, [segment]);
    assert [] + [segment] + [] == [segment];
    assert file + [] == file && file + [] + payload + [] == file + payload;
    PayloadRoundTrip(bits, endian, cpu, flags, [], segment, [], s, [], payload, []);
  }

  /** For both word sizes, both byte orders and every payload, the file reads back. */
  lemma MinimalRoundTrip(bits: Bits, endian: Endian, addr: nat, payload: Bytes)
    requires addr < 0x1_0000_0000 && SizeFits(bits, |payload|)
    ensures SchemaSection(MinimalMacho(bits, endian, addr, payload)) == Ok(Some(payload))
  {
    var segment, s := TheSegment(bits, endian, addr, |payload|), TheSection(bits, endian, addr, |payload|);
    SchemaIs(bits, endian, addr, |payload|);
    FileIs(bits, endian, addr, |payload|);
    FilePartsFit(bits, endian, addr, |payload|);
    OneSegment(bits, endian, TheCpu(endian), TheFlags(bits, endian), segment, s, payload);
  }

  // ----- files that are refused

  /** A file that starts with none of the four magic numbers. */
  lemma BadMagic(data: Bytes)
    requires |data| < 4 || forall bits, endian :: data[..4] != MagicBytes(bits, endian)
    ensures SchemaSection(data).Err?
  {
    if |data| >= 4 {
      forall bits, endian ensures FromBytes(data[..4], Big) != Magic(bits, endian) {
        MagicIs(bits, endian);
        ToLeFrom(Reverse(data[..4]));
        ReverseTwice(data[..4]);
      }
      assert FromBytes(data[..4], Big) != Magic(Bits32, Little) && FromBytes(data[..4], Big) != Magic(Bits32, Big);
      assert FromBytes(data[..4], Big) != Magic(Bits64, Little) && FromBytes(data[..4], Big) != Magic(Bits64, Big);
    }
  }

  /** A file without room for the number of commands. */
  lemma ShortHeader(data: Bytes)
    requires |data| < 20
    ensures SchemaSection(data).Err?
  {
  }

  /** A file that declares commands and goes on with `tail` behind its header. */
  ghost predicate HasHeader(bits: Bits, endian: Endian, data: Bytes, ncmds: nat, tail: Bytes) {
    exists cpu, flags :: |cpu| == 12 && |flags| == (if bits == Bits32 then 8 else 12) && 0 < ncmds < 0x1_0000_0000
      && data == MagicBytes(bits, endian) + cpu + Word(ncmds, endian) + flags + tail
  }

  lemma BehindHeader(bits: Bits, endian: Endian, data: Bytes, ncmds: nat, tail: Bytes)
    requires HasHeader(bits, endian, data, ncmds, tail)
    ensures var len := if bits == Bits32 then 28 else 32;
      && |data| == len + |tail| && data[len..] == tail
      && SchemaSection(data) == ScanCommands(bits, endian, data, len, ncmds)
  {
    var cpu, flags :| |cpu| == 12 && |flags| == (if bits == Bits32 then 8 else 12) && 0 < ncmds < 0x1_0000_0000
      && data == MagicBytes(bits, endian) + cpu + Word(ncmds, endian) + flags + tail;
    MagicIs(bits, endian);
    WordIs(ncmds, endian);
    HeaderRead(bits, endian, cpu, ncmds, flags, tail);
    ScanBehindHeader(bits, endian, data, ncmds);
  }

  /** A first load command that is cut off, too small, or reaches past the end. */
  ghost predicate BadCommand(bits: Bits, endian: Endian, tail: Bytes) {
    || |tail| < 8
    || exists cmd: nat, size: nat, rest :: StartsWithCommand(endian, tail, cmd, size, rest)
         && (size < 8 || size > |tail| || (cmd == (if bits == Bits32 then 1 else 0x19) && size < (if bits == Bits32 then 56 else 72)))
  }

  ghost predicate StartsWithCommand(endian: Endian, tail: Bytes, cmd: nat, size: nat, rest: Bytes) {
    cmd < 0x1_0000_0000 && size < 0x1_0000_0000 && tail == Word(cmd, endian) + Word(size, endian) + rest
  }

  lemma CommandStart(endian: Endian, data: Bytes, cursor: nat, cmd: nat, size: nat, rest: Bytes)
    requires cursor <= |data| && StartsWithCommand(endian, data[cursor..], cmd, size, rest)
    ensures ReadInt(data, cursor, 4, endian) == Ok(cmd) && ReadInt(data, cursor + 4, 4, endian) == Ok(size)
  {
    var pre, a, b := data[..cursor], Word(cmd, endian), Word(size, endian);
    WordIs(cmd, endian);
    WordIs(size, endian);
    PowWidths();
    assert data == pre + a + (b + rest) && data == (pre + a) + b + rest;
    ReadAt(data, pre, cmd, 4, endian, b + rest);
    ReadAt(data, pre + a, size, 4, endian, rest);
  }

  lemma BadFirstCommand(bits: Bits, endian: Endian, data: Bytes, ncmds: nat, tail: Bytes)
    requires HasHeader(bits, endian, data, ncmds, tail) && BadCommand(bits, endian, tail)
    ensures SchemaSection(data).Err?
  {
    var len := if bits == Bits32 then 28 else 32;
    BehindHeader(bits, endian, data, ncmds, tail);
    if |tail| >= 8 {
      var cmd: nat, size: nat, rest :| StartsWithCommand(endian, tail, cmd, size, rest)
        && (size < 8 || size > |tail| || (cmd == (if bits == Bits32 then 1 else 0x19) && size < (if bits == Bits32 then 56 else 72)));
      CommandStart(endian, data, len, cmd, size, rest);
    }
  }

  /** A `__DATA` segment command whose section table is longer than the command. */
  lemma BadSectionTable(bits: Bits, endian: Endian, data: Bytes, ncmds: nat, tail: Bytes,
                        size: nat, middle: Bytes, nsects: nat, rest: Bytes)
    requires HasHeader(bits, endian, data, ncmds, tail) && size < 0x1_0000_0000 && nsects < 0x1_0000_0000
    requires |middle| == if bits == Bits32 then 24 else 40
    requires tail == Word(if bits == Bits32 then 1 else 0x19, endian) + Word(size, endian) + (DATA + middle + Word(nsects, endian) + rest)
    requires (if bits == Bits32 then 56 else 72) <= size <= |tail|
    requires nsects * (if bits == Bits32 then 68 else 80) > size - (if bits == Bits32 then 56 else 72)
    ensures SchemaSection(data).Err?
  {
    var len, cmd := if bits == Bits32 then 28 else 32, if bits == Bits32 then 1 else 0x19;
    BehindHeader(bits, endian, data, ncmds, tail);
    CommandStart(endian, data, len, cmd, size, DATA + middle + Word(nsects, endian) + rest);
    assert data[len..len + size] == tail[..size];
    TableTooLong(bits, endian, tail[..size], data, middle, nsects, tail[..8], (DATA + middle + Word(nsects, endian) + rest)[..size - 8]);
  }

  lemma TableTooLong(bits: Bits, endian: Endian, command: Bytes, data: Bytes, middle: Bytes, nsects: nat, start: Bytes, body: Bytes)
    requires |middle| == (if bits == Bits32 then 24 else 40) && nsects < 0x1_0000_0000 && |start| == 8 && command == start + body
    requires |command| >= (if bits == Bits32 then 56 else 72) && DATA + middle + Word(nsects, endian) <= body
    requires nsects * (if bits == Bits32 then 68 else 80) > |command| - (if bits == Bits32 then 56 else 72)
    ensures SegmentSection(bits, command, data, endian).Err?
  {
    DataIs();
    WordIs(nsects, endian);
    PowWidths();
    var post := TableParts(start, DATA, middle, Word(nsects, endian), body);
    ReadAt(command, start + DATA + middle, nsects, 4, endian, post);
  }

  lemma TableParts(start: Bytes, name: Bytes, middle: Bytes, count: Bytes, body: Bytes) returns (post: Bytes)
    requires name + middle + count <= body
    ensures start + body == (start + name + middle) + count + post
    ensures (start + body)[|start|..|start| + |name|] == name
  {
    post := body[|name + middle + count|..];
    assert body == name + middle + count + post;
  }

  /** A schema section that reaches past the end of the file. */
  lemma CutOffPayload(bits: Bits, endian: Endian, addr: nat, size: nat, payload: Bytes)
    requires addr < 0x1_0000_0000 && SizeFits(bits, size) && |payload| < size
    ensures SchemaSection(MinimalHeader(bits, endian) + MinimalSegment(bits, endian, size)
                          + MinimalSection(bits, endian, addr, size) + payload).Err?
  {
    var segment, s := TheSegment(bits, endian, addr, size), TheSection(bits, endian, addr, size);
    SchemaIs(bits, endian, addr, size);
    FileIs(bits, endian, addr, size);
    FilePartsFit(bits, endian, addr, size);
    ReadsFirstMatch(bits, endian, TheCpu(endian), TheFlags(bits, endian), [segment], payload);
    assert FirstMatch([segment]) == Some(s);
  }
}
