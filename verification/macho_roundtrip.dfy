/** The reader undoes the format: on any encoded file it returns the first schema section in
    load-command order, then section order. */
module MachoRoundTrip {
  import opened Sequences
  import opened MachoFormat
  import opened MachoReader
  import opened Wrappers

  // ----- reading back one field

  lemma ReadAt(data: Bytes, pre: Bytes, n: nat, width: nat, endian: Endian, post: Bytes)
    requires data == pre + ToBytes(n, width, endian) + post && n < Pow256(width)
    ensures ReadInt(data, |pre|, width, endian) == Ok(n)
  {
    assert data[|pre|..|pre| + width] == ToBytes(n, width, endian);
    IntRoundTrip(n, width, endian);
  }

  // ----- sections

  /** The first schema section of a list. */
  ghost function FirstSection(ss: seq<Section>): Option<Section> {
    if ss == [] then None else if ss[0].IsSchema() then Some(ss[0]) else FirstSection(ss[1..])
  }

  /** What the reader should answer when the first schema section is `s`. */
  ghost function Answer(s: Option<Section>, data: Bytes): Found {
    match s
    case None => Ok(None)
    case Some(sec) => var bytes :- SliceRange(data, sec.offset, sec.size); Ok(Some(bytes))
  }

  lemma SectionParts(a: Bytes, b: Bytes, addr: Bytes, size: Bytes, offset: Bytes, rest: Bytes)
    ensures var e := a + b + addr + size + offset + rest;
      && e == (a + b + addr) + size + (offset + rest)
      && e == (a + b + addr + size) + offset + rest
      && e[..|a|] == a && e[|a|..|a| + |b|] == b
  {
  }

  lemma SectionFields(bits: Bits, endian: Endian, s: Section)
    requires s.Fits(bits)
    ensures var l, e := LayoutOf(bits), EncodeSection(bits, endian, s);
      && |e| == l.sectionLen
      && e[..16] == s.sectName && e[16..32] == s.segName
      && ReadInt(e, l.sizeAt, l.sizeWidth, endian) == Ok(s.size)
      && ReadInt(e, l.offsetAt, 4, endian) == Ok(s.offset)
  {
    var l, e := LayoutOf(bits), EncodeSection(bits, endian, s);
    SectionLength(bits, endian, s);
    PowWidths();
    var size, offset := ToBytes(s.size, l.sizeWidth, endian), ToBytes(s.offset, 4, endian);
    SectionParts(s.sectName, s.segName, s.addr, size, offset, s.rest);
    ReadAt(e, s.sectName + s.segName + s.addr, s.size, l.sizeWidth, endian, offset + s.rest);
    ReadAt(e, s.sectName + s.segName + s.addr + size, s.offset, 4, endian, s.rest);
  }

  lemma HeadAndTail(head: Bytes, rest: Bytes, tail: Bytes)
    ensures (head + rest + tail)[..|head|] == head && (head + rest + tail)[|head|..] == rest + tail
  {
  }

  lemma {:induction false} ScanEncodedSections(bits: Bits, endian: Endian, ss: seq<Section>, tail: Bytes, data: Bytes)
    requires forall i :: 0 <= i < |ss| ==> ss[i].Fits(bits)
    ensures |ss| * LayoutOf(bits).sectionLen <= |EncodeSections(bits, endian, ss) + tail|
    ensures ScanSections(LayoutOf(bits), EncodeSections(bits, endian, ss) + tail, |ss|, data, endian)
         == Answer(FirstSection(ss), data)
  {
    SectionsLength(bits, endian, ss);
    if ss != [] {
      ScanHead(bits, endian, ss[0], EncodeSections(bits, endian, ss[1..]), tail, |ss|, data);
      ScanEncodedSections(bits, endian, ss[1..], tail, data);
    }
  }

  /** The first section header of a table. */
  lemma ScanHead(bits: Bits, endian: Endian, s: Section, rest: Bytes, tail: Bytes, n: nat, data: Bytes)
    requires s.Fits(bits) && n > 0
    ensures ScanSections(LayoutOf(bits), EncodeSection(bits, endian, s) + rest + tail, n, data, endian)
         == if s.IsSchema() then Answer(Some(s), data) else ScanSections(LayoutOf(bits), rest + tail, n - 1, data, endian)
  {
    SectionFields(bits, endian, s);
    HeadAndTail(EncodeSection(bits, endian, s), rest, tail);
  }

  // ----- load commands

  ghost function SchemaOf(c: Command): Option<Section> {
    if c.Segment? && TrimNul(c.segName) == SEGMENT_NAME then FirstSection(c.sections) else None
  }

  /** The first schema section of a file, in load-command then section order. */
  ghost function FirstMatch(cs: seq<Command>): Option<Section> {
    if cs == [] then None
    else if SchemaOf(cs[0]).Some? then SchemaOf(cs[0])
    else FirstMatch(cs[1..])
  }

  lemma SegmentParts(start: Bytes, name: Bytes, middle: Bytes, count: Bytes, flags: Bytes, secs: Bytes, tail: Bytes)
    ensures var e := start + (name + middle + count + flags + secs + tail);
      && e == (start + name + middle) + count + (flags + secs + tail)
      && e[|start|..|start| + |name|] == name
      && e[|start| + |name| + |middle| + |count| + |flags|..] == secs + tail
  {
  }

  lemma SegmentFields(bits: Bits, endian: Endian, c: Command)
    requires c.Fits(bits) && c.Segment?
    ensures var l, e := LayoutOf(bits), EncodeCommand(bits, endian, c);
      && |e| >= l.segmentLen && e[8..24] == c.segName
      && ReadInt(e, l.nsectsAt, 4, endian) == Ok(|c.sections|)
      && e[l.segmentLen..] == EncodeSections(bits, endian, c.sections) + c.tail
  {
    var l, e := LayoutOf(bits), EncodeCommand(bits, endian, c);
    var start := ToBytes(c.Number(bits), 4, endian) + ToBytes(c.Length(bits), 4, endian);
    var count := ToBytes(|c.sections|, 4, endian);
    var secs := EncodeSections(bits, endian, c.sections);
    SegmentParts(start, c.segName, c.middle, count, c.flags, secs, c.tail);
    PowWidths();
    SectionCountFits(l.sectionLen, |c.sections|);
    ReadAt(e, start + c.segName + c.middle, |c.sections|, 4, endian, c.flags + secs + c.tail);
  }

  lemma SectionCountFits(len: nat, n: nat)
    requires len > 0
    ensures n <= n * len
  {
  }

  lemma CommandAnswer(bits: Bits, endian: Endian, c: Command, data: Bytes)
    requires c.Fits(bits)
    ensures CommandSection(bits, c.Number(bits), EncodeCommand(bits, endian, c), data, endian)
         == Answer(SchemaOf(c), data)
  {
    if c.Segment? {
      SegmentFields(bits, endian, c);
      ScanEncodedSections(bits, endian, c.sections, c.tail, data);
    }
  }

  lemma CommandParts(pre: Bytes, number: Bytes, length: Bytes, body: Bytes, post: Bytes)
    ensures var e := number + length + body;
      && pre + e + post == pre + number + (length + body + post)
      && pre + e + post == (pre + number) + length + (body + post)
      && (pre + e + post)[|pre|..|pre| + |e|] == e
  {
  }

  lemma CommandHead(bits: Bits, endian: Endian, data: Bytes, pre: Bytes, c: Command, post: Bytes)
    requires c.Fits(bits) && data == pre + EncodeCommand(bits, endian, c) + post
    ensures ReadInt(data, |pre|, 4, endian) == Ok(c.Number(bits))
    ensures ReadInt(data, |pre| + 4, 4, endian) == Ok(c.Length(bits))
    ensures 8 <= c.Length(bits) && |pre| + c.Length(bits) <= |data|
    ensures data[|pre|..|pre| + c.Length(bits)] == EncodeCommand(bits, endian, c)
  {
    PowWidths();
    CommandLength(bits, endian, c);
    var number, length, body := ToBytes(c.Number(bits), 4, endian), ToBytes(c.Length(bits), 4, endian), c.Body(bits, endian);
    CommandParts(pre, number, length, body, post);
    ReadAt(data, pre, c.Number(bits), 4, endian, length + body + post);
    ReadAt(data, pre + number, c.Length(bits), 4, endian, body + post);
  }

  lemma Regroup(pre: Bytes, head: Bytes, rest: Bytes, post: Bytes)
    ensures pre + (head + rest) + post == pre + head + (rest + post)
    ensures pre + (head + rest) + post == (pre + head) + rest + post
  {
  }

  /** One turn over an encoded command. */
  lemma TurnOverCommand(bits: Bits, endian: Endian, data: Bytes, pre: Bytes, c: Command, post: Bytes)
    requires c.Fits(bits) && data == pre + EncodeCommand(bits, endian, c) + post
    ensures ReadTurn(bits, endian, data, |pre|)
         == if SchemaOf(c).None? then Next(|pre + EncodeCommand(bits, endian, c)|) else Done(Answer(SchemaOf(c), data))
  {
    CommandHead(bits, endian, data, pre, c, post);
    CommandAnswer(bits, endian, c, data);
    CommandLength(bits, endian, c);
  }

  lemma {:induction false} ScanEncodedCommands(bits: Bits, endian: Endian, data: Bytes, pre: Bytes, cs: seq<Command>, post: Bytes)
    requires forall i :: 0 <= i < |cs| ==> cs[i].Fits(bits)
    requires data == pre + EncodeCommands(bits, endian, cs) + post
    ensures ScanCommands(bits, endian, data, |pre|, |cs|) == Answer(FirstMatch(cs), data)
    decreases |cs|
  {
    if cs != [] {
      var head, rest := EncodeCommand(bits, endian, cs[0]), EncodeCommands(bits, endian, cs[1..]);
      Regroup(pre, head, rest, post);
      TurnOverCommand(bits, endian, data, pre, cs[0], rest + post);
      ScanEncodedCommands(bits, endian, data, pre + head, cs[1..], post);
      ScanStep(bits, endian, data, |pre|, |pre + head|, cs);
    }
  }

  lemma ScanStep(bits: Bits, endian: Endian, data: Bytes, cursor: nat, after: nat, cs: seq<Command>)
    requires cs != []
    requires ReadTurn(bits, endian, data, cursor)
          == if SchemaOf(cs[0]).None? then Next(after) else Done(Answer(SchemaOf(cs[0]), data))
    requires ScanCommands(bits, endian, data, after, |cs[1..]|) == Answer(FirstMatch(cs[1..]), data)
    ensures ScanCommands(bits, endian, data, cursor, |cs|) == Answer(FirstMatch(cs), data)
  {
  }

  // ----- files

  function EncodeFile(bits: Bits, endian: Endian, cpu: Bytes, flags: Bytes, cs: seq<Command>): Bytes {
    EncodeHeader(bits, endian, cpu, |cs|, flags) + EncodeCommands(bits, endian, cs)
  }

  lemma HeaderParts(magic: Bytes, cpu: Bytes, ncmds: Bytes, flags: Bytes, post: Bytes)
    ensures var e := magic + cpu + ncmds + flags;
      && e + post == (magic + cpu) + ncmds + (flags + post)
      && |magic| <= |e + post| && (e + post)[..|magic|] == magic
  {
  }

  lemma HeaderRead(bits: Bits, endian: Endian, cpu: Bytes, ncmds: nat, flags: Bytes, post: Bytes)
    requires HeaderFits(bits, cpu, flags) && ncmds < U32
    ensures var header := EncodeHeader(bits, endian, cpu, ncmds, flags);
      && |header| == LayoutOf(bits).headerLen
      && ParseHeader(header + post) == Ok((bits, endian))
      && ReadInt(header + post, 16, 4, endian) == Ok(ncmds)
  {
    var data := EncodeHeader(bits, endian, cpu, ncmds, flags) + post;
    PowWidths();
    var magic := ToBytes(Magic(bits, endian), 4, Big);
    IntRoundTrip(Magic(bits, endian), 4, Big);
    HeaderParts(magic, cpu, ToBytes(ncmds, 4, endian), flags, post);
    ReadAt(data, magic + cpu, ncmds, 4, endian, flags + post);
  }

  lemma ScanBehindHeader(bits: Bits, endian: Endian, data: Bytes, ncmds: nat)
    requires ParseHeader(data) == Ok((bits, endian)) && ReadInt(data, 16, 4, endian) == Ok(ncmds)
    ensures SchemaSection(data) == ScanCommands(bits, endian, data, LayoutOf(bits).headerLen, ncmds)
  {
  }

  /** For either word size, either byte order, every list of well-formed load commands and any
      bytes after them: the reader answers with the first schema section. */
  lemma ReadsFirstMatch(bits: Bits, endian: Endian, cpu: Bytes, flags: Bytes, cs: seq<Command>, post: Bytes)
    requires HeaderFits(bits, cpu, flags) && |cs| < U32
    requires forall i :: 0 <= i < |cs| ==> cs[i].Fits(bits)
    ensures var data := EncodeFile(bits, endian, cpu, flags, cs) + post;
      SchemaSection(data) == Answer(FirstMatch(cs), data)
  {
    var header := EncodeHeader(bits, endian, cpu, |cs|, flags);
    var commands := EncodeCommands(bits, endian, cs);
    HeaderRead(bits, endian, cpu, |cs|, flags, commands + post);
    Associate(header, commands, post);
    ScanBehindHeader(bits, endian, header + commands + post, |cs|);
    ScanEncodedCommands(bits, endian, header + commands + post, header, cs, post);
  }

  lemma {:induction false} FirstMatchSkips(before: seq<Command>, cs: seq<Command>)
    requires FirstMatch(before) == None
    ensures FirstMatch(before + cs) == FirstMatch(cs)
  {
    if before == [] {
      assert before + cs == cs;
    } else {
      FirstMatchSkips(before[1..], cs);
      assert (before + cs)[1..] == before[1..] + cs;
    }
  }

  lemma FirstMatchAt(before: seq<Command>, segment: Command, after: seq<Command>)
    requires FirstMatch(before) == None && SchemaOf(segment).Some?
    ensures FirstMatch(before + [segment] + after) == SchemaOf(segment)
  {
    assert before + [segment] + after == before + ([segment] + after);
    FirstMatchSkips(before, [segment] + after);
  }

  lemma PayloadParts(file: Bytes, pad: Bytes, payload: Bytes, post: Bytes)
    ensures var data := file + pad + payload + post;
      && file + (pad + payload + post) == data
      && |file + pad| + |payload| <= |data|
      && data[|file + pad|..|file + pad| + |payload|] == payload
  {
  }

  /** Round trip: a payload stored behind the load commands and described by a schema section
      that no earlier command preempts comes back exactly. */
  lemma PayloadRoundTrip(bits: Bits, endian: Endian, cpu: Bytes, flags: Bytes,
                         before: seq<Command>, segment: Command, after: seq<Command>, s: Section,
                         pad: Bytes, payload: Bytes, post: Bytes)
    requires var cs := before + [segment] + after;
      && HeaderFits(bits, cpu, flags) && |cs| < U32
      && (forall i :: 0 <= i < |cs| ==> cs[i].Fits(bits))
      && FirstMatch(before) == None && SchemaOf(segment) == Some(s)
      && s.offset == |EncodeFile(bits, endian, cpu, flags, cs) + pad| && s.size == |payload|
      && s.offset + s.size < U64
    ensures SchemaSection(EncodeFile(bits, endian, cpu, flags, before + [segment] + after) + pad + payload + post)
         == Ok(Some(payload))
  {
    var cs := before + [segment] + after;
    var file := EncodeFile(bits, endian, cpu, flags, cs);
    ReadsFirstMatch(bits, endian, cpu, flags, cs, pad + payload + post);
    FirstMatchAt(before, segment, after);
    PayloadAnswer(file, pad, payload, post, s);
  }

  lemma PayloadAnswer(file: Bytes, pad: Bytes, payload: Bytes, post: Bytes, s: Section)
    requires s.offset == |file + pad| && s.size == |payload| && s.offset + s.size < U64
    ensures file + (pad + payload + post) == file + pad + payload + post
    ensures Answer(Some(s), file + pad + payload + post) == Ok(Some(payload))
  {
    PayloadParts(file, pad, payload, post);
  }
}
