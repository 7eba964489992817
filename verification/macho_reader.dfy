/** The Mach-O schema-section reader, as loops and as the function they compute. */
module MachoReader {
  import opened MachoFormat
  import opened Wrappers

  type Found = Result<Option<Bytes>>

  // ----- primitive reads

  function ReadInt(data: Bytes, offset: nat, width: nat, endian: Endian): Result<nat> {
    if offset + width <= |data| then Ok(FromBytes(data[offset..offset + width], endian))
    else Err("unexpected end of Mach-O data")
  }

  function SliceRange(data: Bytes, offset: nat, size: nat): Result<Bytes> {
    if offset + size >= U64 then Err("invalid Mach-O section range")
    else if offset + size <= |data| then Ok(data[offset..offset + size])
    else Err("invalid Mach-O section bounds")
  }

  function ParseHeader(data: Bytes): Result<(Bits, Endian)> {
    if |data| < 4 then Err("Mach-O file is too small") else
      var magic := FromBytes(data[..4], Big);
      if magic == 0xcefaedfe then Ok((Bits32, Little))
      else if magic == 0xfeedface then Ok((Bits32, Big))
      else if magic == 0xcffaedfe then Ok((Bits64, Little))
      else if magic == 0xfeedfacf then Ok((Bits64, Big))
      else Err("invalid Mach-O magic")
  }

  // ----- one segment command

  predicate IsSchemaSection(section: Bytes)
    requires |section| >= 32
  {
    TrimNul(section[..16]) == SECTION_NAME && TrimNul(section[16..32]) == SEGMENT_NAME
  }

  /** The schema section a section header points to. */
  function SectionData(l: Layout, section: Bytes, data: Bytes, endian: Endian): Found {
    var size :- ReadInt(section, l.sizeAt, l.sizeWidth, endian);
    var offset :- ReadInt(section, l.offsetAt, 4, endian);
    var bytes :- SliceRange(data, offset, size);
    Ok(Some(bytes))
  }

  /** The first schema section among `n` section headers (fewer if the table is cut short,
      which the segment readers rule out beforehand). */
  function ScanSections(l: Layout, sections: Bytes, n: nat, data: Bytes, endian: Endian): Found
    requires l.sectionLen >= 32
    decreases n
  {
    if n == 0 || |sections| < l.sectionLen then Ok(None)
    else if IsSchemaSection(sections[..l.sectionLen]) then SectionData(l, sections[..l.sectionLen], data, endian)
    else ScanSections(l, sections[l.sectionLen..], n - 1, data, endian)
  }

  function SegmentSection(bits: Bits, command: Bytes, data: Bytes, endian: Endian): Found {
    var l := LayoutOf(bits);
    if |command| < l.segmentLen then Err("invalid Mach-O segment command")
    else if TrimNul(command[8..24]) != SEGMENT_NAME then Ok(None)
    else
      var nsects :- ReadInt(command, l.nsectsAt, 4, endian);
      var sections := command[l.segmentLen..];
      if |sections| < nsects * l.sectionLen then Err("invalid Mach-O section table")
      else ScanSections(l, sections, nsects, data, endian)
  }

  lemma SectionOffset(len: nat, i: nat, n: nat, total: nat)
    requires i < n && n * len <= total
    ensures i * len + len <= total
    ensures (i + 1) * len == i * len + len
  {
    assert (i + 1) * len <= n * len;
  }

  /** The section-header loop of the segment readers. */
  method ReadSections(l: Layout, sections: Bytes, nsects: nat, data: Bytes, endian: Endian) returns (r: Found)
    requires nsects * l.sectionLen <= |sections| && l.sectionLen >= 32
    ensures r == ScanSections(l, sections, nsects, data, endian)
  {
    assert sections[0..] == sections;
    ghost var next := 0;
    for index := 0 to nsects
      invariant next == index * l.sectionLen <= |sections|
      invariant ScanSections(l, sections, nsects, data, endian)
             == ScanSections(l, sections[next..], nsects - index, data, endian)
    {
      SectionOffset(l.sectionLen, index, nsects, |sections|);
      var start := index * l.sectionLen;
      var section := sections[start..start + l.sectionLen];
      assert sections[start..][..l.sectionLen] == section;
      assert sections[start..][l.sectionLen..] == sections[start + l.sectionLen..];
      if IsSchemaSection(section) {
        return SectionData(l, section, data, endian);
      }
      next := start + l.sectionLen;
    }
    return Ok(None);
  }

  /** `macho_schema_section_from_segment32` and `..64`. */
  method ReadSegment(bits: Bits, command: Bytes, data: Bytes, endian: Endian) returns (r: Found)
    ensures r == SegmentSection(bits, command, data, endian)
  {
    var l := LayoutOf(bits);
    if |command| < l.segmentLen {
      return Err("invalid Mach-O segment command");
    }
    if TrimNul(command[8..24]) != SEGMENT_NAME {
      return Ok(None);
    }
    var nsects :- ReadInt(command, l.nsectsAt, 4, endian);
    var sections := command[l.segmentLen..];
    if |sections| < nsects * l.sectionLen {
      return Err("invalid Mach-O section table");
    }
    r := ReadSections(l, sections, nsects, data, endian);
  }

  // ----- the whole file

  /** What one load command contributes. */
  function CommandSection(bits: Bits, cmd: nat, command: Bytes, data: Bytes, endian: Endian): Found {
    if cmd == LayoutOf(bits).segmentCmd then SegmentSection(bits, command, data, endian) else Ok(None)
  }

  /** One turn of the load-command loop: an answer, or the next cursor. */
  datatype Turn = Done(found: Found) | Next(cursor: nat)

  function ReadTurn(bits: Bits, endian: Endian, data: Bytes, cursor: nat): Turn {
    var cmd := ReadInt(data, cursor, 4, endian);
    var cmdsize := ReadInt(data, cursor + 4, 4, endian);
    if cmd.Err? then Done(Err(cmd.error))
    else if cmdsize.Err? then Done(Err(cmdsize.error))
    else if cmdsize.value < 8 then Done(Err("invalid Mach-O load command size"))
    else if cursor + cmdsize.value > |data| then Done(Err("invalid Mach-O load command range"))
    else
      var section := CommandSection(bits, cmd.value, data[cursor..cursor + cmdsize.value], data, endian);
      if section == Ok(None) then Next(cursor + cmdsize.value) else Done(section)
  }

  /** The first schema section in `n` load commands starting at `cursor`. */
  function ScanCommands(bits: Bits, endian: Endian, data: Bytes, cursor: nat, n: nat): Found
    decreases n
  {
    if n == 0 then Ok(None) else
      match ReadTurn(bits, endian, data, cursor)
      case Done(found) => found
      case Next(after) => ScanCommands(bits, endian, data, after, n - 1)
  }

  /** The body of the load-command loop. */
  method TakeTurn(bits: Bits, endian: Endian, data: Bytes, cursor: nat) returns (turn: Turn)
    ensures turn == ReadTurn(bits, endian, data, cursor)
    ensures turn.Next? ==> cursor + 8 <= turn.cursor <= |data|
  {
    var cmd := ReadInt(data, cursor, 4, endian);
    if cmd.Err? {
      return Done(Err(cmd.error));
    }
    var cmdsize := ReadInt(data, cursor + 4, 4, endian);
    if cmdsize.Err? {
      return Done(Err(cmdsize.error));
    }
    if cmdsize.value < 8 {
      return Done(Err("invalid Mach-O load command size"));
    }
    var commandEnd := cursor + cmdsize.value;
    if commandEnd > |data| {
      return Done(Err("invalid Mach-O load command range"));
    }
    var section: Found := Ok(None);
    if cmd.value == LayoutOf(bits).segmentCmd {
      section := ReadSegment(bits, data[cursor..commandEnd], data, endian);
    }
    turn := if section == Ok(None) then Next(commandEnd) else Done(section);
  }

  function SchemaSection(data: Bytes): Found {
    var (bits, endian) :- ParseHeader(data);
    var ncmds :- ReadInt(data, 16, 4, endian);
    ScanCommands(bits, endian, data, LayoutOf(bits).headerLen, ncmds)
  }

  /** `macho_schema_section_data`. Every slice is in bounds on every input, and each completed
      load command takes at least eight bytes, so the work is bounded by the data's length
      however many commands the header declares. */
  method MachoSchemaSectionData(data: Bytes) returns (r: Found, completed: nat)
    ensures r == SchemaSection(data)
    ensures 8 * completed <= |data|
  {
    completed := 0;
    var header :- ParseHeader(data);
    var bits, endian := header.0, header.1;
    var ncmds :- ReadInt(data, 16, 4, endian);
    var cursor := LayoutOf(bits).headerLen;
    for i := 0 to ncmds
      invariant completed == i
      invariant i > 0 ==> cursor <= |data|
      invariant 8 * i <= cursor
      invariant SchemaSection(data) == ScanCommands(bits, endian, data, cursor, ncmds - i)
    {
      var turn := TakeTurn(bits, endian, data, cursor);
      if turn.Done? {
        return turn.found, completed;
      }
      cursor := turn.cursor;
      completed := completed + 1;
    }
    r := Ok(None);
  }

  // ----- what comes back is part of the file

  ghost predicate PartOf(s: Bytes, data: Bytes) {
    exists i, j :: 0 <= i <= j <= |data| && s == data[i..j]
  }

  lemma {:induction false} ScanSectionsPartOf(l: Layout, sections: Bytes, n: nat, data: Bytes, endian: Endian)
    requires l.sectionLen >= 32
    ensures var r := ScanSections(l, sections, n, data, endian);
      r.Ok? && r.value.Some? ==> PartOf(r.value.value, data)
    decreases n
  {
    if n > 0 && |sections| >= l.sectionLen && !IsSchemaSection(sections[..l.sectionLen]) {
      ScanSectionsPartOf(l, sections[l.sectionLen..], n - 1, data, endian);
    }
  }

  lemma CommandPartOf(bits: Bits, cmd: nat, command: Bytes, data: Bytes, endian: Endian)
    ensures var r := CommandSection(bits, cmd, command, data, endian);
      r.Ok? && r.value.Some? ==> PartOf(r.value.value, data)
  {
    var l := LayoutOf(bits);
    if |command| >= l.segmentLen {
      var nsects := ReadInt(command, l.nsectsAt, 4, endian).value;
      ScanSectionsPartOf(l, command[l.segmentLen..], nsects, data, endian);
    }
  }

  lemma {:induction false} ScanCommandsPartOf(bits: Bits, endian: Endian, data: Bytes, cursor: nat, n: nat)
    ensures var r := ScanCommands(bits, endian, data, cursor, n);
      r.Ok? && r.value.Some? ==> PartOf(r.value.value, data)
    decreases n
  {
    if n > 0 {
      TurnPartOf(bits, endian, data, cursor);
      var turn := ReadTurn(bits, endian, data, cursor);
      if turn.Next? {
        ScanCommandsPartOf(bits, endian, data, turn.cursor, n - 1);
      }
    }
  }

  lemma TurnPartOf(bits: Bits, endian: Endian, data: Bytes, cursor: nat)
    ensures var t := ReadTurn(bits, endian, data, cursor);
      t.Done? && t.found.Ok? && t.found.value.Some? ==> PartOf(t.found.value.value, data)
  {
    var cmd, cmdsize := ReadInt(data, cursor, 4, endian), ReadInt(data, cursor + 4, 4, endian);
    if cmd.Ok? && cmdsize.Ok? && cursor + cmdsize.value <= |data| {
      CommandPartOf(bits, cmd.value, data[cursor..cursor + cmdsize.value], data, endian);
    }
  }

  /** On every byte string the reader answers none, an error, or a contiguous part of it. */
  lemma FoundIsPartOfFile(data: Bytes)
    ensures var r := SchemaSection(data);
      r.Ok? && r.value.Some? ==> PartOf(r.value.value, data)
  {
    var header := ParseHeader(data);
    if header.Ok? {
      var (bits, endian) := header.value;
      var ncmds := ReadInt(data, 16, 4, endian);
      if ncmds.Ok? {
        ScanCommandsPartOf(bits, endian, data, LayoutOf(bits).headerLen, ncmds.value);
      }
    }
  }
}
