/** The 32-byte directory slot: its parser, and the slot the write path lays down. */
module DirEntries {
  import opened Wrappers
  import opened Bytes
  import opened Names

  const SLOT_SIZE: nat := 32
  const END_MARK: byte := 0x00
  const DELETED: byte := 0xE5
  const ARCHIVE: byte := 0x20

  type Slot = s: seq<byte> | |s| == SLOT_SIZE witness seq(SLOT_SIZE, _ => 0)

  datatype Attributes = Attributes(
    readOnly: bool, hidden: bool, system: bool, volumeId: bool, directory: bool, archive: bool)

  datatype DirEntry = DirEntry(name: string, attrs: Attributes, firstCluster: nat, size: nat) {
    predicate IsDir() { attrs.directory }
    predicate IsFile() { !attrs.directory }
  }

  /** Bit `i` of a byte, with `weight == 2^i`: `b & weight != 0`. */
  predicate HasBit(b: byte, weight: nat)
    requires weight > 0
  {
    b / weight % 2 == 1
  }

  /** `Attributes::from_byte`. */
  function AttributesFromByte(b: byte): Attributes {
    Attributes(HasBit(b, 0x01), HasBit(b, 0x02), HasBit(b, 0x04), HasBit(b, 0x08), HasBit(b, 0x10), HasBit(b, 0x20))
  }

  function RawOf(s: Slot): RawName { s[..11] }

  function ClusterField(s: Slot): nat { Le16(s, 20) * U16 + Le16(s, 26) }

  predicate IsLabel(s: Slot) { HasBit(s[11], 0x08) }

  /** What `DirEntry::parse` answers on a full slot. */
  function ParseSlot(s: Slot): Option<DirEntry> {
    if s[0] == END_MARK || s[0] == DELETED || IsLabel(s) then None
    else Some(DirEntry(Decode(RawOf(s)), AttributesFromByte(s[11]), ClusterField(s), Le32(s, 28)))
  }

  /** `DirEntry::parse`: short input gives no entry. */
  method ParseEntry(entry: seq<byte>) returns (r: Option<DirEntry>)
    ensures |entry| < SLOT_SIZE ==> r == None
    ensures |entry| == SLOT_SIZE ==> r == ParseSlot(entry)
    ensures |entry| > SLOT_SIZE ==> r == ParseSlot(entry[..SLOT_SIZE])
  {
    if |entry| < SLOT_SIZE {
      return None;
    }
    if entry[0] == END_MARK || entry[0] == DELETED {
      return None;
    }
    var attrs := AttributesFromByte(entry[11]);
    if attrs.volumeId {
      return None;
    }
    var fullName := DecodeAsciiTrim(entry[0..8]);
    var ext := DecodeAsciiTrim(entry[8..11]);
    if ext != "" {
      fullName := fullName + "." + ext;
    }
    ghost var raw := RawOf(entry[..SLOT_SIZE]);
    assert raw[..8] == entry[0..8] && raw[8..] == entry[8..11];
    var high, low := Le16(entry, 20), Le16(entry, 26);
    r := Some(DirEntry(fullName, attrs, high * U16 + low, Le32(entry, 28)));
    assert |entry| == SLOT_SIZE ==> entry[..SLOT_SIZE] == entry;
  }

  /** The slot `write_dir_entry_at_offset` lays down. */
  function FileSlot(raw: RawName, first: nat, size: nat): (s: Slot)
    requires first < U32 && size < U32
  {
    raw + [ARCHIVE] + Zeros(8) + ToLe16(first / U16) + Zeros(4) + ToLe16(first % U16) + ToLe32(size)
  }

  const FILE_ATTRIBUTES: Attributes := Attributes(false, false, false, false, false, true)

  lemma FileSlotFields(raw: RawName, first: nat, size: nat)
    requires first < U32 && size < U32
    ensures var s := FileSlot(raw, first, size);
            && RawOf(s) == raw && s[11] == ARCHIVE
            && Le16(s, 20) == first / U16 && Le16(s, 26) == first % U16 && Le32(s, 28) == size
  {
    var s := FileSlot(raw, first, size);
    assert s[20..22] == ToLe16(first / U16);
    assert s[26..28] == ToLe16(first % U16);
    assert s[28..32] == ToLe32(size);
    assert Le16(s, 20) == Le16(s[20..22], 0);
    assert Le16(s, 26) == Le16(s[26..28], 0);
    assert Le32(s, 28) == Le32(s[28..32], 0);
  }

  /** Parsing a freshly written slot rebuilds the decoded name, the whole 32-bit cluster and the size. */
  lemma FileSlotRoundTrip(raw: RawName, first: nat, size: nat)
    requires first < U32 && size < U32
    ensures ParseSlot(FileSlot(raw, first, size)) ==
            if raw[0] == END_MARK || raw[0] == DELETED then None
            else Some(DirEntry(Decode(raw), FILE_ATTRIBUTES, first, size))
  {
    FileSlotFields(raw, first, size);
    assert FileSlot(raw, first, size)[0] == raw[0];
  }

  /** A file written under an accepted name shows up under that name, upper-cased, exactly when the name is readable
      and does not start with NUL. */
  lemma EntryRoundTrip(name: string, first: nat, size: nat)
    requires Encode(name).Ok? && first < U32 && size < U32
    ensures var e := ParseSlot(FileSlot(Encode(name).value, first, size));
            && (e.Some? <==> name[0] as int != 0)
            && (e.Some? ==> e.value.firstCluster == first && e.value.size == size && e.value.IsFile())
            && (e.Some? && e.value.name == Upper(name) <==> Readable(name) && name[0] as int != 0)
  {
    var raw := Encode(name).value;
    FirstRawByte(name);
    FileSlotRoundTrip(raw, first, size);
    NameRoundTrip(name);
  }

  lemma FirstRawByte(name: string)
    requires Encode(name).Ok?
    ensures name != "" && Encode(name).value[0] == UpperChar(name[0]) as int
    ensures Encode(name).value[0] != DELETED
    ensures Encode(name).value[0] == END_MARK <==> name[0] as int == 0
  {
    var base := BaseOf(name);
    assert base[0] == name[0];
    assert Plain(base[0]);
  }
}
