/** The pieces of the Microsoft PE/COFF format that LibTrace reads: the
    archive signature, little-endian fields of the COFF file header, the
    symbol table and the section table, and the trimming of text fields. */
module Coff {
  import opened Common

  /** "!<arch>\n", `IMAGE_ARCHIVE_START`. */
  const ARCHIVE_START: seq<Byte> := [0x21, 0x3C, 0x61, 0x72, 0x63, 0x68, 0x3E, 0x0A]
  const ARCHIVE_START_SIZE: nat := 8
  /** `sizeof(ArchiveMemberHeader)`. */
  const MEMBER_HEADER_SIZE: nat := 60
  /** `sizeof(IMAGE_FILE_HEADER)`. */
  const FILE_HEADER_SIZE: nat := 20
  /** `sizeof(IMAGE_SYMBOL)`. */
  const SYMBOL_SIZE: nat := 18
  /** `sizeof(IMAGE_SECTION_HEADER)`. */
  const SECTION_HEADER_SIZE: nat := 40
  /** `IMAGE_SIZEOF_SHORT_NAME`. */
  const SHORT_NAME_SIZE: nat := 8

  const MACHINE_I386: nat := 0x014C
  const MACHINE_AMD64: nat := 0x8664
  const SYM_CLASS_EXTERNAL: nat := 2
  const SYM_CLASS_STATIC: nat := 3
  const SCN_CNT_CODE: nat := 0x20

  /** `std::isspace` in the "C" locale. */
  predicate IsSpace(c: char) {
    c == ' ' || c == '\t' || c == '\n' || c == '\U{B}' || c == '\U{C}' || c == '\r'
  }

  /** The characters of raw bytes, as a `char` array is read. */
  function Chars(bs: seq<Byte>): (s: string)
    ensures |s| == |bs|
    ensures forall i :: 0 <= i < |bs| ==> s[i] as int == bs[i]
  {
    seq(|bs|, i requires 0 <= i < |bs| => bs[i] as char)
  }

  /** The `RemoveSpaces` lambda of `ParseFile`: drop trailing whitespace.
      Only the tail is trimmed; leading whitespace stays. */
  function RemoveSpaces(s: string): (r: string)
    ensures |r| <= |s| && r == s[..|r|]
    ensures forall i :: |r| <= i < |s| ==> IsSpace(s[i])
    ensures |r| > 0 ==> !IsSpace(r[|r| - 1])
  {
    if |s| > 0 && IsSpace(s[|s| - 1]) then RemoveSpaces(s[..|s| - 1]) else s
  }

  /** `GetFileType` followed by the size check of `ParseFile`: a file is
      processed only when it has at least eight bytes and they are the
      archive signature. */
  predicate IsLibFile(data: seq<Byte>) {
    |data| >= ARCHIVE_START_SIZE && data[..ARCHIVE_START_SIZE] == ARCHIVE_START
  }

  /** Little-endian WORD. */
  function U16(data: seq<Byte>, p: nat): (v: nat)
    requires p + 2 <= |data|
    ensures v < 0x1_0000
  {
    data[p] as int + 0x100 * data[p + 1] as int
  }

  /** Little-endian DWORD. */
  function U32(data: seq<Byte>, p: nat): (v: nat)
    requires p + 4 <= |data|
    ensures v < 0x1_0000_0000
  {
    U16(data, p) + 0x1_0000 * U16(data, p + 2)
  }

  /** Little-endian SHORT (two's complement). */
  function I16(data: seq<Byte>, p: nat): (v: int)
    requires p + 2 <= |data|
    ensures -0x8000 <= v < 0x8000
  {
    var u := U16(data, p);
    if u < 0x8000 then u else u - 0x1_0000
  }

  /** The fields of `IMAGE_FILE_HEADER` that are read. */
  datatype FileHeader = FileHeader(
    machine: nat,
    numberOfSections: nat,
    pointerToSymbolTable: nat,
    numberOfSymbols: nat,
    sizeOfOptionalHeader: nat)

  function ReadFileHeader(data: seq<Byte>, p: nat): FileHeader
    requires p + FILE_HEADER_SIZE <= |data|
  {
    FileHeader(U16(data, p), U16(data, p + 2), U32(data, p + 8), U32(data, p + 12), U16(data, p + 16))
  }

  /** The eight-byte `N` union of a symbol record. */
  type NameField = s: seq<Byte> | |s| == SHORT_NAME_SIZE witness [0, 0, 0, 0, 0, 0, 0, 0]

  /** The fields of `IMAGE_SYMBOL`. `name` is the raw `N` union: a short
      name, or four zero bytes and a string-table offset. */
  datatype Symbol = Symbol(
    name: NameField,
    value: nat,
    sectionNumber: int,
    typ: nat,
    storageClass: nat,
    numberOfAuxSymbols: nat)

  function ReadSymbol(data: seq<Byte>, p: nat): Symbol
    requires p + SYMBOL_SIZE <= |data|
  {
    Symbol(data[p .. p + 8], U32(data, p + 8), I16(data, p + 12), U16(data, p + 14), data[p + 16], data[p + 17])
  }

  /** `ISFCN(Type)`: the complex type (bits 4 and 5) is
      `IMAGE_SYM_DTYPE_FUNCTION`, that is `(Type & 0x30) == 0x20`. */
  predicate IsFunctionType(typ: nat) {
    (typ / 16) % 4 == 2
  }

  /** The fields of `IMAGE_SECTION_HEADER` that are read. */
  datatype SectionHeader = SectionHeader(sizeOfRawData: nat, pointerToRawData: nat, characteristics: nat)

  function ReadSectionHeader(data: seq<Byte>, p: nat): SectionHeader
    requires p + SECTION_HEADER_SIZE <= |data|
  {
    SectionHeader(U32(data, p + 16), U32(data, p + 20), U32(data, p + 36))
  }

  /** `Characteristics & IMAGE_SCN_CNT_CODE`. */
  predicate IsCodeSection(s: SectionHeader) {
    (s.characteristics / SCN_CNT_CODE) % 2 == 1
  }

  /** `N.Name.Short == 0`: the name lives in the string table. */
  predicate IsLongName(name: NameField) {
    name[0] == 0 && name[1] == 0 && name[2] == 0 && name[3] == 0
  }

  /** `N.Name.Long`: the string-table offset of a long name. */
  function LongNameOffset(name: NameField): nat {
    U32(name, 4)
  }

  /** There is a NUL byte at or after `p`: a C string starting at `p` ends
      inside the buffer. */
  predicate HasNulFrom(data: seq<Byte>, p: nat)
    decreases |data| - p
  {
    p < |data| && (data[p] == 0 || HasNulFrom(data, p + 1))
  }

  /** The C string at `p`: the bytes up to the first NUL. */
  function CString(data: seq<Byte>, p: nat): (s: string)
    requires HasNulFrom(data, p)
    ensures IsCStringAt(data, p, s) && NoNul(s)
    decreases |data| - p
  {
    if data[p] == 0 then ""
    else
      var rest := CString(data, p + 1);
      CStringCons(data, p, rest);
      [data[p] as char] + rest
  }

  /** No character of `s` is NUL. */
  predicate NoNul(s: string) {
    forall i :: 0 <= i < |s| ==> s[i] as int != 0
  }

  /** `s` is the text of a C string stored at `p`: its characters are the
      non-NUL bytes from `p` on, and a NUL byte follows them. */
  ghost predicate IsCStringAt(data: seq<Byte>, p: nat, s: string) {
    && p + |s| < |data| && data[p + |s|] == 0
    && forall j :: p <= j < p + |s| ==> data[j] != 0 && s[j - p] == data[j] as char
  }

  lemma CStringCons(data: seq<Byte>, p: nat, rest: string)
    requires p < |data| && data[p] != 0 && IsCStringAt(data, p + 1, rest)
    requires NoNul(rest)
    ensures IsCStringAt(data, p, [data[p] as char] + rest)
    ensures NoNul([data[p] as char] + rest)
  {
    var s := [data[p] as char] + rest;
    forall j | p < j < p + |s|
      ensures data[j] != 0 && s[j - p] == data[j] as char
    {
      assert s[j - p] == rest[j - (p + 1)];
    }
    forall i | 0 < i < |s|
      ensures s[i] as int != 0
    {
      assert s[i] == rest[i - 1];
    }
  }

  /** Offset of the first NUL byte of a short-name field, or its length. */
  function NulIndex(raw: seq<Byte>): (k: nat)
    ensures k <= |raw|
    ensures forall i :: 0 <= i < k ==> raw[i] != 0
    ensures k < |raw| ==> raw[k] == 0
  {
    if |raw| == 0 || raw[0] == 0 then 0 else 1 + NulIndex(raw[1..])
  }

  /** The short name as `ParseFile` computes it: `RemoveSpaces` over the
      whole eight-byte field. */
  function ShortNameAsWritten(raw: NameField): string {
    RemoveSpaces(Chars(raw))
  }

  /** A short name of fewer than eight characters is NUL-padded in a COFF
      symbol; `RemoveSpaces` trims only whitespace, so the padding stays
      inside the name that becomes the JSON key. */
  lemma ShortNameAsWrittenKeepsPadding()
    ensures ShortNameAsWritten([0x5F, 0x66, 0, 0, 0, 0, 0, 0]) == ['_', 'f', 0 as char, 0 as char, 0 as char, 0 as char, 0 as char, 0 as char]
  {
    var cs := Chars([0x5F, 0x66, 0, 0, 0, 0, 0, 0]);
    assert !IsSpace(cs[7]);
    assert cs == ['_', 'f', 0 as char, 0 as char, 0 as char, 0 as char, 0 as char, 0 as char];
  }

  /** The short name as evidently intended: the field up to its NUL padding,
      with trailing whitespace trimmed as before. */
  function ShortName(raw: NameField): (r: string)
    ensures NoNul(r)
    ensures |r| <= SHORT_NAME_SIZE
  {
    RemoveSpaces(Chars(raw[..NulIndex(raw)]))
  }

  /** A name written into the field with NUL padding is read back whole. */
  lemma ShortNameOfPadded(name: seq<Byte>)
    requires 1 <= |name| <= SHORT_NAME_SIZE
    requires forall i :: 0 <= i < |name| ==> name[i] != 0
    requires !IsSpace(name[|name| - 1] as char)
    ensures ShortName(name + seq(SHORT_NAME_SIZE - |name|, _ => 0)) == Chars(name)
  {
    var raw := name + seq(SHORT_NAME_SIZE - |name|, _ => 0);
    NulIndexOfPadded(name, raw);
    assert raw[..|name|] == name;
  }

  lemma NulIndexOfPadded(name: seq<Byte>, raw: seq<Byte>)
    requires |name| <= |raw| && raw[..|name|] == name
    requires |name| < |raw| ==> raw[|name|] == 0
    requires forall i :: 0 <= i < |name| ==> name[i] != 0
    ensures NulIndex(raw) == |name|
  {
  }
}
