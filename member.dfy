/** The work `ParseFile` does for one object member of the archive: the
    member-level tests, the selection of function symbols from the COFF
    symbol table, their order by address, the size of each function, its
    name, and the entries that end up in the member's JSON object. */
module Member {
  import opened Common
  import opened Coff
  import opened Archive
  import opened Pattern
  import opened SignatureText
  import opened Disassembler

  /** `IMAGE_ARCHIVE_LINKER_MEMBER`, "/" padded with blanks to 16 bytes. */
  const LINKER_MEMBER: seq<Byte> := [0x2F] + Spaces(15)
  /** `IMAGE_ARCHIVE_LONGNAMES_MEMBER`, "//" padded with blanks to 16 bytes. */
  const LONGNAMES_MEMBER: seq<Byte> := [0x2F, 0x2F] + Spaces(14)

  const DWORD_MODULUS: nat := 0x1_0000_0000

  /** The tests of the walk loop after which a member is handed to a
      worker: not one of the two special members, large enough for a file
      header, an x86 or x64 object, and with a symbol table. */
  predicate IsProcessed(data: seq<Byte>, r: MemberRef)
    requires r.DataStart() + r.size <= |data|
  {
    && r.name != LINKER_MEMBER
    && r.name != LONGNAMES_MEMBER
    && r.size >= FILE_HEADER_SIZE
    && var h := ReadFileHeader(data, r.DataStart());
      && (h.machine == MACHINE_I386 || h.machine == MACHINE_AMD64)
      && h.pointerToSymbolTable != 0
      && h.numberOfSymbols != 0
  }

  /** Where the tables of an object member lie in the buffer. */
  datatype Layout = Layout(memberData: nat, header: FileHeader) {
    function SymbolTable(): nat {
      memberData + header.pointerToSymbolTable
    }
    /** The string table follows the last symbol record. */
    function StringTable(): nat {
      SymbolTable() + SYMBOL_SIZE * header.numberOfSymbols
    }
    /** The section table follows the file header and the optional header. */
    function SectionTable(): nat {
      memberData + FILE_HEADER_SIZE + header.sizeOfOptionalHeader
    }
    function IsX64(): bool {
      header.machine == MACHINE_AMD64
    }
  }

  function LayoutOf(data: seq<Byte>, r: MemberRef): Layout
    requires r.DataStart() + FILE_HEADER_SIZE <= |data|
  {
    Layout(r.DataStart(), ReadFileHeader(data, r.DataStart()))
  }

  /** The symbol table and the section table lie inside the buffer; the
      source reads them without checking. */
  predicate TablesInBounds(data: seq<Byte>, l: Layout) {
    && l.StringTable() <= |data|
    && l.SectionTable() + SECTION_HEADER_SIZE * l.header.numberOfSections <= |data|
  }

  /** `pSymbolTable[i]`. */
  function SymbolAt(data: seq<Byte>, l: Layout, i: nat): Symbol
    requires TablesInBounds(data, l) && i < l.header.numberOfSymbols
  {
    assert SYMBOL_SIZE * i + SYMBOL_SIZE <= SYMBOL_SIZE * l.header.numberOfSymbols;
    ReadSymbol(data, l.SymbolTable() + SYMBOL_SIZE * i)
  }

  /** `pSectionHeaders[k - 1]`, for a one-based section number `k`. */
  function SectionAt(data: seq<Byte>, l: Layout, k: int): (h: SectionHeader)
    requires TablesInBounds(data, l) && 1 <= k <= l.header.numberOfSections
    ensures h.sizeOfRawData < DWORD_MODULUS
  {
    assert SECTION_HEADER_SIZE * (k - 1) + SECTION_HEADER_SIZE <= SECTION_HEADER_SIZE * l.header.numberOfSections;
    ReadSectionHeader(data, l.SectionTable() + SECTION_HEADER_SIZE * (k - 1))
  }

  /** The selection test: an external or static symbol of a function type,
      defined in an existing section that holds code. */
  predicate IsFunctionSymbol(data: seq<Byte>, l: Layout, s: Symbol)
    requires TablesInBounds(data, l)
  {
    && (s.storageClass == SYM_CLASS_EXTERNAL || s.storageClass == SYM_CLASS_STATIC)
    && 0 < s.sectionNumber <= l.header.numberOfSections
    && IsFunctionType(s.typ)
    && IsCodeSection(SectionAt(data, l, s.sectionNumber))
  }

  /** `functionsBySection`: section number to the function symbols defined
      in it. */
  type Groups = map<int, seq<Symbol>>

  /** Every group is non-empty and holds only function symbols of its own
      section, each read from a symbol record. */
  predicate GroupsValid(data: seq<Byte>, l: Layout, groups: Groups)
    requires TablesInBounds(data, l)
  {
    forall k | k in groups ::
      && 1 <= k <= l.header.numberOfSections
      && |groups[k]| > 0
      && forall s | s in groups[k] ::
        && s.sectionNumber == k
        && s.value < DWORD_MODULUS
        && IsFunctionSymbol(data, l, s)
  }

  function GroupOf(groups: Groups, k: int): seq<Symbol> {
    if k in groups then groups[k] else []
  }

  /** `functionsBySection[s.SectionNumber].push_back(&s)`. */
  function Push(groups: Groups, s: Symbol): Groups {
    groups[s.sectionNumber := GroupOf(groups, s.sectionNumber) + [s]]
  }

  lemma PushValid(data: seq<Byte>, l: Layout, groups: Groups, s: Symbol)
    requires TablesInBounds(data, l) && GroupsValid(data, l, groups)
    requires IsFunctionSymbol(data, l, s) && s.value < DWORD_MODULUS
    ensures GroupsValid(data, l, Push(groups, s))
  {
  }

  /** The step of the selection loop at index `i`. */
  function SelectStep(data: seq<Byte>, l: Layout, i: nat, groups: Groups): Groups
    requires TablesInBounds(data, l)
    requires i < l.header.numberOfSymbols
  {
    var s := SymbolAt(data, l, i);
    if IsFunctionSymbol(data, l, s) then Push(groups, s) else groups
  }

  /** The symbol indices the selection loop reads, from index `i` on: after
      each symbol its auxiliary records are skipped. */
  function RecordIndices(data: seq<Byte>, l: Layout, i: nat): seq<nat>
    requires TablesInBounds(data, l)
    decreases l.header.numberOfSymbols - i
  {
    if i >= l.header.numberOfSymbols then []
    else [i] + RecordIndices(data, l, i + 1 + SymbolAt(data, l, i).numberOfAuxSymbols)
  }

  /** The loop reads the record at `i` first, only records of the table, in
      increasing order, and after each symbol skips its auxiliary records. */
  lemma {:induction false} RecordIndicesChain(data: seq<Byte>, l: Layout, i: nat)
    requires TablesInBounds(data, l)
    ensures var r := RecordIndices(data, l, i);
      && (|r| > 0 <==> i < l.header.numberOfSymbols)
      && (|r| > 0 ==> r[0] == i)
      && (forall j :: 0 <= j < |r| ==> i <= r[j] < l.header.numberOfSymbols)
      && (forall j :: 0 <= j < |r| - 1 ==>
            r[j + 1] == r[j] + 1 + SymbolAt(data, l, r[j]).numberOfAuxSymbols)
    decreases l.header.numberOfSymbols - i
  {
    if i < l.header.numberOfSymbols {
      var next := i + 1 + SymbolAt(data, l, i).numberOfAuxSymbols;
      RecordIndicesChain(data, l, next);
      var r := RecordIndices(data, l, i);
      var rest := RecordIndices(data, l, next);
      assert r == [i] + rest;
      forall j | 0 <= j < |r| - 1
        ensures r[j + 1] == r[j] + 1 + SymbolAt(data, l, r[j]).numberOfAuxSymbols
      {
        if j > 0 {
          assert r[j] == rest[j - 1] && r[j + 1] == rest[j];
        }
      }
    }
  }

  /** The selection loop from index `i` on, pushing into `groups`. */
  function SelectFrom(data: seq<Byte>, l: Layout, i: nat, groups: Groups): Groups
    requires TablesInBounds(data, l)
    decreases l.header.numberOfSymbols - i
  {
    if i >= l.header.numberOfSymbols then groups
    else SelectFrom(data, l, i + 1 + SymbolAt(data, l, i).numberOfAuxSymbols, SelectStep(data, l, i, groups))
  }

  /** The groups of a member's function symbols. */
  function FunctionGroups(data: seq<Byte>, l: Layout): Groups
    requires TablesInBounds(data, l)
  {
    SelectFrom(data, l, 0, map[])
  }

  /** Selection only ever pushes function symbols of their own section. */
  lemma {:induction false} SelectFromSound(data: seq<Byte>, l: Layout, i: nat, groups: Groups)
    requires TablesInBounds(data, l) && GroupsValid(data, l, groups)
    ensures GroupsValid(data, l, SelectFrom(data, l, i, groups))
    decreases l.header.numberOfSymbols - i
  {
    if i < l.header.numberOfSymbols {
      var s := SymbolAt(data, l, i);
      if IsFunctionSymbol(data, l, s) {
        PushValid(data, l, groups, s);
      }
      SelectFromSound(data, l, i + 1 + s.numberOfAuxSymbols, SelectStep(data, l, i, groups));
    }
  }

  /** Selection never drops what earlier steps pushed. */
  lemma {:induction false} SelectFromKeeps(data: seq<Byte>, l: Layout, i: nat, groups: Groups, k: int)
    requires TablesInBounds(data, l)
    ensures var r := SelectFrom(data, l, i, groups);
      |GroupOf(groups, k)| <= |GroupOf(r, k)| && GroupOf(groups, k) == GroupOf(r, k)[..|GroupOf(groups, k)|]
    decreases l.header.numberOfSymbols - i
  {
    if i < l.header.numberOfSymbols {
      var s := SymbolAt(data, l, i);
      var groups' := SelectStep(data, l, i, groups);
      SelectFromKeeps(data, l, i + 1 + s.numberOfAuxSymbols, groups', k);
      assert GroupOf(groups', k)[..|GroupOf(groups, k)|] == GroupOf(groups, k);
    }
  }

  /** Every function symbol at an index the loop reads is selected into the
      group of its section. */
  lemma {:induction false} SelectFromComplete(data: seq<Byte>, l: Layout, i: nat, groups: Groups, j: nat)
    requires TablesInBounds(data, l)
    requires j in RecordIndices(data, l, i) && j < l.header.numberOfSymbols
    requires IsFunctionSymbol(data, l, SymbolAt(data, l, j))
    ensures SymbolAt(data, l, j) in GroupOf(SelectFrom(data, l, i, groups), SymbolAt(data, l, j).sectionNumber)
    decreases l.header.numberOfSymbols - i
  {
    if j == i {
      SelectedHere(data, l, i, groups);
    } else {
      assert i < l.header.numberOfSymbols;
      var next := i + 1 + SymbolAt(data, l, i).numberOfAuxSymbols;
      assert j in RecordIndices(data, l, next);
      SelectFromComplete(data, l, next, SelectStep(data, l, i, groups), j);
    }
  }

  /** The function symbol read at index `i` stays in its group. */
  lemma SelectedHere(data: seq<Byte>, l: Layout, i: nat, groups: Groups)
    requires TablesInBounds(data, l)
    requires i < l.header.numberOfSymbols && IsFunctionSymbol(data, l, SymbolAt(data, l, i))
    ensures SymbolAt(data, l, i) in GroupOf(SelectFrom(data, l, i, groups), SymbolAt(data, l, i).sectionNumber)
  {
    var s := SymbolAt(data, l, i);
    var k := s.sectionNumber;
    var next := i + 1 + s.numberOfAuxSymbols;
    var groups' := SelectStep(data, l, i, groups);
    assert SelectFrom(data, l, i, groups) == SelectFrom(data, l, next, groups');
    SelectFromKeeps(data, l, next, groups', k);
    var n := |GroupOf(groups', k)|;
    assert GroupOf(groups', k)[n - 1] == s;
    assert GroupOf(SelectFrom(data, l, next, groups'), k)[n - 1] == s;
  }

  // ---------------------------------------------------------------------
  // Order by Value.

  predicate SortedByValue(s: seq<Symbol>) {
    forall i, j :: 0 <= i < j < |s| ==> s[i].value <= s[j].value
  }

  /** Insert `x` after every element whose Value is at most `x`'s, moving
      larger elements one place up, as the inner loop of an insertion sort
      does. */
  function InsertByValue(x: Symbol, s: seq<Symbol>): seq<Symbol> {
    if |s| == 0 then [x]
    else if s[|s| - 1].value <= x.value then s + [x]
    else InsertByValue(x, s[..|s| - 1]) + [s[|s| - 1]]
  }

  /** Insertion adds `x` and keeps every other element. */
  lemma {:induction false} InsertByValuePermutes(x: Symbol, s: seq<Symbol>)
    ensures multiset(InsertByValue(x, s)) == multiset(s) + multiset{x}
    decreases |s|
  {
    if |s| > 0 && s[|s| - 1].value > x.value {
      var init, last := s[..|s| - 1], s[|s| - 1];
      InsertByValuePermutes(x, init);
      assert s == init + [last];
    }
  }

  /** Every Value in `s` is at most `v`. */
  predicate AtMost(s: seq<Symbol>, v: int) {
    forall k :: 0 <= k < |s| ==> s[k].value <= v
  }

  /** Insertion into a sorted sequence keeps it sorted. */
  lemma {:induction false} InsertByValueSorted(x: Symbol, s: seq<Symbol>)
    requires SortedByValue(s)
    ensures SortedByValue(InsertByValue(x, s))
    decreases |s|
  {
    if |s| > 0 {
      var init, last := s[..|s| - 1], s[|s| - 1];
      assert AtMost(init, last.value);
      if last.value > x.value {
        InsertByValueSorted(x, init);
        InsertByValueAtMost(x, init, last.value);
        SortedSnoc(InsertByValue(x, init), last);
      } else {
        assert AtMost(s, x.value);
        SortedSnoc(s, x);
      }
    }
  }

  /** Insertion keeps an upper bound on the Values. */
  lemma {:induction false} InsertByValueAtMost(x: Symbol, s: seq<Symbol>, v: int)
    requires AtMost(s, v) && x.value <= v
    ensures AtMost(InsertByValue(x, s), v)
    decreases |s|
  {
    if |s| > 0 && s[|s| - 1].value > x.value {
      var init := s[..|s| - 1];
      InsertByValueAtMost(x, init, v);
      var r := InsertByValue(x, init) + [s[|s| - 1]];
      assert forall k :: 0 <= k < |r| - 1 ==> r[k] == InsertByValue(x, init)[k];
    }
  }

  lemma SortedSnoc(s: seq<Symbol>, x: Symbol)
    requires SortedByValue(s) && AtMost(s, x.value)
    ensures SortedByValue(s + [x])
  {
  }

  /** The group ordered by Value, equal Values kept in table order. */
  function SortByValue(s: seq<Symbol>): (r: seq<Symbol>)
    ensures SortedByValue(r)
    ensures multiset(r) == multiset(s)
  {
    if |s| == 0 then []
    else
      var sorted := SortByValue(s[..|s| - 1]);
      assert s == s[..|s| - 1] + [s[|s| - 1]];
      InsertByValuePermutes(s[|s| - 1], sorted);
      InsertByValueSorted(s[|s| - 1], sorted);
      InsertByValue(s[|s| - 1], sorted)
  }

  /** One step of the insertion: `x` goes below an element with a larger
      Value. */
  lemma InsertPastLarger(x: Symbol, s: seq<Symbol>, j: nat)
    requires 0 < j <= |s| && s[j - 1].value > x.value
    ensures InsertByValue(x, s[..j]) + s[j..] == InsertByValue(x, s[..j - 1]) + s[j - 1..]
  {
    assert s[..j][..j - 1] == s[..j - 1];
    assert s[j - 1..] == [s[j - 1]] + s[j..];
  }

  /** The insertion ends at the first element from the top whose Value is
      at most `x`'s. */
  lemma InsertStops(x: Symbol, s: seq<Symbol>, j: nat)
    requires j <= |s| && (j == 0 || s[j - 1].value <= x.value)
    ensures InsertByValue(x, s[..j]) == s[..j] + [x]
  {
    if j > 0 {
      assert s[..j][j - 1] == s[j - 1];
    }
  }

  /** `std::ranges::sort` of a group's symbol pointers by Value, in place:
      an insertion sort. */
  method SortInPlace(a: array<Symbol>)
    modifies a
    ensures a[..] == SortByValue(old(a[..]))
  {
    ghost var input := a[..];
    var i := 0;
    while i < a.Length
      invariant 0 <= i <= a.Length
      invariant a[..i] == SortByValue(input[..i])
      invariant a[i..] == input[i..]
    {
      assert a[i + 1..] == input[i + 1..] by {
        assert a[i + 1..] == a[i..][1..];
        assert input[i + 1..] == input[i..][1..];
      }
      InsertAt(a, i);
      SortStep(input, i);
      assert a[..i + 1] == SortByValue(input[..i + 1]);
      assert a[i + 1..] == input[i + 1..];
      i := i + 1;
    }
    assert input[..a.Length] == input;
  }

  lemma SortStep(s: seq<Symbol>, i: nat)
    requires i < |s|
    ensures SortByValue(s[..i + 1]) == InsertByValue(s[i], SortByValue(s[..i]))
  {
    assert s[..i + 1][..i] == s[..i];
  }

  /** One pass of the insertion sort: `a[i]` moves down into the sorted
      prefix `a[..i]`, swapping places with each larger element. */
  method InsertAt(a: array<Symbol>, i: nat)
    requires i < a.Length
    modifies a
    ensures a[..] == InsertByValue(old(a[i]), old(a[..i])) + old(a[i + 1..])
  {
    var key := a[i];
    ghost var sorted := a[..i];
    ghost var rest := a[i + 1..];
    var j := i;
    assert a[..] == sorted[..j] + [key] + sorted[j..] + rest by {
      assert a[..] == a[..i] + [a[i]] + a[i + 1..];
    }
    assert sorted[..j] == sorted && sorted[j..] == [];
    while j > 0 && a[j - 1].value > key.value
      invariant 0 <= j <= i
      invariant a[..] == sorted[..j] + [key] + sorted[j..] + rest
      invariant InsertByValue(key, sorted) == InsertByValue(key, sorted[..j]) + sorted[j..]
    {
      InsertPastLarger(key, sorted, j);
      ghost var before := a[..];
      a[j - 1], a[j] := key, a[j - 1];
      assert a[..] == before[j - 1 := key][j := before[j - 1]];
      SwapDown(before, sorted, key, rest, j);
      j := j - 1;
    }
    InsertStops(key, sorted, j);
  }

  /** Swapping `key` with the element below it moves the insertion point
      down by one. */
  lemma SwapDown(b: seq<Symbol>, sorted: seq<Symbol>, key: Symbol, rest: seq<Symbol>, j: nat)
    requires 0 < j <= |sorted|
    requires b == sorted[..j] + [key] + sorted[j..] + rest
    ensures b[j - 1 := key][j := b[j - 1]] == sorted[..j - 1] + [key] + sorted[j - 1..] + rest
  {
    var r := sorted[..j - 1] + [key] + sorted[j - 1..] + rest;
    var c := b[j - 1 := key][j := b[j - 1]];
    assert |c| == |r|;
    forall k | 0 <= k < |c|
      ensures c[k] == r[k]
    {
      if k < j - 1 {
      } else if k == j - 1 {
      } else if k == j {
        assert b[j - 1] == sorted[j - 1];
      } else if k <= |sorted| {
        assert c[k] == b[k] == sorted[k - 1];
      } else {
      }
    }
  }

  // ---------------------------------------------------------------------
  // Function sizes.

  /** `funcSize` of the `i`-th symbol of a sorted group: the distance to the
      next symbol's Value, and for the last symbol the distance to the end
      of the section's raw data. Both are DWORD subtractions and wrap
      modulo 2^32. */
  function FuncSize(sorted: seq<Symbol>, i: nat, rawSize: nat): (size: nat)
    requires i < |sorted|
    ensures size < DWORD_MODULUS
  {
    if i < |sorted| - 1 then DwordSub(sorted[i + 1].value, sorted[i].value)
    else DwordSub(rawSize, sorted[i].value)
  }

  /** Subtraction of two DWORDs: the difference modulo 2^32. */
  function DwordSub(a: int, b: int): (d: nat)
    ensures d < DWORD_MODULUS
  {
    (a - b) % DWORD_MODULUS
  }

  /** Where the `i`-th function ends: the next symbol, or the end of the
      section's raw data. */
  function FuncEnd(sorted: seq<Symbol>, i: nat, rawSize: nat): nat
    requires i < |sorted|
  {
    if i < |sorted| - 1 then sorted[i + 1].value else rawSize
  }

  function SizesFrom(sorted: seq<Symbol>, i: nat, rawSize: nat): nat
    requires i <= |sorted|
    decreases |sorted| - i
  {
    if i == |sorted| then 0 else FuncSize(sorted, i, rawSize) + SizesFrom(sorted, i + 1, rawSize)
  }

  /** With sorted Values inside the section, each function runs from its
      Value to the next one (or to the end of the raw data), so the
      functions tile the range from the first Value to SizeOfRawData. */
  lemma {:induction false} SizesTile(sorted: seq<Symbol>, i: nat, rawSize: nat)
    requires SortedByValue(sorted) && i < |sorted|
    requires forall j :: 0 <= j < |sorted| ==> sorted[j].value < DWORD_MODULUS
    requires sorted[|sorted| - 1].value <= rawSize < DWORD_MODULUS
    ensures sorted[i].value + FuncSize(sorted, i, rawSize) == FuncEnd(sorted, i, rawSize)
    ensures SizesFrom(sorted, i, rawSize) == rawSize - sorted[i].value
    decreases |sorted| - i
  {
    if i < |sorted| - 1 {
      SizesTile(sorted, i + 1, rawSize);
    }
  }

  /** A last Value beyond SizeOfRawData does not give a negative size: the
      DWORD subtraction wraps around. */
  lemma LastSizeWraps(sorted: seq<Symbol>, rawSize: nat)
    requires |sorted| > 0
    requires rawSize < sorted[|sorted| - 1].value < DWORD_MODULUS
    ensures FuncSize(sorted, |sorted| - 1, rawSize)
      == DWORD_MODULUS - (sorted[|sorted| - 1].value - rawSize)
  {
  }

  // ---------------------------------------------------------------------
  // Names.

  /** A long name whose offset lies inside the buffer is NUL-terminated
      inside it; the source reads it as a C string without a bound. */
  predicate NameReadable(data: seq<Byte>, l: Layout, s: Symbol) {
    var p := l.StringTable() + LongNameOffset(s.name);
    IsLongName(s.name) && p < |data| ==> HasNulFrom(data, p)
  }

  /** Every symbol of a group is a symbol record whose name can be read. */
  predicate GroupReadable(data: seq<Byte>, l: Layout, g: seq<Symbol>) {
    forall s | s in g :: NameReadable(data, l, s)
  }

  /** A JSON key as the worker can produce it: not empty, and without NUL
      characters. */
  predicate ValidName(n: string) {
    n != "" && NoNul(n)
  }

  /** `symbolName`: the short name of the record, or the long name at its
      offset in the string table; "[ERROR]" when that offset lies past the
      end of the buffer. */
  function SymbolName(data: seq<Byte>, l: Layout, s: Symbol): (n: string)
    requires NameReadable(data, l, s)
    ensures n == "" || ValidName(n)
  {
    if IsLongName(s.name) then
      var p := l.StringTable() + LongNameOffset(s.name);
      if p < |data| then CString(data, p) else "[ERROR]"
    else ShortName(s.name)
  }

  // ---------------------------------------------------------------------
  // Entries of the member's JSON object.

  /** `localJson[symbolName] = pattern`. */
  datatype Entry = Entry(name: string, pattern: string)

  /** `pFuncCode`: the function's first byte, as an offset in the buffer. */
  function CodeStart(l: Layout, sec: SectionHeader, s: Symbol): nat {
    l.memberData + sec.pointerToRawData + s.value
  }

  /** The entry the worker writes for the `i`-th function of a sorted group:
      none for an empty name or for code running past the end of the
      buffer. */
  function FunctionEntry(data: seq<Byte>, l: Layout, decode: Decoder, sec: SectionHeader,
                         sorted: seq<Symbol>, i: nat): Option<Entry>
    requires i < |sorted| && GroupReadable(data, l, sorted)
  {
    var s := sorted[i];
    var name := SymbolName(data, l, s);
    var start := CodeStart(l, sec, s);
    var size := FuncSize(sorted, i, sec.sizeOfRawData);
    if name == "" || start + size > |data| then None
    else Some(Entry(name, Signature(data[start .. start + size], l.IsX64(), decode)))
  }

  /** The entries of a sorted group from its `i`-th function on. */
  function GroupEntries(data: seq<Byte>, l: Layout, decode: Decoder, sec: SectionHeader,
                        sorted: seq<Symbol>, i: nat): (es: seq<Entry>)
    requires i <= |sorted| && GroupReadable(data, l, sorted)
    ensures forall e | e in es :: ValidName(e.name)
    decreases |sorted| - i
  {
    if i == |sorted| then []
    else
      var head := match FunctionEntry(data, l, decode, sec, sorted, i)
        case None => []
        case Some(e) => [e];
      head + GroupEntries(data, l, decode, sec, sorted, i + 1)
  }

  /** The symbols of all groups can be read. */
  predicate GroupsReadable(data: seq<Byte>, l: Layout, groups: Groups) {
    forall k | k in groups :: GroupReadable(data, l, groups[k])
  }

  /** Sorting keeps the symbols, so it keeps them readable. */
  lemma SortedReadable(data: seq<Byte>, l: Layout, g: seq<Symbol>)
    requires GroupReadable(data, l, g)
    ensures GroupReadable(data, l, SortByValue(g))
  {
    forall s | s in SortByValue(g)
      ensures s in g
    {
      assert s in multiset(SortByValue(g));
    }
  }

  /** The entries of the sections numbered `k` and up, in ascending order of
      section number. */
  function SectionEntries(data: seq<Byte>, l: Layout, decode: Decoder, groups: Groups, k: nat): (es: seq<Entry>)
    requires TablesInBounds(data, l) && GroupsReadable(data, l, groups)
    requires 1 <= k
    ensures forall e | e in es :: ValidName(e.name)
    decreases l.header.numberOfSections + 1 - k
  {
    if k > l.header.numberOfSections then []
    else
      var here := if k in groups then
        SortedReadable(data, l, groups[k]);
        GroupEntries(data, l, decode, SectionAt(data, l, k), SortByValue(groups[k]), 0)
      else [];
      here + SectionEntries(data, l, decode, groups, k + 1)
  }

  /** What the worker reads of a processed member lies inside the buffer. */
  predicate MemberReadable(data: seq<Byte>, r: MemberRef) {
    && r.DataStart() + r.size <= |data|
    && (IsProcessed(data, r) ==>
          var l := LayoutOf(data, r);
          TablesInBounds(data, l) && GroupsReadable(data, l, FunctionGroups(data, l)))
  }

  /** The entries a member contributes, in the order the worker writes
      them; none for a member the walk loop skips. */
  function MemberEntries(data: seq<Byte>, decode: Decoder, r: MemberRef): (es: seq<Entry>)
    requires MemberReadable(data, r)
    ensures forall e | e in es :: ValidName(e.name)
    ensures !IsProcessed(data, r) ==> es == []
  {
    if !IsProcessed(data, r) then []
    else
      var l := LayoutOf(data, r);
      SectionEntries(data, l, decode, FunctionGroups(data, l), 1)
  }

  /** Writing the entries one after the other into a JSON object. */
  function Insert(json: map<string, string>, es: seq<Entry>): map<string, string>
    decreases |es|
  {
    if |es| == 0 then json else Insert(json[es[0].name := es[0].pattern], es[1..])
  }

  /** `localJson` of the member's worker. */
  function MemberJson(data: seq<Byte>, decode: Decoder, r: MemberRef): map<string, string>
    requires MemberReadable(data, r)
  {
    Insert(map[], MemberEntries(data, decode, r))
  }

  /** The pattern of the last entry named `n`, if any. */
  function LastPattern(es: seq<Entry>, n: string): Option<string>
    decreases |es|
  {
    if |es| == 0 then None
    else if es[|es| - 1].name == n then Some(es[|es| - 1].pattern)
    else LastPattern(es[..|es| - 1], n)
  }

  lemma {:induction false} InsertAppend(json: map<string, string>, a: seq<Entry>, b: seq<Entry>)
    ensures Insert(json, a + b) == Insert(Insert(json, a), b)
    decreases |a|
  {
    if |a| > 0 {
      assert (a + b)[1..] == a[1..] + b;
      InsertAppend(json[a[0].name := a[0].pattern], a[1..], b);
    } else {
      assert a + b == b;
    }
  }

  /** A later entry overwrites an earlier one of the same name: each name
      ends up with the pattern of its last entry, and names without an
      entry keep what they had. */
  lemma {:induction false} InsertLastWins(json: map<string, string>, es: seq<Entry>, n: string)
    ensures var j := Insert(json, es);
      && (n in j <==> n in json || LastPattern(es, n).Some?)
      && (LastPattern(es, n).Some? ==> j[n] == LastPattern(es, n).value)
      && (LastPattern(es, n).None? && n in json ==> j[n] == json[n])
    decreases |es|
  {
    if |es| > 0 {
      var init, last := es[..|es| - 1], es[|es| - 1];
      assert es == init + [last];
      InsertAppend(json, init, [last]);
      InsertLastWins(json, init, n);
    }
  }

  /** Every key of a member's JSON object is a non-empty name without NUL
      characters, and its value is the pattern of the last entry of that
      name. */
  lemma MemberJsonKeys(data: seq<Byte>, decode: Decoder, r: MemberRef, n: string)
    requires MemberReadable(data, r)
    ensures var es := MemberEntries(data, decode, r);
      n in MemberJson(data, decode, r) ==>
        ValidName(n) && LastPattern(es, n).Some? && MemberJson(data, decode, r)[n] == LastPattern(es, n).value
  {
    var es := MemberEntries(data, decode, r);
    InsertLastWins(map[], es, n);
    if LastPattern(es, n).Some? {
      LastPatternIsEntry(es, n);
    }
  }

  lemma {:induction false} LastPatternIsEntry(es: seq<Entry>, n: string)
    requires LastPattern(es, n).Some?
    ensures Entry(n, LastPattern(es, n).value) in es
    decreases |es|
  {
    if es[|es| - 1].name != n {
      LastPatternIsEntry(es[..|es| - 1], n);
    }
  }

  /** The signature written for a function matches the function's own
      bytes in the library: parsed back, it is a pattern of at most
      `funcSize` positions that matches the buffer at the function's first
      byte. */
  lemma EntryMatchesCode(data: seq<Byte>, l: Layout, decode: Decoder, sec: SectionHeader,
                         sorted: seq<Symbol>, i: nat)
    requires i < |sorted| && GroupReadable(data, l, sorted)
    requires FunctionEntry(data, l, decode, sec, sorted, i).Some?
    ensures var e := FunctionEntry(data, l, decode, sec, sorted, i).value;
      var ts := Parse(e.pattern);
      && e.name == SymbolName(data, l, sorted[i])
      && ValidName(e.name)
      && ts.Some?
      && |ts.value| <= FuncSize(sorted, i, sec.sizeOfRawData)
      && MatchesAt(data, ts.value, CodeStart(l, sec, sorted[i]))
  {
    var start := CodeStart(l, sec, sorted[i]);
    var size := FuncSize(sorted, i, sec.sizeOfRawData);
    var code := data[start .. start + size];
    var text := Signature(code, l.IsX64(), decode);
    assert FunctionEntry(data, l, decode, sec, sorted, i).value == Entry(SymbolName(data, l, sorted[i]), text);
    SignatureMatchesCode(code, l.IsX64(), decode);
    MatchesInSlice(data, start, start + size, Parse(text).value);
  }

  // ---------------------------------------------------------------------
  // The worker.

  /** The selection loop: walk the symbol table, skipping auxiliary records,
      and push every function symbol of a code section into the group of
      its section. */
  method CollectFunctions(data: seq<Byte>, l: Layout) returns (groups: Groups)
    requires TablesInBounds(data, l)
    ensures groups == FunctionGroups(data, l)
  {
    groups := map[];
    var i: nat := 0;
    while i < l.header.numberOfSymbols
      invariant SelectFrom(data, l, i, groups) == FunctionGroups(data, l)
      decreases l.header.numberOfSymbols - i
    {
      ghost var before := groups;
      var symbol := SymbolAt(data, l, i);
      if && (symbol.storageClass == SYM_CLASS_EXTERNAL || symbol.storageClass == SYM_CLASS_STATIC)
         && symbol.sectionNumber > 0
         && IsFunctionType(symbol.typ)
         && symbol.sectionNumber <= l.header.numberOfSections
      {
        var section := SectionAt(data, l, symbol.sectionNumber);
        if IsCodeSection(section) {
          groups := Push(groups, symbol);
        }
      }
      assert groups == SelectStep(data, l, i, before);
      i := i + symbol.numberOfAuxSymbols;
      i := i + 1;
    }
  }

  /** The loop over a sorted group: the size of each function, its name,
      and, for a non-empty name whose code lies inside the buffer, its
      signature written under that name. */
  method EmitGroup(data: seq<Byte>, l: Layout, decode: Decoder, section: SectionHeader,
                   funcSymbols: array<Symbol>, json: map<string, string>)
    returns (out: map<string, string>)
    requires GroupReadable(data, l, funcSymbols[..])
    ensures out == Insert(json, GroupEntries(data, l, decode, section, funcSymbols[..], 0))
  {
    ghost var sorted := funcSymbols[..];
    out := json;
    var i := 0;
    while i < funcSymbols.Length
      invariant i <= funcSymbols.Length
      invariant Insert(out, GroupEntries(data, l, decode, section, sorted, i))
        == Insert(json, GroupEntries(data, l, decode, section, sorted, 0))
    {
      out := EmitFunction(data, l, decode, section, funcSymbols, i, out);
      i := i + 1;
    }
  }

  /** One turn of the loop over a sorted group: the `i`-th function's size
      and name, and its signature written under that name unless the name
      is empty or the code runs past the end of the buffer. */
  method EmitFunction(data: seq<Byte>, l: Layout, decode: Decoder, section: SectionHeader,
                      funcSymbols: array<Symbol>, i: nat, json: map<string, string>)
    returns (out: map<string, string>)
    requires i < funcSymbols.Length && GroupReadable(data, l, funcSymbols[..])
    ensures Insert(out, GroupEntries(data, l, decode, section, funcSymbols[..], i + 1))
      == Insert(json, GroupEntries(data, l, decode, section, funcSymbols[..], i))
  {
    ghost var sorted := funcSymbols[..];
    var symbol := funcSymbols[i];
    assert symbol in sorted;
    var funcSize: nat;
    if i < funcSymbols.Length - 1 {
      funcSize := DwordSub(funcSymbols[i + 1].value, symbol.value);
    } else {
      funcSize := DwordSub(section.sizeOfRawData, symbol.value);
    }
    var symbolName := ReadSymbolName(data, l, symbol);
    var start := l.memberData + section.pointerToRawData + symbol.value;
    EntryCases(data, l, decode, section, sorted, i, symbolName, funcSize, start);
    out := json;
    if symbolName != "" && start + funcSize <= |data| {
      var pattern := GenerateSignature(data[start .. start + funcSize], l.IsX64(), decode);
      InsertCons(json, Entry(symbolName, pattern), GroupEntries(data, l, decode, section, sorted, i + 1));
      out := out[symbolName := pattern];
    }
  }

  /** `symbolName` as the worker reads it: for a long name, the C string at
      its offset in the string table, or "[ERROR]" past the buffer; for a
      short name, at most eight characters and no NUL. */
  method ReadSymbolName(data: seq<Byte>, l: Layout, symbol: Symbol) returns (symbolName: string)
    requires NameReadable(data, l, symbol)
    ensures symbolName == SymbolName(data, l, symbol)
    ensures IsLongName(symbol.name) && l.StringTable() + LongNameOffset(symbol.name) < |data| ==>
      IsCStringAt(data, l.StringTable() + LongNameOffset(symbol.name), symbolName)
    ensures IsLongName(symbol.name) && l.StringTable() + LongNameOffset(symbol.name) >= |data| ==>
      symbolName == "[ERROR]"
    ensures !IsLongName(symbol.name) ==> NoNul(symbolName) && |symbolName| <= SHORT_NAME_SIZE
  {
    if IsLongName(symbol.name) {
      var p := l.StringTable() + LongNameOffset(symbol.name);
      symbolName := if p < |data| then CString(data, p) else "[ERROR]";
    } else {
      symbolName := ShortName(symbol.name);
    }
  }

  lemma InsertCons(json: map<string, string>, e: Entry, rest: seq<Entry>)
    ensures Insert(json, [e] + rest) == Insert(json[e.name := e.pattern], rest)
  {
    assert ([e] + rest)[1..] == rest;
  }

  /** One step of a group: the entry of the `i`-th function, if any, comes
      before those of the rest. */
  lemma EntryCases(data: seq<Byte>, l: Layout, decode: Decoder, section: SectionHeader,
                   sorted: seq<Symbol>, i: nat, name: string, size: nat, start: nat)
    requires i < |sorted| && GroupReadable(data, l, sorted)
    requires name == SymbolName(data, l, sorted[i])
    requires size == FuncSize(sorted, i, section.sizeOfRawData)
    requires start == CodeStart(l, section, sorted[i])
    ensures name == "" || start + size > |data| ==>
      GroupEntries(data, l, decode, section, sorted, i) == GroupEntries(data, l, decode, section, sorted, i + 1)
    ensures name != "" && start + size <= |data| ==>
      GroupEntries(data, l, decode, section, sorted, i)
        == [Entry(name, Signature(data[start .. start + size], l.IsX64(), decode))]
           + GroupEntries(data, l, decode, section, sorted, i + 1)
  {
    var fe := FunctionEntry(data, l, decode, section, sorted, i);
    var rest := GroupEntries(data, l, decode, section, sorted, i + 1);
    var head := match fe case None => [] case Some(e) => [e];
    assert GroupEntries(data, l, decode, section, sorted, i) == head + rest;
    FunctionEntryOf(data, l, decode, section, sorted, i, name, size, start);
    if name == "" || start + size > |data| {
      assert head + rest == rest;
    }
  }

  /** The entry of the `i`-th function in terms of its name, size and start. */
  lemma FunctionEntryOf(data: seq<Byte>, l: Layout, decode: Decoder, section: SectionHeader,
                        sorted: seq<Symbol>, i: nat, name: string, size: nat, start: nat)
    requires i < |sorted| && GroupReadable(data, l, sorted)
    requires name == SymbolName(data, l, sorted[i])
    requires size == FuncSize(sorted, i, section.sizeOfRawData)
    requires start == CodeStart(l, section, sorted[i])
    ensures name == "" || start + size > |data| ==> FunctionEntry(data, l, decode, section, sorted, i) == None
    ensures name != "" && start + size <= |data| ==>
      FunctionEntry(data, l, decode, section, sorted, i) == Some(Entry(name, Signature(data[start .. start + size], l.IsX64(), decode)))
  {
  }

  /** The worker of a processed member: select the function symbols, then
      for every section with functions sort them by Value and write their
      entries into the member's JSON object. Sections are visited in
      ascending order of section number. */
  method ProcessMember(data: seq<Byte>, l: Layout, decode: Decoder) returns (localJson: map<string, string>)
    requires TablesInBounds(data, l) && GroupsReadable(data, l, FunctionGroups(data, l))
    ensures localJson == Insert(map[], SectionEntries(data, l, decode, FunctionGroups(data, l), 1))
  {
    var functionsBySection := CollectFunctions(data, l);
    localJson := map[];
    var k := 1;
    while k <= l.header.numberOfSections
      invariant 1 <= k <= l.header.numberOfSections + 1
      invariant Insert(localJson, SectionEntries(data, l, decode, functionsBySection, k))
        == Insert(map[], SectionEntries(data, l, decode, functionsBySection, 1))
    {
      ghost var rest := SectionEntries(data, l, decode, functionsBySection, k + 1);
      if k in functionsBySection {
        var group := functionsBySection[k];
        var funcSymbols := new Symbol[|group|](j requires 0 <= j < |group| => group[j]);
        assert funcSymbols[..] == group;
        SortInPlace(funcSymbols);
        SortedReadable(data, l, group);
        var section := SectionAt(data, l, k);
        ghost var here := GroupEntries(data, l, decode, section, funcSymbols[..], 0);
        assert SectionEntries(data, l, decode, functionsBySection, k) == here + rest;
        InsertAppend(localJson, here, rest);
        localJson := EmitGroup(data, l, decode, section, funcSymbols, localJson);
      } else {
        assert SectionEntries(data, l, decode, functionsBySection, k) == [] + rest;
        assert [] + rest == rest;
      }
      k := k + 1;
    }
  }
}
