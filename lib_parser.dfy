/** `CLibFileParser::ParseFile` over a whole library: the file-type test, the
    walk over the member headers with the tests that skip a member, one
    worker per remaining member, and the merge of the workers' JSON objects
    into the object written to Signatures.json. The workers run in a thread
    pool, but their results are merged in the order the members were
    enqueued, so the model runs them one after the other. */
module LibParser {
  import opened Common
  import opened Coff
  import opened Archive
  import opened Member
  import opened Disassembler

  /** Every member the walk steps over can be read by its worker. */
  predicate AllReadable(data: seq<Byte>, refs: seq<MemberRef>) {
    forall r | r in refs :: MemberReadable(data, r)
  }

  /** What the worker of a processed member reads lies inside the buffer,
      for every member of the walk from the end of the signature. */
  predicate ReadsInBounds(data: seq<Byte>) {
    AllReadable(data, Walk(data, ARCHIVE_START_SIZE).0)
  }

  /** `results`: the JSON object of every processed member, in file order. */
  function MemberResults(data: seq<Byte>, decode: Decoder, refs: seq<MemberRef>): seq<map<string, string>>
    requires AllReadable(data, refs)
  {
    if |refs| == 0 then []
    else
      var r := refs[|refs| - 1];
      assert r in refs;
      MemberResults(data, decode, refs[..|refs| - 1])
        + if IsProcessed(data, r) then [MemberJson(data, decode, r)] else []
  }

  /** `signaturesJson.update(future.get())` for every result in turn: a
      later object overwrites the keys an earlier one shares with it. */
  function MergeAll(results: seq<map<string, string>>): map<string, string> {
    if |results| == 0 then map[]
    else MergeAll(results[..|results| - 1]) + results[|results| - 1]
  }

  /** The corrected merge: the object Signatures.json is meant to hold, or
      None when the file is not a library and nothing is written. As
      written, the parse throws on a processed member without entries and
      writes `null` when no member is processed (`LibraryJsonAsWritten`). */
  function LibraryJson(data: seq<Byte>, decode: Decoder): Option<map<string, string>>
    requires IsLibFile(data) ==> ReadsInBounds(data)
  {
    if !IsLibFile(data) then None
    else Some(MergeAll(MemberResults(data, decode, Walk(data, ARCHIVE_START_SIZE).0)))
  }

  // ---------------------------------------------------------------------
  // The parse as a loop over the buffer.

  /** `ParseFile` on the bytes of the file. */
  method ParseFile(data: seq<Byte>, decode: Decoder) returns (out: Option<map<string, string>>)
    requires IsLibFile(data) ==> ReadsInBounds(data)
    ensures out == LibraryJson(data, decode)
  {
    if |data| < ARCHIVE_START_SIZE || data[..ARCHIVE_START_SIZE] != ARCHIVE_START {
      return None;
    }
    var results := WalkMembers(data, decode);
    var signaturesJson := MergeResults(results);
    out := Some(signaturesJson);
  }

  /** The walk loop: step from header to header, hand each member that
      passes the tests to a worker, and stop at the end of the buffer, at a
      Size field that is not a number, or at a member running past the
      end. */
  method WalkMembers(data: seq<Byte>, decode: Decoder) returns (results: seq<map<string, string>>)
    requires ReadsInBounds(data)
    ensures results == MemberResults(data, decode, Walk(data, ARCHIVE_START_SIZE).0)
  {
    var pos: nat := ARCHIVE_START_SIZE;
    results := [];
    ghost var seen: seq<MemberRef> := [];
    assert seen + Walk(data, pos).0 == Walk(data, pos).0;
    while pos + MEMBER_HEADER_SIZE <= |data|
      invariant Walked(data, decode, pos, seen, results)
      decreases |data| - pos
    {
      var sizeField := MemberSize(data, pos);
      if sizeField.None? {
        break;
      }
      var size := sizeField.value;
      var next := pos + MEMBER_HEADER_SIZE + size + size % 2;
      if next > |data| {
        break;
      }
      var r := MemberRef(pos, data[pos .. pos + NAME_FIELD_SIZE], size);
      assert r.Next() == next;
      WalkedStep(data, decode, pos, seen, results, r);
      var localJson := VisitMember(data, decode, r);
      seen, results, pos := seen + [r], results + localJson, next;
    }
    WalkedAll(data, decode, pos, seen, results);
  }

  /** The tests of the walk loop on one member, then its worker: the two
      special members, a member too small for a file header, a machine
      other than x86 and x64, and a missing symbol table are skipped. */
  method VisitMember(data: seq<Byte>, decode: Decoder, r: MemberRef) returns (res: seq<map<string, string>>)
    requires MemberReadable(data, r)
    ensures res == if IsProcessed(data, r) then [MemberJson(data, decode, r)] else []
  {
    if r.name == LINKER_MEMBER || r.name == LONGNAMES_MEMBER {
      return [];
    }
    if r.size < FILE_HEADER_SIZE {
      return [];
    }
    var header := ReadFileHeader(data, r.DataStart());
    if header.machine != MACHINE_I386 && header.machine != MACHINE_AMD64 {
      return [];
    }
    if header.pointerToSymbolTable == 0 || header.numberOfSymbols == 0 {
      return [];
    }
    var localJson := ProcessMember(data, Layout(r.DataStart(), header), decode);
    res := [localJson];
  }

  /** The walk loop's state at the header at `pos`: `seen` are the members
      stepped over so far, the walk from `pos` yields the rest, and
      `results` holds the objects of the processed ones among `seen`. */
  ghost predicate Walked(data: seq<Byte>, decode: Decoder, pos: nat,
                         seen: seq<MemberRef>, results: seq<map<string, string>>) {
    && ReadsInBounds(data)
    && seen + Walk(data, pos).0 == Walk(data, ARCHIVE_START_SIZE).0
    && AllReadable(data, seen)
    && results == MemberResults(data, decode, seen)
  }

  /** One member stepped over: it is the next member of the walk. */
  lemma WalkedStep(data: seq<Byte>, decode: Decoder, pos: nat,
                   seen: seq<MemberRef>, results: seq<map<string, string>>, r: MemberRef)
    requires Walked(data, decode, pos, seen, results)
    requires pos + MEMBER_HEADER_SIZE <= |data| && MemberSize(data, pos) == Some(r.size)
    requires r == MemberRef(pos, data[pos .. pos + NAME_FIELD_SIZE], r.size) && r.Next() <= |data|
    ensures MemberReadable(data, r)
    ensures Walked(data, decode, r.Next(), seen + [r],
                   results + if IsProcessed(data, r) then [MemberJson(data, decode, r)] else [])
  {
    SeenStep(data, pos, seen, r);
    var seen' := seen + [r];
    assert seen'[..|seen|] == seen;
  }

  /** The member at `pos` is the next one of the walk from the signature. */
  lemma SeenStep(data: seq<Byte>, pos: nat, seen: seq<MemberRef>, r: MemberRef)
    requires seen + Walk(data, pos).0 == Walk(data, ARCHIVE_START_SIZE).0
    requires pos + MEMBER_HEADER_SIZE <= |data| && MemberSize(data, pos) == Some(r.size)
    requires r == MemberRef(pos, data[pos .. pos + NAME_FIELD_SIZE], r.size) && r.Next() <= |data|
    ensures (seen + [r]) + Walk(data, r.Next()).0 == Walk(data, ARCHIVE_START_SIZE).0
    ensures r in Walk(data, ARCHIVE_START_SIZE).0
  {
    WalkUnfold(data, pos, r);
    PrefixStep(seen, r, Walk(data, r.Next()).0, Walk(data, ARCHIVE_START_SIZE).0);
  }

  /** The walk from a header it can step over starts with that member. */
  lemma WalkUnfold(data: seq<Byte>, pos: nat, r: MemberRef)
    requires pos + MEMBER_HEADER_SIZE <= |data| && MemberSize(data, pos) == Some(r.size)
    requires r == MemberRef(pos, data[pos .. pos + NAME_FIELD_SIZE], r.size) && r.Next() <= |data|
    ensures Walk(data, pos).0 == [r] + Walk(data, r.Next()).0
  {
  }

  lemma PrefixStep(seen: seq<MemberRef>, r: MemberRef, rest: seq<MemberRef>, all: seq<MemberRef>)
    requires seen + ([r] + rest) == all
    ensures (seen + [r]) + rest == all && r in all
  {
    assert all[|seen|] == r;
  }

  /** When the loop stops, every member of the walk has been seen. */
  lemma WalkedAll(data: seq<Byte>, decode: Decoder, pos: nat,
                  seen: seq<MemberRef>, results: seq<map<string, string>>)
    requires Walked(data, decode, pos, seen, results)
    requires pos + MEMBER_HEADER_SIZE > |data| || MemberSize(data, pos).None?
      || pos + MEMBER_HEADER_SIZE + MemberSize(data, pos).value + MemberSize(data, pos).value % 2 > |data|
    ensures results == MemberResults(data, decode, Walk(data, ARCHIVE_START_SIZE).0)
  {
    assert Walk(data, pos).0 == [];
    assert seen + [] == seen;
  }

  /** The merge loop over the futures, in the order they were enqueued. */
  method MergeResults(results: seq<map<string, string>>) returns (signaturesJson: map<string, string>)
    ensures signaturesJson == MergeAll(results)
  {
    signaturesJson := map[];
    var i := 0;
    while i < |results|
      invariant i <= |results|
      invariant signaturesJson == MergeAll(results[..i])
    {
      assert results[..i + 1][..i] == results[..i];
      signaturesJson := signaturesJson + results[i];
      i := i + 1;
    }
    assert results[..i] == results;
  }

  // ---------------------------------------------------------------------
  // Properties of the merge and of the output.

  /** A key is in the merged object exactly when some result has it. */
  lemma {:induction false} MergeAllKeys(results: seq<map<string, string>>, n: string)
    ensures n in MergeAll(results) <==> exists j :: 0 <= j < |results| && n in results[j]
    decreases |results|
  {
    if |results| > 0 {
      var init := results[..|results| - 1];
      MergeAllKeys(init, n);
      if exists j :: 0 <= j < |init| && n in init[j] {
        var j :| 0 <= j < |init| && n in init[j];
        assert n in results[j];
      }
      if exists j :: 0 <= j < |results| && n in results[j] {
        var j :| 0 <= j < |results| && n in results[j];
        if j < |init| {
          assert n in init[j];
        }
      }
    }
  }

  /** The merged object takes each key's value from the last result that
      has the key: a later member overwrites a function of the same name
      from an earlier one. */
  lemma {:induction false} MergeAllLastWins(results: seq<map<string, string>>, j: nat, n: string)
    requires j < |results| && n in results[j]
    requires forall j' :: j < j' < |results| ==> n !in results[j']
    ensures n in MergeAll(results) && MergeAll(results)[n] == results[j][n]
    decreases |results|
  {
    if j < |results| - 1 {
      var init := results[..|results| - 1];
      assert init[j] == results[j];
      MergeAllLastWins(init, j, n);
    }
  }

  /** Output is written exactly for a buffer that starts with the archive
      signature; a library none of whose members reaches a worker gives an
      empty object. */
  lemma LibraryJsonCases(data: seq<Byte>, decode: Decoder)
    requires IsLibFile(data) ==> ReadsInBounds(data)
    ensures LibraryJson(data, decode).Some? <==>
      |data| >= ARCHIVE_START_SIZE && data[..ARCHIVE_START_SIZE] == ARCHIVE_START
    ensures IsLibFile(data) && (forall r | r in Walk(data, ARCHIVE_START_SIZE).0 :: !IsProcessed(data, r)) ==>
      LibraryJson(data, decode) == Some(map[])
  {
    if IsLibFile(data) && forall r | r in Walk(data, ARCHIVE_START_SIZE).0 :: !IsProcessed(data, r) {
      NoWorkersEmpty(data, decode, Walk(data, ARCHIVE_START_SIZE).0);
    }
  }

  /** A library without any processed member gives an empty object. */
  lemma {:induction false} NoWorkersEmpty(data: seq<Byte>, decode: Decoder, refs: seq<MemberRef>)
    requires AllReadable(data, refs)
    requires forall r | r in refs :: !IsProcessed(data, r)
    ensures MemberResults(data, decode, refs) == []
    decreases |refs|
  {
    if |refs| > 0 {
      NoWorkersEmpty(data, decode, refs[..|refs| - 1]);
    }
  }

  /** Every result comes from a processed member of the walk, and every
      processed member contributes one. */
  lemma {:induction false} MemberResultsCount(data: seq<Byte>, decode: Decoder, refs: seq<MemberRef>)
    requires AllReadable(data, refs)
    ensures |MemberResults(data, decode, refs)| == |ProcessedOf(data, refs)|
    ensures forall m | m in MemberResults(data, decode, refs) ::
      exists r | r in refs :: IsProcessed(data, r) && m == MemberJson(data, decode, r)
    ensures forall k | 0 <= k < |MemberResults(data, decode, refs)| ::
      MemberResults(data, decode, refs)[k] == MemberJson(data, decode, ProcessedOf(data, refs)[k])
    decreases |refs|
  {
    if |refs| > 0 {
      var init, r := refs[..|refs| - 1], refs[|refs| - 1];
      MemberResultsCount(data, decode, init);
      var rs := MemberResults(data, decode, init);
      var ps := ProcessedOf(data, init);
      assert r in refs;
      forall k | 0 <= k < |MemberResults(data, decode, refs)|
        ensures MemberResults(data, decode, refs)[k] == MemberJson(data, decode, ProcessedOf(data, refs)[k])
      {
        if k < |rs| {
          assert MemberResults(data, decode, refs)[k] == rs[k];
          assert ProcessedOf(data, refs)[k] == ps[k];
        }
      }
      forall m | m in MemberResults(data, decode, refs)
        ensures exists r' | r' in refs :: IsProcessed(data, r') && m == MemberJson(data, decode, r')
      {
        if m in rs {
          var r' :| r' in init && IsProcessed(data, r') && m == MemberJson(data, decode, r');
          assert r' in refs;
        } else {
          assert r in refs;
        }
      }
    }
  }

  /** The processed members among `refs`, in order. */
  function ProcessedOf(data: seq<Byte>, refs: seq<MemberRef>): (ps: seq<MemberRef>)
    requires AllReadable(data, refs)
    ensures forall r | r in ps :: r in refs && IsProcessed(data, r)
  {
    if |refs| == 0 then []
    else
      var r := refs[|refs| - 1];
      assert r in refs;
      ProcessedOf(data, refs[..|refs| - 1]) + if IsProcessed(data, r) then [r] else []
  }

  /** Every key written to Signatures.json is a non-empty symbol name
      without NUL characters, taken from a processed member of the walk. */
  lemma LibraryKeys(data: seq<Byte>, decode: Decoder, n: string)
    requires IsLibFile(data) && ReadsInBounds(data)
    requires n in LibraryJson(data, decode).value
    ensures ValidName(n)
    ensures exists r | r in Walk(data, ARCHIVE_START_SIZE).0 ::
      IsProcessed(data, r) && n in MemberJson(data, decode, r)
  {
    var refs := Walk(data, ARCHIVE_START_SIZE).0;
    var results := MemberResults(data, decode, refs);
    MergeAllKeys(results, n);
    var j :| 0 <= j < |results| && n in results[j];
    MemberResultsCount(data, decode, refs);
    assert results[j] in results;
    var r :| r in refs && IsProcessed(data, r) && results[j] == MemberJson(data, decode, r);
    MemberJsonKeys(data, decode, r, n);
  }

  /** A processed member of the walk has its object among the results. */
  lemma {:induction false} ProcessedHasResult(data: seq<Byte>, decode: Decoder, refs: seq<MemberRef>, r: MemberRef)
    requires AllReadable(data, refs) && r in refs && IsProcessed(data, r)
    ensures MemberJson(data, decode, r) in MemberResults(data, decode, refs)
    decreases |refs|
  {
    var init := refs[..|refs| - 1];
    if r != refs[|refs| - 1] {
      assert r in init;
      ProcessedHasResult(data, decode, init, r);
    }
  }

  // ---------------------------------------------------------------------
  // The merge as written, on `nlohmann::json` values.

  /** The two shapes a worker's `nlohmann::json` takes: null, its initial
      value, or an object once a key has been assigned. */
  datatype Json = Null | Object(fields: map<string, string>)

  /** `localJson` as the worker returns it: still null when no entry was
      written, which is exactly when its object is empty. */
  function WorkerJsonAsWritten(m: map<string, string>): Json {
    if m == map[] then Null else Object(m)
  }

  function AsWrittenResults(results: seq<map<string, string>>): seq<Json> {
    seq(|results|, k requires 0 <= k < |results| => WorkerJsonAsWritten(results[k]))
  }

  /** `basic_json::update(j)`: a null target first becomes an empty object;
      an argument that is not an object throws `type_error` 312, shown as
      None (nothing catches it, so the program ends there). */
  function UpdateAsWritten(target: Json, arg: Json): Option<Json> {
    var t := if target.Null? then map[] else target.fields;
    if arg.Null? then None else Some(Object(t + arg.fields))
  }

  /** The merge loop as written, from a null `signaturesJson`. */
  function MergeAsWritten(results: seq<Json>): Option<Json> {
    if |results| == 0 then Some(Null)
    else match MergeAsWritten(results[..|results| - 1])
      case None => None
      case Some(acc) => UpdateAsWritten(acc, results[|results| - 1])
  }

  /** The parse as written: None when it throws before writing the file. */
  function LibraryJsonAsWritten(data: seq<Byte>, decode: Decoder): Option<Json>
    requires ReadsInBounds(data)
  {
    MergeAsWritten(AsWrittenResults(MemberResults(data, decode, Walk(data, ARCHIVE_START_SIZE).0)))
  }

  /** One null result makes the merge as written throw. */
  lemma {:induction false} MergeAsWrittenThrows(results: seq<Json>, k: nat)
    requires k < |results| && results[k].Null?
    ensures MergeAsWritten(results) == None
    decreases |results|
  {
    if k < |results| - 1 {
      var init := results[..|results| - 1];
      assert init[k] == results[k];
      MergeAsWrittenThrows(init, k);
    }
  }

  /** A library with a processed member that has no function to write, such
      as an object holding only data, makes the parse as written throw
      instead of writing Signatures.json. */
  lemma FunctionlessMemberThrows(data: seq<Byte>, decode: Decoder, r: MemberRef)
    requires IsLibFile(data) && ReadsInBounds(data)
    requires r in Walk(data, ARCHIVE_START_SIZE).0 && IsProcessed(data, r)
    requires MemberJson(data, decode, r) == map[]
    ensures LibraryJsonAsWritten(data, decode) == None
  {
    var results := MemberResults(data, decode, Walk(data, ARCHIVE_START_SIZE).0);
    ProcessedHasResult(data, decode, Walk(data, ARCHIVE_START_SIZE).0, r);
    var k :| 0 <= k < |results| && results[k] == map[];
    MergeAsWrittenThrows(AsWrittenResults(results), k);
  }

  /** As written, a library whose members are all skipped leaves
      `signaturesJson` null, so the file holds `null` rather than `{}`. */
  lemma NoWorkersWritesNull(data: seq<Byte>, decode: Decoder)
    requires IsLibFile(data) && ReadsInBounds(data)
    requires forall r | r in Walk(data, ARCHIVE_START_SIZE).0 :: !IsProcessed(data, r)
    ensures LibraryJsonAsWritten(data, decode) == Some(Null)
    ensures LibraryJson(data, decode) == Some(map[])
  {
    NoWorkersEmpty(data, decode, Walk(data, ARCHIVE_START_SIZE).0);
    assert AsWrittenResults([]) == [];
  }

  /** The smallest instance: one worker wrote `_f`, the next wrote nothing. */
  lemma MergeAsWrittenExample()
    ensures MergeAsWritten([Object(map["_f" := "C3"]), Null]) == None
  {
    assert [Object(map["_f" := "C3"]), Null][..1] == [Object(map["_f" := "C3"])];
    assert [Object(map["_f" := "C3"])][..0] == [];
  }

  /** When every worker wrote at least one entry and there is at least one
      worker, the merge as written gives the same object as `MergeAll`. */
  lemma {:induction false} MergeAsWrittenAgrees(results: seq<map<string, string>>)
    requires |results| > 0
    requires forall k :: 0 <= k < |results| ==> results[k] != map[]
    ensures MergeAsWritten(AsWrittenResults(results)) == Some(Object(MergeAll(results)))
    decreases |results|
  {
    var n := |results|;
    var init := results[..n - 1];
    assert AsWrittenResults(results)[..n - 1] == AsWrittenResults(init);
    if n > 1 {
      MergeAsWrittenAgrees(init);
    } else {
      assert AsWrittenResults(init) == [];
    }
  }
}
