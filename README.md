# LibTrace / NewIdenLib signature pipeline, modelled in Dafny

The repository has two halves that meet in a `Signatures.json` file:

- **LibTrace** reads a static library (`.lib`, a COFF archive). It walks
  the 60-byte member headers after the `!<arch>\n` signature, and skips the
  linker member, the long-names member and anything that is not an x86 or
  x64 object. For each remaining object it selects the function symbols of
  code sections, sorts them by address and derives each function's size.
  It then turns each function's bytes into a byte-signature text: two
  upper-case hex digits per byte, `??` for the bytes of a relative
  operand, single spaces between tokens. All members' `name -> signature`
  objects are merged into one JSON object.
- **NewIdenLib** is an IDA plugin. It searches the database for every
  occurrence of each signature. It keeps hits that are the first byte of
  a function and renames those functions, appending `_1`, `_2`, ... when
  the name is taken. It renames no address twice, and it polls for
  cancellation every 100 signatures.

The model has one module per concern:

| file | module | what it holds |
|---|---|---|
| common.dfy | `Common` | `Byte`, `Option` |
| decimal.dfy | `Decimal` | `str(i)` and `std::from_chars` on decimal text |
| pattern.dfy | `Pattern` | wildcard byte patterns and the forward search |
| signature_text.dfy | `SignatureText` | rendering and reading back the `XX ?? XX` text |
| disassembler.dfy | `Disassembler` | `AnalyzeFuncGenerateSignature`, over an abstract decoder |
| coff.dfy | `Coff` | PE/COFF constants, little-endian fields, `RemoveSpaces`, the library test, symbol names |
| archive.dfy | `Archive` | the member-header walk, and an archive encoder it reads back |
| member.dfy | `Member` | the worker: symbol selection, in-place sort, sizes, names, the member's JSON object |
| lib_parser.dfy | `LibParser` | `ParseFile`: the walk loop, the skip tests, the merge of the workers' objects |
| sig_matcher.dfy | `SigMatcher` | `rename_function` and the scan loop of the IDA plugin |

Code that works step by step is modelled as methods with loops, and
`Scanner` is a class whose fields are the plugin's name set, address set
and counter. Each method is proved equal to a specification function. The
properties are lemmas about those functions.

The Zydis decoder is a parameter: a function from the machine mode and the
remaining bytes to an optional instruction descriptor (length, relative
flag, immediate and displacement offsets and sizes). The IDA database is
also a parameter: the loaded bytes of the address range, a function-start
lookup, and a `set_name` success oracle. `user_cancelled` is a function of
the signature index at which it is polled.

## Model

| member | source | states |
|---|---|---|
| Decimal.NatToDec | NewIdenLib/IdaPlugin/NewIdenLib.py:37 | `str(i)` of a natural number is a non-empty digit string with no leading zero |
| Decimal.DecValueOfNatToDec | NewIdenLib/IdaPlugin/NewIdenLib.py:37 | the decimal text of `i` has value `i` |
| Decimal.NatToDecInjective | NewIdenLib/IdaPlugin/NewIdenLib.py:37 | different suffix numbers have different texts |
| Decimal.FromChars | LibTrace/CFileParser/CLibFileParser.hpp:88 | `from_chars` into `size_t` fails on text not starting with a digit, and any value it yields fits in 64 bits |
| Decimal.FromCharsOfNatToDec | LibTrace/CFileParser/CLibFileParser.hpp:88 | `from_chars` reads back the decimal text of any `size_t` value, whatever non-digit follows |
| Decimal.FromCharsOfDigits | LibTrace/CFileParser/CLibFileParser.hpp:88 | `from_chars` on text starting with a run of digits yields the value of the whole run when it fits in 64 bits, and fails otherwise |
| Pattern.FindFrom | NewIdenLib/IdaPlugin/NewIdenLib.py:95-100 | the search returns the lowest offset at or after the start where the whole pattern matches, and None exactly when there is none |
| SignatureText.TokenText | LibTrace/CDisassembler/CDisassembler.hpp:63-70 | each token is two characters: `??` exactly for a wildcard, otherwise two upper-case hex digits whose value is the byte |
| SignatureText.ParseTokenText | LibTrace/CDisassembler/CDisassembler.hpp:63-70 | a token reads back as the byte or wildcard it was printed from |
| SignatureText.RenderLength | LibTrace/CDisassembler/CDisassembler.hpp:31-34 | `n` tokens give `3n - 1` characters, and no tokens give the empty text |
| SignatureText.RenderAt | LibTrace/CDisassembler/CDisassembler.hpp:55-76 | token `k` sits at characters `3k` and `3k + 1` of the text |
| SignatureText.RenderSpaceAt | LibTrace/CDisassembler/CDisassembler.hpp:31-34 | a single space follows every token but the last, across instruction boundaries too |
| SignatureText.ParseRender | LibTrace/CDisassembler/CDisassembler.hpp:25-81 | reading a rendered signature gives back exactly its token sequence |
| SignatureText.RenderInjective | LibTrace/CDisassembler/CDisassembler.hpp:25-81 | different token sequences render to different texts |
| Disassembler.RelOperand | LibTrace/CDisassembler/CDisassembler.hpp:36-53 | the relative operand is the immediate when the instruction is relative and its immediate is, else the displacement when there is one, else none |
| Disassembler.IsWildcard | LibTrace/CDisassembler/CDisassembler.hpp:57-61 | a byte is printed as `??` exactly when it lies in a non-empty relative operand |
| Disassembler.Signature | LibTrace/CDisassembler/CDisassembler.hpp:15-82 | the signature text is the rendering of one token per byte of the instructions decoded from the start |
| Disassembler.DecodeNext | LibTrace/CDisassembler/CDisassembler.hpp:29 | a successful decode has a length between 1 and the bytes left, and is the decoder's answer |
| Disassembler.GenerateSignature | LibTrace/CDisassembler/CDisassembler.hpp:15-82 | the decode loop produces `Signature(code)`, the rendering of one token per decoded byte |
| Disassembler.AppendInstruction | LibTrace/CDisassembler/CDisassembler.hpp:31-76 | the inner loop appends exactly the instruction's tokens, with the separating spaces |
| Disassembler.AppendByte | LibTrace/CDisassembler/CDisassembler.hpp:57-75 | one turn of the inner loop writes token `i` and a space when more bytes follow |
| Disassembler.AppendToken | LibTrace/CDisassembler/CDisassembler.hpp:63-75 | writing a token keeps the text equal to the rendering of the tokens so far |
| Disassembler.DecodedAll | LibTrace/CDisassembler/CDisassembler.hpp:29-81 | at the end of the code or at a failed decode the text written is the whole signature |
| Disassembler.SignatureEmpty | LibTrace/CDisassembler/CDisassembler.hpp:29-81 | the signature is empty exactly when the code is empty or its first instruction fails to decode |
| Disassembler.WildcardRule | LibTrace/CDisassembler/CDisassembler.hpp:36-70 | byte `i` of a decoded instruction is `??` exactly when the instruction is relative and `i` lies in the relative immediate, or else in the displacement; otherwise it is the code byte |
| Disassembler.InstrTokensMatch | LibTrace/CDisassembler/CDisassembler.hpp:55-76 | an instruction's tokens match the bytes it was decoded from |
| Disassembler.TokensMatchCode | LibTrace/CDisassembler/CDisassembler.hpp:29-78 | the tokens from any offset match the code at that offset |
| Disassembler.SignatureMatchesCode | LibTrace/CDisassembler/CDisassembler.hpp:15-82 | the signature text parses, and its pattern matches the function it was generated from |
| Coff.IsLibFile | LibTrace/CFileParser/CLibFileParser.hpp:56-68 | a file is a library exactly when it has at least 8 bytes and they are `!<arch>\n` |
| Coff.Chars | LibTrace/CFileParser/CLibFileParser.hpp:87 | a byte field read as characters keeps its length and every byte value |
| Coff.RemoveSpaces | LibTrace/CFileParser/CLibFileParser.hpp:28-35 | the result is a prefix of the input, every removed character is whitespace, and the last kept character is not; leading whitespace stays |
| Coff.CString | LibTrace/CFileParser/CLibFileParser.hpp:184-185 | a long name is the bytes from its offset up to the first NUL, and contains no NUL |
| Coff.NulIndex | LibTrace/CFileParser/CLibFileParser.hpp:189 | the offset of the first NUL of a name field, or its length when there is none |
| Coff.ShortNameAsWrittenKeepsPadding | LibTrace/CFileParser/CLibFileParser.hpp:189 | as written, the NUL padding of a short name stays in the name |
| Coff.ShortName | LibTrace/CFileParser/CLibFileParser.hpp:189 | the corrected short name has at most eight characters and no NUL |
| Coff.ShortNameOfPadded | LibTrace/CFileParser/CLibFileParser.hpp:189 | a name of one to eight bytes written with NUL padding is read back whole |
| Archive.MemberSize | LibTrace/CFileParser/CLibFileParser.hpp:87-88 | the size field, trimmed of trailing whitespace and read with `from_chars`, gives a size below 2^64 or nothing |
| Archive.Walk | LibTrace/CFileParser/CLibFileParser.hpp:84-104 | the loop over member headers: stop with fewer than 60 bytes left, at an unreadable size, or at a member running past the end; otherwise record the member and step past it and its padding |
| Archive.WalkShape | LibTrace/CFileParser/CLibFileParser.hpp:84-104 | the walk starts at the given header, every member lies in the buffer, each member starts where the previous one ends after padding, and each name field has 16 bytes |
| Archive.WalkIncreasing | LibTrace/CFileParser/CLibFileParser.hpp:95-97 | header offsets strictly increase along the walk |
| Archive.WalkStopReason | LibTrace/CFileParser/CLibFileParser.hpp:84-104 | the walk ends with fewer than 60 bytes left, or at an unreadable size field, or at a member running past the end, each exactly in its own case |
| Archive.SizeFieldReadsBack | LibTrace/CFileParser/CLibFileParser.hpp:87-88 | a size written left-aligned and blank-padded in the 10-byte field reads back as that size |
| Archive.WalkHead | LibTrace/CFileParser/CLibFileParser.hpp:84-104 | an encoded member is stepped over as one member with its name, size and data, and the walk continues after its padding |
| Archive.WalkEncoded | LibTrace/CFileParser/CLibFileParser.hpp:84-104 | walking encoded members yields one reference per member, each reading back its member, and stops only at the end of the buffer |
| Archive.ArchiveRoundTrip | LibTrace/CFileParser/CLibFileParser.hpp:56-104 | an encoded archive passes the library test, and the walk reads back every member |
| Member.IsProcessed | LibTrace/CFileParser/CLibFileParser.hpp:106-136 | a member goes to a worker exactly when it is not the linker or long-names member, holds a file header, is an x86 or x64 object, and has a symbol table with symbols |
| Member.SelectFrom | LibTrace/CFileParser/CLibFileParser.hpp:146-159 | the selection loop from record `i`: push each function symbol into its section's group and skip its auxiliary records |
| Member.FunctionGroups | LibTrace/CFileParser/CLibFileParser.hpp:146-159 | the groups of a member's function symbols, selected from record 0 into no groups |
| Member.PushValid | LibTrace/CFileParser/CLibFileParser.hpp:155 | adding a function symbol to its section's group keeps every group a non-empty list of that section's function symbols |
| Member.RecordIndicesChain | LibTrace/CFileParser/CLibFileParser.hpp:148-158 | the records visited start at 0, stay below NumberOfSymbols and step by `1 + NumberOfAuxSymbols` |
| Member.SelectFromSound | LibTrace/CFileParser/CLibFileParser.hpp:148-159 | selection puts only EXTERNAL or STATIC function symbols of an existing code section into that section's group |
| Member.SelectFromKeeps | LibTrace/CFileParser/CLibFileParser.hpp:155 | selection only appends, so symbols keep their table order within a group |
| Member.SelectFromComplete | LibTrace/CFileParser/CLibFileParser.hpp:148-159 | every visited record that is such a function symbol ends up in its section's group |
| Member.CollectFunctions | LibTrace/CFileParser/CLibFileParser.hpp:146-159 | the selection loop builds exactly `FunctionGroups` |
| Member.InsertByValuePermutes | LibTrace/CFileParser/CLibFileParser.hpp:163 | one insertion step adds the symbol and keeps all others |
| Member.InsertByValueSorted | LibTrace/CFileParser/CLibFileParser.hpp:163 | insertion into a list sorted by Value keeps it sorted |
| Member.SortByValue | LibTrace/CFileParser/CLibFileParser.hpp:163 | the sorted group is ordered by Value and is a permutation of the group |
| Member.SortStep | LibTrace/CFileParser/CLibFileParser.hpp:163 | sorting one more element inserts it into the sorted prefix |
| Member.InsertAt | LibTrace/CFileParser/CLibFileParser.hpp:163 | the in-place swap loop inserts element `i` into the sorted prefix and leaves the rest alone |
| Member.SortInPlace | LibTrace/CFileParser/CLibFileParser.hpp:163 | the array ends as `SortByValue` of its old contents |
| Member.FuncSize | LibTrace/CFileParser/CLibFileParser.hpp:171-179 | a function's size is the DWORD distance to the next symbol, or to the end of the raw data for the last one, so it is below 2^32 |
| Member.DwordSub | LibTrace/CFileParser/CLibFileParser.hpp:172-179 | the difference of two DWORDs wraps modulo 2^32 |
| Member.SizesTile | LibTrace/CFileParser/CLibFileParser.hpp:171-179 | with sorted Values below SizeOfRawData, each function ends where the next begins and the sizes from `i` on add up to SizeOfRawData minus `i`'s Value |
| Member.LastSizeWraps | LibTrace/CFileParser/CLibFileParser.hpp:178 | a last symbol past SizeOfRawData gets a wrapped size of nearly 2^32 |
| Member.SymbolName | LibTrace/CFileParser/CLibFileParser.hpp:181-190 | a symbol's name is empty or a non-empty string without NUL |
| Member.ReadSymbolName | LibTrace/CFileParser/CLibFileParser.hpp:181-190 | a long name whose string-table offset lies in the buffer is the C string stored there; one past the buffer reads `[ERROR]`; a short name has at most eight characters and no NUL |
| Member.FunctionEntry | LibTrace/CFileParser/CLibFileParser.hpp:192-205 | a function gives no entry when its name is empty or its bytes run past the buffer, and otherwise its name and the signature of its bytes |
| Member.GroupEntries | LibTrace/CFileParser/CLibFileParser.hpp:167-209 | every entry a group writes has a valid key |
| Member.EntryCases | LibTrace/CFileParser/CLibFileParser.hpp:192-205 | a function is skipped exactly when its name is empty or its code runs past the buffer; otherwise it writes its name and the signature of its bytes |
| Member.EntryMatchesCode | LibTrace/CFileParser/CLibFileParser.hpp:171-205 | a written signature parses, is no longer than the function, and matches the function's bytes in the buffer |
| Member.EmitFunction | LibTrace/CFileParser/CLibFileParser.hpp:169-208 | one turn of the group loop writes that function's entry, if any, into the object |
| Member.EmitGroup | LibTrace/CFileParser/CLibFileParser.hpp:167-209 | the group loop writes the group's entries in order |
| Member.SectionEntries | LibTrace/CFileParser/CLibFileParser.hpp:161-210 | every entry of the member's sections has a valid key |
| Member.MemberEntries | LibTrace/CFileParser/CLibFileParser.hpp:106-212 | every entry of a member has a valid key, and a skipped member has none |
| Member.InsertLastWins | LibTrace/CFileParser/CLibFileParser.hpp:205 | after writing entries, a key is present exactly when it was before or some entry has it, with the value of the last such entry |
| Member.MemberJsonKeys | LibTrace/CFileParser/CLibFileParser.hpp:192-205 | every key of a member's object is a valid name, mapped to the pattern of its last entry |
| Member.ProcessMember | LibTrace/CFileParser/CLibFileParser.hpp:138-212 | the worker returns the entries of all its sections, written into an empty object |
| LibParser.VisitMember | LibTrace/CFileParser/CLibFileParser.hpp:106-138 | the four skip tests send a member to a worker exactly when it is processed, and a worker gives the member's object |
| LibParser.WalkedAll | LibTrace/CFileParser/CLibFileParser.hpp:84-104 | when the loop stops, the results are those of every member of the walk |
| LibParser.WalkMembers | LibTrace/CFileParser/CLibFileParser.hpp:84-215 | the loop collects the object of every processed member of the walk, in file order |
| LibParser.MergeResults | LibTrace/CFileParser/CLibFileParser.hpp:217-220 | the merge loop updates the object with every result in order, with the corrected update that adds nothing for a member without entries |
| LibParser.ParseFile | LibTrace/CFileParser/CLibFileParser.hpp:49-220 | the parse writes the corrected merge of a library's members' objects, and nothing for a non-library |
| LibParser.LibraryJsonCases | LibTrace/CFileParser/CLibFileParser.hpp:56-68 | output is written exactly when the buffer has at least 8 bytes and they are the archive signature; under the corrected merge, no processed member gives an empty object |
| LibParser.MergeAll | LibTrace/CFileParser/CLibFileParser.hpp:217-220 | the results merged in order into an empty object, each later object overriding shared keys |
| LibParser.LibraryJson | LibTrace/CFileParser/CLibFileParser.hpp:49-220 | the corrected merge: nothing for a non-library, and otherwise the merge of the objects of the processed members of the walk into an empty object |
| LibParser.NoWorkersEmpty | LibTrace/CFileParser/CLibFileParser.hpp:106-136 | when every member is skipped there are no results |
| LibParser.MergeAllKeys | LibTrace/CFileParser/CLibFileParser.hpp:217-220 | a key is in the merged object exactly when some result has it |
| LibParser.MergeAllLastWins | LibTrace/CFileParser/CLibFileParser.hpp:217-220 | a key takes its value from the last result that has it |
| LibParser.MemberResultsCount | LibTrace/CFileParser/CLibFileParser.hpp:217-220 | there is one result per processed member, and result `k` is the object of the `k`-th processed member of the walk |
| LibParser.ProcessedHasResult | LibTrace/CFileParser/CLibFileParser.hpp:138 | every processed member's object is among the results |
| LibParser.LibraryKeys | LibTrace/CFileParser/CLibFileParser.hpp:205-219 | every key of the output is a valid name from some processed member's object |
| LibParser.MergeAsWrittenThrows | LibTrace/CFileParser/CLibFileParser.hpp:219 | as written, one null result makes the merge throw |
| LibParser.FunctionlessMemberThrows | LibTrace/CFileParser/CLibFileParser.hpp:138-220 | as written, a processed member that writes no entry makes the whole parse throw before any output |
| LibParser.NoWorkersWritesNull | LibTrace/CFileParser/CLibFileParser.hpp:78-224 | as written, a library whose members are all skipped writes `null`, where the corrected merge gives an empty object |
| LibParser.MergeAsWrittenExample | LibTrace/CFileParser/CLibFileParser.hpp:219 | a member with `_f` followed by a member with no function throws |
| LibParser.MergeAsWrittenAgrees | LibTrace/CFileParser/CLibFileParser.hpp:217-220 | when every result has an entry, the as-written merge equals the corrected one |
| SigMatcher.CandidateInjective | NewIdenLib/IdaPlugin/NewIdenLib.py:35-38 | two probes give the same name exactly when they have the same number |
| SigMatcher.TakenBound | NewIdenLib/IdaPlugin/NewIdenLib.py:36-38 | a name set holding the first `n` probes has at least `n` names, so the probing loop ends |
| SigMatcher.FirstFree | NewIdenLib/IdaPlugin/NewIdenLib.py:35-38 | the number found is the first probe from `i` on not in the set, and every earlier probe is taken |
| SigMatcher.FreeName | NewIdenLib/IdaPlugin/NewIdenLib.py:32-38 | the name tried is one not already in the name set |
| SigMatcher.FreeNameChoice | NewIdenLib/IdaPlugin/NewIdenLib.py:32-38 | the chosen name is not taken; it is the base name when that is free, and otherwise `base_i` for the smallest `i >= 1` that is free |
| SigMatcher.FreeSuffixUnique | NewIdenLib/IdaPlugin/NewIdenLib.py:35-38 | a free probe with all earlier probes taken is the one chosen |
| SigMatcher.FreeNameExample | NewIdenLib/IdaPlugin/NewIdenLib.py:32-38 | `foo` with `foo` and `foo_1` taken becomes `foo_2`; `Alpha` with `Alpha` taken becomes `Alpha_1` |
| SigMatcher.AllocateName | NewIdenLib/IdaPlugin/NewIdenLib.py:32-38 | the probing loop returns the free name |
| SigMatcher.Scanner.constructor | NewIdenLib/IdaPlugin/NewIdenLib.py:70-74 | the scan starts from the database's names, no renamed address and a zero count |
| SigMatcher.Scanner.RenameFunction | NewIdenLib/IdaPlugin/NewIdenLib.py:28-47 | it tries the free name; on success the name set grows by exactly that name and it returns true, on failure nothing changes and it returns false |
| SigMatcher.FindBytes | NewIdenLib/IdaPlugin/NewIdenLib.py:95-104 | a hit lies between the cursor and the end of the range |
| SigMatcher.FindBytesLeast | NewIdenLib/IdaPlugin/NewIdenLib.py:95-104 | a hit is a match with no match between the cursor and it; no hit means no match from the cursor on |
| SigMatcher.Visit | NewIdenLib/IdaPlugin/NewIdenLib.py:107-114 | a hit is renamed when a function starts there, it was not renamed before, and `set_name` takes the free name; the counter, both sets and the applied renames grow by that one rename |
| SigMatcher.SearchFrom | NewIdenLib/IdaPlugin/NewIdenLib.py:92-117 | the inner loop handles the lowest hit at or after the cursor and resumes one past it, until there is no hit or the cursor reaches the end |
| SigMatcher.ScanFrom | NewIdenLib/IdaPlugin/NewIdenLib.py:84-117 | the outer loop runs the inner loop for each signature in order from the start of the range, stopping when a poll at a multiple of 100 reports cancellation |
| SigMatcher.VisitRenames | NewIdenLib/IdaPlugin/NewIdenLib.py:107-114 | a hit is renamed exactly when a function starts there, the address was not renamed before and `set_name` accepts the free name; otherwise nothing changes |
| SigMatcher.Scanner.VisitHit | NewIdenLib/IdaPlugin/NewIdenLib.py:107-114 | the hit check updates the state as `Visit` says |
| SigMatcher.Scanner.SearchOnce | NewIdenLib/IdaPlugin/NewIdenLib.py:95-117 | one search moves the cursor strictly forward, or ends the signature |
| SigMatcher.Scanner.SearchSignature | NewIdenLib/IdaPlugin/NewIdenLib.py:92-117 | the inner loop handles every hit of the signature in address order |
| SigMatcher.Scanner.ScanSignatures | NewIdenLib/IdaPlugin/NewIdenLib.py:84-117 | the outer loop scans the signatures in order until a poll reports cancellation |
| SigMatcher.Run | NewIdenLib/IdaPlugin/NewIdenLib.py:70-117 | the count reported is the count of the scan from the database's names |
| SigMatcher.InitialConsistent | NewIdenLib/IdaPlugin/NewIdenLib.py:70-74 | the starting state has no renames |
| SigMatcher.VisitConsistent | NewIdenLib/IdaPlugin/NewIdenLib.py:107-114 | a hit keeps the counter equal to the renames applied, and the addresses and names distinct and new |
| SigMatcher.RunConsistent | NewIdenLib/IdaPlugin/NewIdenLib.py:70-117 | `renamed_count` equals both the number of renames and the size of `renamed_functions_ea`, which holds exactly the renamed addresses; no address or name is used twice, and no applied name existed before |
| SigMatcher.VisitJustified | NewIdenLib/IdaPlugin/NewIdenLib.py:95-114 | a rename at a matching hit is at a function start in the range |
| SigMatcher.RunJustified | NewIdenLib/IdaPlugin/NewIdenLib.py:84-117 | every rename is at the start of a function inside the range where some signature matches |
| SigMatcher.SearchExtends | NewIdenLib/IdaPlugin/NewIdenLib.py:92-117 | the inner loop keeps every earlier rename, in order, and every renamed address |
| SigMatcher.ScanExtends | NewIdenLib/IdaPlugin/NewIdenLib.py:84-117 | the outer loop keeps every earlier rename, in order, and every renamed address |
| SigMatcher.SearchComplete | NewIdenLib/IdaPlugin/NewIdenLib.py:92-117 | every function start at or after the cursor where the signature matches and `set_name` accepts any name at that address is renamed by the end of the inner loop |
| SigMatcher.ScanComplete | NewIdenLib/IdaPlugin/NewIdenLib.py:84-117 | a function start matched by a signature reached before any poll reports cancellation, where `set_name` accepts any name at that address, is renamed |
| SigMatcher.RunComplete | NewIdenLib/IdaPlugin/NewIdenLib.py:70-117 | a run renames every function start matched by a signature scanned before the first cancelling poll, where `set_name` accepts any name at that address |
| SigMatcher.PollsAtHundreds | NewIdenLib/IdaPlugin/NewIdenLib.py:85-88 | the result depends only on the cancellation answers at multiples of 100 |
| SigMatcher.NextPoll | NewIdenLib/IdaPlugin/NewIdenLib.py:85 | the next poll index is the first multiple of 100 at or after a given index |
| SigMatcher.CancelAtNextPoll | NewIdenLib/IdaPlugin/NewIdenLib.py:84-88 | when polls answer yes from index `c` on, the scan equals an uncancelled scan of the signatures before the first multiple of 100 at or after `c` |
| SigMatcher.CancelAfterFifty | NewIdenLib/IdaPlugin/NewIdenLib.py:84-88 | with 200 signatures and cancellation after signature 50, exactly the first 100 are scanned |

## Left out

- File I/O, logging, the wait box, messages, `ask_file`, `json.load`, and writing `Signatures.json`. The JSON text and its indentation are not modelled. The parse yields the merged object, and the plugin takes its input as a list of (name, pattern) pairs.
- The signature text syntax that IDA's `find_bytes` accepts is not modelled. The plugin's patterns are given already parsed. `SignatureText.ParseRender` connects them to the text LibTrace writes.
- The thread pool: each worker is a pure function of the buffer. Results are merged in the order they were queued, as the futures are. `totalFunctionsParsed` is only logged and is left out.
- Zydis is a parameter. A successful decode whose length is outside `1..remaining bytes` is read as a failure, because Zydis never reports one.
- IDA is a parameter: the byte image, `get_func` as a start lookup, and `set_name` as a pure success oracle of (address, name). IDA's own name checks and database state are not modelled. `get_func_name` is used only for a message. `idautils.Names()` becomes the starting name set.
- `ida_ida` is never imported (NewIdenLib/IdaPlugin/NewIdenLib.py:78), so the address range is an input to the model rather than read from IDA.
- SigMatcher.FindBytes: a hit must lie wholly inside the range. What IDA does with a pattern that runs past the range end, or with an empty pattern, is not modelled separately.
- Cancellation is polled only before signatures whose index is a multiple of 100, so up to 99 more signatures run after a request (`SigMatcher.CancelAfterFifty`). The plugin reports no completed/cancelled result, so neither does the model.
- `user_cancelled` is a function of the signature index, not of time.
- Member.ProcessMember: requires the symbol, string and section tables, and the long names the worker reads, to lie inside the buffer (`TablesInBounds`, `GroupsReadable`). The source does not check this, and reading past the buffer is undefined behaviour. LibParser.ParseFile and LibParser.WalkMembers inherit this through `ReadsInBounds`.
- Member.CollectFunctions: the `uint32_t` symbol index is unbounded in the model. Its wrap-around when `i + NumberOfAuxSymbols` passes 2^32 is not modelled.
- Member.SortInPlace: `std::ranges::sort` is not stable. The model sorts stably by Value, so when two symbols share a Value the model fixes one of the orders the source may produce.
- Sections are visited in ascending section number. The source iterates an `unordered_map` in an unspecified order, which only matters when two sections write the same name.
- Member.SymbolName: the model uses the corrected short name (see Findings). The long-name test `pName < memEnd` is kept as written.
- The file is read whole into the buffer. The file-size test and the signature test are folded into `Coff.IsLibFile`.
- The bundled JSON library is not part of this model. The behaviour of `update` and `operator[]` on a null value is stated as the library documents it.
- LibParser.ParseFile, LibParser.MergeResults, LibParser.LibraryJsonCases, LibParser.LibraryJson: these state the corrected merge (`MergeAll`, a union from an empty object in which later objects win). As written, `update` throws on the null object of a processed member that wrote no entry, so nothing is written at all (see Findings, `LibParser.FunctionlessMemberThrows`). As written, a library with no processed member never updates `signaturesJson` from its null start, so the file holds `null` where the corrected merge gives an empty object (`LibParser.NoWorkersWritesNull`).

## Findings

| source | as written | input that shows it | evidently intended | confidence | as-written member | corrected member |
|---|---|---|---|---|---|---|
| LibTrace/CFileParser/CLibFileParser.hpp:189 | the short name is `RemoveSpaces` over all eight bytes of the field, which trims only whitespace | a symbol `_f` stored as `5F 66 00 00 00 00 00 00` gives the key `_f` followed by six NUL characters | the name ends at the first NUL, giving `_f` | not executed | Coff.ShortNameAsWrittenKeepsPadding | Coff.ShortNameOfPadded |
| LibTrace/CFileParser/CLibFileParser.hpp:138-220 | a worker that writes no entry returns a null `localJson`, and `signaturesJson.update(null)` throws `type_error` 312, which nothing catches | an x86 object member with a symbol table but no function symbol in a code section, for example a data-only object, alongside any other member | such a member adds nothing, and the merged object holds every other member's entries | not executed | LibParser.FunctionlessMemberThrows | LibParser.MergeAllKeys |
