# cc-hosts host-graph lookup, modelled in Dafny

cc-hosts answers "which hosts link to, or are linked from, domain X" over the
Common Crawl host graph. The graph ships as sorted, tab-separated text files:

- vertices files hold `id \t domain` lines, sorted by the reversed domain (`com.example`);
- edges files hold `fromID \t toID` lines, sorted by source id one file at a time.

A sparse byte-offset index over every file lets a lookup fetch one small chunk
instead of a whole file. This project models the sequential, pure logic of that
design and proves what it promises:

- `VertexOffsets` (vertices/offset.go):
  - the vertex index entry and its text form;
  - the ordering checks of `Validate`;
  - the two binary searches that bracket a domain or an id between neighbouring entries.
- `EdgeOffsets` (edges/offset.go):
  - the edge index entry and its text form;
  - the per-file ordering checks of `Validate`;
  - the grouping of entries by file;
  - the per-file linear scan that brackets a source id.
- `Vertices` (vertices/vertices.go):
  - the vertex line;
  - the reversal of a domain's dot-separated labels;
  - the scan of a fetched chunk for a domain or an id;
  - the lookup that answers from the index alone when both bounds are the same entry.
- `Edges` (edges/edges.go): the edge line and the scan of a fetched chunk for the first run of a source id.
- `Indexer` (cmd/indexer/main.go): the one-pass builders of both indexes, over a sequence of lines.
- `Biggest` (cmd/biggest/main.go): the run-length counter that records large hubs in a map.
- `Reverse` (data/reverse.py): the per-line swap of the two fields of an edges line.

Supporting modules:

- `Text`: Go's `strings.Split`/`strings.Join` and Python's `str.strip`.
- `Lexical`: Go's `<` on strings, which is lexicographic; Dafny's `<` on sequences means proper prefix.
- `Decimal`: `strconv.Atoi` (optional sign, at least one digit, 64-bit range) and `strconv.Itoa`.
- `Wrappers`: `Result`, `Option` and `Outcome`. A Go `(value, error)` pair becomes a `Result`, and a bare `error` becomes an `Outcome`.

Modelling choices:

- Go strings are bytes, Dafny strings are characters. Input text is taken to be
  valid UTF-8. For valid UTF-8, code-point order and byte order agree. Byte
  lengths for the index offsets are taken with `Text.ByteLen`, the UTF-8 length.
- A data file is a sequence of lines, each followed by one newline.
- Error messages are modelled as error kinds, each carrying the values the message would print.
- Storage access is the one outside call `Vertices.Get` makes. It is a parameter
  (`Fetcher`): a function from file name, offset and byte count to the lines read.

Behaviours of the source that the proofs make explicit:

- The vertex index builder ends every file with an entry for the end of the file.
  That entry repeats the domain and id of the last line.
  - When the last line was also recorded (always so for a one-line file), the built
    index fails the vertex index validation with "domain goes down".
  - `Indexer.OneLineVerticesRejected` proves this for one-line files.
- On an empty vertex index, both bounds are the zero entry, so `get` takes its
  fast path. It then answers a vertex with id `"0"` and an empty domain (`Vertices.Get`).
- The hub counter never records the last run of a file, because nothing is
  flushed after the loop (`Biggest.SingleRunAddsNothing`). A run of `n` lines is
  credited `n - 1`, not `n` (`Biggest.RunThenOther`).

## Model

| member | source | states |
|---|---|---|
| Text.Split | edges/edges.go:37 | one more piece than separators, no piece holds the separator, and joining the pieces gives the string back |
| Text.SplitOfJoin | vertices/vertices.go:39-44 | splitting a join of separator-free pieces gives the pieces back |
| Text.StripAround | data/reverse.py:18 | `strip` removes exactly the whitespace around a text that neither starts nor ends with whitespace |
| Text.ParseLines | vertices/offset.go:137-153 | reading lines succeeds exactly when every line parses, giving the parsed lines in order; otherwise the error of the first line that fails |
| Lexical.LessMeaning | vertices/offset.go:184 | Go's string `<` is "proper prefix, or smaller character at the first difference" |
| Lexical.LessTransitive | vertices/offset.go:221-248 | string order is transitive, as the binary search assumes |
| Lexical.LessTotal | vertices/offset.go:238-242 | two different strings are ordered one way or the other |
| Lexical.LessEqNotLess | vertices/offset.go:184 | `a <= b` is exactly `!(b < a)` |
| Lexical.AdjacentSorted | vertices/offset.go:184-188 | neighbour-wise increase, as the validation checks it, gives increase between any two entries |
| Decimal.Atoi | vertices/offset.go:59-67 | a parsed number fits in 64 bits and comes from an optionally signed string of at least one digit; an unsigned digit string parses to its value when that is at most 2^63 - 1 and fails otherwise |
| Decimal.AtoiSigned | vertices/offset.go:59-67 | `+` then digits parses to the digits' value up to 2^63 - 1; `-` then digits parses to its negation down to -2^63; a larger magnitude fails |
| Decimal.AtoiItoa | vertices/offset.go:41-67 | printing a 64-bit integer and parsing it back gives the integer |
| VertexOffsets.Load | vertices/offset.go:53-70 | a line without exactly four tab fields is an invalid-line error with the field count; loaded fields hold no tab and numbers fit in 64 bits |
| VertexOffsets.LoadFormat | vertices/offset.go:41-70 | loading a printed entry gives it back when domain and file hold no tab and the numbers fit in 64 bits |
| VertexOffsets.LoadMeaning | vertices/offset.go:53-70 | a line loads to an entry exactly when it is four tab-free fields: the domain, two integer fields with the entry's offset and id, and the file |
| VertexOffsets.CheckEntryMeaning | vertices/offset.go:165-204 | one loop iteration passes exactly when the entry is acceptable after its predecessor |
| VertexOffsets.ValidateFromMeaning | vertices/offset.go:165-204 | the loop passes exactly when every remaining entry is acceptable, and otherwise reports the first bad entry's check |
| VertexOffsets.ValidateMeaning | vertices/offset.go:155-207 | validation passes exactly on a non-empty index with non-negative offsets, strictly increasing non-empty domains, strictly increasing ids with the first one not negative, offsets strictly increasing within a file, and non-empty file names; an empty index fails with no-offsets |
| VertexOffsets.ValidateFirstError | vertices/offset.go:165-204 | a failing validation of a non-empty index reports the check of the first bad entry, all earlier entries being acceptable |
| VertexOffsets.ValidateExamples | vertices/offset_test.go:80-145 | each table-test case gives its error kind |
| VertexOffsets.WellFormedSorted | vertices/offset.go:180-196 | a valid index is sorted by domain and by id throughout |
| VertexOffsets.IdsIncrease | vertices/offset.go:190-196 | neighbour-wise id increase gives increase between any two entries |
| VertexOffsets.FindForDomain | vertices/offset.go:210-249 | an empty index gives two zero entries; a key below the first domain gives (zero, first); above the last, (last, zero); in range, an exact hit twice or neighbouring entries strictly around the key; with sorted domains a present key is always hit |
| VertexOffsets.FindForId | vertices/offset.go:251-290 | the same contract as the domain search, over the numeric ids |
| EdgeOffsets.Load | edges/offset.go:44-56 | a line without exactly three tab fields is an invalid-line error with the field count |
| EdgeOffsets.LoadFormat | edges/offset.go:36-56 | loading a printed entry gives it back when id and file hold no tab and the offset fits in 64 bits |
| EdgeOffsets.LoadMeaning | edges/offset.go:44-56 | a line loads to an entry exactly when it is three tab-free fields: the id, an integer field with the entry's offset, and the file |
| EdgeOffsets.LoadAllFormat | edges/offset.go:124-140 | reading the printed lines of an index gives the same entries back |
| EdgeOffsets.CheckEntry | edges/offset.go:151-191 | a passing iteration has a numeric id, and the loop goes on with that entry's offset, file and id |
| EdgeOffsets.CheckEntryMeaning | edges/offset.go:151-191 | one iteration passes exactly when the entry is acceptable after its predecessor |
| EdgeOffsets.ValidateFromMeaning | edges/offset.go:151-193 | the loop passes exactly when every remaining entry is acceptable, and otherwise reports the first bad entry's check |
| EdgeOffsets.ValidateMeaning | edges/offset.go:142-194 | validation passes exactly on a non-empty index with non-negative offsets, numeric ids and non-empty file names, where offsets strictly increase and ids never decrease within a run of one file; an empty index fails with no-offsets; the reported error is that of the first bad entry |
| EdgeOffsets.ValidateExamples | edges/offset_test.go:80-145 | each table-test case gives its error kind |
| EdgeOffsets.OffsetsMapMeaning | edges/offset.go:202-209 | the grouping has one key per file, and each group is exactly that file's entries in index order, never empty |
| EdgeOffsets.FileEntriesAbsent | edges/offset.go:202-209 | a file the index never mentions has no entries |
| EdgeOffsets.ScanFile | edges/offset.go:240-265 | the bounds the per-file loop picks are positions inside the file |
| EdgeOffsets.BracketsUnique | edges/offset.go:229-266 | at most one pair of positions meets the bracket rule: From is the last entry below the target (the first entry if none is below), To the first entry above it (the last entry if none is above) |
| EdgeOffsets.BracketsOrdered | edges/offset.go:229-266 | on ascending ids the bracket positions satisfy i <= j; ids before i are below the target, ids after j above it, ids between equal to it; every entry carrying the target lies between i and j |
| EdgeOffsets.ScanFileBrackets | edges/offset.go:243-260 | on ascending numeric ids the loop finds bounds meeting the bracket rule: From is the last entry below the target (the first entry if none is below), To the first entry above it (the last entry if none is above); an entry equal to the target is never From unless it is the first entry |
| EdgeOffsets.FindInFileBrackets | edges/offset.go:229-266 | on a file with ascending numeric ids and a numeric target, From is the last entry below the target (the first entry if none is below) and To the first entry above it (the last entry if none is above); the answer brackets every entry carrying the target id |
| EdgeOffsets.FindInFileExamplesInside | edges/offset_test.go:177-182 | on ids 1, 3, 5 an entry equal to the target is skipped: target 3 gives the first and last entries, target 4 the middle and last |
| EdgeOffsets.FindInFileExamplesEdge | edges/offset_test.go:173-179 | on ids 1, 3, 5: target 1 gives the first and second entries, target 0 the first entry twice, target 6 the last entry twice |
| EdgeOffsets.ScanFileGivesUp | edges/offset.go:243-247 | a non-numeric id reached before an id above the target makes the loop give up |
| EdgeOffsets.FindInFileGivesUp | edges/offset.go:229-247 | an empty file, a non-numeric target, or a non-numeric id reached before the stop point gives two zero entries |
| EdgeOffsets.FindForFromId | edges/offset.go:212-216 | an empty index gives an empty map |
| EdgeOffsets.FindForFromIdMeaning | edges/offset.go:212-227 | every file of the index gets exactly one answer, computed from that file's entries alone |
| Vertices.ReverseDomainLabels | vertices/vertices.go:38-45 | label i of the result is label n-1-i of the input; label count and length are unchanged |
| Vertices.ReverseDomainInvolution | vertices/vertices.go:38-45 | reversing a domain twice gives it back |
| Vertices.ReverseDomainExample | vertices/vertices.go:32-51 | `example.com` and `com.example` are each other's reversal |
| Vertices.LoadVertice | vertices/vertices.go:53-60 | a line loads exactly when it has one tab, and is then id, tab, domain; otherwise an invalid-line error with the field count |
| Vertices.LoadVerticeFields | vertices/vertices.go:53-60 | every line built from two tab-free fields loads back into them |
| Vertices.FindIn | vertices/vertices.go:180-204 | no match exactly when every line loads without the key; a match is the first line with the key, earlier lines loading; an error is the first malformed line, earlier lines loading without the key |
| Vertices.FindVertice | vertices/vertices.go:176-205 | the same, stated over the raw lines of the chunk |
| Vertices.Get | vertices/vertices.go:148-174 | a non-numeric id key is an error; on a valid index a key present in the index is answered from the index; any answer has the key's domain, or an id equal to the key as a number |
| Edges.LoadEdge | edges/edges.go:36-42 | a line loads exactly when it has one tab, and is then source id, tab, target id; otherwise an invalid-line error with the field count |
| Edges.LoadEdgeFields | edges/edges.go:36-42 | every line built from two tab-free fields loads back into them |
| Edges.FindEdges | edges/edges.go:101-128 | a result never holds more than 10 000 ids |
| Edges.ScanMeaning | edges/edges.go:105-122 | from any reachable loop state, the loop computes the position-based reference answer |
| Edges.FindEdgesMeaning | edges/edges.go:101-128 | the result is the target ids of the first maximal run of lines with the key, in order, cut at 10 000; earlier lines are skipped; no match gives an empty list; a malformed line is an error exactly when the scan reaches it |
| Indexer.SparseFromChain | cmd/indexer/main.go:106-140 | from any line on, the loop records a chain of lines, each the first to start a chunk after the one before, and then the end of the file |
| Indexer.SparseMeaning | cmd/indexer/main.go:97-149 | the entries are the first line at offset 0, the chain of lines each the first to start a chunk or more after the previous entry, and the end of the file with the last line's key; an empty file gives one entry at 0 with the initial key |
| Indexer.SparseIncreasing | cmd/indexer/main.go:127-146 | for a non-empty file the offsets strictly increase, each entry carries the key of a line at or after the previous entry's line, and the last entry carries the last line's key |
| Indexer.VerticesLine | cmd/indexer/main.go:108-125 | a line is accepted exactly when it loads and its id is a number, and then yields its byte length, domain and id |
| Indexer.ProcessVerticesFileFails | cmd/indexer/main.go:113-125 | building fails exactly when some line is rejected, and reports the first such line's error |
| Indexer.OneLineVertices | cmd/indexer/main.go:97-149 | a one-line file gives two entries with the same domain and id: at offset 0 and at the line's length plus one |
| Indexer.OneLineVerticesRejected | cmd/indexer/main.go:70-82 | the index of an acceptable one-line vertices file fails validation with "domain goes down" |
| Indexer.EdgesLine | cmd/indexer/main.go:222-233 | a line is accepted exactly when it loads, and then yields its byte length and source id |
| Indexer.ProcessEdgesFileFails | cmd/indexer/main.go:227-231 | building fails exactly when some line does not load, and reports the first such line |
| Indexer.EdgeEntriesWellFormed | cmd/indexer/main.go:212-257 | entries built from lines with numeric non-decreasing source ids form a valid edges index |
| Indexer.ProcessEdgesFileValid | cmd/indexer/main.go:185-197 | a non-empty edges file with numeric non-decreasing source ids and a non-empty name builds an index that passes validation |
| Biggest.RunLengthsShape | cmd/biggest/main.go:160-179 | there are runs exactly when there are ids, every run has a line, and the last run carries the last id |
| Biggest.RunLengthsExpand | cmd/biggest/main.go:160-179 | spelling the runs out gives the ids back |
| Biggest.RunLengthsMaximal | cmd/biggest/main.go:166-179 | neighbouring runs have different ids |
| Biggest.StepSameRun | cmd/biggest/main.go:166-170 | the current run's id lengthens the run and raises the counter |
| Biggest.StepNewRun | cmd/biggest/main.go:172-179 | a different id closes the run, credits it if it qualifies, and starts a new run with counter 0 |
| Biggest.ScanRuns | cmd/biggest/main.go:152-180 | after any non-empty prefix, the loop holds the last run's id and length minus one, and the map has every finished run credited |
| Biggest.ProcessEdgesFileMeaning | cmd/biggest/main.go:148-187 | success exactly when every line loads; the map then has every finished run with a non-empty id and more than 10 001 lines credited its length minus one, in file order |
| Biggest.TallyValue | cmd/biggest/main.go:173-175 | each key gains exactly the credits of its qualifying runs, and appears only if it was present or some qualifying run has it |
| Biggest.TallyGrows | cmd/biggest/main.go:174 | no value decreases, and keys without a qualifying run keep their value or stay absent |
| Biggest.NoCredits | cmd/biggest/main.go:173-175 | a key without qualifying runs is credited nothing |
| Biggest.RepeatRuns | cmd/biggest/main.go:166-170 | n equal ids form one run of length n |
| Biggest.SingleRunAddsNothing | cmd/biggest/main.go:152-186 | a file whose lines all share one source id leaves the map unchanged |
| Biggest.RunThenOther | cmd/biggest/main.go:166-178 | a run of n lines followed by another id is credited n - 1 exactly when the id is non-empty and n - 1 exceeds 10 000 |
| Reverse.ReverseLineMeaning | data/reverse.py:18-24 | a line whose stripped text has one tab becomes the two fields swapped with a newline; every other line is written unchanged |
| Reverse.ReverseSurrounded | data/reverse.py:18-21 | whitespace around two clean fields is stripped before the split, so the swap ignores it |
| Reverse.ReverseSwaps | data/reverse.py:18-21 | a clean two-field line is swapped |
| Reverse.ReverseThreeFields | data/reverse.py:19-24 | a clean three-field line is written as read |
| Reverse.ReverseOneField | data/reverse.py:19-24 | a clean one-field line is written as read |
| Reverse.ReverseTwice | data/reverse.py:18-21 | swapping a clean two-field line twice restores it |
| Reverse.ReverseFileTwice | data/reverse.py:16-24 | a file of clean two-field lines is restored by reversing it twice, one output line per input line |

## Left out

- File and S3 access: reading and writing files, the directory walks of the indexer and hub counter, and the file handling of the reverser. These are operating-system and network plumbing.
- Index persistence: `Offsets.Save`/`Load`, `NewOffsets*` and the index bytes embedded in the binary. Only the line format and its round trip are modelled (`Load`, `Format`, `EdgeOffsets.LoadAll`).
- `Offsets.Append`/`Len` are modelled as sequence concatenation and length, with no contract: there is nothing to state beyond that.
- Concurrency: `Vertices.GetByIDs`, `Edges.Get` and the searcher fan out goroutines with timeouts.
- Time-outs and contexts are not modelled.
- The HTTP handler and the JSON output are thin wrappers over libraries.
- Error message text is out: errors are kinds with their values. The tests expect capitalised messages that the code does not produce, so the modelled kinds follow the code.
- Input encoding: text is taken to be valid UTF-8. Invalid byte sequences have no Dafny character form, so the source's byte-level handling of them is not modelled.
- Line reading:
  - no CR stripping;
  - no 64 KB line limit;
  - no file without a final newline;
  - no reader errors after a partial result.
- Decimal.Atoi: rejects only by syntax and 64-bit range. The source's offsets and counters are Go `int`, and their overflow past 2^63 is not modelled: offsets and counts are unbounded integers.
- EdgeOffsets.FindForFromId: a Dafny map has no iteration order, so the order in which the source walks the files is not modelled.
- Text.IsSpace: only the ASCII whitespace Python's `str.strip` removes. The non-ASCII whitespace characters are not modelled, and neither is Python's newline translation when reading text.
- Biggest.ProcessEdgesFile: on a malformed line the source has already added the earlier finished runs to the caller's map before it returns the error. The model returns only the error, because the caller stops at the first error.
- Vertices.Get: the fetcher is a parameter, so when the answer comes from a fetched chunk the contract only states what holds for any chunk (the answer carries the key); that the chunk holds the right lines is not modelled.
- The concrete index tests over 2000 and 20000 generated lines (offsets 32782, 41780, 131080, 217780) are not restated. `Indexer.SparseMeaning` states the rule they exercise.
