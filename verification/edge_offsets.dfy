/** The sparse byte-offset index over the edges files (edges/offset.go). Each entry
    says: the line whose source id is `id` starts `offset` bytes into `file`. The
    id is kept as the text read from the index; edges files are sorted by source id
    one file at a time, so the index is searched file by file. */
module EdgeOffsets {
  import opened Wrappers
  import opened Text
  import opened Decimal

  /** Bytes between two consecutive index entries of one edges file (128 KB). */
  const FileChunkSize: nat := 1024 * 128

  datatype Offset = Offset(offset: int, id: string, file: string)

  /** Go's zero value `Offset{}`. */
  const Zero: Offset := Offset(0, "", "")

  /** `Offset.String`: the index line `id \t offset \t file`. */
  function Format(o: Offset): string
  {
    o.id + "\t" + Itoa(o.offset) + "\t" + o.file
  }

  datatype LoadError =
    | InvalidLine(line: string, parts: nat)
    | InvalidOffset(field: string)

  /** `loadOffset`: parse one index line. */
  function Load(line: string): (r: Result<Offset, LoadError>)
    ensures Count(line, '\t') != 2 ==> r == Failure(InvalidLine(line, Count(line, '\t') + 1))
    ensures r.Success? ==> '\t' !in r.value.id && '\t' !in r.value.file
    ensures r.Success? ==> InInt64(r.value.offset)
  {
    var parts := Split(line, '\t');
    if |parts| != 3 then Failure(InvalidLine(line, |parts|))
    else match Atoi(parts[1])
      case None => Failure(InvalidOffset(parts[1]))
      case Some(offset) => Success(Offset(offset, parts[0], parts[2]))
  }

  lemma FormatFields(o: Offset)
    ensures Format(o) == Join([o.id, Itoa(o.offset), o.file], '\t')
  {
    var fs := [o.id, Itoa(o.offset), o.file];
    assert fs[1..][1..] == [o.file];
    assert Join(fs[1..], '\t') == Itoa(o.offset) + "\t" + o.file;
  }

  /** Parsing a printed entry gives the entry back, provided the id and file name hold
      no tab and the offset fits in a Go `int`. */
  lemma LoadFormat(o: Offset)
    requires '\t' !in o.id && '\t' !in o.file && InInt64(o.offset)
    ensures Load(Format(o)) == Success(o)
  {
    ItoaNoSeparator(o.offset, '\t');
    FormatFields(o);
    SplitOfJoin([o.id, Itoa(o.offset), o.file], '\t');
    AtoiItoa(o.offset);
  }

  /** The fields of an index line, as `Format` would print them. */
  predicate FieldsOf(line: string, o: Offset, offsetField: string)
  {
    && '\t' !in o.id && '\t' !in offsetField && '\t' !in o.file
    && line == Join([o.id, offsetField, o.file], '\t')
    && Atoi(offsetField) == Some(o.offset)
  }

  lemma LoadGivesFields(line: string, o: Offset)
    requires Load(line) == Success(o)
    ensures FieldsOf(line, o, Split(line, '\t')[1])
  {
    var parts := Split(line, '\t');
    assert |parts| == 3;
    assert Atoi(parts[1]) == Some(o.offset);
    assert o.id == parts[0] && o.file == parts[2];
    assert parts == [parts[0], parts[1], parts[2]];
  }

  lemma FieldsLoad(line: string, o: Offset, offsetField: string)
    requires FieldsOf(line, o, offsetField)
    ensures Load(line) == Success(o)
  {
    SplitOfJoin([o.id, offsetField, o.file], '\t');
  }

  /** A line loads exactly when it is three tab-free fields whose middle one parses as
      an integer; the entry is made of those fields. */
  lemma LoadMeaning(line: string, o: Offset)
    ensures Load(line) == Success(o) <==> exists offsetField: string :: FieldsOf(line, o, offsetField)
  {
    if Load(line) == Success(o) {
      LoadGivesFields(line, o);
    }
    if exists offsetField: string :: FieldsOf(line, o, offsetField) {
      var offsetField: string :| FieldsOf(line, o, offsetField);
      FieldsLoad(line, o, offsetField);
    }
  }

  /** `loadFromReader`: every line of the index must load; the first bad line is
      the error. */
  function LoadAll(lines: seq<string>): Result<seq<Offset>, LoadError>
  {
    ParseLines(lines, Load)
  }

  /** Saving an index and loading it again gives the same entries. */
  lemma LoadAllFormat(items: seq<Offset>)
    requires forall i :: 0 <= i < |items| ==>
               '\t' !in items[i].id && '\t' !in items[i].file && InInt64(items[i].offset)
    ensures LoadAll(seq(|items|, i requires 0 <= i < |items| => Format(items[i]))) == Success(items)
  {
    var lines := seq(|items|, i requires 0 <= i < |items| => Format(items[i]));
    forall i | 0 <= i < |items|
      ensures Load(lines[i]) == Success(items[i])
    {
      LoadFormat(items[i]);
    }
    var r := LoadAll(lines);
    assert r.Success?;
    assert forall i :: 0 <= i < |items| ==> r.value[i] == items[i];
    assert r.value == items;
  }

  datatype ValidationError =
    | NoOffsets
    | NegativeOffset(offset: int)
    | OffsetGoesDown(offset: int, previousOffset: int)
    | EmptyId
    | IdNotNumber(field: string)
    | IdGoesDown(id: int, previousId: int)
    | EmptyFile

  /** What the validation loop remembers of the entry it checked last. */
  datatype Previous = Previous(offset: int, file: string, id: int)

  /** The loop's starting values: offset 0, empty file name, id -1. */
  const Initial: Previous := Previous(0, "", -1)

  /** One iteration of the loop in `Validate`, in the order the source checks; on
      success, the state the next iteration sees. Ids may repeat: several entries
      can point into the edges of one source vertex. */
  function CheckEntry(prev: Previous, o: Offset): (r: Result<Previous, ValidationError>)
    ensures r.Success? ==> Atoi(o.id).Some? && r.value == Previous(o.offset, o.file, Atoi(o.id).value)
  {
    if o.offset < 0 then Failure(NegativeOffset(o.offset))
    else if prev.file == o.file && o.offset <= prev.offset then Failure(OffsetGoesDown(o.offset, prev.offset))
    else if o.id == "" then Failure(EmptyId)
    else match Atoi(o.id)
      case None => Failure(IdNotNumber(o.id))
      case Some(id) =>
        if prev.file == o.file && id < prev.id then Failure(IdGoesDown(id, prev.id))
        else if o.file == "" then Failure(EmptyFile)
        else Success(Previous(o.offset, o.file, id))
  }

  function ValidateFrom(items: seq<Offset>, prev: Previous): Outcome<ValidationError>
    decreases |items|
  {
    if |items| == 0 then Pass
    else match CheckEntry(prev, items[0])
      case Failure(e) => Fail(e)
      case Success(next) => ValidateFrom(items[1..], next)
  }

  /** `Offsets.Validate`: the first problem found, or `Pass`. */
  function Validate(items: seq<Offset>): Outcome<ValidationError>
  {
    if |items| == 0 then Fail(NoOffsets) else ValidateFrom(items, Initial)
  }

  /** The parsed id of an entry; the validation only reads it once it has parsed. */
  function IdOf(o: Offset): int
  {
    match Atoi(o.id)
    case Some(id) => id
    case None => -1
  }

  /** The loop state when entry `i` is checked. */
  function PreviousAt(items: seq<Offset>, i: nat): Previous
    requires i <= |items|
  {
    if i == 0 then Initial else Previous(items[i - 1].offset, items[i - 1].file, IdOf(items[i - 1]))
  }

  /** What a valid index promises about entry `i`, stated against its neighbour:
      offsets and ids are only compared while the file stays the same. */
  predicate EntryOk(items: seq<Offset>, i: nat)
    requires i < |items|
  {
    var o := items[i];
    && o.offset >= 0 && Atoi(o.id).Some? && o.file != ""
    && (i > 0 && items[i - 1].file == o.file ==>
          && items[i - 1].offset < o.offset
          && IdOf(items[i - 1]) <= IdOf(o))
  }

  /** A valid index: non-empty, every entry with a non-negative offset, a numeric id
      and a non-empty file name, and within a run of entries of one file, offsets
      strictly increasing and ids not decreasing. */
  predicate WellFormed(items: seq<Offset>)
  {
    |items| > 0 && forall i :: 0 <= i < |items| ==> EntryOk(items, i)
  }

  lemma CheckEntryMeaning(items: seq<Offset>, i: nat)
    requires i < |items|
    requires i > 0 ==> Atoi(items[i - 1].id).Some? && items[i - 1].file != ""
    ensures CheckEntry(PreviousAt(items, i), items[i]).Success? <==> EntryOk(items, i)
    ensures CheckEntry(PreviousAt(items, i), items[i]).Success? ==>
              CheckEntry(PreviousAt(items, i), items[i]).value == PreviousAt(items, i + 1)
  {
  }

  lemma {:induction false} ValidateFromMeaning(items: seq<Offset>, k: nat)
    requires k <= |items|
    requires k > 0 ==> EntryOk(items, k - 1)
    ensures ValidateFrom(items[k..], PreviousAt(items, k)).Pass? <==>
              forall i :: k <= i < |items| ==> EntryOk(items, i)
    ensures ValidateFrom(items[k..], PreviousAt(items, k)).Fail? ==>
              exists j :: && k <= j < |items| && !EntryOk(items, j)
                          && (forall i :: k <= i < j ==> EntryOk(items, i))
                          && ValidateFrom(items[k..], PreviousAt(items, k)) ==
                               Fail(CheckEntry(PreviousAt(items, j), items[j]).error)
    decreases |items| - k
  {
    if k < |items| {
      CheckEntryMeaning(items, k);
      assert items[k..][0] == items[k];
      assert items[k..][1..] == items[k + 1..];
      if CheckEntry(PreviousAt(items, k), items[k]).Success? {
        ValidateFromMeaning(items, k + 1);
      }
    }
  }

  /** `Validate` passes exactly on well-formed indexes; when it fails, it reports the
      check of the first entry that breaks the rules, all earlier entries being fine. */
  lemma ValidateMeaning(items: seq<Offset>)
    ensures Validate(items).Pass? <==> WellFormed(items)
    ensures |items| == 0 ==> Validate(items) == Fail(NoOffsets)
    ensures |items| > 0 && Validate(items).Fail? ==>
              exists j :: && 0 <= j < |items| && !EntryOk(items, j)
                          && (forall i :: 0 <= i < j ==> EntryOk(items, i))
                          && Validate(items) == Fail(CheckEntry(PreviousAt(items, j), items[j]).error)
  {
    if |items| > 0 {
      assert items[0..] == items;
      ValidateFromMeaning(items, 0);
    }
  }

  /** The cases of the source's table test, by error kind. */
  lemma ValidateExamples()
    ensures Validate([Offset(123, "42", "vertices.txt"), Offset(456, "84", "vertices.txt")]) == Pass
    ensures Validate([]) == Fail(NoOffsets)
    ensures Validate([Offset(-123, "42", "vertices.txt")]) == Fail(NegativeOffset(-123))
    ensures Validate([Offset(456, "42", "vertices.txt"), Offset(123, "84", "vertices.txt")])
            == Fail(OffsetGoesDown(123, 456))
    ensures Validate([Offset(123, "", "vertices.txt")]) == Fail(EmptyId)
    ensures Validate([Offset(123, "aaa", "vertices.txt")]) == Fail(IdNotNumber("aaa"))
    ensures Validate([Offset(123, "84", "vertices.txt"), Offset(456, "42", "vertices.txt")])
            == Fail(IdGoesDown(42, 84))
    ensures Validate([Offset(123, "42", "")]) == Fail(EmptyFile)
  {
    assert Atoi("42") == Some(42) by { assert DigitsValue("42") == 42 by { assert "42"[..1] == "4"; } }
    assert Atoi("84") == Some(84) by { assert DigitsValue("84") == 84 by { assert "84"[..1] == "8"; } }
    assert Atoi("aaa") == None by { assert !IsDigit("aaa"[0]); }
  }

  /** The entries of `file`, in index order. */
  function FileEntries(items: seq<Offset>, file: string): (r: seq<Offset>)
    ensures forall i :: 0 <= i < |r| ==> r[i].file == file
    ensures |r| <= |items|
  {
    if |items| == 0 then []
    else
      var init := FileEntries(items[..|items| - 1], file);
      if items[|items| - 1].file == file then init + [items[|items| - 1]] else init
  }

  /** The file names the index mentions. */
  function Files(items: seq<Offset>): set<string>
  {
    set i | 0 <= i < |items| :: items[i].file
  }

  /** `offsetsMap`: the index grouped by file name, each group in index order. */
  function OffsetsMap(items: seq<Offset>): map<string, seq<Offset>>
  {
    if |items| == 0 then map[]
    else
      var groups := OffsetsMap(items[..|items| - 1]);
      var o := items[|items| - 1];
      groups[o.file := (if o.file in groups then groups[o.file] else []) + [o]]
  }

  /** The grouping has one key per file of the index, and the group of a file is
      exactly that file's entries, in order, never empty. */
  lemma {:induction false} OffsetsMapMeaning(items: seq<Offset>)
    ensures OffsetsMap(items).Keys == Files(items)
    ensures forall f :: f in OffsetsMap(items) ==> OffsetsMap(items)[f] == FileEntries(items, f)
    ensures forall f :: f in OffsetsMap(items) ==> |OffsetsMap(items)[f]| > 0
  {
    if |items| > 0 {
      var init := items[..|items| - 1];
      var o := items[|items| - 1];
      OffsetsMapMeaning(init);
      assert Files(items) == Files(init) + {o.file} by {
        forall f | f in Files(items) ensures f in Files(init) + {o.file} {
          var i :| 0 <= i < |items| && items[i].file == f;
          if i < |items| - 1 {
            assert init[i] == items[i];
          }
        }
        forall f | f in Files(init) ensures f in Files(items) {
          var i :| 0 <= i < |init| && init[i].file == f;
          assert items[i] == init[i];
        }
      }
      forall f | f in Files(init) && f != o.file
        ensures FileEntries(items, f) == FileEntries(init, f)
      {
      }
      if o.file !in Files(init) {
        FileEntriesAbsent(init, o.file);
      }
    }
  }

  lemma {:induction false} FileEntriesAbsent(items: seq<Offset>, file: string)
    requires file !in Files(items)
    ensures FileEntries(items, file) == []
  {
    if |items| > 0 {
      var init := items[..|items| - 1];
      assert Files(init) <= Files(items) by {
        forall f | f in Files(init) ensures f in Files(items) {
          var i :| 0 <= i < |init| && init[i].file == f;
          assert items[i] == init[i];
        }
      }
      FileEntriesAbsent(init, file);
    }
  }

  datatype TwoOffsets = TwoOffsets(from: Offset, to: Offset)

  /** The ids of a file's entries as `strconv.Atoi` reads them, one by one. */
  function ParsedIds(items: seq<Offset>): (ids: seq<Option<int>>)
    ensures |ids| == |items|
    ensures forall i :: 0 <= i < |items| ==> ids[i] == Atoi(items[i].id)
  {
    seq(|items|, i requires 0 <= i < |items| => Atoi(items[i].id))
  }

  /** The loop of `findFromFomIDInFile` from entry `k` on, by position: `left` is
      the position of the left bound so far. An id below the target moves the left
      bound and goes on, an id above it becomes the right bound and stops the loop,
      an equal id is passed over, and an id that is not a number gives up (`None`).
      Running off the end leaves the right bound at the last entry. */
  function ScanFile(ids: seq<Option<int>>, target: int, k: nat, left: nat): (r: Option<(nat, nat)>)
    requires left < |ids| && k <= |ids|
    ensures r.Some? ==> r.value.0 < |ids| && r.value.1 < |ids|
    decreases |ids| - k
  {
    if k == |ids| then Some((left, |ids| - 1))
    else match ids[k]
      case None => None
      case Some(id) =>
        if id < target then ScanFile(ids, target, k + 1, k)
        else if id > target then Some((left, k))
        else ScanFile(ids, target, k + 1, left)
  }

  /** `findFromFomIDInFile`: the entries of one file between which the edges of
      `fromId` lie, or two zero entries when there is nothing to search or an id is
      not a number. Both bounds start at the file's first and last entries. */
  function FindInFile(fromId: string, items: seq<Offset>): TwoOffsets
  {
    if |items| == 0 then TwoOffsets(Zero, Zero)
    else match Atoi(fromId)
      case None => TwoOffsets(Zero, Zero)
      case Some(target) =>
        match ScanFile(ParsedIds(items), target, 0, 0)
        case None => TwoOffsets(Zero, Zero)
        case Some((i, j)) => TwoOffsets(items[i], items[j])
  }

  /** Every id is a number and they never go down. */
  predicate IdsAscending(ids: seq<Option<int>>)
  {
    && (forall i :: 0 <= i < |ids| ==> ids[i].Some?)
    && (forall i, j :: 0 <= i < j < |ids| ==> ids[i].Some? && ids[j].Some? ==> ids[i].value <= ids[j].value)
  }

  /** The bounds the scan is meant to pick for `target`: `From` at position `i` is
      the last entry whose id is below the target, or the first entry when none
      is; `To` at position `j` is the first entry whose id is above the target,
      or the last entry when none is. */
  predicate Brackets(ids: seq<Option<int>>, target: int, i: nat, j: nat)
    requires forall k :: 0 <= k < |ids| ==> ids[k].Some?
  {
    && i < |ids| && j < |ids|
    && (i > 0 ==> ids[i].value < target)
    && (forall k :: i < k < |ids| ==> ids[k].value >= target)
    && (j < |ids| - 1 ==> ids[j].value > target)
    && (forall k :: 0 <= k < j ==> ids[k].value <= target)
  }

  /** `Brackets` pins both positions down: there is one answer at most. */
  lemma BracketsUnique(ids: seq<Option<int>>, target: int, i: nat, j: nat, i': nat, j': nat)
    requires forall k :: 0 <= k < |ids| ==> ids[k].Some?
    requires Brackets(ids, target, i, j) && Brackets(ids, target, i', j')
    ensures i == i' && j == j'
  {
  }

  /** With ascending ids the two bounds are in order, everything before `From` is
      below the target, everything after `To` above it, everything between equal
      to it. */
  lemma BracketsOrdered(ids: seq<Option<int>>, target: int, i: nat, j: nat)
    requires IdsAscending(ids) && Brackets(ids, target, i, j)
    ensures i <= j
    ensures forall k :: 0 <= k < i ==> ids[k].value < target
    ensures forall k :: i < k < j ==> ids[k].value == target
    ensures forall k :: j < k < |ids| ==> ids[k].value > target
    ensures forall k :: 0 <= k < |ids| && ids[k] == Some(target) ==> i <= k <= j
  {
  }

  lemma {:induction false} ScanFileBrackets(ids: seq<Option<int>>, target: int, k: nat, li: nat)
    requires li <= k <= |ids| && li < |ids|
    requires IdsAscending(ids)
    requires li > 0 ==> ids[li].value < target
    requires forall q :: li < q < k ==> ids[q].value >= target
    requires forall q :: 0 <= q < k ==> ids[q].value <= target
    ensures ScanFile(ids, target, k, li).Some?
    ensures Brackets(ids, target, ScanFile(ids, target, k, li).value.0, ScanFile(ids, target, k, li).value.1)
    decreases |ids| - k
  {
    if k < |ids| {
      var id := ids[k].value;
      if id < target {
        ScanFileBrackets(ids, target, k + 1, k);
      } else if id == target {
        ScanFileBrackets(ids, target, k + 1, li);
      } else {
        assert forall q :: k <= q < |ids| ==> ids[q].value >= id;
      }
    }
  }

  /** On a file whose ids are numbers that never go down, `From` is the last entry
      below the wanted id (the first entry when there is none) and `To` the first
      entry above it (the last entry when there is none); every index entry
      carrying the id lies between the two bounds, and so do the edges of that
      id in the file. */
  lemma FindInFileBrackets(fromId: string, items: seq<Offset>)
    requires |items| > 0 && IdsAscending(ParsedIds(items)) && Atoi(fromId).Some?
    ensures exists i: nat, j: nat :: && Brackets(ParsedIds(items), Atoi(fromId).value, i, j)
                                     && FindInFile(fromId, items) == TwoOffsets(items[i], items[j])
                                     && forall k :: 0 <= k < |items| && ParsedIds(items)[k] == Atoi(fromId) ==> i <= k <= j
  {
    var ids := ParsedIds(items);
    var target := Atoi(fromId).value;
    ScanFileBrackets(ids, target, 0, 0);
    var (i, j) := ScanFile(ids, target, 0, 0).value;
    BracketsOrdered(ids, target, i, j);
    assert FindInFile(fromId, items) == TwoOffsets(items[i], items[j]);
  }

  /** A one-file index whose ids run 1, 3, 5. */
  const ExampleFile: seq<Offset> := [Offset(0, "1", "e.txt"), Offset(10, "3", "e.txt"), Offset(20, "5", "e.txt")]

  lemma ExampleIds()
    ensures ParsedIds(ExampleFile) == [Some(1), Some(3), Some(5)]
  {
    AtoiDigit('1');
    AtoiDigit('3');
    AtoiDigit('5');
    assert ["1", "3", "5"] == [['1'], ['3'], ['5']];
  }

  /** On `ExampleFile`, an entry equal to the wanted id is never a bound. */
  lemma FindInFileExamplesInside()
    ensures FindInFile("3", ExampleFile) == TwoOffsets(ExampleFile[0], ExampleFile[2])
    ensures FindInFile("4", ExampleFile) == TwoOffsets(ExampleFile[1], ExampleFile[2])
  {
    ExampleIds();
    AtoiDigit('3');
    AtoiDigit('4');
    assert ["3", "4"] == [['3'], ['4']];
  }

  /** On `ExampleFile`, an id below every entry gets the first entry twice, one
      above every entry the last entry twice. */
  lemma FindInFileExamplesEdge()
    ensures FindInFile("1", ExampleFile) == TwoOffsets(ExampleFile[0], ExampleFile[1])
    ensures FindInFile("0", ExampleFile) == TwoOffsets(ExampleFile[0], ExampleFile[0])
    ensures FindInFile("6", ExampleFile) == TwoOffsets(ExampleFile[2], ExampleFile[2])
  {
    ExampleIds();
    AtoiDigit('0');
    AtoiDigit('1');
    AtoiDigit('6');
    assert ["0", "1", "6"] == [['0'], ['1'], ['6']];
  }

  lemma {:induction false} ScanFileGivesUp(ids: seq<Option<int>>, target: int, k: nat, bad: nat, left: nat)
    requires left < |ids| && k <= bad < |ids| && ids[bad].None?
    requires forall q :: k <= q < bad ==> ids[q].Some? && ids[q].value <= target
    ensures ScanFile(ids, target, k, left).None?
    decreases |ids| - k
  {
    if k < bad {
      var next := if ids[k].value < target then k else left;
      ScanFileGivesUp(ids, target, k + 1, bad, next);
    }
  }

  /** The search gives two zero entries when there is nothing to search, when the
      wanted id is not a number, and when the scan reaches an entry whose id is not
      a number before an id above the wanted one. */
  lemma FindInFileGivesUp(fromId: string, items: seq<Offset>, bad: nat)
    ensures FindInFile(fromId, []) == TwoOffsets(Zero, Zero)
    ensures Atoi(fromId).None? ==> FindInFile(fromId, items) == TwoOffsets(Zero, Zero)
    ensures && Atoi(fromId).Some? && bad < |items| && Atoi(items[bad].id).None?
            && (forall q :: 0 <= q < bad ==> Atoi(items[q].id).Some? && Atoi(items[q].id).value <= Atoi(fromId).value)
            ==> FindInFile(fromId, items) == TwoOffsets(Zero, Zero)
  {
    if && Atoi(fromId).Some? && bad < |items| && Atoi(items[bad].id).None?
       && (forall q :: 0 <= q < bad ==> Atoi(items[q].id).Some? && Atoi(items[q].id).value <= Atoi(fromId).value)
    {
      ScanFileGivesUp(ParsedIds(items), Atoi(fromId).value, 0, bad, 0);
    }
  }

  /** `FindForFromID`: for every file of the index, the bounds within that file. */
  function FindForFromId(items: seq<Offset>, fromId: string): (r: map<string, TwoOffsets>)
    ensures |items| == 0 ==> r == map[]
  {
    if |items| == 0 then map[]
    else
      var groups := OffsetsMap(items);
      map f | f in groups :: FindInFile(fromId, groups[f])
  }

  /** Every file of the index gets an answer, computed from that file's entries alone
      and in index order. */
  lemma FindForFromIdMeaning(items: seq<Offset>, fromId: string)
    ensures FindForFromId(items, fromId).Keys == Files(items)
    ensures forall f :: f in Files(items) ==>
              FindForFromId(items, fromId)[f] == FindInFile(fromId, FileEntries(items, f))
  {
    OffsetsMapMeaning(items);
  }
}
