/** The sparse byte-offset index over the sorted vertices files (vertices/offset.go).
    Each entry says: the line for `domain` (reversed, `com.example`) and vertex `id`
    starts `offset` bytes into `file`. */
module VertexOffsets {
  import opened Wrappers
  import opened Text
  import opened Lexical
  import opened Decimal

  /** Bytes between two consecutive index entries of one vertices file (32 KB). */
  const FileChunkSize: nat := 1024 * 32

  datatype Offset = Offset(offset: int, domain: string, id: int, file: string)

  /** Go's zero value `Offset{}`, which the searches return for a missing bound. */
  const Zero: Offset := Offset(0, "", 0, "")

  /** `Offset.String`: the index line `domain \t offset \t id \t file`. */
  function Format(o: Offset): string
  {
    o.domain + "\t" + Itoa(o.offset) + "\t" + Itoa(o.id) + "\t" + o.file
  }

  datatype LoadError =
    | InvalidLine(line: string, parts: nat)
    | InvalidOffset(field: string)
    | InvalidId(field: string)

  /** `loadOffset`: parse one index line. */
  function Load(line: string): (r: Result<Offset, LoadError>)
    ensures Count(line, '\t') != 3 ==> r == Failure(InvalidLine(line, Count(line, '\t') + 1))
    ensures r.Success? ==> '\t' !in r.value.domain && '\t' !in r.value.file
    ensures r.Success? ==> InInt64(r.value.offset) && InInt64(r.value.id)
  {
    var parts := Split(line, '\t');
    if |parts| != 4 then Failure(InvalidLine(line, |parts|))
    else match Atoi(parts[1])
      case None => Failure(InvalidOffset(parts[1]))
      case Some(offset) =>
        match Atoi(parts[2])
        case None => Failure(InvalidId(parts[2]))
        case Some(id) => Success(Offset(offset, parts[0], id, parts[3]))
  }

  lemma FormatFields(o: Offset)
    ensures Format(o) == Join([o.domain, Itoa(o.offset), Itoa(o.id), o.file], '\t')
  {
    var fs := [o.domain, Itoa(o.offset), Itoa(o.id), o.file];
    assert fs[1..][1..][1..] == [o.file];
    assert Join(fs[1..][1..], '\t') == Itoa(o.id) + "\t" + o.file;
    assert Join(fs[1..], '\t') == Itoa(o.offset) + "\t" + (Itoa(o.id) + "\t" + o.file);
  }

  /** Parsing a printed entry gives the entry back, provided the domain and file name
      hold no tab and the numbers fit in a Go `int`. */
  lemma LoadFormat(o: Offset)
    requires '\t' !in o.domain && '\t' !in o.file
    requires InInt64(o.offset) && InInt64(o.id)
    ensures Load(Format(o)) == Success(o)
  {
    ItoaNoSeparator(o.offset, '\t');
    ItoaNoSeparator(o.id, '\t');
    FormatFields(o);
    SplitOfJoin([o.domain, Itoa(o.offset), Itoa(o.id), o.file], '\t');
    AtoiItoa(o.offset);
    AtoiItoa(o.id);
  }

  /** The fields of an index line, as `Format` would print them. */
  predicate FieldsOf(line: string, o: Offset, offsetField: string, idField: string)
  {
    && '\t' !in o.domain && '\t' !in offsetField && '\t' !in idField && '\t' !in o.file
    && line == Join([o.domain, offsetField, idField, o.file], '\t')
    && Atoi(offsetField) == Some(o.offset) && Atoi(idField) == Some(o.id)
  }

  lemma LoadGivesFields(line: string, o: Offset)
    requires Load(line) == Success(o)
    ensures FieldsOf(line, o, Split(line, '\t')[1], Split(line, '\t')[2])
  {
    var parts := Split(line, '\t');
    assert |parts| == 4;
    assert Atoi(parts[1]) == Some(o.offset) && Atoi(parts[2]) == Some(o.id);
    assert o.domain == parts[0] && o.file == parts[3];
    assert parts == [parts[0], parts[1], parts[2], parts[3]];
  }

  lemma FieldsLoad(line: string, o: Offset, offsetField: string, idField: string)
    requires FieldsOf(line, o, offsetField, idField)
    ensures Load(line) == Success(o)
  {
    SplitOfJoin([o.domain, offsetField, idField, o.file], '\t');
  }

  /** A line loads exactly when it is four tab-free fields whose middle two parse as
      integers; the entry is made of those fields. */
  lemma LoadMeaning(line: string, o: Offset)
    ensures Load(line) == Success(o) <==>
              exists offsetField: string, idField: string :: FieldsOf(line, o, offsetField, idField)
  {
    if Load(line) == Success(o) {
      LoadGivesFields(line, o);
    }
    if exists offsetField: string, idField: string :: FieldsOf(line, o, offsetField, idField) {
      var offsetField: string, idField: string :| FieldsOf(line, o, offsetField, idField);
      FieldsLoad(line, o, offsetField, idField);
    }
  }

  /** `Offsets.Append`. */
  function Append(items: seq<Offset>, more: seq<Offset>): seq<Offset>
  {
    items + more
  }

  /** `Offsets.Len`. */
  function Len(items: seq<Offset>): nat
  {
    |items|
  }

  datatype ValidationError =
    | NoOffsets
    | NegativeOffset(offset: int)
    | OffsetGoesDown(offset: int, previousOffset: int)
    | EmptyDomain
    | DomainGoesDown(domain: string, previousDomain: string)
    | IdGoesDown(id: int, previousId: int)
    | EmptyFile

  /** What the validation loop remembers of the entry it checked last. */
  datatype Previous = Previous(offset: int, domain: string, file: string, id: int)

  /** The loop's starting values: offset 0, empty domain and file, id -1. */
  const Initial: Previous := Previous(0, "", "", -1)

  function Remember(o: Offset): Previous
  {
    Previous(o.offset, o.domain, o.file, o.id)
  }

  /** One iteration of the loop in `Validate`, in the order the source checks. */
  function CheckEntry(prev: Previous, o: Offset): Outcome<ValidationError>
  {
    if o.offset < 0 then Fail(NegativeOffset(o.offset))
    else if prev.file == o.file && o.offset <= prev.offset then Fail(OffsetGoesDown(o.offset, prev.offset))
    else if o.domain == "" then Fail(EmptyDomain)
    else if LessEq(o.domain, prev.domain) then Fail(DomainGoesDown(o.domain, prev.domain))
    else if o.id <= prev.id then Fail(IdGoesDown(o.id, prev.id))
    else if o.file == "" then Fail(EmptyFile)
    else Pass
  }

  function ValidateFrom(items: seq<Offset>, prev: Previous): Outcome<ValidationError>
    decreases |items|
  {
    if |items| == 0 then Pass
    else if CheckEntry(prev, items[0]).Fail? then CheckEntry(prev, items[0])
    else ValidateFrom(items[1..], Remember(items[0]))
  }

  /** `Offsets.Validate`: the first problem found, or `Pass`. */
  function Validate(items: seq<Offset>): Outcome<ValidationError>
  {
    if |items| == 0 then Fail(NoOffsets) else ValidateFrom(items, Initial)
  }

  /** The loop state when entry `i` is checked. */
  function PreviousAt(items: seq<Offset>, i: nat): Previous
    requires i <= |items|
  {
    if i == 0 then Initial else Remember(items[i - 1])
  }

  /** What a valid index promises about entry `i`, stated against its neighbour. */
  predicate EntryOk(items: seq<Offset>, i: nat)
    requires i < |items|
  {
    var o := items[i];
    && o.offset >= 0 && o.domain != "" && o.file != ""
    && (i == 0 ==> o.id >= 0)
    && (i > 0 ==>
          && Less(items[i - 1].domain, o.domain)
          && items[i - 1].id < o.id
          && (items[i - 1].file == o.file ==> items[i - 1].offset < o.offset))
  }

  /** A valid index: non-empty, every entry with a non-negative offset, a non-empty
      domain and file name, the first id non-negative, domains and ids strictly
      increasing, and offsets strictly increasing while the file stays the same. */
  predicate WellFormed(items: seq<Offset>)
  {
    |items| > 0 && forall i :: 0 <= i < |items| ==> EntryOk(items, i)
  }

  lemma CheckEntryMeaning(items: seq<Offset>, i: nat)
    requires i < |items|
    ensures CheckEntry(PreviousAt(items, i), items[i]).Pass? <==> EntryOk(items, i)
  {
    LessEqNotLess(items[i].domain, PreviousAt(items, i).domain);
  }

  lemma {:induction false} ValidateFromMeaning(items: seq<Offset>, k: nat)
    requires k <= |items|
    ensures ValidateFrom(items[k..], PreviousAt(items, k)).Pass? <==>
              forall i :: k <= i < |items| ==> EntryOk(items, i)
    ensures ValidateFrom(items[k..], PreviousAt(items, k)).Fail? ==>
              exists j :: && k <= j < |items| && !EntryOk(items, j)
                          && (forall i :: k <= i < j ==> EntryOk(items, i))
                          && ValidateFrom(items[k..], PreviousAt(items, k)) == CheckEntry(PreviousAt(items, j), items[j])
    decreases |items| - k
  {
    if k < |items| {
      CheckEntryMeaning(items, k);
      assert items[k..][0] == items[k];
      assert items[k..][1..] == items[k + 1..];
      if CheckEntry(PreviousAt(items, k), items[k]).Pass? {
        ValidateFromMeaning(items, k + 1);
      }
    }
  }

  /** `Validate` passes exactly on well-formed indexes, and an empty index is the
      no-offsets error. */
  lemma ValidateMeaning(items: seq<Offset>)
    ensures Validate(items).Pass? <==> WellFormed(items)
    ensures |items| == 0 ==> Validate(items) == Fail(NoOffsets)
  {
    if |items| > 0 {
      assert items[0..] == items;
      ValidateFromMeaning(items, 0);
    }
  }

  /** When `Validate` fails on a non-empty index, it reports the check of the first
      entry that breaks the rules, all earlier entries being fine. */
  lemma ValidateFirstError(items: seq<Offset>)
    ensures |items| > 0 && Validate(items).Fail? ==>
              exists j :: && 0 <= j < |items| && !EntryOk(items, j)
                          && (forall i :: 0 <= i < j ==> EntryOk(items, i))
                          && Validate(items) == CheckEntry(PreviousAt(items, j), items[j])
  {
    if |items| > 0 {
      assert items[0..] == items;
      ValidateFromMeaning(items, 0);
    }
  }

  /** The cases of the source's table test, by error kind. */
  lemma ValidateExamples()
    ensures Validate([Offset(123, "com.example", 42, "vertices.txt"), Offset(456, "org.example", 84, "vertices.txt")]) == Pass
    ensures Validate([]) == Fail(NoOffsets)
    ensures Validate([Offset(-123, "com.example", 42, "vertices.txt")]) == Fail(NegativeOffset(-123))
    ensures Validate([Offset(456, "com.example", 42, "vertices.txt"), Offset(123, "org.example", 84, "vertices.txt")])
            == Fail(OffsetGoesDown(123, 456))
    ensures Validate([Offset(123, "", 42, "vertices.txt")]) == Fail(EmptyDomain)
    ensures Validate([Offset(123, "org.example", 42, "vertices.txt"), Offset(456, "com.example", 84, "vertices.txt")])
            == Fail(DomainGoesDown("com.example", "org.example"))
    ensures Validate([Offset(123, "com.example", 84, "vertices.txt"), Offset(456, "org.example", 42, "vertices.txt")])
            == Fail(IdGoesDown(42, 84))
    ensures Validate([Offset(123, "org.example", 42, "")]) == Fail(EmptyFile)
  {
    var c := "com.example";
    var o := "org.example";
    assert c[0] == 'c' && o[0] == 'o';
    assert Less(c, o);
    LessAsymmetric(c, o);
  }

  predicate DomainsSorted(items: seq<Offset>)
  {
    forall i, j :: 0 <= i < j < |items| ==> Less(items[i].domain, items[j].domain)
  }

  predicate IdsSorted(items: seq<Offset>)
  {
    forall i, j :: 0 <= i < j < |items| ==> items[i].id < items[j].id
  }

  /** A valid index is sorted by domain and by id throughout, which is what the two
      binary searches rely on. */
  lemma {:induction false} WellFormedSorted(items: seq<Offset>)
    requires WellFormed(items)
    ensures DomainsSorted(items) && IdsSorted(items)
  {
    var domains := seq(|items|, i requires 0 <= i < |items| => items[i].domain);
    forall i | 0 < i < |domains|
      ensures Less(domains[i - 1], domains[i])
    {
      assert EntryOk(items, i);
    }
    AdjacentSorted(domains);
    forall i, j | 0 <= i < j < |items|
      ensures Less(items[i].domain, items[j].domain)
    {
      assert domains[i] == items[i].domain && domains[j] == items[j].domain;
    }
    IdsIncrease(items, |items|);
  }

  lemma {:induction false} IdsIncrease(items: seq<Offset>, n: nat)
    requires n <= |items|
    requires forall i :: 0 <= i < |items| ==> EntryOk(items, i)
    ensures forall i, j :: 0 <= i < j < n ==> items[i].id < items[j].id
    decreases n
  {
    if n > 1 {
      IdsIncrease(items, n - 1);
      assert EntryOk(items, n - 1);
    }
  }

  /** The domain of `key` lies within the index: not below the first entry and not
      above the last. */
  predicate DomainInRange(items: seq<Offset>, key: string)
  {
    |items| > 0 && !Less(key, items[0].domain) && !Less(items[|items| - 1].domain, key)
  }

  /** `FindForDomain`: the two index entries between which the line for `key` lies.
      An exact hit returns one entry twice; otherwise neighbouring entries that
      bracket the key; a key outside the index gets `Zero` on the open side. */
  method FindForDomain(items: seq<Offset>, key: string) returns (from: Offset, to: Offset)
    ensures |items| == 0 ==> from == Zero && to == Zero
    ensures |items| > 0 && Less(key, items[0].domain) ==> from == Zero && to == items[0]
    ensures |items| > 0 && !Less(key, items[0].domain) && Less(items[|items| - 1].domain, key) ==>
              from == items[|items| - 1] && to == Zero
    ensures DomainInRange(items, key) ==>
              || (exists i :: 0 <= i < |items| && items[i].domain == key && from == items[i] && to == items[i])
              || (exists i :: 0 < i < |items| && from == items[i - 1] && to == items[i] &&
                               Less(from.domain, key) && Less(key, to.domain))
    ensures DomainsSorted(items) && (exists i :: 0 <= i < |items| && items[i].domain == key) ==>
              exists i :: 0 <= i < |items| && items[i].domain == key && from == items[i] && to == items[i]
  {
    if |items| == 0 {
      return Zero, Zero;
    }
    var left := 0;
    var right := |items| - 1;
    if Less(key, items[left].domain) {
      if DomainsSorted(items) {
        forall j | 0 <= j < |items|
          ensures items[j].domain != key
        {
          if j > 0 {
            LessTransitive(key, items[0].domain, items[j].domain);
          }
          LessIrreflexive(key);
        }
      }
      return Zero, items[left];
    }
    if Less(items[right].domain, key) {
      if DomainsSorted(items) {
        forall j | 0 <= j < |items|
          ensures items[j].domain != key
        {
          if j < right {
            LessTransitive(items[j].domain, items[right].domain, key);
          }
          LessIrreflexive(key);
        }
      }
      return items[right], Zero;
    }
    while left <= right
      invariant 0 <= left <= right + 1 <= |items|
      invariant left > 0 ==> Less(items[left - 1].domain, key)
      invariant right < |items| - 1 ==> Less(key, items[right + 1].domain)
      decreases right - left
    {
      var mid := left + (right - left) / 2;
      if items[mid].domain == key {
        return items[mid], items[mid];
      }
      if Less(items[mid].domain, key) {
        left := mid + 1;
      } else {
        LessTotal(items[mid].domain, key);
        right := mid - 1;
      }
    }
    from, to := items[right], items[left];
    if DomainsSorted(items) {
      forall j | 0 <= j < |items|
        ensures items[j].domain != key
      {
        if j < right {
          LessTransitive(items[j].domain, items[right].domain, key);
        } else if j > left {
          LessTransitive(key, items[left].domain, items[j].domain);
        }
        LessIrreflexive(key);
      }
    }
  }

  /** The id of `key` lies within the index. */
  predicate IdInRange(items: seq<Offset>, key: int)
  {
    |items| > 0 && items[0].id <= key <= items[|items| - 1].id
  }

  /** `FindForID`: the same search as `FindForDomain`, over the numeric ids. */
  method FindForId(items: seq<Offset>, key: int) returns (from: Offset, to: Offset)
    ensures |items| == 0 ==> from == Zero && to == Zero
    ensures |items| > 0 && key < items[0].id ==> from == Zero && to == items[0]
    ensures |items| > 0 && items[0].id <= key && items[|items| - 1].id < key ==>
              from == items[|items| - 1] && to == Zero
    ensures IdInRange(items, key) ==>
              || (exists i :: 0 <= i < |items| && items[i].id == key && from == items[i] && to == items[i])
              || (exists i :: 0 < i < |items| && from == items[i - 1] && to == items[i] &&
                               from.id < key < to.id)
    ensures IdsSorted(items) && (exists i :: 0 <= i < |items| && items[i].id == key) ==>
              exists i :: 0 <= i < |items| && items[i].id == key && from == items[i] && to == items[i]
  {
    if |items| == 0 {
      return Zero, Zero;
    }
    var left := 0;
    var right := |items| - 1;
    if key < items[left].id {
      return Zero, items[left];
    }
    if key > items[right].id {
      return items[right], Zero;
    }
    while left <= right
      invariant 0 <= left <= right + 1 <= |items|
      invariant left > 0 ==> items[left - 1].id < key
      invariant right < |items| - 1 ==> key < items[right + 1].id
      decreases right - left
    {
      var mid := left + (right - left) / 2;
      if items[mid].id == key {
        return items[mid], items[mid];
      }
      if items[mid].id < key {
        left := mid + 1;
      } else {
        right := mid - 1;
      }
    }
    from, to := items[right], items[left];
    if IdsSorted(items) {
      forall j | 0 <= j < |items|
        ensures items[j].id != key
      {
        if j < right {
          assert items[j].id < items[right].id;
        } else if j > left {
          assert items[left].id < items[j].id;
        }
      }
    }
  }
}
