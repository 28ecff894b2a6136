/** The index builder (cmd/indexer/main.go): one pass over a sorted data file that
    records the byte offset of the first line, of every line that starts at least
    one chunk past the previously recorded line, and of the end of the file.
    A file is taken as a sequence of lines, each followed by one newline byte. */
module Indexer {
  import opened Wrappers
  import opened Text
  import opened Decimal
  import Vertices
  import Edges
  import VertexOffsets
  import EdgeOffsets

  /** A parsed line: its length in bytes (without the newline) and the key the index
      records for it. */
  datatype Line<K> = Line(len: nat, key: K)

  /** A recorded position: byte offset and the key of the line there. */
  datatype Mark<K> = Mark(offset: nat, key: K)

  /** Byte offset at which line `i` starts: the lengths of the lines before it, each
      plus one for its newline. `Start(lines, |lines|)` is the file length. */
  function Start<K>(lines: seq<Line<K>>, i: nat): nat
    requires i <= |lines|
  {
    if i == 0 then 0 else Start(lines, i - 1) + lines[i - 1].len + 1
  }

  /** Every line takes at least its newline byte. */
  lemma {:induction false} StartGrows<K>(lines: seq<Line<K>>, i: nat, j: nat)
    requires i <= j <= |lines|
    ensures Start(lines, i) + (j - i) <= Start(lines, j)
    decreases j - i
  {
    if i < j {
      StartGrows(lines, i, j - 1);
    }
  }

  /** The loop of `processOneVerticesFile` / `processOneEdgesFile` from line `i` on.
      `offset` is where line `i` starts, `lastSaved` the offset recorded last and
      `key` the key of the line read last (the initial value before any line). The
      first line is always recorded; afterwards a line is recorded when it starts
      at least `chunk` bytes after the last recorded one. After the loop the end of
      the file is recorded with the last key. */
  function SparseFrom<K>(lines: seq<Line<K>>, chunk: nat, i: nat, offset: nat, lastSaved: nat, key: K): seq<Mark<K>>
    requires i <= |lines|
    decreases |lines| - i
  {
    if i == |lines| then [Mark(offset, key)]
    else
      var k := lines[i].key;
      var first := if i == 0 then [Mark(offset, k)] else [];
      var saved := if i == 0 then offset else lastSaved;
      if offset - saved >= chunk then
        first + [Mark(offset, k)] + SparseFrom(lines, chunk, i + 1, offset + lines[i].len + 1, offset, k)
      else
        first + SparseFrom(lines, chunk, i + 1, offset + lines[i].len + 1, saved, k)
  }

  function Sparse<K>(lines: seq<Line<K>>, chunk: nat, init: K): seq<Mark<K>>
  {
    SparseFrom(lines, chunk, 0, 0, 0, init)
  }

  /** The marks at line positions `idx`, in order. */
  function MarksAt<K>(lines: seq<Line<K>>, idx: seq<nat>): (r: seq<Mark<K>>)
    requires forall q :: 0 <= q < |idx| ==> idx[q] < |lines|
    ensures |r| == |idx|
    ensures forall q :: 0 <= q < |idx| ==> r[q] == Mark(Start(lines, idx[q]), lines[idx[q]].key)
  {
    seq(|idx|, q requires 0 <= q < |idx| => Mark(Start(lines, idx[q]), lines[idx[q]].key))
  }

  /** Line `b` is the next line recorded after line `a`: the first one that starts at
      least `chunk` bytes after it. */
  predicate Step<K>(lines: seq<Line<K>>, chunk: nat, a: nat, b: nat)
  {
    && a < b < |lines|
    && Start(lines, b) >= Start(lines, a) + chunk
    && forall p :: a < p < b ==> Start(lines, p) < Start(lines, a) + chunk
  }

  /** No line after line `a` starts `chunk` bytes after it. */
  predicate Tail<K>(lines: seq<Line<K>>, chunk: nat, a: nat)
    requires a < |lines|
  {
    forall p :: a < p < |lines| ==> Start(lines, p) < Start(lines, a) + chunk
  }

  /** `idx` is the chain of lines recorded after the recorded line `s`: each the next
      line after the one before, and nothing left to record after the last. */
  predicate Chain<K>(lines: seq<Line<K>>, chunk: nat, s: nat, idx: seq<nat>)
    decreases |idx|
  {
    && s < |lines|
    && if |idx| == 0 then Tail(lines, chunk, s)
       else Step(lines, chunk, s, idx[0]) && Chain(lines, chunk, idx[0], idx[1..])
  }

  /** The chain moves forward through the file. */
  lemma {:induction false} ChainForward<K>(lines: seq<Line<K>>, chunk: nat, s: nat, idx: seq<nat>)
    requires Chain(lines, chunk, s, idx)
    ensures forall q :: 0 <= q < |idx| ==> s < idx[q] < |lines|
    ensures forall q, r :: 0 <= q < r < |idx| ==> idx[q] < idx[r]
    decreases |idx|
  {
    if |idx| > 0 {
      ChainForward(lines, chunk, idx[0], idx[1..]);
      assert forall q :: 0 < q < |idx| ==> idx[q] == idx[1..][q - 1];
    }
  }

  /** One iteration of the loop after the first line; `next` is where the following
      line starts. */
  lemma SparseFromUnfold<K>(lines: seq<Line<K>>, chunk: nat, i: nat, offset: nat, saved: nat, key: K, next: nat)
    requires 0 < i < |lines| && next == offset + lines[i].len + 1
    ensures offset - saved >= chunk ==>
              SparseFrom(lines, chunk, i, offset, saved, key) ==
                [Mark(offset, lines[i].key)] + SparseFrom(lines, chunk, i + 1, next, offset, lines[i].key)
    ensures offset - saved < chunk ==>
              SparseFrom(lines, chunk, i, offset, saved, key) == SparseFrom(lines, chunk, i + 1, next, saved, lines[i].key)
  {
    assert [] + SparseFrom(lines, chunk, i + 1, next, saved, lines[i].key)
           == SparseFrom(lines, chunk, i + 1, next, saved, lines[i].key);
    assert [] + [Mark(offset, lines[i].key)] == [Mark(offset, lines[i].key)];
  }

  /** Recording line `i` after `s` extends the chain that follows `i`. */
  lemma ChainCons<K>(lines: seq<Line<K>>, chunk: nat, s: nat, i: nat, rest: seq<nat>)
    requires Step(lines, chunk, s, i) && Chain(lines, chunk, i, rest)
    requires forall q :: 0 <= q < |rest| ==> rest[q] < |lines|
    ensures Chain(lines, chunk, s, [i] + rest)
    ensures MarksAt(lines, [i] + rest) == [Mark(Start(lines, i), lines[i].key)] + MarksAt(lines, rest)
  {
    assert ([i] + rest)[1..] == rest;
  }

  /** The loop from line `i` on, the last recorded line being `s`, records the chain
      `idx` (all at or after line `i`) and then the end of the file. */
  ghost predicate ChainResult<K>(lines: seq<Line<K>>, chunk: nat, i: nat, s: nat, idx: seq<nat>)
    requires 0 < i <= |lines| && s < i
  {
    && Chain(lines, chunk, s, idx)
    && (forall q :: 0 <= q < |idx| ==> i <= idx[q] < |lines|)
    && SparseFrom(lines, chunk, i, Start(lines, i), Start(lines, s), lines[i - 1].key)
       == MarksAt(lines, idx) + [Mark(Start(lines, |lines|), lines[|lines| - 1].key)]
  }

  lemma ChainAtEnd<K>(lines: seq<Line<K>>, chunk: nat, s: nat)
    requires s < |lines|
    requires forall p :: s < p < |lines| ==> Start(lines, p) < Start(lines, s) + chunk
    ensures ChainResult(lines, chunk, |lines|, s, [])
  {
    assert MarksAt(lines, []) == [];
  }

  lemma ChainRecord<K>(lines: seq<Line<K>>, chunk: nat, i: nat, s: nat, rest: seq<nat>)
    requires 0 < i < |lines| && s < i
    requires forall p :: s < p < i ==> Start(lines, p) < Start(lines, s) + chunk
    requires Start(lines, i) - Start(lines, s) >= chunk
    requires ChainResult(lines, chunk, i + 1, i, rest)
    ensures ChainResult(lines, chunk, i, s, [i] + rest)
  {
    var end := [Mark(Start(lines, |lines|), lines[|lines| - 1].key)];
    assert Start(lines, i + 1) == Start(lines, i) + lines[i].len + 1;
    SparseFromUnfold(lines, chunk, i, Start(lines, i), Start(lines, s), lines[i - 1].key, Start(lines, i + 1));
    ChainCons(lines, chunk, s, i, rest);
    var idx := [i] + rest;
    var mark := [Mark(Start(lines, i), lines[i].key)];
    assert mark + (MarksAt(lines, rest) + end) == (mark + MarksAt(lines, rest)) + end;
    assert forall q :: 0 < q < |idx| ==> idx[q] == rest[q - 1];
  }

  lemma ChainSkip<K>(lines: seq<Line<K>>, chunk: nat, i: nat, s: nat, idx: seq<nat>)
    requires 0 < i < |lines| && s < i
    requires Start(lines, i) - Start(lines, s) < chunk
    requires ChainResult(lines, chunk, i + 1, s, idx)
    ensures ChainResult(lines, chunk, i, s, idx)
  {
    assert Start(lines, i + 1) == Start(lines, i) + lines[i].len + 1;
    SparseFromUnfold(lines, chunk, i, Start(lines, i), Start(lines, s), lines[i - 1].key, Start(lines, i + 1));
  }

  lemma {:induction false} SparseFromChain<K>(lines: seq<Line<K>>, chunk: nat, i: nat, s: nat)
    requires 0 < i <= |lines| && s < i
    requires forall p :: s < p < i ==> Start(lines, p) < Start(lines, s) + chunk
    ensures exists idx: seq<nat> :: ChainResult(lines, chunk, i, s, idx)
    decreases |lines| - i
  {
    if i == |lines| {
      ChainAtEnd(lines, chunk, s);
    } else {
      StartGrows(lines, s, i);
      if Start(lines, i) - Start(lines, s) >= chunk {
        SparseFromChain(lines, chunk, i + 1, i);
        var rest: seq<nat> :| ChainResult(lines, chunk, i + 1, i, rest);
        ChainRecord(lines, chunk, i, s, rest);
      } else {
        SparseFromChain(lines, chunk, i + 1, s);
        var idx: seq<nat> :| ChainResult(lines, chunk, i + 1, s, idx);
        ChainSkip(lines, chunk, i, s, idx);
      }
    }
  }

  /** The marks are: the first line, the chain of lines each the first to start at
      least `chunk` bytes after the line recorded before it, and the end of the file
      with the key of the last line. An empty file gives one mark at offset 0 with
      the initial key. */
  lemma SparseMeaning<K>(lines: seq<Line<K>>, chunk: nat, init: K)
    requires chunk > 0
    ensures |lines| == 0 ==> Sparse(lines, chunk, init) == [Mark(0, init)]
    ensures |lines| > 0 ==>
              exists idx: seq<nat> :: && Chain(lines, chunk, 0, idx)
                                      && (forall q :: 0 <= q < |idx| ==> idx[q] < |lines|)
                                      && Sparse(lines, chunk, init) ==
                                           [Mark(0, lines[0].key)] + MarksAt(lines, idx)
                                           + [Mark(Start(lines, |lines|), lines[|lines| - 1].key)]
  {
    if |lines| > 0 {
      assert Start(lines, 1) == lines[0].len + 1;
      SparseFromChain(lines, chunk, 1, 0);
    }
  }

  /** Where the marks come from: mark `q` carries the key of line `pos[q]`, the
      lines only move forward and the offsets strictly increase; the last mark
      carries the key of the last line. */
  ghost predicate Positioned<K>(lines: seq<Line<K>>, marks: seq<Mark<K>>, pos: seq<nat>)
  {
    && |lines| > 0 && |pos| == |marks| > 0 && pos[|pos| - 1] == |lines| - 1
    && (forall q :: 0 <= q < |marks| ==> pos[q] < |lines| && marks[q].key == lines[pos[q]].key)
    && (forall q, r :: 0 <= q < r < |marks| ==> pos[q] <= pos[r] && marks[q].offset < marks[r].offset)
  }

  /** What the marks of a chain result are, element by element. */
  ghost predicate MarksOf<K>(lines: seq<Line<K>>, idx: seq<nat>, marks: seq<Mark<K>>)
  {
    && |lines| > 0
    && (forall q :: 0 <= q < |idx| ==> 0 < idx[q] < |lines|)
    && (forall q, r :: 0 <= q < r < |idx| ==> idx[q] < idx[r])
    && |marks| == |idx| + 2
    && marks[0] == Mark(0, lines[0].key)
    && (forall q :: 0 < q <= |idx| ==> marks[q] == Mark(Start(lines, idx[q - 1]), lines[idx[q - 1]].key))
    && marks[|idx| + 1] == Mark(Start(lines, |lines|), lines[|lines| - 1].key)
  }

  lemma MarksKeys<K>(lines: seq<Line<K>>, idx: seq<nat>, marks: seq<Mark<K>>, pos: seq<nat>)
    requires MarksOf(lines, idx, marks) && pos == [0] + idx + [|lines| - 1]
    ensures forall q :: 0 <= q < |marks| ==> pos[q] < |lines| && marks[q].key == lines[pos[q]].key
  {
    assert forall q :: 1 <= q < |idx| + 1 ==> pos[q] == idx[q - 1];
  }

  lemma MarksOrdered<K>(lines: seq<Line<K>>, idx: seq<nat>, marks: seq<Mark<K>>, pos: seq<nat>)
    requires MarksOf(lines, idx, marks) && pos == [0] + idx + [|lines| - 1]
    ensures forall q, r :: 0 <= q < r < |marks| ==> pos[q] <= pos[r] && marks[q].offset < marks[r].offset
  {
    var n, m := |lines|, |idx|;
    assert forall q :: 1 <= q < m + 1 ==> pos[q] == idx[q - 1];
    forall q, r | 0 <= q < r < m + 2
      ensures pos[q] <= pos[r] && marks[q].offset < marks[r].offset
    {
      assert marks[q].offset == Start(lines, pos[q]);
      if r <= m {
        assert pos[q] < pos[r];
        StartGrows(lines, pos[q], pos[r]);
      } else {
        StartGrows(lines, pos[q], n);
      }
    }
  }

  lemma MarksPositioned<K>(lines: seq<Line<K>>, idx: seq<nat>, marks: seq<Mark<K>>)
    requires MarksOf(lines, idx, marks)
    ensures Positioned(lines, marks, [0] + idx + [|lines| - 1])
  {
    var pos := [0] + idx + [|lines| - 1];
    MarksKeys(lines, idx, marks, pos);
    MarksOrdered(lines, idx, marks, pos);
  }

  /** The marks of a chain result, one by one. */
  lemma SparseElements<K>(lines: seq<Line<K>>, idx: seq<nat>, marks: seq<Mark<K>>)
    requires |lines| > 0 && forall q :: 0 <= q < |idx| ==> idx[q] < |lines|
    requires marks == [Mark(0, lines[0].key)] + MarksAt(lines, idx)
                      + [Mark(Start(lines, |lines|), lines[|lines| - 1].key)]
    requires forall q, r :: 0 <= q < r < |idx| ==> idx[q] < idx[r]
    requires forall q :: 0 <= q < |idx| ==> 0 < idx[q]
    ensures MarksOf(lines, idx, marks)
  {
    var mid := MarksAt(lines, idx);
    assert marks == [Mark(0, lines[0].key)] + mid + [Mark(Start(lines, |lines|), lines[|lines| - 1].key)];
    forall q | 0 < q <= |idx|
      ensures marks[q] == Mark(Start(lines, idx[q - 1]), lines[idx[q - 1]].key)
    {
      assert marks[q] == mid[q - 1];
    }
    assert marks[|idx| + 1] == Mark(Start(lines, |lines|), lines[|lines| - 1].key);
  }

  /** Consequences the offset indexes rely on: the marks sit at strictly increasing
      offsets, and each mark carries the key of a line, at or after the line of the
      mark before it; the last mark carries the key of the last line. */
  lemma SparseIncreasing<K>(lines: seq<Line<K>>, chunk: nat, init: K)
    requires chunk > 0 && |lines| > 0
    ensures exists pos: seq<nat> :: Positioned(lines, Sparse(lines, chunk, init), pos)
  {
    SparseMeaning(lines, chunk, init);
    var idx: seq<nat> :| && Chain(lines, chunk, 0, idx)
                         && (forall q :: 0 <= q < |idx| ==> idx[q] < |lines|)
                         && Sparse(lines, chunk, init) ==
                              [Mark(0, lines[0].key)] + MarksAt(lines, idx)
                              + [Mark(Start(lines, |lines|), lines[|lines| - 1].key)];
    ChainForward(lines, chunk, 0, idx);
    SparseElements(lines, idx, Sparse(lines, chunk, init));
    MarksPositioned(lines, idx, Sparse(lines, chunk, init));
  }

  datatype Error =
    | InvalidLine(line: string)
    | InvalidId(field: string)

  /** One line of a vertices file: it must load, and its id must be a number. The
      index records the domain and the id. */
  function VerticesLine(line: string): (r: Result<Line<(string, int)>, Error>)
    ensures r.Success? <==> Vertices.LoadVertice(line).Success? && Atoi(Vertices.LoadVertice(line).value.id).Some?
    ensures r.Success? ==>
              r.value == Line(ByteLen(line), (Vertices.LoadVertice(line).value.domain, Atoi(Vertices.LoadVertice(line).value.id).value))
  {
    match Vertices.LoadVertice(line)
    case Failure(_) => Failure(InvalidLine(line))
    case Success(v) =>
      match Atoi(v.id)
      case None => Failure(InvalidId(v.id))
      case Some(id) => Success(Line(ByteLen(line), (v.domain, id)))
  }

  /** The index entries of one vertices file, from its marks. */
  function VertexEntries(marks: seq<Mark<(string, int)>>, fileName: string): (items: seq<VertexOffsets.Offset>)
    ensures |items| == |marks|
    ensures forall q :: 0 <= q < |marks| ==>
              items[q] == VertexOffsets.Offset(marks[q].offset, marks[q].key.0, marks[q].key.1, fileName)
  {
    seq(|marks|, q requires 0 <= q < |marks| =>
        VertexOffsets.Offset(marks[q].offset, marks[q].key.0, marks[q].key.1, fileName))
  }

  /** `processOneVerticesFile`: the index entries of one vertices file, 32 KB apart;
      before any line the domain is empty and the id is -1. */
  function ProcessVerticesFile(lines: seq<string>, fileName: string): Result<seq<VertexOffsets.Offset>, Error>
  {
    var parsed :- ParseLines(lines, VerticesLine);
    Success(VertexEntries(Sparse(parsed, VertexOffsets.FileChunkSize, ("", -1)), fileName))
  }

  /** Building a vertices index fails exactly when some line does not load or has a
      non-numeric id; it then reports the first such line. */
  lemma ProcessVerticesFileFails(lines: seq<string>, fileName: string)
    ensures ProcessVerticesFile(lines, fileName).Failure? <==>
              exists j :: 0 <= j < |lines| && VerticesLine(lines[j]).Failure?
    ensures ProcessVerticesFile(lines, fileName).Failure? ==>
              exists j :: && 0 <= j < |lines|
                          && VerticesLine(lines[j]) == Failure(ProcessVerticesFile(lines, fileName).error)
                          && forall i :: 0 <= i < j ==> VerticesLine(lines[i]).Success?
  {
  }

  /** A file of one line gives two entries with the same domain and id: the line
      itself at offset 0 and the end of the file. */
  lemma OneLineVertices(line: string, fileName: string)
    requires VerticesLine(line).Success?
    ensures var l := VerticesLine(line).value;
            ProcessVerticesFile([line], fileName) ==
              Success([VertexOffsets.Offset(0, l.key.0, l.key.1, fileName),
                       VertexOffsets.Offset(l.len + 1, l.key.0, l.key.1, fileName)])
  {
    var l := VerticesLine(line).value;
    var parsed := [l];
    var r := ParseLines([line], VerticesLine);
    assert [line][0] == line;
    assert r.Success? && |r.value| == 1 && r.value[0] == l;
    assert r.value == parsed;
    var c := VertexOffsets.FileChunkSize;
    assert SparseFrom(parsed, c, 1, l.len + 1, 0, l.key) == [Mark(l.len + 1, l.key)];
    assert Sparse(parsed, c, ("", -1)) == [Mark(0, l.key)] + SparseFrom(parsed, c, 1, l.len + 1, 0, l.key);
    var marks := [Mark(0, l.key), Mark(l.len + 1, l.key)];
    assert Sparse(parsed, c, ("", -1)) == marks;
    assert VertexEntries(marks, fileName) ==
             [VertexOffsets.Offset(0, l.key.0, l.key.1, fileName),
              VertexOffsets.Offset(l.len + 1, l.key.0, l.key.1, fileName)];
  }

  /** The vertex index validation wants domains strictly increasing, so it rejects
      the index of every one-line file whose entry is otherwise acceptable. */
  lemma OneLineVerticesRejected(line: string, fileName: string)
    requires VerticesLine(line).Success? && fileName != ""
    requires VerticesLine(line).value.key.0 != "" && VerticesLine(line).value.key.1 >= 0
    ensures ProcessVerticesFile([line], fileName).Success?
    ensures var domain := VerticesLine(line).value.key.0;
            VertexOffsets.Validate(ProcessVerticesFile([line], fileName).value) ==
              Fail(VertexOffsets.DomainGoesDown(domain, domain))
  {
    OneLineVertices(line, fileName);
    var l := VerticesLine(line).value;
    var first := VertexOffsets.Offset(0, l.key.0, l.key.1, fileName);
    var second := VertexOffsets.Offset(l.len + 1, l.key.0, l.key.1, fileName);
    var items := [first, second];
    assert VertexOffsets.CheckEntry(VertexOffsets.Initial, first) == Pass;
    assert VertexOffsets.CheckEntry(VertexOffsets.Remember(first), second) ==
             Fail(VertexOffsets.DomainGoesDown(l.key.0, l.key.0));
    assert items[1..] == [second];
    assert VertexOffsets.ValidateFrom(items, VertexOffsets.Initial) ==
             VertexOffsets.ValidateFrom([second], VertexOffsets.Remember(first));
  }

  /** One line of an edges file: it must load. The index records the source id. */
  function EdgesLine(line: string): (r: Result<Line<string>, Error>)
    ensures r.Success? <==> Edges.LoadEdge(line).Success?
    ensures r.Success? ==> r.value == Line(ByteLen(line), Edges.LoadEdge(line).value.fromId)
  {
    match Edges.LoadEdge(line)
    case Failure(_) => Failure(InvalidLine(line))
    case Success(e) => Success(Line(ByteLen(line), e.fromId))
  }

  /** The index entries of one edges file, from its marks. */
  function EdgeEntries(marks: seq<Mark<string>>, fileName: string): (items: seq<EdgeOffsets.Offset>)
    ensures |items| == |marks|
    ensures forall q :: 0 <= q < |marks| ==> items[q] == EdgeOffsets.Offset(marks[q].offset, marks[q].key, fileName)
  {
    seq(|marks|, q requires 0 <= q < |marks| => EdgeOffsets.Offset(marks[q].offset, marks[q].key, fileName))
  }

  /** `processOneEdgesFile`: the index entries of one edges file, 128 KB apart; before
      any line the id is empty. */
  function ProcessEdgesFile(lines: seq<string>, fileName: string): Result<seq<EdgeOffsets.Offset>, Error>
  {
    var parsed :- ParseLines(lines, EdgesLine);
    Success(EdgeEntries(Sparse(parsed, EdgeOffsets.FileChunkSize, ""), fileName))
  }

  /** Building an edges index fails exactly when some line does not load; it then
      reports the first such line. */
  lemma ProcessEdgesFileFails(lines: seq<string>, fileName: string)
    ensures ProcessEdgesFile(lines, fileName).Failure? <==>
              exists j :: 0 <= j < |lines| && Edges.LoadEdge(lines[j]).Failure?
    ensures ProcessEdgesFile(lines, fileName).Failure? ==>
              exists j :: && 0 <= j < |lines|
                          && ProcessEdgesFile(lines, fileName).error == InvalidLine(lines[j])
                          && forall i :: 0 <= i < j ==> Edges.LoadEdge(lines[i]).Success?
  {
    if ProcessEdgesFile(lines, fileName).Failure? {
      var j :| && 0 <= j < |lines| && EdgesLine(lines[j]) == Failure(ProcessEdgesFile(lines, fileName).error)
               && forall i :: 0 <= i < j ==> EdgesLine(lines[i]).Success?;
      assert Edges.LoadEdge(lines[j]).Failure?;
    }
  }

  /** The source id of an edges line as a number, when the line loads and the id
      parses. */
  function EdgeFromId(line: string): Option<int>
  {
    match Edges.LoadEdge(line)
    case Success(e) => Atoi(e.fromId)
    case Failure(_) => None
  }

  /** The entries built from numerically sorted lines form a valid edges index. */
  lemma EdgeEntriesWellFormed(parsed: seq<Line<string>>, fileName: string, ids: seq<int>)
    requires |parsed| > 0 && fileName != "" && |ids| == |parsed|
    requires forall j :: 0 <= j < |parsed| ==> Atoi(parsed[j].key) == Some(ids[j])
    requires forall a, b :: 0 <= a < b < |ids| ==> ids[a] <= ids[b]
    ensures EdgeOffsets.WellFormed(EdgeEntries(Sparse(parsed, EdgeOffsets.FileChunkSize, ""), fileName))
  {
    var marks := Sparse(parsed, EdgeOffsets.FileChunkSize, "");
    SparseIncreasing(parsed, EdgeOffsets.FileChunkSize, "");
    var pos: seq<nat> :| Positioned(parsed, marks, pos);
    var items := EdgeEntries(marks, fileName);
    forall i | 0 <= i < |items|
      ensures EdgeOffsets.EntryOk(items, i)
    {
      assert items[i].id == parsed[pos[i]].key;
      assert EdgeOffsets.IdOf(items[i]) == ids[pos[i]];
      if i > 0 {
        assert items[i - 1].id == parsed[pos[i - 1]].key;
        assert EdgeOffsets.IdOf(items[i - 1]) == ids[pos[i - 1]];
        assert pos[i - 1] <= pos[i] && marks[i - 1].offset < marks[i].offset;
      }
    }
  }

  /** An edges file whose lines all load, with numeric source ids in non-decreasing
      order, gives an index that passes the edges index validation. */
  lemma ProcessEdgesFileValid(lines: seq<string>, fileName: string, ids: seq<int>)
    requires |lines| > 0 && fileName != "" && |ids| == |lines|
    requires forall j :: 0 <= j < |lines| ==> EdgeFromId(lines[j]) == Some(ids[j])
    requires forall a, b :: 0 <= a < b < |ids| ==> ids[a] <= ids[b]
    ensures ProcessEdgesFile(lines, fileName).Success?
    ensures EdgeOffsets.Validate(ProcessEdgesFile(lines, fileName).value) == Pass
  {
    forall j | 0 <= j < |lines|
      ensures EdgesLine(lines[j]).Success?
    {
      assert EdgeFromId(lines[j]).Some?;
    }
    var parsed := ParseLines(lines, EdgesLine).value;
    forall j | 0 <= j < |parsed|
      ensures Atoi(parsed[j].key) == Some(ids[j])
    {
      assert EdgesLine(lines[j]) == Success(parsed[j]);
      assert EdgeFromId(lines[j]) == Some(ids[j]);
    }
    EdgeEntriesWellFormed(parsed, fileName, ids);
    EdgeOffsets.ValidateMeaning(EdgeEntries(Sparse(parsed, EdgeOffsets.FileChunkSize, ""), fileName));
  }
}
