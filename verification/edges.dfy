/** Edge records and the scan of one fetched chunk (edges/edges.go). An edges file
    holds lines `fromID \t toID`, sorted by `fromID`. */
module Edges {
  import opened Wrappers
  import opened Text

  /** Most target ids one chunk scan returns. */
  const DefaultMaxSize: nat := 10_000

  datatype Edge = Edge(fromId: string, toId: string)

  datatype Error =
    | InvalidLine(line: string, parts: nat)
    | FetchFailed(reason: string)

  /** `LoadEdge`: a line of exactly two tab-separated fields, source id first. */
  function LoadEdge(line: string): (r: Result<Edge, Error>)
    ensures r.Success? <==> Count(line, '\t') == 1
    ensures r.Success? ==> line == r.value.fromId + "\t" + r.value.toId
    ensures r.Success? ==> '\t' !in r.value.fromId && '\t' !in r.value.toId
    ensures r.Failure? ==> r.error == InvalidLine(line, Count(line, '\t') + 1)
  {
    var parts := Split(line, '\t');
    SplitTwoFields(line, '\t');
    if |parts| != 2 then Failure(InvalidLine(line, |parts|))
    else Success(Edge(parts[0], parts[1]))
  }

  /** Every two-field line loads back into its fields. */
  lemma LoadEdgeFields(fromId: string, toId: string)
    requires '\t' !in fromId && '\t' !in toId
    ensures LoadEdge(fromId + "\t" + toId) == Success(Edge(fromId, toId))
  {
    SplitPair(fromId, toId, '\t');
  }

  /** Every line of a chunk run through `LoadEdge`. The source loads each line as
      the scanner reaches it; loading is pure, so loading them all up front and
      stopping at the same line gives the same answer. */
  function Parsed(lines: seq<string>): (parsed: seq<Result<Edge, Error>>)
    ensures |parsed| == |lines|
    ensures forall j :: 0 <= j < |lines| ==> parsed[j] == LoadEdge(lines[j])
  {
    seq(|lines|, j requires 0 <= j < |lines| => LoadEdge(lines[j]))
  }

  /** The loop of `findEdges` from line `i` on, with the target ids collected so far. */
  function ScanFrom(parsed: seq<Result<Edge, Error>>, key: string, i: nat, results: seq<string>): (r: Result<seq<string>, Error>)
    requires i <= |parsed| && |results| < DefaultMaxSize
    ensures r.Success? ==> |r.value| <= DefaultMaxSize
    decreases |parsed| - i
  {
    if i == |parsed| then Success(results)
    else match parsed[i]
      case Failure(e) => Failure(e)
      case Success(edge) =>
        if edge.fromId == key then
          var more := results + [edge.toId];
          if |more| >= DefaultMaxSize then Success(more)
          else ScanFrom(parsed, key, i + 1, more)
        else if |results| > 0 then Success(results)
        else ScanFrom(parsed, key, i + 1, results)
  }

  /** `findEdges`: the target ids of the lines whose source id is `key`, at most
      `DefaultMaxSize` of them. */
  function FindEdges(lines: seq<string>, key: string): (r: Result<seq<string>, Error>)
    ensures r.Success? ==> |r.value| <= DefaultMaxSize
  {
    ScanFrom(Parsed(lines), key, 0, [])
  }

  predicate Matches(p: Result<Edge, Error>, key: string)
  {
    p.Success? && p.value.fromId == key
  }

  /** Index of the first malformed line, or `|parsed|`. */
  function FirstBad(parsed: seq<Result<Edge, Error>>): (m: nat)
    ensures m <= |parsed|
    ensures forall j :: 0 <= j < m ==> parsed[j].Success?
    ensures m < |parsed| ==> parsed[m].Failure?
  {
    if |parsed| == 0 then 0
    else if parsed[0].Failure? then 0
    else
      var m := FirstBad(parsed[1..]);
      assert forall j :: 1 <= j < m + 1 ==> parsed[j] == parsed[1..][j - 1];
      1 + m
  }

  /** Index of the first line before `hi` whose source id is `key`, or `hi`. */
  function FirstMatch(parsed: seq<Result<Edge, Error>>, key: string, lo: nat, hi: nat): (a: nat)
    requires lo <= hi <= |parsed|
    ensures lo <= a <= hi
    ensures forall j :: lo <= j < a ==> !Matches(parsed[j], key)
    ensures a < hi ==> Matches(parsed[a], key)
    decreases hi - lo
  {
    if lo == hi || Matches(parsed[lo], key) then lo else FirstMatch(parsed, key, lo + 1, hi)
  }

  /** End of the run of matching lines starting at `a`, bounded by `hi`. */
  function RunEnd(parsed: seq<Result<Edge, Error>>, key: string, a: nat, hi: nat): (b: nat)
    requires a <= hi <= |parsed|
    ensures a <= b <= hi
    ensures forall j :: a <= j < b ==> Matches(parsed[j], key)
    ensures b < hi ==> !Matches(parsed[b], key)
    decreases hi - a
  {
    if a == hi || !Matches(parsed[a], key) then a else RunEnd(parsed, key, a + 1, hi)
  }

  /** The target ids of lines `a` to `b - 1`, in order. */
  function ToIds(parsed: seq<Result<Edge, Error>>, a: nat, b: nat): (ids: seq<string>)
    requires a <= b <= |parsed|
    requires forall j :: a <= j < b ==> parsed[j].Success?
    ensures |ids| == b - a
    ensures forall k :: 0 <= k < b - a ==> ids[k] == parsed[a + k].value.toId
  {
    seq(b - a, k requires 0 <= k < b - a => parsed[a + k].value.toId)
  }

  /** What a chunk scan answers, stated by positions: take the lines before the first
      malformed one; find the first maximal run of lines whose source id is `key`;
      the answer is the target ids of that run, cut at `DefaultMaxSize`. The scan
      stops after that run (or after `DefaultMaxSize` ids), so a malformed line
      is an error exactly when the run reaches it and is still short. */
  function ExpectedOf(parsed: seq<Result<Edge, Error>>, key: string): Result<seq<string>, Error>
  {
    var m := FirstBad(parsed);
    var a := FirstMatch(parsed, key, 0, m);
    var b := RunEnd(parsed, key, a, m);
    if m < |parsed| && b == m && b - a < DefaultMaxSize then Failure(parsed[m].error)
    else Success(ToIds(parsed, a, if b - a <= DefaultMaxSize then b else a + DefaultMaxSize))
  }

  function Expected(lines: seq<string>, key: string): Result<seq<string>, Error>
  {
    ExpectedOf(Parsed(lines), key)
  }

  /** `ExpectedOf` once the bounds of the run are known. */
  lemma ExpectedAt(parsed: seq<Result<Edge, Error>>, key: string, m: nat, a: nat, b: nat)
    requires m == FirstBad(parsed) && a == FirstMatch(parsed, key, 0, m) && b == RunEnd(parsed, key, a, m)
    ensures m < |parsed| && b == m && b - a < DefaultMaxSize ==> ExpectedOf(parsed, key) == Failure(parsed[m].error)
    ensures !(m < |parsed| && b == m && b - a < DefaultMaxSize) && b - a <= DefaultMaxSize ==>
              ExpectedOf(parsed, key) == Success(ToIds(parsed, a, b))
    ensures !(m < |parsed| && b == m && b - a < DefaultMaxSize) && b - a > DefaultMaxSize ==>
              ExpectedOf(parsed, key) == Success(ToIds(parsed, a, a + DefaultMaxSize))
  {
  }

  lemma ToIdsSnoc(parsed: seq<Result<Edge, Error>>, a: nat, i: nat)
    requires a <= i < |parsed|
    requires forall j :: a <= j <= i ==> parsed[j].Success?
    ensures ToIds(parsed, a, i + 1) == ToIds(parsed, a, i) + [parsed[i].value.toId]
  {
  }

  /** Where the loop can be when it reaches line `i` with `results` collected: still
      before the run (nothing collected), or inside it with the run's ids so far. */
  predicate ScanState(parsed: seq<Result<Edge, Error>>, key: string, i: nat, results: seq<string>)
  {
    && i <= FirstBad(parsed) && |results| < DefaultMaxSize
    && var m := FirstBad(parsed);
       var a := FirstMatch(parsed, key, 0, m);
       || (results == [] && i <= a)
       || (&& a < i <= RunEnd(parsed, key, a, m)
           && results == ToIds(parsed, a, i))
  }

  lemma ScanAtEnd(parsed: seq<Result<Edge, Error>>, key: string, i: nat, results: seq<string>)
    requires ScanState(parsed, key, i, results) && i == |parsed|
    ensures ScanFrom(parsed, key, i, results) == ExpectedOf(parsed, key)
  {
    var m := FirstBad(parsed);
    var a := FirstMatch(parsed, key, 0, m);
    var b := RunEnd(parsed, key, a, m);
    ExpectedAt(parsed, key, m, a, b);
    assert b == m && ToIds(parsed, a, b) == results;
  }

  lemma ScanAtBad(parsed: seq<Result<Edge, Error>>, key: string, i: nat, results: seq<string>)
    requires ScanState(parsed, key, i, results) && i < |parsed| && parsed[i].Failure?
    ensures ScanFrom(parsed, key, i, results) == ExpectedOf(parsed, key)
  {
    var m := FirstBad(parsed);
    var a := FirstMatch(parsed, key, 0, m);
    var b := RunEnd(parsed, key, a, m);
    ExpectedAt(parsed, key, m, a, b);
    assert i == m && b == m && b - a == |results|;
  }

  lemma ScanAtRunEnd(parsed: seq<Result<Edge, Error>>, key: string, i: nat, results: seq<string>)
    requires ScanState(parsed, key, i, results) && i < |parsed| && parsed[i].Success?
    requires !Matches(parsed[i], key) && |results| > 0
    ensures ScanFrom(parsed, key, i, results) == ExpectedOf(parsed, key)
  {
    var m := FirstBad(parsed);
    var a := FirstMatch(parsed, key, 0, m);
    var b := RunEnd(parsed, key, a, m);
    ExpectedAt(parsed, key, m, a, b);
    assert i < m && b == i;
    assert ScanFrom(parsed, key, i, results) == Success(results);
  }

  lemma ScanAtFull(parsed: seq<Result<Edge, Error>>, key: string, i: nat, results: seq<string>)
    requires ScanState(parsed, key, i, results) && i < |parsed| && Matches(parsed[i], key)
    requires |results| + 1 >= DefaultMaxSize
    ensures ScanFrom(parsed, key, i, results) == ExpectedOf(parsed, key)
  {
    var m := FirstBad(parsed);
    var a := FirstMatch(parsed, key, 0, m);
    var b := RunEnd(parsed, key, a, m);
    ExpectedAt(parsed, key, m, a, b);
    var more := results + [parsed[i].value.toId];
    assert i < m && a <= i < b;
    ToIdsSnoc(parsed, a, i);
    assert more == ToIds(parsed, a, i + 1);
    assert i + 1 == a + DefaultMaxSize;
    assert ScanFrom(parsed, key, i, results) == Success(more);
  }

  /** One matching step keeps the loop inside the run. */
  lemma ScanMatchStep(parsed: seq<Result<Edge, Error>>, key: string, i: nat, results: seq<string>)
    requires ScanState(parsed, key, i, results) && i < |parsed| && Matches(parsed[i], key)
    requires |results| + 1 < DefaultMaxSize
    ensures ScanState(parsed, key, i + 1, results + [parsed[i].value.toId])
  {
    var m := FirstBad(parsed);
    var a := FirstMatch(parsed, key, 0, m);
    var b := RunEnd(parsed, key, a, m);
    assert i < m && a <= i < b;
    ToIdsSnoc(parsed, a, i);
  }

  /** A skipped line before the run keeps the loop before the run. */
  lemma ScanSkipStep(parsed: seq<Result<Edge, Error>>, key: string, i: nat, results: seq<string>)
    requires ScanState(parsed, key, i, results) && i < |parsed| && parsed[i].Success?
    requires !Matches(parsed[i], key) && |results| == 0
    ensures ScanState(parsed, key, i + 1, results)
  {
    var m := FirstBad(parsed);
    var a := FirstMatch(parsed, key, 0, m);
    assert i < m && i < a;
  }

  lemma {:induction false} ScanMeaning(parsed: seq<Result<Edge, Error>>, key: string, i: nat, results: seq<string>)
    requires i <= |parsed| && ScanState(parsed, key, i, results)
    ensures ScanFrom(parsed, key, i, results) == ExpectedOf(parsed, key)
    decreases |parsed| - i
  {
    if i == |parsed| {
      ScanAtEnd(parsed, key, i, results);
    } else if parsed[i].Failure? {
      ScanAtBad(parsed, key, i, results);
    } else if Matches(parsed[i], key) {
      if |results| + 1 >= DefaultMaxSize {
        ScanAtFull(parsed, key, i, results);
      } else {
        ScanMatchStep(parsed, key, i, results);
        ScanMeaning(parsed, key, i + 1, results + [parsed[i].value.toId]);
      }
    } else if |results| > 0 {
      ScanAtRunEnd(parsed, key, i, results);
    } else {
      ScanSkipStep(parsed, key, i, results);
      ScanMeaning(parsed, key, i + 1, results);
    }
  }

  /** `findEdges` returns the target ids of the first maximal run of lines whose
      source id is the key, in buffer order and at most `DefaultMaxSize` of them;
      lines before the run are skipped, an empty answer means no line matched, and a
      malformed line reached before the scan stops is an error. */
  lemma FindEdgesMeaning(lines: seq<string>, key: string)
    ensures FindEdges(lines, key) == Expected(lines, key)
  {
    ScanMeaning(Parsed(lines), key, 0, []);
  }
}
