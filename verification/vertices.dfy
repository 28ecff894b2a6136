/** Vertex records and the lookup of one vertex (vertices/vertices.go). A vertices
    file holds lines `id \t domain`, sorted by the reversed domain (`com.example`). */
module Vertices {
  import opened Wrappers
  import opened Text
  import opened Decimal
  import Lexical
  import VertexOffsets

  datatype Vertice = Vertice(id: string, domain: string)

  datatype Error =
    | InvalidLine(line: string, parts: nat)
    | InvalidId(key: string)
    | FetchFailed(reason: string)

  /** `ReverseDomain`: the dot-separated labels in the opposite order, turning
      `example.com` into `com.example` and back. */
  function ReverseDomain(domain: string): string
  {
    Join(Reverse(Split(domain, '.')), '.')
  }

  /** Label `i` of the result is label `n - 1 - i` of the input; the label count and
      the length are unchanged. */
  lemma ReverseDomainLabels(domain: string)
    ensures var labels := Split(domain, '.');
            var result := Split(ReverseDomain(domain), '.');
            && |result| == |labels|
            && (forall i :: 0 <= i < |labels| ==> result[i] == labels[|labels| - 1 - i])
            && |ReverseDomain(domain)| == |domain|
  {
    var labels := Split(domain, '.');
    var reversed := Reverse(labels);
    assert forall i :: 0 <= i < |reversed| ==> '.' !in reversed[i];
    SplitOfJoin(reversed, '.');
    assert Split(ReverseDomain(domain), '.') == reversed;
    JoinLength(labels, '.');
    JoinLength(reversed, '.');
    TotalLengthReverse(labels);
  }

  /** Reversing twice gives the domain back: `com.example` and `example.com` are
      each other's image. */
  lemma ReverseDomainInvolution(domain: string)
    ensures ReverseDomain(ReverseDomain(domain)) == domain
  {
    var labels := Split(domain, '.');
    var reversed := Reverse(labels);
    assert forall i :: 0 <= i < |reversed| ==> '.' !in reversed[i];
    SplitOfJoin(reversed, '.');
    assert Reverse(reversed) == labels;
  }

  lemma ReverseDomainExample()
    ensures ReverseDomain("example.com") == "com.example"
    ensures ReverseDomain("com.example") == "example.com"
  {
    var a, b := "example", "com";
    assert "example.com" == a + ['.'] + b;
    SplitPair(a, b, '.');
    assert Reverse([a, b]) == [b, a];
    assert Join([b, a], '.') == b + ['.'] + Join([a], '.');
    assert b + ['.'] + a == "com.example";
    ReverseDomainInvolution("example.com");
  }

  /** `LoadVertice`: a line of exactly two tab-separated fields, id first. */
  function LoadVertice(line: string): (r: Result<Vertice, Error>)
    ensures r.Success? <==> Count(line, '\t') == 1
    ensures r.Success? ==> line == r.value.id + "\t" + r.value.domain
    ensures r.Success? ==> '\t' !in r.value.id && '\t' !in r.value.domain
    ensures r.Failure? ==> r.error == InvalidLine(line, Count(line, '\t') + 1)
  {
    var parts := Split(line, '\t');
    SplitTwoFields(line, '\t');
    if |parts| != 2 then Failure(InvalidLine(line, |parts|))
    else Success(Vertice(parts[0], parts[1]))
  }

  /** Every two-field line loads back into its fields. */
  lemma LoadVerticeFields(id: string, domain: string)
    requires '\t' !in id && '\t' !in domain
    ensures LoadVertice(id + "\t" + domain) == Success(Vertice(id, domain))
  {
    SplitPair(id, domain, '\t');
  }

  /** The field a lookup compares with its key. */
  datatype SearchKey = ByDomain | ById

  function KeyOf(v: Vertice, field: SearchKey): string
  {
    match field
    case ByDomain => v.domain
    case ById => v.id
  }

  /** Every line of a chunk run through `LoadVertice`. The source loads each line as
      the scanner reaches it; loading is pure, so loading them all up front and
      stopping at the same line gives the same answer. */
  function Parsed(lines: seq<string>): (parsed: seq<Result<Vertice, Error>>)
    ensures |parsed| == |lines|
    ensures forall j :: 0 <= j < |lines| ==> parsed[j] == LoadVertice(lines[j])
  {
    seq(|lines|, j requires 0 <= j < |lines| => LoadVertice(lines[j]))
  }

  /** The line loads and does not carry the key, so the scan goes on past it. */
  predicate PassesOver(p: Result<Vertice, Error>, key: string, field: SearchKey)
  {
    p.Success? && KeyOf(p.value, field) != key
  }

  /** The loop of `findVertice` over loaded lines. */
  function FindIn(parsed: seq<Result<Vertice, Error>>, key: string, field: SearchKey): (r: Result<Option<Vertice>, Error>)
    ensures r == Success(None) <==> forall i :: 0 <= i < |parsed| ==> PassesOver(parsed[i], key, field)
    ensures r.Success? && r.value.Some? ==>
              exists i :: && 0 <= i < |parsed| && parsed[i] == Success(r.value.value)
                          && KeyOf(r.value.value, field) == key
                          && forall j :: 0 <= j < i ==> PassesOver(parsed[j], key, field)
    ensures r.Failure? ==>
              exists i :: && 0 <= i < |parsed| && parsed[i] == Failure(r.error)
                          && forall j :: 0 <= j < i ==> PassesOver(parsed[j], key, field)
  {
    if |parsed| == 0 then Success(None)
    else match parsed[0]
      case Failure(e) => Failure(e)
      case Success(v) =>
        if KeyOf(v, field) == key then Success(Some(v))
        else
          var r := FindIn(parsed[1..], key, field);
          assert forall i :: 0 < i < |parsed| ==> parsed[1..][i - 1] == parsed[i];
          r
  }

  /** `findVertice`: scan the fetched lines for the first vertex whose domain (or id)
      equals `key`. A malformed line reached before a match is an error; no match at
      all gives `None`. */
  function FindVertice(lines: seq<string>, key: string, field: SearchKey): (r: Result<Option<Vertice>, Error>)
    ensures r == Success(None) <==> forall i :: 0 <= i < |lines| ==> PassesOver(LoadVertice(lines[i]), key, field)
    ensures r.Success? && r.value.Some? ==>
              exists i :: && 0 <= i < |lines| && LoadVertice(lines[i]) == Success(r.value.value)
                          && KeyOf(r.value.value, field) == key
                          && forall j :: 0 <= j < i ==> PassesOver(LoadVertice(lines[j]), key, field)
    ensures r.Failure? ==>
              exists i :: && 0 <= i < |lines| && LoadVertice(lines[i]) == Failure(r.error)
                          && forall j :: 0 <= j < i ==> PassesOver(LoadVertice(lines[j]), key, field)
  {
    FindIn(Parsed(lines), key, field)
  }

  /** The chunk fetcher: file name, byte offset and byte count to the lines read.
      It stands for the storage access the source calls through an interface. */
  type Fetcher = (string, int, int) -> Result<seq<string>, Error>

  /** `Vertices.get`: bracket the key in the index, answer from the index when both
      bounds are the same entry, otherwise fetch that chunk and scan it. */
  method Get(index: seq<VertexOffsets.Offset>, key: string, field: SearchKey, fetch: Fetcher)
    returns (r: Result<Option<Vertice>, Error>)
    ensures field == ById && Atoi(key).None? ==> r == Failure(InvalidId(key))
    ensures |index| == 0 && (field == ByDomain || Atoi(key).Some?) ==> r == Success(Some(Vertice("0", "")))
    ensures field == ByDomain && VertexOffsets.WellFormed(index) &&
            (exists i :: 0 <= i < |index| && index[i].domain == key) ==>
              exists i :: 0 <= i < |index| && index[i].domain == key &&
                          r == Success(Some(Vertice(Itoa(index[i].id), key)))
    ensures field == ById && VertexOffsets.WellFormed(index) &&
            (exists i :: 0 <= i < |index| && Atoi(key) == Some(index[i].id)) ==>
              exists i :: 0 <= i < |index| && Atoi(key) == Some(index[i].id) &&
                          r == Success(Some(Vertice(Itoa(index[i].id), index[i].domain)))
    ensures VertexOffsets.WellFormed(index) && r.Success? && r.value.Some? ==>
              match field
              case ByDomain => r.value.value.domain == key
              case ById => Atoi(r.value.value.id) == Atoi(key)
  {
    var from: VertexOffsets.Offset, to: VertexOffsets.Offset;
    match field {
      case ByDomain =>
        from, to := VertexOffsets.FindForDomain(index, key);
        if VertexOffsets.WellFormed(index) {
          // bounds that bracket a missing key differ, so only a hit takes the fast path
          VertexOffsets.WellFormedSorted(index);
          assert VertexOffsets.EntryOk(index, 0) && VertexOffsets.EntryOk(index, |index| - 1);
          Lexical.LessAsymmetric(from.domain, key);
        }
      case ById =>
        var id := Atoi(key);
        if id.None? {
          return Failure(InvalidId(key));
        }
        from, to := VertexOffsets.FindForId(index, id.value);
        if VertexOffsets.WellFormed(index) {
          VertexOffsets.WellFormedSorted(index);
          assert VertexOffsets.EntryOk(index, 0) && VertexOffsets.EntryOk(index, |index| - 1);
        }
        AtoiItoa(id.value);
    }
    if from.domain == to.domain && from.id == to.id && from.offset == to.offset {
      assert |index| == 0 ==> Itoa(from.id) == "0";
      return Success(Some(Vertice(Itoa(from.id), from.domain)));
    }
    var buffer := fetch(from.file, from.offset, to.offset - from.offset);
    if buffer.Failure? {
      return Failure(buffer.error);
    }
    r := FindVertice(buffer.value, key, field);
  }
}
