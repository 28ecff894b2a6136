/** The hub counter (cmd/biggest/main.go): one pass over an edges file sorted by
    source id, adding to a map the size of every run of lines with the same source
    id that is large enough. The loop keeps the id of the run it is in and a counter
    that starts at 0 on the run's first line, so a finished run of `n` lines has
    counter `n - 1`. */
module Biggest {
  import opened Wrappers
  import opened Text
  import Edges

  /** `savingTrashload`: a run is recorded only when its counter exceeds this. */
  const SavingThreshold: nat := 10_000

  /** Go's `m[k]` on a `map[string]int`: the zero value for a missing key. */
  function Lookup(m: map<string, int>, k: string): int
  {
    if k in m then m[k] else 0
  }

  /** The loop variables of `processOneEdgesFile` and the map it adds to. */
  datatype State = State(id: string, counter: nat, biggest: map<string, int>)

  /** One iteration, for a line whose source id is `from`. */
  function Step(s: State, from: string): State
  {
    if s.id == "" then State(from, s.counter, s.biggest)
    else if from == s.id then State(s.id, s.counter + 1, s.biggest)
    else
      var biggest := if s.counter > SavingThreshold then s.biggest[s.id := Lookup(s.biggest, s.id) + s.counter]
                     else s.biggest;
      State(from, 0, biggest)
  }

  /** The loop over the source ids of a file, from the state before the first line. */
  function Scan(s: State, froms: seq<string>): State
  {
    if |froms| == 0 then s else Step(Scan(s, froms[..|froms| - 1]), froms[|froms| - 1])
  }

  /** The source ids of the loaded lines, in order. */
  function FromIds(edges: seq<Edges.Edge>): (froms: seq<string>)
    ensures |froms| == |edges|
    ensures forall j :: 0 <= j < |edges| ==> froms[j] == edges[j].fromId
  {
    seq(|edges|, j requires 0 <= j < |edges| => edges[j].fromId)
  }

  /** `processOneEdgesFile`: a malformed line is an error; otherwise the map with
      the runs of this file added. */
  function ProcessEdgesFile(lines: seq<string>, biggest: map<string, int>): Result<map<string, int>, Edges.Error>
  {
    var edges :- ParseLines(lines, Edges.LoadEdge);
    Success(Scan(State("", 0, biggest), FromIds(edges)).biggest)
  }

  /** A maximal run of equal source ids: the id and the number of lines. */
  datatype Run = Run(id: string, len: nat)

  function Repeat(x: string, n: nat): (r: seq<string>)
    ensures |r| == n
    ensures forall j :: 0 <= j < n ==> r[j] == x
  {
    seq(n, j requires 0 <= j < n => x)
  }

  /** The ids spelled out by a list of runs. */
  function Expand(runs: seq<Run>): seq<string>
  {
    if |runs| == 0 then [] else Expand(runs[..|runs| - 1]) + Repeat(runs[|runs| - 1].id, runs[|runs| - 1].len)
  }

  /** The runs of `froms + [x]`, given the runs of `froms`: `x` lengthens the last
      run when it has the same id and starts a new run otherwise. */
  function Extend(runs: seq<Run>, x: string): seq<Run>
  {
    if |runs| > 0 && runs[|runs| - 1].id == x then runs[..|runs| - 1] + [Run(x, runs[|runs| - 1].len + 1)]
    else runs + [Run(x, 1)]
  }

  /** The run-length encoding of a sequence of ids. */
  function RunLengths(froms: seq<string>): seq<Run>
  {
    if |froms| == 0 then [] else Extend(RunLengths(froms[..|froms| - 1]), froms[|froms| - 1])
  }

  /** Runs are non-empty, there is one exactly when there is an id, and the last run
      carries the last id. */
  lemma {:induction false} RunLengthsShape(froms: seq<string>)
    ensures var runs := RunLengths(froms);
            && (|runs| == 0 <==> |froms| == 0)
            && (forall q :: 0 <= q < |runs| ==> runs[q].len >= 1)
            && (|runs| > 0 ==> runs[|runs| - 1].id == froms[|froms| - 1])
    decreases |froms|
  {
    if |froms| > 0 {
      RunLengthsShape(froms[..|froms| - 1]);
    }
  }

  lemma ExpandSnoc(runs: seq<Run>, run: Run)
    ensures Expand(runs + [run]) == Expand(runs) + Repeat(run.id, run.len)
  {
    assert (runs + [run])[..|runs|] == runs;
  }

  /** Adding an id to the runs adds it to what they spell. */
  lemma ExpandExtend(runs: seq<Run>, x: string)
    ensures Expand(Extend(runs, x)) == Expand(runs) + [x]
  {
    if |runs| > 0 && runs[|runs| - 1].id == x {
      var init := runs[..|runs| - 1];
      var last := runs[|runs| - 1];
      assert runs == init + [last];
      ExpandSnoc(init, last);
      ExpandSnoc(init, Run(x, last.len + 1));
      assert Repeat(x, last.len + 1) == Repeat(x, last.len) + [x];
    } else {
      ExpandSnoc(runs, Run(x, 1));
      assert Repeat(x, 1) == [x];
    }
  }

  /** One induction step of `RunLengthsExpand`, kept apart from `RunLengths`. */
  lemma ExpandStep(froms: seq<string>, runs: seq<Run>)
    requires |froms| > 0 && Expand(runs) == froms[..|froms| - 1]
    ensures Expand(Extend(runs, froms[|froms| - 1])) == froms
  {
    ExpandExtend(runs, froms[|froms| - 1]);
    assert froms == froms[..|froms| - 1] + [froms[|froms| - 1]];
  }

  /** The runs spell the ids out again. */
  lemma {:induction false} RunLengthsExpand(froms: seq<string>)
    ensures Expand(RunLengths(froms)) == froms
    decreases |froms|
  {
    if |froms| > 0 {
      RunLengthsExpand(froms[..|froms| - 1]);
      ExpandStep(froms, RunLengths(froms[..|froms| - 1]));
    }
  }

  /** Neighbouring runs have different ids. */
  predicate Maximal(runs: seq<Run>)
  {
    forall q :: 0 <= q < |runs| - 1 ==> runs[q].id != runs[q + 1].id
  }

  /** The runs are maximal. */
  lemma {:induction false} RunLengthsMaximal(froms: seq<string>)
    ensures Maximal(RunLengths(froms))
    decreases |froms|
  {
    if |froms| > 0 {
      var x := froms[|froms| - 1];
      var rs := RunLengths(froms[..|froms| - 1]);
      RunLengthsMaximal(froms[..|froms| - 1]);
      var runs := RunLengths(froms);
      var merge := |rs| > 0 && rs[|rs| - 1].id == x;
      assert merge ==> runs == rs[..|rs| - 1] + [Run(x, rs[|rs| - 1].len + 1)];
      assert !merge ==> runs == rs + [Run(x, 1)];
      forall q | 0 <= q < |runs| - 1
        ensures runs[q].id != runs[q + 1].id
      {
        assert runs[q] == rs[q];
        if merge || q + 1 < |rs| {
          assert runs[q + 1].id == rs[q + 1].id;
        }
      }
    }
  }

  /** The runs the loop has finished: all but the last, which nothing flushes. */
  function Closed(runs: seq<Run>): seq<Run>
  {
    if |runs| == 0 then [] else runs[..|runs| - 1]
  }

  /** A finished run is recorded when it has a non-empty id and its counter, one
      less than its length, exceeds the threshold. */
  predicate Qualifies(run: Run)
  {
    run.id != "" && run.len > SavingThreshold + 1
  }

  /** `biggest[id] += counter` for a qualifying run. */
  function Credit(m: map<string, int>, run: Run): map<string, int>
  {
    if Qualifies(run) then m[run.id := Lookup(m, run.id) + run.len - 1] else m
  }

  /** The reference answer: the finished runs credited in order. */
  function Tally(m: map<string, int>, runs: seq<Run>): map<string, int>
  {
    if |runs| == 0 then m else Credit(Tally(m, runs[..|runs| - 1]), runs[|runs| - 1])
  }

  /** The loop state `s` after ids whose runs are `runs`: it holds the id and the
      counter of the last run (an empty id never counts), and the map has the
      finished runs credited. */
  predicate Summarises(s: State, m: map<string, int>, runs: seq<Run>)
  {
    && |runs| > 0 && runs[|runs| - 1].len >= 1
    && var last := runs[|runs| - 1];
       s == State(last.id, if last.id == "" then 0 else last.len - 1, Tally(m, Closed(runs)))
  }

  /** An id equal to the current run's lengthens it; the counter goes up unless the
      id is empty. */
  lemma StepSameRun(s: State, m: map<string, int>, runs: seq<Run>, x: string)
    requires Summarises(s, m, runs) && runs[|runs| - 1].id == x
    ensures Summarises(Step(s, x), m, Extend(runs, x))
  {
    var last := runs[|runs| - 1];
    var next := Extend(runs, x);
    assert next == runs[..|runs| - 1] + [Run(x, last.len + 1)];
    assert Closed(next) == Closed(runs);
  }

  /** A different id closes the current run, which is credited if it qualifies. */
  lemma StepNewRun(s: State, m: map<string, int>, runs: seq<Run>, x: string)
    requires Summarises(s, m, runs) && runs[|runs| - 1].id != x
    ensures Summarises(Step(s, x), m, Extend(runs, x))
  {
    var last := runs[|runs| - 1];
    var next := Extend(runs, x);
    assert next == runs + [Run(x, 1)];
    assert Closed(next) == runs;
    assert runs == Closed(runs) + [last];
    assert Tally(m, runs) == Credit(Tally(m, Closed(runs)), last);
  }

  /** The loop state after the ids `froms`, in terms of their runs. */
  lemma {:induction false} ScanRuns(m: map<string, int>, froms: seq<string>)
    requires |froms| > 0
    ensures Summarises(Scan(State("", 0, m), froms), m, RunLengths(froms))
    decreases |froms|
  {
    var n := |froms|;
    var x := froms[n - 1];
    var init := froms[..n - 1];
    if n == 1 {
      assert RunLengths(init) == [];
      assert RunLengths(froms) == [Run(x, 1)];
    } else {
      ScanRuns(m, init);
      var s := Scan(State("", 0, m), init);
      var rs := RunLengths(init);
      if rs[|rs| - 1].id == x {
        StepSameRun(s, m, rs, x);
      } else {
        StepNewRun(s, m, rs, x);
      }
    }
  }

  /** A file whose lines all load leaves the map with the finished runs of its
      source ids credited, in file order; the last run is not credited. */
  lemma ProcessEdgesFileMeaning(lines: seq<string>, m: map<string, int>)
    ensures ProcessEdgesFile(lines, m).Success? <==>
              forall j :: 0 <= j < |lines| ==> Edges.LoadEdge(lines[j]).Success?
    ensures ProcessEdgesFile(lines, m).Success? ==>
              var edges := ParseLines(lines, Edges.LoadEdge).value;
              ProcessEdgesFile(lines, m).value == Tally(m, Closed(RunLengths(FromIds(edges))))
  {
    var parsed := ParseLines(lines, Edges.LoadEdge);
    if parsed.Success? {
      var froms := FromIds(parsed.value);
      if |froms| > 0 {
        ScanRuns(m, froms);
      }
    }
  }

  /** The total credited to `k` by the qualifying runs with that id. */
  function Credits(runs: seq<Run>, k: string): nat
  {
    if |runs| == 0 then 0
    else
      var run := runs[|runs| - 1];
      Credits(runs[..|runs| - 1], k) + (if Qualifies(run) && run.id == k then run.len - 1 else 0)
  }

  /** Crediting adds to each key exactly what its qualifying runs contribute, and a
      key appears only if it was there already or some qualifying run has it. */
  lemma {:induction false} TallyValue(m: map<string, int>, runs: seq<Run>, k: string)
    ensures Lookup(Tally(m, runs), k) == Lookup(m, k) + Credits(runs, k)
    ensures k in Tally(m, runs) <==>
              k in m || exists q :: 0 <= q < |runs| && Qualifies(runs[q]) && runs[q].id == k
    decreases |runs|
  {
    if |runs| > 0 {
      var init := runs[..|runs| - 1];
      TallyValue(m, init, k);
      assert forall q :: 0 <= q < |init| ==> init[q] == runs[q];
      if exists q :: 0 <= q < |runs| && Qualifies(runs[q]) && runs[q].id == k {
        var q :| 0 <= q < |runs| && Qualifies(runs[q]) && runs[q].id == k;
        if q < |init| {
          assert Qualifies(init[q]) && init[q].id == k;
        }
      }
    }
  }

  /** `+=` of non-negative counters: no existing value decreases, and keys that no
      qualifying run carries keep their value (or stay absent). */
  lemma TallyGrows(m: map<string, int>, runs: seq<Run>, k: string)
    ensures k in m ==> k in Tally(m, runs) && Tally(m, runs)[k] >= m[k]
    ensures (forall q :: 0 <= q < |runs| ==> !(Qualifies(runs[q]) && runs[q].id == k)) ==>
              (k in Tally(m, runs) <==> k in m) && Lookup(Tally(m, runs), k) == Lookup(m, k)
  {
    TallyValue(m, runs, k);
    if forall q :: 0 <= q < |runs| ==> !(Qualifies(runs[q]) && runs[q].id == k) {
      NoCredits(runs, k);
    }
  }

  lemma {:induction false} NoCredits(runs: seq<Run>, k: string)
    requires forall q :: 0 <= q < |runs| ==> !(Qualifies(runs[q]) && runs[q].id == k)
    ensures Credits(runs, k) == 0
    decreases |runs|
  {
    if |runs| > 0 {
      var init := runs[..|runs| - 1];
      assert forall q :: 0 <= q < |init| ==> init[q] == runs[q];
      NoCredits(init, k);
    }
  }

  lemma {:induction false} RepeatRuns(x: string, n: nat)
    requires n >= 1
    ensures RunLengths(Repeat(x, n)) == [Run(x, n)]
    decreases n
  {
    if n == 1 {
      assert Repeat(x, n)[..0] == [];
    } else {
      assert Repeat(x, n)[..n - 1] == Repeat(x, n - 1);
      RepeatRuns(x, n - 1);
    }
  }

  /** A file that is one run (all lines with the same source id) changes nothing:
      the run is never flushed. */
  lemma SingleRunAddsNothing(m: map<string, int>, x: string, n: nat)
    ensures Scan(State("", 0, m), Repeat(x, n)).biggest == m
  {
    if n > 0 {
      RepeatRuns(x, n);
      ScanRuns(m, Repeat(x, n));
    }
  }

  lemma RepeatThenRuns(x: string, n: nat, y: string)
    requires n >= 1 && x != y
    ensures RunLengths(Repeat(x, n) + [y]) == [Run(x, n), Run(y, 1)]
  {
    var froms := Repeat(x, n) + [y];
    assert froms[..|froms| - 1] == Repeat(x, n);
    RepeatRuns(x, n);
  }

  /** A run of `n` lines followed by a line with another id is credited `n - 1`
      exactly when that exceeds the threshold. */
  lemma RunThenOther(m: map<string, int>, x: string, n: nat, y: string)
    requires n >= 1 && x != y
    ensures Scan(State("", 0, m), Repeat(x, n) + [y]).biggest ==
              if x != "" && n - 1 > SavingThreshold then m[x := Lookup(m, x) + n - 1] else m
  {
    var runs := [Run(x, n), Run(y, 1)];
    RepeatThenRuns(x, n, y);
    ScanRuns(m, Repeat(x, n) + [y]);
    assert Closed(runs) == [Run(x, n)];
    assert Tally(m, [Run(x, n)]) == Credit(Tally(m, []), Run(x, n));
  }
}
