/** The edge reverser (data/reverse.py): every line of an edges file, as read with
    its newline, is stripped of surrounding whitespace and split on tabs; a line of
    exactly two fields is written back with the fields swapped, any other line is
    written unchanged. */
module Reverse {
  import opened Text

  /** The loop body for one line, terminator included. */
  function ReverseLine(line: string): string
  {
    var parts := Split(Strip(line), '\t');
    if |parts| == 2 then parts[1] + "\t" + parts[0] + "\n" else line
  }

  /** A line whose stripped text is two tab-free fields `a`, `b` becomes `b \t a`
      with a newline; every other line passes through unchanged. */
  lemma ReverseLineMeaning(line: string)
    ensures Count(Strip(line), '\t') == 1 ==>
              exists a: string, b: string :: && '\t' !in a && '\t' !in b
                                             && Strip(line) == a + "\t" + b
                                             && ReverseLine(line) == b + "\t" + a + "\n"
    ensures Count(Strip(line), '\t') != 1 ==> ReverseLine(line) == line
  {
    var parts := Split(Strip(line), '\t');
    SplitTwoFields(Strip(line), '\t');
    if |parts| == 2 {
      assert parts[0] + "\t" + parts[1] == parts[0] + ['\t'] + parts[1];
    }
  }

  /** The fields of a line as the reverser sees them: `a \t b` and a newline. */
  predicate Field(s: string)
  {
    |s| > 0 && '\t' !in s && !IsSpace(s[0]) && !IsSpace(s[|s| - 1])
  }

  /** Whitespace around two clean fields is stripped before the split: a leading
      tab does not make a third field, trailing spaces do not join the second. */
  lemma ReverseSurrounded(pre: string, a: string, b: string, post: string)
    requires forall k :: 0 <= k < |pre| ==> IsSpace(pre[k])
    requires forall k :: 0 <= k < |post| ==> IsSpace(post[k])
    requires Field(a) && Field(b)
    ensures ReverseLine(pre + a + "\t" + b + post) == b + "\t" + a + "\n"
  {
    var s := a + "\t" + b;
    assert pre + a + "\t" + b + post == pre + s + post;
    assert s[0] == a[0] && s[|s| - 1] == b[|b| - 1];
    StripAround(pre, s, post);
    assert s == a + ['\t'] + b;
    SplitPair(a, b, '\t');
  }

  /** One pass swaps a clean two-field line. */
  lemma ReverseSwaps(a: string, b: string)
    requires Field(a) && Field(b)
    ensures ReverseLine(a + "\t" + b + "\n") == b + "\t" + a + "\n"
  {
    assert a + "\t" + b + "\n" == "" + a + "\t" + b + "\n";
    ReverseSurrounded("", a, b, "\n");
  }

  lemma SplitThree(a: string, b: string, c: string)
    requires '\t' !in a && '\t' !in b && '\t' !in c
    ensures Split(a + "\t" + b + "\t" + c, '\t') == [a, b, c]
  {
    assert [a, b, c][1..] == [b, c] && [b, c][1..] == [c];
    assert Join([b, c], '\t') == b + ['\t'] + c;
    assert Join([a, b, c], '\t') == a + ['\t'] + (b + ['\t'] + c);
    assert Join([a, b, c], '\t') == a + "\t" + b + "\t" + c;
    SplitOfJoin([a, b, c], '\t');
  }

  lemma StripThree(a: string, b: string, c: string)
    requires Field(a) && Field(c)
    ensures Strip(a + "\t" + b + "\t" + c + "\n") == a + "\t" + b + "\t" + c
  {
    var s := a + "\t" + b + "\t" + c;
    assert a + "\t" + b + "\t" + c + "\n" == "" + s + "\n";
    assert s[0] == a[0] && s[|s| - 1] == c[|c| - 1];
    StripAround("", s, "\n");
  }

  /** A clean line of three fields is written as it was read. */
  lemma ReverseThreeFields(a: string, b: string, c: string)
    requires Field(a) && Field(b) && Field(c)
    ensures ReverseLine(a + "\t" + b + "\t" + c + "\n") == a + "\t" + b + "\t" + c + "\n"
  {
    StripThree(a, b, c);
    SplitThree(a, b, c);
  }

  /** A clean line of one field is written as it was read. */
  lemma ReverseOneField(a: string)
    requires Field(a)
    ensures ReverseLine(a + "\n") == a + "\n"
  {
    assert a + "\n" == "" + a + "\n";
    StripAround("", a, "\n");
    assert Join([a], '\t') == a;
    SplitOfJoin([a], '\t');
  }

  /** Reversing twice gives a clean two-field line back. */
  lemma ReverseTwice(a: string, b: string)
    requires Field(a) && Field(b)
    ensures ReverseLine(ReverseLine(a + "\t" + b + "\n")) == a + "\t" + b + "\n"
  {
    ReverseSwaps(a, b);
    ReverseSwaps(b, a);
  }

  /** The whole file: one output line per input line. */
  function ReverseFile(lines: seq<string>): (out: seq<string>)
    ensures |out| == |lines|
    ensures forall i :: 0 <= i < |lines| ==> out[i] == ReverseLine(lines[i])
  {
    seq(|lines|, i requires 0 <= i < |lines| => ReverseLine(lines[i]))
  }

  /** A file of clean two-field lines is restored by reversing it twice. */
  lemma ReverseFileTwice(lines: seq<string>, froms: seq<string>, tos: seq<string>)
    requires |froms| == |lines| == |tos|
    requires forall i :: 0 <= i < |lines| ==> Field(froms[i]) && Field(tos[i]) && lines[i] == froms[i] + "\t" + tos[i] + "\n"
    ensures ReverseFile(ReverseFile(lines)) == lines
  {
    forall i | 0 <= i < |lines|
      ensures ReverseFile(ReverseFile(lines))[i] == lines[i]
    {
      ReverseTwice(froms[i], tos[i]);
    }
  }
}
