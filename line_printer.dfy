/**
 * `print_text` (dodo.py, lines 207-217): the container's log arrives as byte
 * chunks; they are collected in a buffer that is printed and emptied whenever
 * it ends with a newline, and the rest is printed with a newline at the end.
 * Bytes and characters are the same thing here (the UTF-8 decoding is left out).
 */
module LinePrinter {
  import opened Strings

  /** What the log generator yields: some chunks, then the end or an exception. */
  datatype Chunks = Chunks(chunks: seq<string>, raisesAtEnd: bool)

  /**
   * `print_text` completes, fails on `line[-1]` of an empty buffer (an empty
   * chunk while the buffer is empty), or passes on the generator's exception.
   */
  datatype PrintOutcome = Completed | IndexErrorRaised | GeneratorRaised

  /** The print calls made, in order, and how `print_text` ended. */
  datatype Printed = Printed(calls: seq<string>, outcome: PrintOutcome)

  /** Text that is empty or ends with a newline leaves nothing in the buffer. */
  predicate EndsLine(t: string)
  {
    t == [] || t[|t| - 1] == '\n'
  }

  function Prepend(calls: seq<string>, p: Printed): Printed
  {
    Printed(calls + p.calls, p.outcome)
  }

  /**
   * What the loop does from a buffer `line` on with the chunks still to come:
   * at most one print per chunk and one for the final flush, and the
   * generator's exception, when it comes, is passed on.
   */
  function Feed(line: string, chunks: seq<string>, raisesAtEnd: bool): (r: Printed)
    ensures |r.calls| <= |chunks| + 1
    ensures raisesAtEnd ==> r.outcome != Completed
    ensures !raisesAtEnd ==> r.outcome != GeneratorRaised
    decreases |chunks|
  {
    if chunks == [] then
      if raisesAtEnd then Printed([], GeneratorRaised)
      else if line != [] then Printed([line + "\n"], Completed)
      else Printed([], Completed)
    else
      var extended := line + chunks[0];
      if extended == [] then Printed([], IndexErrorRaised)
      else if extended[|extended| - 1] == '\n' then Prepend([extended], Feed([], chunks[1..], raisesAtEnd))
      else Feed(extended, chunks[1..], raisesAtEnd)
  }

  /**
   * `print_text` on a whole log stream: it completes unless the stream raises
   * or an empty chunk meets an empty buffer, and it makes at most one print
   * per chunk plus the final one.
   */
  function PrintTextModel(gen: Chunks): (r: Printed)
    ensures |r.calls| <= |gen.chunks| + 1
    ensures r.outcome == Completed <==> !gen.raisesAtEnd && r.outcome != IndexErrorRaised
  {
    Feed([], gen.chunks, gen.raisesAtEnd)
  }

  /** `print_text`, as the loop the source runs. */
  method PrintText(gen: Chunks) returns (calls: seq<string>, outcome: PrintOutcome)
    ensures Printed(calls, outcome) == PrintTextModel(gen)
  {
    var line: string := [];
    calls := [];
    var i := 0;
    while i < |gen.chunks|
      invariant 0 <= i <= |gen.chunks|
      invariant PrintTextModel(gen) == Prepend(calls, Feed(line, gen.chunks[i..], gen.raisesAtEnd))
    {
      assert gen.chunks[i..][1..] == gen.chunks[i + 1..];
      line := line + gen.chunks[i];
      if |line| == 0 {
        outcome := IndexErrorRaised;
        return;
      }
      if line[|line| - 1] == '\n' {
        calls := calls + [line];
        line := [];
      }
      i := i + 1;
    }
    if gen.raisesAtEnd {
      outcome := GeneratorRaised;
      return;
    }
    if line != [] {
      calls := calls + [line + "\n"];
    }
    outcome := Completed;
  }

  /** Every print call is a whole line: non-empty and ending with a newline. */
  predicate AllLines(calls: seq<string>)
  {
    forall i :: 0 <= i < |calls| ==> calls[i] != [] && calls[i][|calls[i]| - 1] == '\n'
  }

  lemma {:induction false} FeedPrintsLines(line: string, chunks: seq<string>, raisesAtEnd: bool)
    decreases |chunks|
    ensures AllLines(Feed(line, chunks, raisesAtEnd).calls)
  {
    if chunks != [] {
      var extended := line + chunks[0];
      if extended == [] {
      } else if extended[|extended| - 1] == '\n' {
        FeedPrintsLines([], chunks[1..], raisesAtEnd);
        var rest := Feed([], chunks[1..], raisesAtEnd).calls;
        assert Feed(line, chunks, raisesAtEnd).calls == [extended] + rest;
        forall i | 0 <= i < |rest| + 1
          ensures ([extended] + rest)[i] != [] && ([extended] + rest)[i][|([extended] + rest)[i]| - 1] == '\n'
        {
          if i > 0 {
            assert ([extended] + rest)[i] == rest[i - 1];
          }
        }
      } else {
        FeedPrintsLines(extended, chunks[1..], raisesAtEnd);
      }
    }
  }

  /**
   * From a buffer that does not end with a newline: on completion the printed
   * text is the buffer and all chunks, plus one newline exactly when that
   * text does not already end a line; on an exception the printed text is a
   * prefix of it that ends a line.
   */
  lemma {:induction false} FeedOutput(line: string, chunks: seq<string>, raisesAtEnd: bool)
    requires !EndsLine(line) || line == []
    decreases |chunks|
    ensures var p := Feed(line, chunks, raisesAtEnd);
      var all := line + Flatten(chunks);
      (p.outcome == Completed ==> Flatten(p.calls) == all + (if EndsLine(all) then "" else "\n")) &&
      (p.outcome != Completed ==> Flatten(p.calls) <= all && EndsLine(Flatten(p.calls)))
  {
    if chunks != [] {
      var extended := line + chunks[0];
      var tail := Flatten(chunks[1..]);
      assert line + Flatten(chunks) == extended + tail;
      if extended == [] {
      } else if extended[|extended| - 1] == '\n' {
        FeedOutput([], chunks[1..], raisesAtEnd);
        var rest := Feed([], chunks[1..], raisesAtEnd);
        FlattenAppend([extended], rest.calls);
        assert Flatten([extended]) == extended;
        assert [] + tail == tail;
        PrefixExtends(extended, Flatten(rest.calls), tail);
      } else {
        FeedOutput(extended, chunks[1..], raisesAtEnd);
      }
    } else {
      assert Flatten([line + "\n"]) == line + "\n";
    }
  }

  /** Putting the same text in front keeps prefixes, and a newline-ended text keeps line ends. */
  lemma PrefixExtends(head: string, a: string, b: string)
    requires head != [] && head[|head| - 1] == '\n'
    ensures a <= b ==> head + a <= head + b
    ensures EndsLine(head + a) <==> EndsLine(a)
    ensures (head + b) + (if EndsLine(head + b) then "" else "\n") ==
            head + (b + (if EndsLine(b) then "" else "\n"))
  {
    if a <= b {
      assert (head + b)[..|head + a|] == head + a;
    }
  }

  /**
   * `print_text` writes out everything it received, and one newline more
   * exactly when the last chunk left a partial line in the buffer.
   */
  lemma PrintTextOutput(gen: Chunks)
    ensures var p := PrintTextModel(gen);
      var all := Flatten(gen.chunks);
      AllLines(p.calls) &&
      (p.outcome == Completed ==> Flatten(p.calls) == all + (if EndsLine(all) then "" else "\n")) &&
      (p.outcome != Completed ==> Flatten(p.calls) <= all && EndsLine(Flatten(p.calls)))
  {
    FeedPrintsLines([], gen.chunks, gen.raisesAtEnd);
    FeedOutput([], gen.chunks, gen.raisesAtEnd);
    assert [] + Flatten(gen.chunks) == Flatten(gen.chunks);
  }

  /**
   * The `line[-1]` lookup fails exactly when an empty chunk arrives while the
   * buffer is empty, that is when everything received before it ends a line.
   */
  lemma {:induction false} FeedIndexError(line: string, chunks: seq<string>, raisesAtEnd: bool)
    requires !EndsLine(line) || line == []
    decreases |chunks|
    ensures Feed(line, chunks, raisesAtEnd).outcome == IndexErrorRaised <==>
      exists k :: 0 <= k < |chunks| && chunks[k] == [] && EndsLine(line + Flatten(chunks[..k]))
  {
    if chunks != [] {
      var extended := line + chunks[0];
      var rest := chunks[1..];
      assert line + Flatten(chunks[..0]) == line;
      forall k | 0 <= k < |rest|
        ensures line + Flatten(chunks[..k + 1]) == extended + Flatten(rest[..k])
      {
        assert chunks[..k + 1] == [chunks[0]] + rest[..k];
      }
      if extended == [] {
        assert chunks[0] == [] && EndsLine(line + Flatten(chunks[..0]));
      } else {
        var next := if extended[|extended| - 1] == '\n' then [] else extended;
        FeedIndexError(next, rest, raisesAtEnd);
        assert Feed(line, chunks, raisesAtEnd).outcome == Feed(next, rest, raisesAtEnd).outcome;
        forall k | 0 <= k < |rest|
          ensures EndsLine(extended + Flatten(rest[..k])) <==> EndsLine(next + Flatten(rest[..k]))
        {
        }
        assert !(chunks[0] == [] && EndsLine(line));
        if Feed(line, chunks, raisesAtEnd).outcome == IndexErrorRaised {
          var k :| 0 <= k < |rest| && rest[k] == [] && EndsLine(next + Flatten(rest[..k]));
          assert chunks[k + 1] == [] && EndsLine(line + Flatten(chunks[..k + 1]));
        }
      }
    }
  }

  lemma PrintTextIndexError(gen: Chunks)
    ensures PrintTextModel(gen).outcome == IndexErrorRaised <==>
      exists k :: 0 <= k < |gen.chunks| && gen.chunks[k] == [] && EndsLine(Flatten(gen.chunks[..k]))
  {
    FeedIndexError([], gen.chunks, gen.raisesAtEnd);
    forall k | 0 <= k < |gen.chunks| ensures [] + Flatten(gen.chunks[..k]) == Flatten(gen.chunks[..k]) {
    }
  }
}
