/**
 * The build-status interpreter `analyze_and_print_image_building_status`
 * (dodo.py, lines 164-204). The engine's build response is a sequence of
 * records, already decoded from JSON; every field may be present or absent,
 * and the interpreter looks at `stream`, then `status`, then `error`.
 * What it prints is a sequence of print calls, each with its own ending.
 */
module BuildStatus {
  import opened Wrappers
  import ByteUnits
  import Strings

  /** The `progressDetail` object; `shown` is how `print` renders it. */
  datatype ProgressDetail = ProgressDetail(current: Option<int>, total: Option<int>, shown: string)

  /** One decoded record; `shown` is how `print(data)` renders the whole record. */
  datatype Record = Record(
    stream: Option<string>,
    status: Option<string>,
    id: Option<string>,
    progressDetail: Option<ProgressDetail>,
    error: Option<string>,
    shown: string)

  /**
   * The interpreter returns a boolean, raises `KeyError` on a progress without
   * total, or passes on the exception of the build response it iterates.
   */
  datatype Outcome = Returned(ok: bool) | RaisedKeyError | StreamRaised

  datatype Trace = Trace(printed: seq<string>, outcome: Outcome)

  /** The float text of a byte count in a unit, left abstract (see ByteUnits). */
  type Magnitude = (int, ByteUnits.Unit) -> string

  /**
   * `construct_loading_progress_string`: the two counts, each with its unit,
   * around a slash. When the first number's text holds no slash, splitting at
   * the first slash gives back the two counts' texts.
   */
  function ProgressString(cur: int, total: int, magnitude: Magnitude): (r: string)
    ensures '/' !in magnitude(cur, ByteUnits.UnitOf(cur)) ==>
      Strings.SplitAtFirst(r, '/') ==
        Some((ByteUnits.HumanReadable(cur, magnitude), ByteUnits.HumanReadable(total, magnitude)))
  {
    var shownCur := ByteUnits.HumanReadable(cur, magnitude);
    var shownTotal := ByteUnits.HumanReadable(total, magnitude);
    if '/' !in magnitude(cur, ByteUnits.UnitOf(cur)) then
      assert '/' !in ByteUnits.UnitLabel(cur);
      assert '/' !in shownCur;
      Strings.SplitAtSeparator(shownCur, '/', shownTotal);
      shownCur + "/" + shownTotal
    else
      shownCur + "/" + shownTotal
  }

  predicate HasCurrent(r: Record)
  {
    r.progressDetail.Some? && r.progressDetail.value.current.Some?
  }

  /** The record reaches the `error` branch: it has an error and neither a stream nor a status. */
  predicate IsErrorRecord(r: Record)
  {
    r.stream.None? && r.status.None? && r.error.Some?
  }

  /** The record reaches the lookup of a missing `total`. */
  predicate RaisesKeyError(r: Record)
  {
    r.stream.None? && r.status.Some? && r.id.Some? && HasCurrent(r) &&
    r.progressDetail.value.total.None?
  }

  predicate Continues(r: Record)
  {
    !IsErrorRecord(r) && !RaisesKeyError(r)
  }

  /**
   * The one print of a record after which the scan goes on: a stream text
   * verbatim, and anything else as one line ending with `print`'s newline; a
   * status with a layer id starts with that id and a colon.
   */
  function Line(r: Record, magnitude: Magnitude): (l: string)
    requires Continues(r)
    ensures r.stream.Some? ==> l == r.stream.value
    ensures r.stream.None? ==> |l| > 0 && l[|l| - 1] == '\n'
    ensures r.stream.None? && r.status.Some? && r.id.Some? ==>
      |l| > |r.id.value| + 2 && l[..|r.id.value| + 2] == r.id.value + ": "
    ensures r.stream.None? && r.status.Some? && r.id.None? ==> l == r.status.value + "\n"
  {
    if r.stream.Some? then r.stream.value
    else if r.status.Some? then
      if r.id.Some? then
        if HasCurrent(r) then
          r.id.value + ": " + r.status.value + " " +
          ProgressString(r.progressDetail.value.current.value, r.progressDetail.value.total.value, magnitude) + "\n"
        else r.id.value + ": " + r.status.value + "\n"
      else r.status.value + "\n"
    else r.shown + "\n"
  }

  /**
   * The behaviour of the interpreter on the records the build response
   * yields, after which the response ends or, when `raisesAtEnd`, raises.
   * One print per record looked at: every record when the scan runs to the
   * end, the records up to the stopping one otherwise.
   */
  function Run(rs: seq<Record>, raisesAtEnd: bool, magnitude: Magnitude): (r: Trace)
    ensures |r.printed| <= |rs|
    ensures r.outcome == Returned(true) || r.outcome == StreamRaised ==> |r.printed| == |rs|
    ensures r.outcome == Returned(false) || r.outcome == RaisedKeyError ==> |r.printed| >= 1
    ensures r.outcome == Returned(true) ==> !raisesAtEnd
    decreases |rs|
  {
    if rs == [] then Trace([], if raisesAtEnd then StreamRaised else Returned(true))
    else if IsErrorRecord(rs[0]) then Trace([rs[0].error.value + "\n"], Returned(false))
    else if RaisesKeyError(rs[0]) then
      Trace(["====== " + rs[0].progressDetail.value.shown + "\n"], RaisedKeyError)
    else
      var rest := Run(rs[1..], raisesAtEnd, magnitude);
      Trace([Line(rs[0], magnitude)] + rest.printed, rest.outcome)
  }

  function After(printed: seq<string>, t: Trace): Trace
  {
    Trace(printed + t.printed, t.outcome)
  }

  /** One record that lets the scan continue contributes its line in front of the rest. */
  lemma RunContinues(rs: seq<Record>, raisesAtEnd: bool, printed: seq<string>, magnitude: Magnitude)
    requires rs != [] && Continues(rs[0])
    ensures After(printed, Run(rs, raisesAtEnd, magnitude)) ==
      After(printed + [Line(rs[0], magnitude)], Run(rs[1..], raisesAtEnd, magnitude))
  {
  }

  /**
   * `analyze_and_print_image_building_status`, as the loop the source runs.
   * The build response yields `records` and then ends, or raises when
   * `raisesAtEnd`.
   */
  method AnalyzeAndPrintImageBuildingStatus(records: seq<Record>, raisesAtEnd: bool, magnitude: Magnitude)
    returns (printed: seq<string>, outcome: Outcome)
    ensures Trace(printed, outcome) == Run(records, raisesAtEnd, magnitude)
  {
    printed := [];
    var i := 0;
    while i < |records|
      invariant 0 <= i <= |records|
      invariant Run(records, raisesAtEnd, magnitude) == After(printed, Run(records[i..], raisesAtEnd, magnitude))
    {
      var data := records[i];
      ghost var before := printed;
      if data.stream.Some? {
        printed := printed + [data.stream.value];
      } else if data.status.Some? {
        var layerStatus := data.status.value;
        if data.id.Some? {
          var layerId := data.id.value;
          if data.progressDetail.Some? && data.progressDetail.value.current.Some? {
            var bytesLoaded := data.progressDetail.value.current.value;
            if data.progressDetail.value.total.None? {
              printed := printed + ["====== " + data.progressDetail.value.shown + "\n"];
              outcome := RaisedKeyError;
              return;
            }
            var totalBytes := data.progressDetail.value.total.value;
            var progress := ProgressString(bytesLoaded, totalBytes, magnitude);
            printed := printed + [layerId + ": " + layerStatus + " " + progress + "\n"];
          } else {
            printed := printed + [layerId + ": " + layerStatus + "\n"];
          }
        } else {
          printed := printed + [layerStatus + "\n"];
        }
      } else if data.error.Some? {
        printed := printed + [data.error.value + "\n"];
        outcome := Returned(false);
        return;
      } else {
        printed := printed + [data.shown + "\n"];
      }
      assert printed == before + [Line(data, magnitude)];
      RunContinues(records[i..], raisesAtEnd, before, magnitude);
      assert records[i..][1..] == records[i + 1..];
      i := i + 1;
    }
    if raisesAtEnd {
      outcome := StreamRaised;
      return;
    }
    outcome := Returned(true);
  }

  /** Without a record that stops the scan, the prints are the records' lines, one each, in order. */
  lemma {:induction false} RunLines(rs: seq<Record>, raisesAtEnd: bool, magnitude: Magnitude)
    requires forall j :: 0 <= j < |rs| ==> Continues(rs[j])
    ensures Run(rs, raisesAtEnd, magnitude).outcome == if raisesAtEnd then StreamRaised else Returned(true)
    ensures |Run(rs, raisesAtEnd, magnitude).printed| == |rs|
    ensures forall i :: 0 <= i < |rs| ==> Run(rs, raisesAtEnd, magnitude).printed[i] == Line(rs[i], magnitude)
  {
    if rs != [] {
      RunLines(rs[1..], raisesAtEnd, magnitude);
      var rest := Run(rs[1..], raisesAtEnd, magnitude);
      assert Run(rs, raisesAtEnd, magnitude).printed == [Line(rs[0], magnitude)] + rest.printed;
      forall i | 1 <= i < |rs| ensures Run(rs, raisesAtEnd, magnitude).printed[i] == Line(rs[i], magnitude) {
        assert rs[1..][i - 1] == rs[i];
      }
    }
  }

  /**
   * Without an error record and without a progress that lacks its total, every
   * record is consumed, the result is true (or the response's own exception
   * when it raises), and exactly one print per record comes out, in input
   * order, rendered by the record's kind.
   */
  lemma {:induction false} RunWithoutStop(rs: seq<Record>, raisesAtEnd: bool, magnitude: Magnitude)
    requires forall j :: 0 <= j < |rs| ==> Continues(rs[j])
    ensures Run(rs, raisesAtEnd, magnitude).outcome == if raisesAtEnd then StreamRaised else Returned(true)
    ensures |Run(rs, raisesAtEnd, magnitude).printed| == |rs|
    ensures forall i :: 0 <= i < |rs| ==> Run(rs, raisesAtEnd, magnitude).printed[i] == Line(rs[i], magnitude)
    ensures forall i :: 0 <= i < |rs| && rs[i].stream.Some? ==>
      Run(rs, raisesAtEnd, magnitude).printed[i] == rs[i].stream.value
    ensures forall i :: (0 <= i < |rs| && rs[i].stream.None? && rs[i].status.Some? && rs[i].id.Some? &&
                         HasCurrent(rs[i]) && rs[i].progressDetail.value.total.Some?) ==>
      Run(rs, raisesAtEnd, magnitude).printed[i] ==
        rs[i].id.value + ": " + rs[i].status.value + " " +
        ByteUnits.HumanReadable(rs[i].progressDetail.value.current.value, magnitude) + "/" +
        ByteUnits.HumanReadable(rs[i].progressDetail.value.total.value, magnitude) + "\n"
    ensures forall i :: 0 <= i < |rs| && rs[i].stream.None? && rs[i].status.Some? && rs[i].id.Some? && !HasCurrent(rs[i]) ==>
      Run(rs, raisesAtEnd, magnitude).printed[i] == rs[i].id.value + ": " + rs[i].status.value + "\n"
    ensures forall i :: 0 <= i < |rs| && rs[i].stream.None? && rs[i].status.Some? && rs[i].id.None? ==>
      Run(rs, raisesAtEnd, magnitude).printed[i] == rs[i].status.value + "\n"
    ensures forall i :: 0 <= i < |rs| && rs[i].stream.None? && rs[i].status.None? ==>
      Run(rs, raisesAtEnd, magnitude).printed[i] == rs[i].shown + "\n"
  {
    RunLines(rs, raisesAtEnd, magnitude);
  }

  /**
   * At the first record that reaches the `error` branch the interpreter prints
   * that error and returns false; the records after it, and an exception the
   * response would raise after them, are never looked at.
   */
  lemma {:induction false} RunStopsAtFirstError(rs: seq<Record>, raisesAtEnd: bool, k: nat, magnitude: Magnitude)
    requires k < |rs| && IsErrorRecord(rs[k])
    requires forall j :: 0 <= j < k ==> Continues(rs[j])
    ensures Run(rs, raisesAtEnd, magnitude).outcome == Returned(false)
    ensures |Run(rs, raisesAtEnd, magnitude).printed| == k + 1
    ensures Run(rs, raisesAtEnd, magnitude).printed[k] == rs[k].error.value + "\n"
    ensures forall j :: 0 <= j < k ==> Run(rs, raisesAtEnd, magnitude).printed[j] == Line(rs[j], magnitude)
    ensures Run(rs, raisesAtEnd, magnitude) == Run(rs[..k + 1], false, magnitude)
  {
    if k > 0 {
      assert rs[1..][k - 1] == rs[k];
      assert rs[..k + 1][1..] == rs[1..][..k];
      RunStopsAtFirstError(rs[1..], raisesAtEnd, k - 1, magnitude);
      forall j | 1 <= j < k ensures Run(rs, raisesAtEnd, magnitude).printed[j] == Line(rs[j], magnitude) {
        assert rs[1..][j - 1] == rs[j];
      }
    }
  }

  /**
   * A progress with `current` but no `total` prints the diagnostic line and
   * raises before anything after it is looked at.
   */
  lemma {:induction false} RunStopsAtMissingTotal(rs: seq<Record>, raisesAtEnd: bool, k: nat, magnitude: Magnitude)
    requires k < |rs| && RaisesKeyError(rs[k])
    requires forall j :: 0 <= j < k ==> Continues(rs[j])
    ensures Run(rs, raisesAtEnd, magnitude).outcome == RaisedKeyError
    ensures |Run(rs, raisesAtEnd, magnitude).printed| == k + 1
    ensures Run(rs, raisesAtEnd, magnitude).printed[k] == "====== " + rs[k].progressDetail.value.shown + "\n"
    ensures forall j :: 0 <= j < k ==> Run(rs, raisesAtEnd, magnitude).printed[j] == Line(rs[j], magnitude)
    ensures Run(rs, raisesAtEnd, magnitude) == Run(rs[..k + 1], false, magnitude)
  {
    if k > 0 {
      assert rs[1..][k - 1] == rs[k];
      assert rs[..k + 1][1..] == rs[1..][..k];
      RunStopsAtMissingTotal(rs[1..], raisesAtEnd, k - 1, magnitude);
      forall j | 1 <= j < k ensures Run(rs, raisesAtEnd, magnitude).printed[j] == Line(rs[j], magnitude) {
        assert rs[1..][j - 1] == rs[j];
      }
    }
  }

  /** The interpreter returns true exactly when no record stops the scan and the response does not raise. */
  lemma {:induction false} ReturnsTrueIffNoStop(rs: seq<Record>, raisesAtEnd: bool, magnitude: Magnitude)
    ensures Run(rs, raisesAtEnd, magnitude).outcome == Returned(true) <==>
      !raisesAtEnd && forall j :: 0 <= j < |rs| ==> Continues(rs[j])
  {
    if rs != [] {
      ReturnsTrueIffNoStop(rs[1..], raisesAtEnd, magnitude);
      if Continues(rs[0]) {
        assert forall j :: 1 <= j < |rs| ==> rs[1..][j - 1] == rs[j];
      }
    }
  }

  /**
   * The interpreter returns false exactly when an error record comes before
   * any record that stops the scan otherwise.
   */
  lemma {:induction false} ReturnsFalseIffErrorFirst(rs: seq<Record>, raisesAtEnd: bool, magnitude: Magnitude)
    ensures Run(rs, raisesAtEnd, magnitude).outcome == Returned(false) <==>
      exists k :: 0 <= k < |rs| && IsErrorRecord(rs[k]) && forall j :: 0 <= j < k ==> Continues(rs[j])
  {
    if rs != [] {
      ReturnsFalseIffErrorFirst(rs[1..], raisesAtEnd, magnitude);
      if IsErrorRecord(rs[0]) {
      } else if RaisesKeyError(rs[0]) {
        assert Run(rs, raisesAtEnd, magnitude).outcome == RaisedKeyError;
      } else if Run(rs, raisesAtEnd, magnitude).outcome == Returned(false) {
        var k :| 0 <= k < |rs[1..]| && IsErrorRecord(rs[1..][k]) &&
          forall j :: 0 <= j < k ==> Continues(rs[1..][j]);
        assert IsErrorRecord(rs[k + 1]);
        assert forall j :: 0 <= j < k + 1 ==> Continues(rs[j]) by {
          forall j | 0 <= j < k + 1 ensures Continues(rs[j]) {
            if j > 0 {
              assert rs[1..][j - 1] == rs[j];
            }
          }
        }
      }
    }
  }

  /** The scenario of a build that succeeds: a log line, then a layer status. */
  lemma SuccessfulBuildExample(magnitude: Magnitude)
    ensures var rs := [
        Record(Some("step 1\n"), None, None, None, None, "{'stream': 'step 1\\n'}"),
        Record(None, Some("Pull complete"), Some("abc123"), None, None, "")];
      Run(rs, false, magnitude) == Trace(["step 1\n", "abc123: Pull complete\n"], Returned(true))
  {
    var rs := [
        Record(Some("step 1\n"), None, None, None, None, "{'stream': 'step 1\\n'}"),
        Record(None, Some("Pull complete"), Some("abc123"), None, None, "")];
    assert Line(rs[0], magnitude) == "step 1\n";
    assert Line(rs[1], magnitude) == "abc123: Pull complete\n";
    assert rs[1..][1..] == [];
    assert Run(rs[1..][1..], false, magnitude) == Trace([], Returned(true));
    assert Run(rs[1..], false, magnitude) == Trace(["abc123: Pull complete\n"], Returned(true));
  }
}
