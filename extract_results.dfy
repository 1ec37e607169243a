/** `extract_results.py`: read the per-epoch target-validation accuracies out
    of a training log and summarise the last epochs. The log is an input (its
    lines, or `None` when the file does not exist), and so is the per-line
    pattern match. Accuracies are integers standing for the logged decimal
    numbers; only their order is used. */
module ExtractResults {
  import opened Wrappers

  /** What line 29's regular expression and the conversions of lines 31-32
      make of one line: no match, a match (epoch and accuracy), or a match
      whose accuracy text (`[\d.]+`, such as "1.2.3") `float` rejects. */
  datatype LineMatch = NoMatch | Hit(epoch: nat, acc: int) | BadNumber

  type Matcher = string -> LineMatch

  /** The dictionary `{'epochs': ..., 'target_val_accs': ...}`. */
  datatype Accs = Accs(epochs: seq<nat>, targetValAccs: seq<int>)

  /** What `extract_accuracies_from_log` gives: `None` for a missing file,
      the two lists, or the `ValueError` raised on line `line`. */
  datatype Extracted = NoLog | Parsed(accs: Accs) | Raised(line: nat)

  /** Lines 24-34 over `lines`. */
  function ParseLines(lines: seq<string>, matcher: Matcher): (r: Extracted)
    ensures !r.NoLog?
    ensures r.Parsed? ==> |r.accs.epochs| == |r.accs.targetValAccs| <= |lines|
    ensures r.Raised? ==> r.line < |lines|
  {
    if lines == [] then Parsed(Accs([], []))
    else
      var before := ParseLines(lines[..|lines| - 1], matcher);
      if !before.Parsed? then before
      else
        var a := before.accs;
        match matcher(lines[|lines| - 1])
        case NoMatch => Parsed(a)
        case Hit(e, acc) => Parsed(Accs(a.epochs + [e], a.targetValAccs + [acc]))
        case BadNumber => Raised(|lines| - 1)
  }

  /** Lines 16-39. */
  method ExtractAccuraciesFromLog(log: Option<seq<string>>, matcher: Matcher) returns (r: Extracted)
    ensures log.None? ==> r == NoLog
    ensures log.Some? ==> r == ParseLines(log.value, matcher)
  {
    if log.None? {
      return NoLog;
    }
    var lines := log.value;
    var targetValAccs: seq<int> := [];
    var epochs: seq<nat> := [];
    for i := 0 to |lines|
      invariant ParseLines(lines[..i], matcher) == Parsed(Accs(epochs, targetValAccs))
    {
      assert lines[..i + 1][..i] == lines[..i];
      match matcher(lines[i])
      case NoMatch =>
      case Hit(epoch, acc) =>
        epochs := epochs + [epoch];
        targetValAccs := targetValAccs + [acc];
      case BadNumber =>
        RaisedStays(lines, i + 1, matcher);
        assert lines[..|lines|] == lines;
        return Raised(i);
    }
    assert lines[..|lines|] == lines;
    r := Parsed(Accs(epochs, targetValAccs));
  }

  /** Once a line has raised, later lines do not matter. */
  lemma {:induction false} RaisedStays(lines: seq<string>, k: nat, matcher: Matcher)
    requires k <= |lines| && ParseLines(lines[..k], matcher).Raised?
    ensures ParseLines(lines, matcher) == ParseLines(lines[..k], matcher)
    decreases |lines| - k
  {
    if k < |lines| {
      assert lines[..k + 1][..k] == lines[..k];
      RaisedStays(lines, k + 1, matcher);
    } else {
      assert lines[..k] == lines;
    }
  }

  /** The positions of the lines that match, in increasing order. */
  function MatchIndices(lines: seq<string>, matcher: Matcher): (idx: seq<nat>)
    ensures forall k :: 0 <= k < |idx| ==> idx[k] < |lines| && matcher(lines[idx[k]]).Hit?
    ensures forall k, l :: 0 <= k < l < |idx| ==> idx[k] < idx[l]
    ensures forall j :: 0 <= j < |lines| && matcher(lines[j]).Hit? ==> j in idx
  {
    if lines == [] then []
    else
      var init := MatchIndices(lines[..|lines| - 1], matcher);
      if matcher(lines[|lines| - 1]).Hit? then init + [|lines| - 1] else init
  }

  /** The lists hold one entry per matching line, in line order, each the
      epoch and accuracy of that line; lines that do not match add nothing. */
  lemma {:induction false} ParsedFollowsMatches(lines: seq<string>, matcher: Matcher)
    requires ParseLines(lines, matcher).Parsed?
    ensures var a := ParseLines(lines, matcher).accs; var idx := MatchIndices(lines, matcher);
      && |a.epochs| == |idx|
      && forall k :: 0 <= k < |idx| ==> matcher(lines[idx[k]]) == Hit(a.epochs[k], a.targetValAccs[k])
  {
    if lines != [] {
      var init := lines[..|lines| - 1];
      ParsedFollowsMatches(init, matcher);
      var idx0 := MatchIndices(init, matcher);
      forall k | 0 <= k < |idx0| ensures lines[idx0[k]] == init[idx0[k]] { }
    }
  }

  /** The pass raises exactly when some line has a malformed accuracy, and
      then at the first such line. */
  lemma {:induction false} RaisedAtFirstBadNumber(lines: seq<string>, matcher: Matcher)
    ensures ParseLines(lines, matcher).Raised? <==> exists i :: 0 <= i < |lines| && matcher(lines[i]).BadNumber?
    ensures ParseLines(lines, matcher).Raised? ==>
      var i := ParseLines(lines, matcher).line;
      matcher(lines[i]).BadNumber? && forall j :: 0 <= j < i ==> !matcher(lines[j]).BadNumber?
  {
    if lines != [] {
      var init := lines[..|lines| - 1];
      RaisedAtFirstBadNumber(init, matcher);
      assert forall j :: 0 <= j < |init| ==> init[j] == lines[j];
    }
  }

  // ---------------------------------------------------------------------
  // calculate_final_result

  /** `xs[-n:]` with Python's slicing: for `n > 0` the last `n` elements (all
      of them if there are fewer), for `n == 0` the whole list (`-0 == 0`), for
      `n < 0` the list without its first `-n` elements. */
  function PySuffix<T>(xs: seq<T>, n: int): (r: seq<T>)
    ensures |r| <= |xs| && r == xs[|xs| - |r|..]
    ensures n > 0 ==> |r| == if n <= |xs| then n else |xs|
    ensures n == 0 ==> r == xs
    ensures n < 0 ==> |r| == if -n <= |xs| then |xs| + n else 0
  {
    if n > 0 then (if n <= |xs| then xs[|xs| - n..] else xs)
    else if n == 0 then xs
    else if -n <= |xs| then xs[-n..] else []
  }

  /** `max(xs)` */
  function MaxOf(xs: seq<int>): (m: int)
    requires xs != []
    ensures m in xs && forall i :: 0 <= i < |xs| ==> xs[i] <= m
  {
    if |xs| == 1 then xs[0]
    else
      var m := MaxOf(xs[1..]);
      assert forall i :: 1 <= i < |xs| ==> xs[i] == xs[1..][i - 1];
      if xs[0] > m then xs[0] else m
  }

  /** `min(xs)` */
  function MinOf(xs: seq<int>): (m: int)
    requires xs != []
    ensures m in xs && forall i :: 0 <= i < |xs| ==> m <= xs[i]
  {
    if |xs| == 1 then xs[0]
    else
      var m := MinOf(xs[1..]);
      assert forall i :: 1 <= i < |xs| ==> xs[i] == xs[1..][i - 1];
      if xs[0] < m then xs[0] else m
  }

  /** `xs.index(v)`: the first position holding `v`. */
  function IndexOf(xs: seq<int>, v: int): (i: nat)
    requires v in xs
    ensures i < |xs| && xs[i] == v && forall j :: 0 <= j < i ==> xs[j] != v
  {
    if xs[0] == v then 0
    else
      var i := IndexOf(xs[1..], v);
      assert forall j :: 1 <= j <= i ==> xs[j] == xs[1..][j - 1];
      i + 1
  }

  /** The summary, without mean and standard deviation. */
  datatype Final = Final(lastNValues: seq<int>, minAcc: int, maxAcc: int, bestOverall: int, bestEpoch: nat)

  /** `None`, the summary, or an exception (`min` of an empty list, or an
      `epochs` list too short for the best index). */
  datatype FinalOutcome = NotComputed | Computed(result: Final) | Raises

  /** Lines 52-56, once the last values are known to be non-empty: their
      range, the best accuracy of the whole run and the epoch it was reached
      at; `Raises` where `epochs` has no entry at the best index. */
  function Summarise(xs: seq<int>, epochs: seq<nat>, lastNAccs: seq<int>): (r: FinalOutcome)
    requires xs != [] && lastNAccs != []
    ensures !r.NotComputed?
    ensures r.Raises? <==> |epochs| <= IndexOf(xs, MaxOf(xs))
    ensures r.Computed? ==>
      var f := r.result;
      && f.lastNValues == lastNAccs
      && f.minAcc in lastNAccs && f.maxAcc in lastNAccs
      && forall k :: 0 <= k < |lastNAccs| ==> f.minAcc <= lastNAccs[k] <= f.maxAcc
    ensures r.Computed? ==>
      r.result.bestOverall in xs && forall k :: 0 <= k < |xs| ==> xs[k] <= r.result.bestOverall
    ensures r.Computed? ==>
      exists i :: 0 <= i < |xs| && i < |epochs| && xs[i] == r.result.bestOverall
        && r.result.bestEpoch == epochs[i] && forall j :: 0 <= j < i ==> xs[j] != r.result.bestOverall
  {
    var best := MaxOf(xs);
    var i := IndexOf(xs, best);
    if i >= |epochs| then Raises
    else
      var f := Final(lastNAccs, MinOf(lastNAccs), MaxOf(lastNAccs), best, epochs[i]);
      assert xs[i] == f.bestOverall && f.bestEpoch == epochs[i];
      Computed(f)
  }

  /** Lines 42-57. */
  function CalculateFinalResult(accs: Option<Accs>, lastN: int): (r: FinalOutcome)
    ensures r.NotComputed? <==> accs.None? || |accs.value.targetValAccs| < lastN
    ensures r.Computed? ==> r.result.lastNValues == PySuffix(accs.value.targetValAccs, lastN)
    ensures r.Raises? ==>
      accs.Some? && (PySuffix(accs.value.targetValAccs, lastN) == []
       || |accs.value.epochs| <= IndexOf(accs.value.targetValAccs, MaxOf(accs.value.targetValAccs)))
    ensures accs.Some? && 0 < lastN <= |accs.value.targetValAccs| && |accs.value.epochs| == |accs.value.targetValAccs| ==> r.Computed?
  {
    if accs.None? || |accs.value.targetValAccs| < lastN then NotComputed
    else
      var xs := accs.value.targetValAccs;
      var lastNAccs := PySuffix(xs, lastN);
      if lastNAccs == [] then Raises
      else Summarise(xs, accs.value.epochs, lastNAccs)
  }

  /** With a positive `lastN`, the summary covers exactly the last `lastN`
      accuracies. */
  lemma FinalResultLastN(accs: Option<Accs>, lastN: int)
    requires CalculateFinalResult(accs, lastN).Computed? && lastN > 0
    ensures var xs := accs.value.targetValAccs;
      var f := CalculateFinalResult(accs, lastN).result;
      |f.lastNValues| == lastN && f.lastNValues == xs[|xs| - lastN..]
  {
  }

  /** The reported minimum and maximum are among the last values and bound
      all of them. */
  lemma FinalResultRange(accs: Option<Accs>, lastN: int)
    requires CalculateFinalResult(accs, lastN).Computed?
    ensures var f := CalculateFinalResult(accs, lastN).result;
      && f.minAcc in f.lastNValues && f.maxAcc in f.lastNValues
      && forall k :: 0 <= k < |f.lastNValues| ==> f.minAcc <= f.lastNValues[k] <= f.maxAcc
  {
  }

  /** The best accuracy is the maximum of the whole run, and its epoch is the
      one logged at the first position where that maximum occurs. */
  lemma FinalResultBest(accs: Option<Accs>, lastN: int)
    requires CalculateFinalResult(accs, lastN).Computed?
    ensures var xs := accs.value.targetValAccs;
      var f := CalculateFinalResult(accs, lastN).result;
      && f.bestOverall in xs && (forall k :: 0 <= k < |xs| ==> xs[k] <= f.bestOverall)
      && (exists i :: 0 <= i < |xs| && i < |accs.value.epochs| && xs[i] == f.bestOverall
            && f.bestEpoch == accs.value.epochs[i] && forall j :: 0 <= j < i ==> xs[j] != f.bestOverall)
  {
  }

  /** Line 131-132: the epoch numbers written beside the last values. */
  function DetailEpochNumbers(numEpochs: int, lastNValues: seq<int>): (r: seq<int>)
    ensures |r| == |lastNValues|
  {
    seq(|lastNValues|, k => numEpochs - 10 + (k + 1))
  }

  /** With ten values the lines are numbered `len - 9` to `len`, one apart. */
  lemma DetailNumbersForTen(numEpochs: int, lastNValues: seq<int>)
    requires |lastNValues| == 10
    ensures var r := DetailEpochNumbers(numEpochs, lastNValues);
      r[0] == numEpochs - 9 && r[9] == numEpochs && forall k :: 0 <= k < 9 ==> r[k + 1] == r[k] + 1
  {
  }

  /** For a parsed log summarised over its last ten entries, the number
      written beside each value is that value's 1-based position among the
      logged entries, not the epoch number the log line carried. */
  lemma DetailNumbersArePositions(a: Accs, k: nat)
    requires |a.epochs| == |a.targetValAccs| && k < 10
    requires CalculateFinalResult(Some(a), 10).Computed?
    ensures var f := CalculateFinalResult(Some(a), 10).result;
      var pos := |a.targetValAccs| - 10 + k;
      && f.lastNValues[k] == a.targetValAccs[pos]
      && DetailEpochNumbers(|a.epochs|, f.lastNValues)[k] == pos + 1
  {
  }
}
