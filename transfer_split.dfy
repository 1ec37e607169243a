/** `CWRU.data_split`: assemble the source and the target domains and split
    them into the datasets a transfer run needs. `train_test_split` is an
    input: a splitter that, given the label column, returns the row indices of
    the training side and of the validation side, or `None` where it raises. */
module TransferSplit {
  import opened Wrappers
  import opened DataLoad
  import opened GetFiles

  type Splitter = seq<int> -> Option<(seq<nat>, seq<nat>)>

  /** `train` and `val` list the row indices `0 .. n-1` between them, each
      exactly once. */
  ghost predicate IsIndexPartition(train: seq<nat>, val: seq<nat>, n: nat) {
    && |train| + |val| == n
    && (forall i :: 0 <= i < |train| ==> train[i] < n)
    && (forall i :: 0 <= i < |val| ==> val[i] < n)
    && (forall i, j :: 0 <= i < j < |train| ==> train[i] != train[j])
    && (forall i, j :: 0 <= i < j < |val| ==> val[i] != val[j])
    && (forall i, j :: 0 <= i < |train| && 0 <= j < |val| ==> train[i] != val[j])
    && (forall k :: 0 <= k < n ==> k in train || k in val)
  }

  /** What the model relies on from the library: whenever it returns a split,
      the split is a partition of the rows. */
  ghost predicate SplitterSound(tts: Splitter) {
    forall labs :: tts(labs).Some? ==> IsIndexPartition(tts(labs).value.0, tts(labs).value.1, |labs|)
  }

  /** The rows of a dataset, each (window, label). */
  function Rows<S>(s: Segments<S>): seq<(seq<S>, int)>
    requires |s.data| == |s.lab|
  {
    seq(|s.data|, i requires 0 <= i < |s.data| => (s.data[i], s.lab[i]))
  }

  function Pick<T>(xs: seq<T>, idx: seq<nat>): (r: seq<T>)
    requires forall i :: 0 <= i < |idx| ==> idx[i] < |xs|
    ensures |r| == |idx| && forall i :: 0 <= i < |idx| ==> r[i] == xs[idx[i]]
  {
    seq(|idx|, i requires 0 <= i < |idx| => xs[idx[i]])
  }

  /** The dataset made of the rows `idx` of `s`, in that order. */
  function Select<S>(s: Segments<S>, idx: seq<nat>): (r: Segments<S>)
    requires |s.data| == |s.lab|
    requires forall i :: 0 <= i < |idx| ==> idx[i] < |s.data|
    ensures |r.data| == |r.lab| == |idx|
    ensures Rows(r) == Pick(Rows(s), idx)
  {
    Segments(seq(|idx|, i requires 0 <= i < |idx| => s.data[idx[i]]),
             seq(|idx|, i requires 0 <= i < |idx| => s.lab[idx[i]]))
  }

  lemma PickConcat<T>(xs: seq<T>, a: seq<nat>, b: seq<nat>)
    requires forall i :: 0 <= i < |a| ==> a[i] < |xs|
    requires forall i :: 0 <= i < |b| ==> b[i] < |xs|
    ensures Pick(xs, a + b) == Pick(xs, a) + Pick(xs, b)
  {
  }

  lemma PickPrefix<T>(xs: seq<T>, n: nat, idx: seq<nat>)
    requires n <= |xs|
    requires forall i :: 0 <= i < |idx| ==> idx[i] < n
    ensures Pick(xs[..n], idx) == Pick(xs, idx)
  {
  }

  /** Removing the one occurrence of `n` from a duplicate-free list of
      `0 .. n` leaves a duplicate-free list of `0 .. n-1`. */
  lemma RemoveLast(idx: seq<nat>, p: nat, n: nat)
    requires p < |idx| && idx[p] == n
    requires forall i :: 0 <= i < |idx| ==> idx[i] <= n
    requires forall i, j :: 0 <= i < j < |idx| ==> idx[i] != idx[j]
    requires forall k :: 0 <= k <= n ==> k in idx
    ensures var rest := idx[..p] + idx[p + 1..];
      && (forall i :: 0 <= i < |rest| ==> rest[i] < n)
      && (forall i, j :: 0 <= i < j < |rest| ==> rest[i] != rest[j])
      && (forall k :: 0 <= k < n ==> k in rest)
  {
    var rest := idx[..p] + idx[p + 1..];
    forall i | 0 <= i < |rest| ensures rest[i] < n {
      if i < p { assert rest[i] == idx[i]; } else { assert rest[i] == idx[i + 1]; }
    }
    forall i, j | 0 <= i < j < |rest| ensures rest[i] != rest[j] {
      var i' := if i < p then i else i + 1;
      var j' := if j < p then j else j + 1;
      assert rest[i] == idx[i'] && rest[j] == idx[j'];
    }
    forall k | 0 <= k < n ensures k in rest {
      assert k in idx;
      var q :| 0 <= q < |idx| && idx[q] == k;
      if q < p { assert rest[q] == k; } else { assert q != p; assert rest[q - 1] == k; }
    }
  }

  lemma PickAround<T>(xs: seq<T>, idx: seq<nat>, p: nat)
    requires p < |idx|
    requires forall i :: 0 <= i < |idx| ==> idx[i] < |xs|
    ensures Pick(xs, idx) == Pick(xs, idx[..p]) + [xs[idx[p]]] + Pick(xs, idx[p + 1..])
  {
    var r := Pick(xs, idx[..p]) + [xs[idx[p]]] + Pick(xs, idx[p + 1..]);
    forall i | 0 <= i < |idx| ensures r[i] == xs[idx[i]] {
      if i < p { } else if i == p { } else { assert r[i] == Pick(xs, idx[p + 1..])[i - p - 1]; }
    }
  }

  /** Taking out the position of the last element. */
  lemma PermutationStep<T>(xs: seq<T>, idx: seq<nat>, p: nat, rest: seq<nat>)
    requires xs != [] && p < |idx| && idx[p] == |xs| - 1
    requires forall i :: 0 <= i < |idx| ==> idx[i] < |xs|
    requires rest == idx[..p] + idx[p + 1..]
    requires forall i :: 0 <= i < |rest| ==> rest[i] < |xs| - 1
    ensures multiset(Pick(xs, idx)) == multiset(Pick(xs[..|xs| - 1], rest)) + multiset{xs[|xs| - 1]}
  {
    var n := |xs| - 1;
    var a, b := Pick(xs, idx[..p]), Pick(xs, idx[p + 1..]);
    PickPrefix(xs, n, rest);
    PickConcat(xs, idx[..p], idx[p + 1..]);
    PickAround(xs, idx, p);
  }

  /** Picking every position exactly once, in any order, permutes the sequence. */
  lemma {:induction false} PickPermutation<T>(xs: seq<T>, idx: seq<nat>)
    requires forall i :: 0 <= i < |idx| ==> idx[i] < |xs|
    requires forall i, j :: 0 <= i < j < |idx| ==> idx[i] != idx[j]
    requires forall k :: 0 <= k < |xs| ==> k in idx
    requires |idx| == |xs|
    ensures multiset(Pick(xs, idx)) == multiset(xs)
    decreases |xs|
  {
    if xs != [] {
      var n := |xs| - 1;
      assert n in idx;
      var p :| 0 <= p < |idx| && idx[p] == n;
      var rest := idx[..p] + idx[p + 1..];
      RemoveLast(idx, p, n);
      PermutationStep(xs, idx, p, rest);
      PickPermutation(xs[..n], rest);
      assert xs == xs[..n] + [xs[n]];
    }
  }

  /** A split that is a partition neither loses, duplicates nor invents a row. */
  lemma PartitionKeepsRows<S>(s: Segments<S>, train: seq<nat>, val: seq<nat>)
    requires |s.data| == |s.lab|
    requires IsIndexPartition(train, val, |s.data|)
    ensures multiset(Rows(Select(s, train))) + multiset(Rows(Select(s, val))) == multiset(Rows(s))
  {
    var all := train + val;
    forall i, j | 0 <= i < j < |all| ensures all[i] != all[j] {
      if j < |train| { } else if i >= |train| { assert all[i] == val[i - |train|] && all[j] == val[j - |train|]; }
      else { assert all[j] == val[j - |train|]; }
    }
    assert Pick(Rows(s), all) == Pick(Rows(s), train) + Pick(Rows(s), val);
    PickPermutation(Rows(s), all);
  }

  /** `label_counts[l]`: how many rows carry label `l`. */
  function Count(lab: seq<int>, l: int): nat {
    multiset(lab)[l]
  }

  /** The smallest count among the first `k` rows' labels. */
  function MinCountOver(lab: seq<int>, k: nat): (r: Option<nat>)
    requires k <= |lab|
    ensures r.None? <==> k == 0
    ensures r.Some? ==> (exists i :: 0 <= i < k && Count(lab, lab[i]) == r.value)
                        && forall i :: 0 <= i < k ==> Count(lab, lab[i]) >= r.value
  {
    if k == 0 then None
    else
      var c := Count(lab, lab[k - 1]);
      match MinCountOver(lab, k - 1)
      case None => Some(c)
      case Some(m) => if c < m then Some(c) else Some(m)
  }

  /** `label_counts.min()`: the smallest count of a label that occurs;
      `None` for no rows at all (pandas yields NaN, and `NaN < 2` is false). */
  function MinCount(lab: seq<int>): (r: Option<nat>)
    ensures r.None? <==> |lab| == 0
    ensures r.Some? ==> (exists i :: 0 <= i < |lab| && Count(lab, lab[i]) == r.value)
                        && forall i :: 0 <= i < |lab| ==> Count(lab, lab[i]) >= r.value
  {
    MinCountOver(lab, |lab|)
  }

  /** `min_samples < 2`: the guard refuses exactly when some label that
      occurs occurs only once. */
  predicate TooFew(lab: seq<int>): (b: bool)
    ensures b <==> exists i :: 0 <= i < |lab| && Count(lab, lab[i]) < 2
    ensures b <==> exists i :: 0 <= i < |lab| && Count(lab, lab[i]) == 1
  {
    assert forall i :: 0 <= i < |lab| ==> lab[i] in multiset(lab);
    MinCount(lab).Some? && MinCount(lab).value < 2
  }

  datatype Side = Source | Target

  datatype SplitError =
    | UnknownDomain(domain: int)              // `KeyError` from `DOMAIN_MAP`
    | TooFewSamples(side: Side, minCount: nat)  // the `ValueError` of lines 159 and 182
    | SplitFailed(side: Side)                 // `train_test_split` raised

  /** The training and validation datasets of one domain list. */
  datatype Pair<S> = Pair(train: Segments<S>, val: Segments<S>)

  /** The datasets `data_split` returns: four in transfer mode, three otherwise. */
  datatype Splits<S> =
    | Four(sourceTrain: Segments<S>, sourceVal: Segments<S>, targetTrain: Segments<S>, targetVal: Segments<S>)
    | Three(sourceTrain: Segments<S>, sourceVal: Segments<S>, targetVal: Segments<S>)

  /** `train`/`val` split `whole`: together they hold its rows, each once. */
  ghost predicate SplitsRows<S>(train: Segments<S>, val: Segments<S>, whole: Segments<S>) {
    && |train.data| == |train.lab| && |val.data| == |val.lab| && |whole.data| == |whole.lab|
    && multiset(Rows(train)) + multiset(Rows(val)) == multiset(Rows(whole))
  }

  /** One "count check, then split" step (lines 157-163 and 180-186; without
      the check, lines 204-206). */
  function SplitStep<S>(whole: Segments<S>, side: Side, checkCounts: bool, tts: Splitter): (r: Result<Pair<S>, SplitError>)
    requires |whole.data| == |whole.lab|
    requires SplitterSound(tts)
    ensures r.Success? ==> SplitsRows(r.value.train, r.value.val, whole)
    ensures r.Success? ==>
      && tts(whole.lab).Some?
      && Rows(r.value.train) == Pick(Rows(whole), tts(whole.lab).value.0)
      && Rows(r.value.val) == Pick(Rows(whole), tts(whole.lab).value.1)
    ensures r.Failure? && r.error.TooFewSamples? <==> checkCounts && TooFew(whole.lab)
    ensures r.Failure? && r.error.TooFewSamples? ==> r.error == TooFewSamples(side, MinCount(whole.lab).value)
    ensures r.Failure? && !r.error.TooFewSamples? ==> r.error == SplitFailed(side) && tts(whole.lab).None?
    ensures r.Success? <==> !(checkCounts && TooFew(whole.lab)) && tts(whole.lab).Some?
  {
    if checkCounts && TooFew(whole.lab) then
      Failure(TooFewSamples(side, MinCount(whole.lab).value))
    else
      match tts(whole.lab)
      case None => Failure(SplitFailed(side))
      case Some((train, val)) =>
        PartitionKeepsRows(whole, train, val);
        Success(Pair(Select(whole, train), Select(whole, val)))
  }

  /** Loading one domain list (`get_files`), its error renamed. */
  function LoadDomains<S>(tree: Tree<S>, n: seq<int>): (r: Result<Segments<S>, SplitError>)
    ensures r.Success? ==> Assemble(tree, n).Success? && r.value == Assemble(tree, n).value
    ensures r.Failure? ==> r.error.UnknownDomain? && Assemble(tree, n) == Failure(r.error.domain)
    ensures r.Success? ==> |r.value.data| == |r.value.lab|
  {
    match Assemble(tree, n)
    case Failure(d) => Failure(UnknownDomain(d))
    case Success(s) => Success(s)
  }

  /** The loader object (lines 119-139). `data_dir` is the `tree` argument of
      `DataSplit`; the transform pipelines are not modelled. */
  datatype CWRU = CWRU(sourceN: seq<int>, targetN: seq<int>, normlizeType: string) {

    /** Lines 141-214. */
    function DataSplit<S>(tree: Tree<S>, transferLearning: bool, tts: Splitter): (r: Result<Splits<S>, SplitError>)
      requires SplitterSound(tts)
      ensures r.Success? ==> (r.value.Four? <==> transferLearning)
      ensures r.Success? ==> Assemble(tree, sourceN).Success? && Assemble(tree, targetN).Success?
      ensures r.Success? ==> SplitsRows(r.value.sourceTrain, r.value.sourceVal, Assemble(tree, sourceN).value)
      ensures r.Success? && r.value.Four? ==>
        SplitsRows(r.value.targetTrain, r.value.targetVal, Assemble(tree, targetN).value)
      ensures r.Success? && r.value.Three? ==> r.value.targetVal == Assemble(tree, targetN).value
      ensures r.Failure? && r.error.UnknownDomain? ==>
        Assemble(tree, sourceN) == Failure(r.error.domain)
        || (Assemble(tree, sourceN).Success? && Assemble(tree, targetN) == Failure(r.error.domain))
      ensures r.Failure? && r.error.TooFewSamples? ==> transferLearning
      ensures transferLearning ==>
        ((r.Failure? && r.error.TooFewSamples? && r.error.side == Source)
         <==> Assemble(tree, sourceN).Success? && TooFew(Assemble(tree, sourceN).value.lab))
      ensures r.Failure? && r.error.TooFewSamples? && r.error.side == Source ==>
        r.error.minCount == MinCount(Assemble(tree, sourceN).value.lab).value
      ensures r.Failure? && r.error.TooFewSamples? && r.error.side == Target ==>
        Assemble(tree, sourceN).Success? && !TooFew(Assemble(tree, sourceN).value.lab)
        && tts(Assemble(tree, sourceN).value.lab).Some?
        && Assemble(tree, targetN).Success? && TooFew(Assemble(tree, targetN).value.lab)
    {
      if transferLearning then
        match LoadDomains(tree, sourceN)
        case Failure(e) => Failure(e)
        case Success(source) =>
          match SplitStep(source, Source, true, tts)
          case Failure(e) => Failure(e)
          case Success(sp) =>
            match LoadDomains(tree, targetN)
            case Failure(e) => Failure(e)
            case Success(target) =>
              match SplitStep(target, Target, true, tts)
              case Failure(e) => Failure(e)
              case Success(tp) => Success(Four(sp.train, sp.val, tp.train, tp.val))
      else
        match LoadDomains(tree, sourceN)
        case Failure(e) => Failure(e)
        case Success(source) =>
          match SplitStep(source, Source, false, tts)
          case Failure(e) => Failure(e)
          case Success(sp) =>
            match LoadDomains(tree, targetN)
            case Failure(e) => Failure(e)
            case Success(target) => Success(Three(sp.train, sp.val, target))
    }
  }

  /** When `data_split` returns: both domain lists assemble, and every split
      it attempts passes its count check (transfer mode only) and is
      produced by the splitter. */
  lemma DataSplitSucceedsIff<S>(c: CWRU, tree: Tree<S>, transferLearning: bool, tts: Splitter)
    requires SplitterSound(tts)
    ensures c.DataSplit(tree, transferLearning, tts).Success? <==>
      && Assemble(tree, c.sourceN).Success?
      && Assemble(tree, c.targetN).Success?
      && (transferLearning ==> !TooFew(Assemble(tree, c.sourceN).value.lab))
      && tts(Assemble(tree, c.sourceN).value.lab).Some?
      && (transferLearning ==>
            !TooFew(Assemble(tree, c.targetN).value.lab) && tts(Assemble(tree, c.targetN).value.lab).Some?)
  {
  }

  /** The datasets `data_split` returns are the rows the splitter put on
      each side: `dataset(list_data=train_pd)` and `dataset(list_data=val_pd)`. */
  lemma DataSplitSidesFromSplitter<S>(c: CWRU, tree: Tree<S>, transferLearning: bool, tts: Splitter)
    requires SplitterSound(tts)
    ensures var r := c.DataSplit(tree, transferLearning, tts);
      r.Success? ==>
        && Assemble(tree, c.sourceN).Success?
        && var source := Assemble(tree, c.sourceN).value;
        && tts(source.lab).Some?
        && Rows(r.value.sourceTrain) == Pick(Rows(source), tts(source.lab).value.0)
        && Rows(r.value.sourceVal) == Pick(Rows(source), tts(source.lab).value.1)
    ensures var r := c.DataSplit(tree, transferLearning, tts);
      r.Success? && r.value.Four? ==>
        && Assemble(tree, c.targetN).Success?
        && var target := Assemble(tree, c.targetN).value;
        && tts(target.lab).Some?
        && Rows(r.value.targetTrain) == Pick(Rows(target), tts(target.lab).value.0)
        && Rows(r.value.targetVal) == Pick(Rows(target), tts(target.lab).value.1)
  {
  }

  /** Which split failed and why: the splitter raised on that side's
      labels, and the target side fails only in transfer mode, after the
      source side went through. */
  lemma DataSplitFailureSide<S>(c: CWRU, tree: Tree<S>, transferLearning: bool, tts: Splitter)
    requires SplitterSound(tts)
    ensures var r := c.DataSplit(tree, transferLearning, tts);
      r.Failure? && r.error == SplitFailed(Source) ==>
        Assemble(tree, c.sourceN).Success? && tts(Assemble(tree, c.sourceN).value.lab).None?
    ensures var r := c.DataSplit(tree, transferLearning, tts);
      r.Failure? && r.error == SplitFailed(Target) ==>
        && transferLearning
        && Assemble(tree, c.sourceN).Success? && !TooFew(Assemble(tree, c.sourceN).value.lab)
        && tts(Assemble(tree, c.sourceN).value.lab).Some?
        && Assemble(tree, c.targetN).Success? && tts(Assemble(tree, c.targetN).value.lab).None?
  {
    if Assemble(tree, c.sourceN).Success? && Assemble(tree, c.targetN).Success? {
      var source, target := Assemble(tree, c.sourceN).value, Assemble(tree, c.targetN).value;
      var sp := SplitStep(source, Source, transferLearning, tts);
      if transferLearning && sp.Success? {
        var tp := SplitStep(target, Target, true, tts);
      }
    }
  }

  /** The order in which `data_split` raises: the source's `KeyError`
      first (line 145, through `get_files`), then the source's count check
      and split (lines 157-163), and only then the target's `KeyError`. */
  lemma DataSplitErrorOrder<S>(c: CWRU, tree: Tree<S>, transferLearning: bool, tts: Splitter)
    requires SplitterSound(tts)
    ensures Assemble(tree, c.sourceN).Failure? ==>
      c.DataSplit(tree, transferLearning, tts) == Failure(UnknownDomain(Assemble(tree, c.sourceN).error))
    ensures
      && Assemble(tree, c.sourceN).Success?
      && !(transferLearning && TooFew(Assemble(tree, c.sourceN).value.lab))
      && tts(Assemble(tree, c.sourceN).value.lab).None?
      ==> c.DataSplit(tree, transferLearning, tts) == Failure(SplitFailed(Source))
    ensures
      && Assemble(tree, c.sourceN).Success?
      && !(transferLearning && TooFew(Assemble(tree, c.sourceN).value.lab))
      && tts(Assemble(tree, c.sourceN).value.lab).Some?
      && Assemble(tree, c.targetN).Failure?
      ==> c.DataSplit(tree, transferLearning, tts) == Failure(UnknownDomain(Assemble(tree, c.targetN).error))
  {
  }

  /** A target with a label that occurs once, after a source that passed,
      gives exactly the target's count error, naming its smallest count. */
  lemma DataSplitTargetTooFew<S>(c: CWRU, tree: Tree<S>, transferLearning: bool, tts: Splitter)
    requires SplitterSound(tts)
    ensures var r := c.DataSplit(tree, transferLearning, tts);
      && transferLearning
      && Assemble(tree, c.sourceN).Success? && !TooFew(Assemble(tree, c.sourceN).value.lab)
      && tts(Assemble(tree, c.sourceN).value.lab).Some?
      && Assemble(tree, c.targetN).Success? && TooFew(Assemble(tree, c.targetN).value.lab)
      ==> r == Failure(TooFewSamples(Target, MinCount(Assemble(tree, c.targetN).value.lab).value))
  {
  }
}
