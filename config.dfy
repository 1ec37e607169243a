/** `TRANSFER_TASKS` of `config.py`: the twelve cross-load experiments, one
    per ordered pair of distinct domains. */
module Config {
  import opened Text
  import opened Registry

  datatype Task = Task(source: seq<int>, target: seq<int>, name: string)

  /** The arrow between the two load labels of a task name. */
  const Arrow: string := "\U{2192}"

  /** The table, in its literal order. */
  const TransferTasks: seq<(string, Task)> := [
    ("Task_0to1", Task([0], [1], "0HP\U{2192}1HP")),
    ("Task_0to2", Task([0], [2], "0HP\U{2192}2HP")),
    ("Task_0to3", Task([0], [3], "0HP\U{2192}3HP")),
    ("Task_1to0", Task([1], [0], "1HP\U{2192}0HP")),
    ("Task_1to2", Task([1], [2], "1HP\U{2192}2HP")),
    ("Task_1to3", Task([1], [3], "1HP\U{2192}3HP")),
    ("Task_2to0", Task([2], [0], "2HP\U{2192}0HP")),
    ("Task_2to1", Task([2], [1], "2HP\U{2192}1HP")),
    ("Task_2to3", Task([2], [3], "2HP\U{2192}3HP")),
    ("Task_3to0", Task([3], [0], "3HP\U{2192}0HP")),
    ("Task_3to1", Task([3], [1], "3HP\U{2192}1HP")),
    ("Task_3to2", Task([3], [2], "3HP\U{2192}2HP"))
  ]

  /** A task trains on one known domain and evaluates on another. */
  predicate WellFormedTask(t: Task) {
    && |t.source| == 1 && |t.target| == 1
    && 0 <= t.source[0] <= 3 && 0 <= t.target[0] <= 3
    && t.source[0] != t.target[0]
  }

  /** The key a task is filed under: `f"Task_{s}to{t}"`. */
  function TaskKey(s: nat, t: nat): string {
    "Task_" + NatToString(s) + "to" + NatToString(t)
  }

  /** The display name: the two load labels joined by the arrow. */
  function TaskName(s: int, t: int): string
    requires s in DomainMap && t in DomainMap
  {
    DomainMap[s] + Arrow + DomainMap[t]
  }

  lemma TaskCount()
    ensures |TransferTasks| == 12
  {
  }

  /** Every task is well formed, and its key and name are the ones its source
      and target determine. */
  lemma TasksConsistent()
    ensures forall i :: 0 <= i < |TransferTasks| ==>
      var (key, t) := TransferTasks[i];
      && WellFormedTask(t)
      && key == TaskKey(t.source[0], t.target[0])
      && t.name == TaskName(t.source[0], t.target[0])
  {
    TasksWellFormed();
    TaskKeysMatch();
    TaskNamesMatch();
  }

  lemma TasksWellFormed()
    ensures forall i :: 0 <= i < |TransferTasks| ==> WellFormedTask(TransferTasks[i].1)
  {
  }

  lemma {:induction false} TaskKeysMatch()
    requires forall i :: 0 <= i < |TransferTasks| ==> WellFormedTask(TransferTasks[i].1)
    ensures forall i :: 0 <= i < |TransferTasks| ==>
      TransferTasks[i].0 == TaskKey(TransferTasks[i].1.source[0], TransferTasks[i].1.target[0])
  {
    forall i | 0 <= i < |TransferTasks|
      ensures TransferTasks[i].0 == TaskKey(TransferTasks[i].1.source[0], TransferTasks[i].1.target[0])
    {
      var s, g := TransferTasks[i].1.source[0], TransferTasks[i].1.target[0];
      assert NatToString(s) == [DigitChar(s)] && NatToString(g) == [DigitChar(g)];
    }
  }

  lemma TaskNamesMatch()
    requires forall i :: 0 <= i < |TransferTasks| ==> WellFormedTask(TransferTasks[i].1)
    ensures forall i :: 0 <= i < |TransferTasks| ==>
      TransferTasks[i].1.name == TaskName(TransferTasks[i].1.source[0], TransferTasks[i].1.target[0])
  {
  }

  /** The table's layout: row `i` goes from domain `i / 3` to the `i % 3`-th
      of the other three domains, in increasing order. */
  function TargetOfRow(i: nat): nat {
    if i % 3 < i / 3 then i % 3 else i % 3 + 1
  }

  lemma {:induction false} TableLayout()
    ensures forall i :: 0 <= i < |TransferTasks| ==>
      TransferTasks[i].1.source == [i / 3] && TransferTasks[i].1.target == [TargetOfRow(i)]
  {
    forall i | 0 <= i < |TransferTasks|
      ensures TransferTasks[i].1.source == [i / 3] && TransferTasks[i].1.target == [TargetOfRow(i)]
    {
      if i < 6 {
        if i < 3 { assert i / 3 == 0; } else { assert i / 3 == 1; }
      } else {
        if i < 9 { assert i / 3 == 2; } else { assert i / 3 == 3; }
      }
    }
  }

  /** Every ordered pair of distinct domains is a task. */
  lemma {:induction false} EveryPairPresent()
    ensures forall s, t :: 0 <= s <= 3 && 0 <= t <= 3 && s != t ==>
      exists i :: 0 <= i < |TransferTasks| && TransferTasks[i].1.source == [s] && TransferTasks[i].1.target == [t]
  {
    forall s, t | 0 <= s <= 3 && 0 <= t <= 3 && s != t
      ensures exists i :: 0 <= i < |TransferTasks| && TransferTasks[i].1.source == [s] && TransferTasks[i].1.target == [t]
    {
      var off := if t < s then t else t - 1;
      if s == 0 {
        assert TransferTasks[off].1.source == [s] && TransferTasks[off].1.target == [t];
      } else if s == 1 {
        assert TransferTasks[3 + off].1.source == [s] && TransferTasks[3 + off].1.target == [t];
      } else if s == 2 {
        assert TransferTasks[6 + off].1.source == [s] && TransferTasks[6 + off].1.target == [t];
      } else {
        assert TransferTasks[9 + off].1.source == [s] && TransferTasks[9 + off].1.target == [t];
      }
    }
  }

  /** No pair of domains is a task twice, and no key is used twice. */
  lemma {:induction false} NoPairTwice()
    ensures forall i, j :: 0 <= i < j < |TransferTasks| ==>
      (TransferTasks[i].1.source, TransferTasks[i].1.target) != (TransferTasks[j].1.source, TransferTasks[j].1.target)
    ensures forall i, j :: 0 <= i < j < |TransferTasks| ==> TransferTasks[i].0 != TransferTasks[j].0
  {
    TableLayout();
    TasksConsistent();
    forall i, j | 0 <= i < j < |TransferTasks|
      ensures (TransferTasks[i].1.source, TransferTasks[i].1.target) != (TransferTasks[j].1.source, TransferTasks[j].1.target)
      ensures TransferTasks[i].0 != TransferTasks[j].0
    {
      if i / 3 == j / 3 {
        assert i % 3 != j % 3;
        assert TargetOfRow(i) != TargetOfRow(j);
      }
      var ki, kj := TransferTasks[i].0, TransferTasks[j].0;
      assert ki[5] == DigitChar(i / 3) && ki[8] == DigitChar(TargetOfRow(i));
      assert kj[5] == DigitChar(j / 3) && kj[8] == DigitChar(TargetOfRow(j));
    }
  }
}
