/** `data_load`: pick the drive-end channel of one decoded `.mat` file and cut
    it into non-overlapping windows of `signal_size` samples, each labelled with
    the file's class id. The decoded file is an input: the sequence of its
    variables in enumeration order, each either an already flattened signal
    of opaque samples of type `S` or a value numpy cannot convert. */
module DataLoad {
  import opened Wrappers
  import opened Text

  /** `signal_size`: the window length. */
  const SignalSize: nat := 1024

  /** What `loadmat` returns: variable name -> value, in enumeration order.
      A value is `Some(signal)`, or `None` when the conversion of lines
      101-103 (`squeeze`, `astype(float32)`, `reshape`) raises for it. */
  type MatFile<S> = seq<(string, Option<seq<S>>)>

  /** The parallel `data` / `lab` lists the loader builds. */
  datatype Segments<S> = Segments(data: seq<seq<S>>, lab: seq<int>)

  /** Why one file contributes nothing: `loadmat` itself raised, no
      variable name qualified as the drive-end channel (the `KeyError`), or
      the selected variable could not be converted to a signal. */
  datatype LoadError = LoadFailed | MissingChannel | Unconvertible

  /** `m.keys()`: a key is listed exactly when some variable has that name,
      one per variable and in enumeration order. */
  function Keys<S>(m: MatFile<S>): (ks: seq<string>)
    ensures |ks| == |m| && forall i :: 0 <= i < |m| ==> ks[i] == m[i].0
    ensures forall k :: k in ks <==> exists i :: 0 <= i < |m| && m[i].0 == k
  {
    seq(|m|, i requires 0 <= i < |m| => m[i].0)
  }

  /** `m[k]`: the value stored under `k`; the first one, should a name occur
      twice (a decoded `.mat` dictionary never repeats one). */
  function Get<S>(m: MatFile<S>, k: string): (v: Option<seq<S>>)
    requires k in Keys(m)
    ensures exists i :: 0 <= i < |m| && m[i] == (k, v) && forall j :: 0 <= j < i ==> m[j].0 != k
  {
    if m[0].0 == k then m[0].1
    else
      var v := Get(m[1..], k);
      assert forall j :: 1 <= j < |m| ==> m[j] == m[1..][j - 1];
      v
  }

  // ---------------------------------------------------------------------
  // The file's base name

  /** `os.path.basename`: the part after the last '/'. */
  function BaseName(p: string): (r: string)
    ensures '/' !in r
    ensures |r| <= |p| && p[|p| - |r|..] == r
    ensures '/' !in p ==> r == p
    ensures r == p || p[|p| - |r| - 1] == '/'
    decreases |p|
  {
    if p == [] || p[|p| - 1] == '/' then []
    else BaseName(p[..|p| - 1]) + [p[|p| - 1]]
  }

  /** Index of the last '.' in `s`, if any. */
  function LastDot(s: string): (r: Option<nat>)
    ensures r.Some? ==> r.value < |s| && s[r.value] == '.' && '.' !in s[r.value + 1..]
    ensures r.None? ==> '.' !in s
    decreases |s|
  {
    if s == [] then None
    else if s[|s| - 1] == '.' then Some(|s| - 1)
    else
      var r := LastDot(s[..|s| - 1]);
      assert s == s[..|s| - 1] + [s[|s| - 1]];
      r
  }

  /** Whether `s[..k]` holds a character other than '.'. */
  predicate HasNonDotBefore(s: string, k: nat)
    requires k <= |s|
  {
    exists j :: 0 <= j < k && s[j] != '.'
  }

  /** `os.path.splitext(name)[0]` for a name without '/': drop the part from
      the last '.' on, unless everything before that '.' is dots (so ".mat"
      and "..mat" keep their name). */
  function SplitExtRoot(name: string): (r: string)
    ensures |r| <= |name| && name[..|r|] == r
    ensures r != name ==> name[|r|] == '.' && '.' !in name[|r| + 1..] && HasNonDotBefore(name, |r|)
    ensures '.' !in name ==> r == name
    ensures (exists j :: 0 <= j < |name| && name[j] == '.' && HasNonDotBefore(name, j)) ==> r != name
  {
    match LastDot(name)
    case None => name
    case Some(k) =>
      assert forall j :: k < j < |name| ==> name[j] == name[k + 1..][j - k - 1];
      if HasNonDotBefore(name, k) then name[..k] else name
  }

  /** `os.path.splitext(os.path.basename(axisname))[0]`: a '/'-free part of
      the name, the name itself when it has neither '/' nor '.'. */
  function DataName(axisName: string): (r: string)
    ensures '/' !in r && |r| <= |axisName|
    ensures '/' !in axisName && '.' !in axisName ==> r == axisName
  {
    var b := BaseName(axisName);
    var r := SplitExtRoot(b);
    assert forall c :: c in r ==> c in b;
    r
  }

  /** A numbered CWRU file "<digits>.mat" has data name "<digits>". */
  lemma DataNameOfNumberedFile(d: string)
    requires IsDigits(d)
    ensures DataName(d + ".mat") == d
  {
    var name := d + ".mat";
    assert forall j :: 0 <= j < |d| ==> name[j] == d[j];
    assert '/' !in name;
    assert name[|d|] == '.' && name[|d| + 1..] == "mat";
    assert d[0] != '.';
    assert HasNonDotBefore(name, |d|);
    assert name[..|d|] == d;
  }

  /** The file "97.mat" is read through the variable "X097_DE_time" when it
      has one. */
  lemma GuessForFile97()
    ensures GuessedName(DataName("97.mat")) == Some("X097_DE_time")
  {
    assert IsDigits("97");
    assert "97" + ".mat" == "97.mat";
    DataNameOfNumberedFile("97");
    GuessFor97();
  }

  // ---------------------------------------------------------------------
  // Step 1: the variable name guessed from a numeric file name

  /** The guessed variable name for a numeric base name: below 100 one '0' is
      put in front of the digits, from 100 on none. `None` for a base name that
      is not all digits (the guess is then never tried). */
  function GuessedName(dataName: string): (r: Option<string>)
    ensures r.Some? <==> IsDigits(dataName)
    ensures r.Some? ==> StartsWith(r.value, "X") && EndsWith(r.value, "_DE_time")
    ensures r.Some? && DigitsValue(dataName) < 100 ==> r.value == "X0" + dataName + "_DE_time"
    ensures r.Some? && DigitsValue(dataName) >= 100 ==> r.value == "X" + dataName + "_DE_time"
  {
    if !IsDigits(dataName) then None
    else if DigitsValue(dataName) < 100 then Some("X0" + dataName + "_DE_time")
    else Some("X" + dataName + "_DE_time")
  }

  lemma GuessFor97()
    ensures GuessedName("97") == Some("X097_DE_time")
  {
    assert "97"[..1] == "9";
    assert DigitsValue("97") == 97;
    assert IsDigits("97");
    assert "X0" + "97" + "_DE_time" == "X097_DE_time";
  }

  lemma GuessFor130()
    ensures GuessedName("130") == Some("X130_DE_time")
  {
    assert "130"[..2] == "13" && "13"[..1] == "1";
    assert DigitsValue("130") == 130;
    assert IsDigits("130");
    assert "X" + "130" + "_DE_time" == "X130_DE_time";
  }

  /** For a file numbered 10 to 999 (written without leading zeros) the guess
      is "X", exactly three digits denoting the file number, "_DE_time". */
  lemma GuessIsThreeDigitToken(n: nat)
    requires 10 <= n < 1000
    ensures var g := GuessedName(NatToString(n));
      && g.Some? && |g.value| == 12
      && g.value[..1] == "X" && g.value[4..] == "_DE_time"
      && IsDigits(g.value[1..4]) && DigitsValue(g.value[1..4]) == n
  {
    var s := NatToString(n);
    NatToStringRoundTrip(n);
    var g := GuessedName(s);
    if n < 100 {
      assert |s| == 2;
      var t := g.value[1..4];
      assert t == "0" + s;
      assert t[..2] == "0" + [s[0]];
      assert DigitsValue(t[..1]) == 0;
      assert s[..1] == [s[0]];
      assert DigitsValue(t[..2]) == DigitsValue(s[..1]);
    } else {
      assert NatToString(n / 10) + [DigitChar(n % 10)] == s;
      assert |NatToString(n / 10)| == 2;
      assert |s| == 3;
      assert g.value[1..4] == s;
    }
  }

  // ---------------------------------------------------------------------
  // Steps 2 and 3: the drive-end fallback

  /** Keys of this form are `loadmat`'s metadata (`__header__`, ...). */
  predicate IsInternal(k: string) {
    StartsWith(k, "__")
  }

  predicate HasDE(k: string) {
    Contains(Upper(k), "DE")
  }

  predicate HasDETime(k: string) {
    Contains(Upper(k), "DE") && Contains(Upper(k), "TIME")
  }

  predicate DataDEKey(k: string) {
    !IsInternal(k) && HasDE(k)
  }

  predicate DataDETimeKey(k: string) {
    !IsInternal(k) && HasDETime(k)
  }

  /** `[k for k in ks if p(k)]` */
  function Filter(ks: seq<string>, p: string -> bool): (r: seq<string>)
    ensures |r| <= |ks|
    ensures forall k :: k in r <==> k in ks && p(k)
  {
    if ks == [] then []
    else if p(ks[0]) then [ks[0]] + Filter(ks[1..], p)
    else Filter(ks[1..], p)
  }

  /** `k` is the first element of `ks`, in order, that satisfies `p`. */
  ghost predicate IsFirstWith(ks: seq<string>, k: string, p: string -> bool) {
    exists i :: 0 <= i < |ks| && ks[i] == k && p(k) && forall j :: 0 <= j < i ==> !p(ks[j])
  }

  /** The head of a filtered list is the first element that qualifies. */
  lemma {:induction false} FilterHead(ks: seq<string>, p: string -> bool)
    requires Filter(ks, p) != []
    ensures IsFirstWith(ks, Filter(ks, p)[0], p)
  {
    if p(ks[0]) {
      assert ks[0] == Filter(ks, p)[0];
    } else {
      FilterHead(ks[1..], p);
      var i :| 0 <= i < |ks[1..]| && ks[1..][i] == Filter(ks, p)[0] && p(ks[1..][i])
        && forall j :: 0 <= j < i ==> !p(ks[1..][j]);
      assert ks[i + 1] == Filter(ks, p)[0];
      forall j | 0 <= j < i + 1 ensures !p(ks[j]) {
        if j > 0 { assert ks[j] == ks[1..][j - 1]; }
      }
    }
  }

  /** Filtering twice is filtering once by the conjunction. */
  lemma {:induction false} FilterFilter(ks: seq<string>, p: string -> bool, q: string -> bool, pq: string -> bool)
    requires forall k :: pq(k) == (p(k) && q(k))
    ensures Filter(Filter(ks, p), q) == Filter(ks, pq)
  {
    if ks != [] {
      FilterFilter(ks[1..], p, q, pq);
    }
  }

  /** The fallback of lines 85-95: among the non-internal keys, the first one
      naming both "DE" and "TIME" (ignoring case), else the first naming "DE". */
  function FallbackKey(ks: seq<string>): (r: Option<string>)
    ensures r.Some? <==> exists k :: k in ks && DataDEKey(k)
    ensures r.Some? ==> r.value in ks && !IsInternal(r.value) && HasDE(r.value)
    ensures (exists k :: k in ks && DataDETimeKey(k)) ==> r.Some? && IsFirstWith(ks, r.value, DataDETimeKey)
    ensures (forall k :: k in ks ==> !DataDETimeKey(k)) && r.Some? ==> IsFirstWith(ks, r.value, DataDEKey)
  {
    var notInternal := k => !IsInternal(k);
    var keys := Filter(ks, notInternal);
    var deTimeKeys := Filter(keys, HasDETime);
    FilterFilter(ks, notInternal, HasDETime, DataDETimeKey);
    FilterFilter(ks, notInternal, HasDE, DataDEKey);
    if deTimeKeys != [] then
      FilterHead(ks, DataDETimeKey);
      Some(deTimeKeys[0])
    else
      var deKeys := Filter(keys, HasDE);
      if deKeys != [] then
        FilterHead(ks, DataDEKey);
        Some(deKeys[0])
      else None
  }

  /** Lines 71-95: the variable `data_load` reads. A guess from a numeric file
      name wins when the file has that key; otherwise the fallback decides. */
  function SelectKey<S>(m: MatFile<S>, axisName: string): (r: Option<string>)
    ensures r.Some? ==> r.value in Keys(m)
    ensures var g := GuessedName(DataName(axisName)); g.Some? && g.value in Keys(m) ==> r == g
    ensures var g := GuessedName(DataName(axisName)); !(g.Some? && g.value in Keys(m)) ==> r == FallbackKey(Keys(m))
    ensures r.None? <==> (GuessedName(DataName(axisName)).None? || GuessedName(DataName(axisName)).value !in Keys(m))
                         && forall k :: k in Keys(m) ==> !DataDEKey(k)
  {
    var guess := GuessedName(DataName(axisName));
    if guess.Some? && guess.value in Keys(m) then guess else FallbackKey(Keys(m))
  }

  /** A file whose name is not a number always goes to the fallback. */
  lemma NonNumericUsesFallback<S>(m: MatFile<S>, axisName: string)
    requires !IsDigits(DataName(axisName))
    ensures SelectKey(m, axisName) == FallbackKey(Keys(m))
  {
  }

  /** Whatever key is selected, it never is one of `loadmat`'s "__" keys. */
  lemma SelectedKeyNotInternal<S>(m: MatFile<S>, axisName: string)
    requires SelectKey(m, axisName).Some?
    ensures !IsInternal(SelectKey(m, axisName).value)
  {
    var g := GuessedName(DataName(axisName));
    if g.Some? && g.value in Keys(m) {
      assert g.value[..1] == "X";
      assert g.value[0] == 'X';
      assert g.value[..2][0] == 'X';
    }
  }

  // ---------------------------------------------------------------------
  // Step 4: windowing

  /** The windows of a signal: the `i`-th is samples `[i * SignalSize, (i + 1) * SignalSize)`. */
  function Windows<S>(fl: seq<S>): (ws: seq<seq<S>>)
    ensures |ws| == |fl| / SignalSize
    ensures forall i :: 0 <= i < |ws| ==> |ws[i]| == SignalSize
  {
    seq(|fl| / SignalSize, i requires 0 <= i < |fl| / SignalSize => fl[i * SignalSize..(i + 1) * SignalSize])
  }

  /** `n` copies of `cid`. */
  function Repeat(cid: int, n: nat): (r: seq<int>)
    ensures |r| == n && forall i :: 0 <= i < n ==> r[i] == cid
  {
    seq(n, _ => cid)
  }

  function Flatten<S>(ws: seq<seq<S>>): seq<S> {
    if ws == [] then [] else Flatten(ws[..|ws| - 1]) + ws[|ws| - 1]
  }

  /** The windows, laid end to end, are the signal without its last
      `|fl| % SignalSize` samples: nothing is repeated, nothing skipped, and
      only a remainder shorter than one window is dropped. */
  lemma WindowsCover<S>(fl: seq<S>)
    ensures Flatten(Windows(fl)) == fl[..|Windows(fl)| * SignalSize]
    ensures |fl| - |Windows(fl)| * SignalSize < SignalSize
  {
    var ws := Windows(fl);
    for k := 0 to |ws|
      invariant Flatten(ws[..k]) == fl[..k * SignalSize]
    {
      assert ws[..k + 1][..k] == ws[..k];
      assert fl[..(k + 1) * SignalSize] == fl[..k * SignalSize] + ws[k];
    }
    assert ws[..|ws|] == ws;
  }

  /** A signal shorter than one window gives no window at all. */
  lemma ShortSignalNoWindows<S>(fl: seq<S>)
    requires |fl| < SignalSize
    ensures Windows(fl) == []
  {
  }

  /** Lines 106-114: advance `start`/`end` by `SignalSize` while the window fits. */
  method Segment<S>(fl: seq<S>, cid: int) returns (data: seq<seq<S>>, lab: seq<int>)
    ensures data == Windows(fl)
    ensures lab == Repeat(cid, |data|)
  {
    data, lab := [], [];
    var start, end := 0, SignalSize;
    var totalLen := |fl|;
    while end <= totalLen
      invariant start == |data| * SignalSize && end == start + SignalSize
      invariant start <= totalLen
      invariant forall i :: 0 <= i < |data| ==> data[i] == fl[i * SignalSize..(i + 1) * SignalSize]
      invariant lab == Repeat(cid, |data|)
      decreases totalLen - start
    {
      data := data + [fl[start..end]];
      lab := lab + [cid];
      start := start + SignalSize;
      end := end + SignalSize;
    }
    assert |data| == totalLen / SignalSize;
  }

  // ---------------------------------------------------------------------
  // The whole of `data_load`

  /** What `data_load` produces for one file (`None` content: `loadmat` raised). */
  function Load<S>(content: Option<MatFile<S>>, axisName: string, cid: int): (r: Result<Segments<S>, LoadError>)
    ensures r.Success? ==> |r.value.data| == |r.value.lab| && forall i :: 0 <= i < |r.value.lab| ==> r.value.lab[i] == cid
    ensures r == Failure(LoadFailed) <==> content.None?
    ensures r == Failure(MissingChannel) <==> content.Some? && SelectKey(content.value, axisName).None?
    ensures r == Failure(Unconvertible) <==>
      content.Some? && SelectKey(content.value, axisName).Some?
      && Get(content.value, SelectKey(content.value, axisName).value).None?
    ensures r.Success? ==>
      content.Some? && SelectKey(content.value, axisName).Some?
      && Get(content.value, SelectKey(content.value, axisName).value).Some?
      && r.value.data == Windows(Get(content.value, SelectKey(content.value, axisName).value).value)
  {
    match content
    case None => Failure(LoadFailed)
    case Some(m) =>
      match SelectKey(m, axisName)
      case None => Failure(MissingChannel)
      case Some(k) =>
        match Get(m, k)
        case None => Failure(Unconvertible)
        case Some(fl) =>
          var ws := Windows(fl);
          Success(Segments(ws, Repeat(cid, |ws|)))
  }

  /** Lines 61-116. */
  method DataLoadFile<S>(content: Option<MatFile<S>>, axisName: string, cid: int) returns (r: Result<Segments<S>, LoadError>)
    ensures r == Load(content, axisName, cid)
  {
    if content.None? {
      return Failure(LoadFailed);
    }
    var m := content.value;
    var key := SelectKey(m, axisName);
    if key.None? {
      return Failure(MissingChannel);
    }
    var value := Get(m, key.value);
    if value.None? {
      return Failure(Unconvertible);
    }
    var data, lab := Segment(value.value, cid);
    r := Success(Segments(data, lab));
  }
}
