/** `get_files`: walk the requested domains, then the fault classes in
    registry order, then the `.mat` files of each `root/<class>/<domain>`
    directory in listing order, and collect every window of every file that
    loads. The directory tree is an input: a map from (class name, domain
    label) to the directory's listing; a pair absent from the map is a
    directory that does not exist. */
module GetFiles {
  import opened Wrappers
  import opened Text
  import opened Registry
  import opened DataLoad

  /** One directory entry: its file name and what `loadmat` makes of it
      (`None`: loading raises). */
  datatype Entry<S> = Entry(name: string, content: Option<MatFile<S>>)

  type Tree<S> = map<(string, string), seq<Entry<S>>>

  function Empty<S>(): Segments<S> {
    Segments([], [])
  }

  /** `data.extend(...)` and `lab.extend(...)` of both lists at once. */
  function Join<S>(a: Segments<S>, b: Segments<S>): Segments<S> {
    Segments(a.data + b.data, a.lab + b.lab)
  }

  /** Both lists have one entry per sample, and every label is `cid`. */
  predicate LabelledAll<S>(s: Segments<S>, cid: int) {
    |s.data| == |s.lab| && forall i :: 0 <= i < |s.lab| ==> s.lab[i] == cid
  }

  /** `f.lower().endswith('.mat')` */
  predicate IsMatFile(name: string) {
    EndsWith(Lower(name), ".mat")
  }

  /** Line 39: the listing entries that are `.mat` files, in listing order. */
  function MatFiles<S>(listing: seq<Entry<S>>): (r: seq<Entry<S>>)
    ensures forall i :: 0 <= i < |r| ==> r[i] in listing && IsMatFile(r[i].name)
    ensures forall i :: 0 <= i < |listing| && IsMatFile(listing[i].name) ==> listing[i] in r
    ensures r == [] <==> forall i :: 0 <= i < |listing| ==> !IsMatFile(listing[i].name)
  {
    if listing == [] then []
    else
      var init := listing[..|listing| - 1];
      var last := listing[|listing| - 1];
      var r := MatFiles(init);
      assert forall i :: 0 <= i < |init| ==> init[i] == listing[i];
      if IsMatFile(last.name) then r + [last] else r
  }

  /** The positions of the `.mat` entries of a listing, in increasing order. */
  function MatIndices<S>(listing: seq<Entry<S>>): (idx: seq<nat>)
    ensures forall k :: 0 <= k < |idx| ==> idx[k] < |listing| && IsMatFile(listing[idx[k]].name)
    ensures forall k, l :: 0 <= k < l < |idx| ==> idx[k] < idx[l]
    ensures forall j :: 0 <= j < |listing| && IsMatFile(listing[j].name) ==> j in idx
  {
    if listing == [] then []
    else
      var init := listing[..|listing| - 1];
      var idx := MatIndices(init);
      assert forall i :: 0 <= i < |init| ==> init[i] == listing[i];
      if IsMatFile(listing[|listing| - 1].name) then idx + [|listing| - 1] else idx
  }

  /** The `.mat` files keep their listing order: the k-th of them is the
      entry at the k-th `.mat` position of the listing. */
  lemma {:induction false} MatFilesInListingOrder<S>(listing: seq<Entry<S>>)
    ensures |MatFiles(listing)| == |MatIndices(listing)|
    ensures forall k :: 0 <= k < |MatIndices(listing)| ==> MatFiles(listing)[k] == listing[MatIndices(listing)[k]]
  {
    if listing != [] {
      var init, n := listing[..|listing| - 1], |listing| - 1;
      MatFilesInListingOrder(init);
      var r0, i0 := MatFiles(init), MatIndices(init);
      assert forall k :: 0 <= k < |i0| ==> i0[k] < n && r0[k] == listing[i0[k]] by {
        forall k | 0 <= k < |i0| ensures i0[k] < n && r0[k] == listing[i0[k]] {
          assert init[i0[k]] == listing[i0[k]];
        }
      }
      var keep := IsMatFile(listing[n].name);
      assert keep ==> MatFiles(listing) == r0 + [listing[n]] && MatIndices(listing) == i0 + [n] by {
        if keep {
          assert MatFiles(listing) == r0 + [listing[n]];
          assert MatIndices(listing) == i0 + [n];
        }
      }
      assert !keep ==> MatFiles(listing) == r0 && MatIndices(listing) == i0 by {
        if !keep {
          assert MatFiles(listing) == r0;
          assert MatIndices(listing) == i0;
        }
      }
      IndexedStep(listing, r0, i0, MatFiles(listing), MatIndices(listing), keep);
    }
  }

  /** One step of a filter that keeps listing order: the picked elements
      at the picked positions stay so when the last element is kept or dropped. */
  lemma IndexedStep<T>(xs: seq<T>, r0: seq<T>, i0: seq<nat>, r: seq<T>, idx: seq<nat>, keep: bool)
    requires |xs| > 0 && |r0| == |i0|
    requires forall k :: 0 <= k < |i0| ==> i0[k] < |xs| && r0[k] == xs[i0[k]]
    requires keep ==> r == r0 + [xs[|xs| - 1]] && idx == i0 + [|xs| - 1]
    requires !keep ==> r == r0 && idx == i0
    ensures |r| == |idx|
    ensures forall k :: 0 <= k < |idx| ==> r[k] == xs[idx[k]]
  {
    if keep {
      forall k | 0 <= k < |idx| ensures r[k] == xs[idx[k]] {
        if k < |i0| {
          assert r[k] == r0[k] && idx[k] == i0[k];
        }
      }
    }
  }

  /** Lines 48-55 for one file: its windows, or nothing when `data_load` raises. */
  function FileSegments<S>(e: Entry<S>, cid: int): (r: Segments<S>)
    ensures LabelledAll(r, cid)
    ensures Load(e.content, e.name, cid).Failure? ==> r == Empty()
  {
    match Load(e.content, e.name, cid)
    case Success(s) => s
    case Failure(_) => Empty()
  }

  /** Lines 47-55: the files of one directory, in order. */
  function FilesSegments<S>(files: seq<Entry<S>>, cid: int): (r: Segments<S>)
    ensures LabelledAll(r, cid)
    ensures files == [] ==> r == Empty()
  {
    if files == [] then Empty()
    else Join(FilesSegments(files[..|files| - 1], cid), FileSegments(files[|files| - 1], cid))
  }

  /** Lines 33-55: one (class, domain) directory. A missing directory and a
      directory without `.mat` files contribute nothing. */
  function ClassDirSegments<S>(tree: Tree<S>, cname: string, cid: int, dom: string): (r: Segments<S>)
    ensures LabelledAll(r, cid)
    ensures (cname, dom) !in tree ==> r == Empty()
    ensures (cname, dom) in tree && MatFiles(tree[(cname, dom)]) == [] ==> r == Empty()
    ensures (cname, dom) in tree ==> r == FilesSegments(MatFiles(tree[(cname, dom)]), cid)
  {
    if (cname, dom) !in tree then Empty()
    else
      var matFiles := MatFiles(tree[(cname, dom)]);
      if |matFiles| == 0 then Empty() else FilesSegments(matFiles, cid)
  }

  /** Lines 32-55: the given classes of one domain, in order. */
  function ClassesSegments<S>(tree: Tree<S>, classes: seq<(string, int)>, dom: string): (r: Segments<S>)
    ensures |r.data| == |r.lab|
    ensures forall i :: 0 <= i < |r.lab| ==> exists j :: 0 <= j < |classes| && r.lab[i] == classes[j].1
  {
    if classes == [] then Empty()
    else
      var init := classes[..|classes| - 1];
      var (cname, cid) := classes[|classes| - 1];
      var a := ClassesSegments(tree, init, dom);
      var b := ClassDirSegments(tree, cname, cid, dom);
      var r := Join(a, b);
      assert forall j :: 0 <= j < |init| ==> init[j] == classes[j];
      assert forall i :: 0 <= i < |r.lab| ==>
        if i < |a.lab| then r.lab[i] == a.lab[i] else r.lab[i] == b.lab[i - |a.lab|];
      r
  }

  /** All classes of one domain, in `CLASS_MAP` order: one label per
      sample, and every label is one of the four class ids. */
  function DomainSegments<S>(tree: Tree<S>, dom: string): (r: Segments<S>)
    ensures |r.data| == |r.lab|
    ensures forall i :: 0 <= i < |r.lab| ==> 0 <= r.lab[i] <= 3
  {
    ClassesSegments(tree, ClassMap, dom)
  }

  /** Lines 27-58: the whole pass over `n`; `Failure(d)` for the first domain
      id `d` that `DOMAIN_MAP` does not know (the `KeyError` at line 30). */
  function Assemble<S>(tree: Tree<S>, n: seq<int>): (r: Result<Segments<S>, int>)
    ensures r.Success? ==> |r.value.data| == |r.value.lab|
  {
    if n == [] then Success(Empty())
    else
      match DomainLabel(n[0])
      case None => Failure(n[0])
      case Some(dom) =>
        match Assemble(tree, n[1..])
        case Failure(d) => Failure(d)
        case Success(rest) => Success(Join(DomainSegments(tree, dom), rest))
  }

  /** A single known domain contributes exactly that domain's samples. */
  lemma AssembleOne<S>(tree: Tree<S>, d: int)
    requires DomainLabel(d).Some?
    ensures Assemble(tree, [d]) == Success(DomainSegments(tree, DomainLabel(d).value))
  {
    assert [d][1..] == [];
    JoinAssociative(DomainSegments(tree, DomainLabel(d).value), Empty(), Empty());
  }

  function Prepend<S>(acc: Segments<S>, r: Result<Segments<S>, int>): Result<Segments<S>, int> {
    match r
    case Success(s) => Success(Join(acc, s))
    case Failure(d) => Failure(d)
  }

  lemma JoinAssociative<S>(a: Segments<S>, b: Segments<S>, c: Segments<S>)
    ensures Join(Join(a, b), c) == Join(a, Join(b, c))
    ensures Join(Empty(), a) == a && Join(a, Empty()) == a
  {
  }

  lemma PrependJoin<S>(a: Segments<S>, b: Segments<S>, r: Result<Segments<S>, int>)
    ensures Prepend(Join(a, b), r) == Prepend(a, Prepend(b, r))
  {
    if r.Success? { JoinAssociative(a, b, r.value); }
  }

  lemma FilesSegmentsStep<S>(files: seq<Entry<S>>, k: nat, cid: int, loaded: Result<Segments<S>, LoadError>)
    requires k < |files| && loaded == Load(files[k].content, files[k].name, cid)
    ensures loaded.Success? ==> FilesSegments(files[..k + 1], cid) == Join(FilesSegments(files[..k], cid), loaded.value)
    ensures loaded.Failure? ==> FilesSegments(files[..k + 1], cid) == FilesSegments(files[..k], cid)
  {
    assert files[..k + 1][..k] == files[..k];
  }

  /** Lines 33-55, the body of the class loop: one directory's files. */
  method LoadClassDir<S>(tree: Tree<S>, cname: string, cid: int, dom: string) returns (data: seq<seq<S>>, lab: seq<int>)
    ensures Segments(data, lab) == ClassDirSegments(tree, cname, cid, dom)
  {
    data, lab := [], [];
    if (cname, dom) !in tree {
      return;
    }
    var matFiles := MatFiles(tree[(cname, dom)]);
    if |matFiles| == 0 {
      return;
    }
    for k := 0 to |matFiles|
      invariant Segments(data, lab) == FilesSegments(matFiles[..k], cid)
    {
      var fn := matFiles[k];
      var loaded := DataLoadFile(fn.content, fn.name, cid);
      FilesSegmentsStep(matFiles, k, cid, loaded);
      if loaded.Success? {
        data := data + loaded.value.data;
        lab := lab + loaded.value.lab;
      }
    }
    assert matFiles[..|matFiles|] == matFiles;
  }

  /** Lines 32-55, the class loop for one domain. */
  method LoadDomain<S>(tree: Tree<S>, dom: string) returns (data: seq<seq<S>>, lab: seq<int>)
    ensures Segments(data, lab) == DomainSegments(tree, dom)
  {
    data, lab := [], [];
    for j := 0 to |ClassMap|
      invariant Segments(data, lab) == ClassesSegments(tree, ClassMap[..j], dom)
    {
      assert ClassMap[..j + 1][..j] == ClassMap[..j];
      var (cname, cid) := ClassMap[j];
      var dirData, dirLab := LoadClassDir(tree, cname, cid, dom);
      data := data + dirData;
      lab := lab + dirLab;
    }
    assert ClassMap[..|ClassMap|] == ClassMap;
  }

  /** Lines 20-58: the domain loop. */
  method GetFilesOf<S>(tree: Tree<S>, n: seq<int>) returns (r: Result<Segments<S>, int>)
    ensures r == Assemble(tree, n)
  {
    var data: seq<seq<S>> := [];
    var lab: seq<int> := [];
    assert n[0..] == n;
    assert Prepend(Empty(), Assemble(tree, n)) == Assemble(tree, n) by {
      if Assemble(tree, n).Success? { JoinAssociative(Assemble(tree, n).value, Empty(), Empty()); }
    }
    for i := 0 to |n|
      invariant Assemble(tree, n) == Prepend(Segments(data, lab), Assemble(tree, n[i..]))
    {
      assert n[i..][1..] == n[i + 1..];
      var domLabel := DomainLabel(n[i]);
      if domLabel.None? {
        return Failure(n[i]);
      }
      var dom := domLabel.value;
      var domData, domLab := LoadDomain(tree, dom);
      PrependJoin(Segments(data, lab), Segments(domData, domLab), Assemble(tree, n[i + 1..]));
      data := data + domData;
      lab := lab + domLab;
    }
    assert n[|n|..] == [];
    JoinAssociative(Segments(data, lab), Empty(), Empty());
    r := Success(Segments(data, lab));
  }

  // ---------------------------------------------------------------------
  // Properties of the pass

  /** The pass fails exactly when some requested domain id is unknown, and
      then it names the first such id; missing directories, directories
      without `.mat` files and files that do not load never make it fail. */
  lemma {:induction false} AssembleFailsOnlyOnUnknownDomain<S>(tree: Tree<S>, n: seq<int>)
    ensures Assemble(tree, n).Failure? <==> exists i :: 0 <= i < |n| && DomainLabel(n[i]).None?
    ensures Assemble(tree, n).Failure? ==>
      exists i :: 0 <= i < |n| && n[i] == Assemble(tree, n).error && DomainLabel(n[i]).None?
        && forall j :: 0 <= j < i ==> DomainLabel(n[j]).Some?
  {
    if n != [] {
      AssembleFailsOnlyOnUnknownDomain(tree, n[1..]);
      if DomainLabel(n[0]).Some? && Assemble(tree, n[1..]).Failure? {
        var i :| 0 <= i < |n[1..]| && n[1..][i] == Assemble(tree, n[1..]).error && DomainLabel(n[1..][i]).None?
          && forall j :: 0 <= j < i ==> DomainLabel(n[1..][j]).Some?;
        assert n[i + 1] == n[1..][i];
        forall j | 0 <= j < i + 1 ensures DomainLabel(n[j]).Some? {
          if j > 0 { assert n[j] == n[1..][j - 1]; }
        }
      }
      if exists i :: 0 <= i < |n| && DomainLabel(n[i]).None? {
        var i :| 0 <= i < |n| && DomainLabel(n[i]).None?;
        if i > 0 { assert n[1..][i - 1] == n[i]; }
      }
    }
  }

  /** Domains are processed in the caller's order: the samples of `n1 + n2`
      are those of `n1` followed by those of `n2`. */
  lemma {:induction false} AssembleAppend<S>(tree: Tree<S>, n1: seq<int>, n2: seq<int>)
    ensures Assemble(tree, n1 + n2) ==
      match Assemble(tree, n1)
      case Failure(d) => Failure(d)
      case Success(a) => Prepend(a, Assemble(tree, n2))
  {
    if n1 == [] {
      assert n1 + n2 == n2;
      match Assemble(tree, n2)
      case Failure(d) =>
      case Success(b) => assert Join(Empty(), b) == b;
    } else {
      assert (n1 + n2)[1..] == n1[1..] + n2;
      assert (n1 + n2)[0] == n1[0];
      AssembleAppend(tree, n1[1..], n2);
      if DomainLabel(n1[0]).Some? && Assemble(tree, n1[1..]).Success? {
        PrependJoin(DomainSegments(tree, DomainLabel(n1[0]).value), Assemble(tree, n1[1..]).value, Assemble(tree, n2));
      }
    }
  }

  /** Within one domain the classes come in `CLASS_MAP` order, each class's
      samples together, and every sample of class directory `cname` carries
      the id `CLASS_MAP[cname]`. */
  lemma DomainSegmentsByClass<S>(tree: Tree<S>, dom: string)
    ensures DomainSegments(tree, dom) ==
      Join(Join(Join(ClassDirSegments(tree, "normal", 0, dom), ClassDirSegments(tree, "inner", 1, dom)),
                ClassDirSegments(tree, "ball", 2, dom)),
           ClassDirSegments(tree, "outer", 3, dom))
    ensures forall c :: c in ClassMap ==> ClassId(c.0) == Some(c.1) && LabelledAll(ClassDirSegments(tree, c.0, c.1, dom), c.1)
  {
    var c3 := [("normal", 0), ("inner", 1), ("ball", 2)];
    var c2 := [("normal", 0), ("inner", 1)];
    var c1 := [("normal", 0)];
    ClassesSegmentsUnfold(tree, c1, dom, [], "normal", 0);
    ClassesSegmentsUnfold(tree, c2, dom, c1, "inner", 1);
    ClassesSegmentsUnfold(tree, c3, dom, c2, "ball", 2);
    ClassesSegmentsUnfold(tree, ClassMap, dom, c3, "outer", 3);
    assert ClassesSegments(tree, [], dom) == Empty();
    JoinAssociative(ClassDirSegments(tree, "normal", 0, dom), Empty(), Empty());
    forall c | c in ClassMap ensures ClassId(c.0) == Some(c.1) {
      ClassRoundTrip(c.0, c.1);
    }
  }

  /** One step of the class loop, with the split of `classes` named by the caller. */
  lemma ClassesSegmentsUnfold<S>(tree: Tree<S>, classes: seq<(string, int)>, dom: string,
                                 init: seq<(string, int)>, cname: string, cid: int)
    requires classes == init + [(cname, cid)]
    ensures ClassesSegments(tree, classes, dom) == Join(ClassesSegments(tree, init, dom), ClassDirSegments(tree, cname, cid, dom))
  {
    assert classes[..|classes| - 1] == init;
  }

  /** Every label is the id of a registered fault class. */
  predicate LabelsRegistered(lab: seq<int>) {
    forall i :: 0 <= i < |lab| ==> ClassName(lab[i]).Some?
  }

  lemma LabelsRegisteredConcat(a: seq<int>, b: seq<int>)
    requires LabelsRegistered(a) && LabelsRegistered(b)
    ensures LabelsRegistered(a + b)
  {
    forall i | 0 <= i < |a + b| ensures ClassName((a + b)[i]).Some? {
      if i >= |a| { assert (a + b)[i] == b[i - |a|]; } else { assert (a + b)[i] == a[i]; }
    }
  }

  lemma DomainLabelsRegistered<S>(tree: Tree<S>, dom: string)
    ensures LabelsRegistered(DomainSegments(tree, dom).lab)
  {
    var d := DomainSegments(tree, dom);
    forall i | 0 <= i < |d.lab| ensures ClassName(d.lab[i]).Some? {
      assert d.lab[i] in {0, 1, 2, 3};
    }
  }

  /** Every label the pass produces is the id of a registered fault class. */
  lemma {:induction false} AssembleLabelsRegistered<S>(tree: Tree<S>, n: seq<int>)
    requires Assemble(tree, n).Success?
    ensures forall i :: 0 <= i < |Assemble(tree, n).value.lab| ==> ClassName(Assemble(tree, n).value.lab[i]).Some?
  {
    if n != [] {
      AssembleLabelsRegistered(tree, n[1..]);
      var dom := DomainLabel(n[0]).value;
      DomainLabelsRegistered(tree, dom);
      LabelsRegisteredConcat(DomainSegments(tree, dom).lab, Assemble(tree, n[1..]).value.lab);
    }
  }

  /** A file that fails to load changes nothing: removing it from its
      directory's `.mat` files leaves the directory's samples as they were. */
  lemma FailedFileSkipped<S>(files: seq<Entry<S>>, k: nat, cid: int)
    requires k < |files| && Load(files[k].content, files[k].name, cid).Failure?
    ensures FilesSegments(files, cid) == FilesSegments(files[..k] + files[k + 1..], cid)
  {
    EmptyFileSkipped(files, k, cid);
  }

  /** Removing a file that contributes no samples leaves the directory's
      samples as they were. */
  lemma {:induction false} EmptyFileSkipped<S>(files: seq<Entry<S>>, k: nat, cid: int)
    requires k < |files| && FileSegments(files[k], cid) == Empty()
    ensures FilesSegments(files, cid) == FilesSegments(files[..k] + files[k + 1..], cid)
  {
    var init := files[..|files| - 1];
    var last := files[|files| - 1];
    var dropped := files[..k] + files[k + 1..];
    FilesSegmentsUnfold(files, cid, init, last);
    if k == |files| - 1 {
      assert init == dropped;
      JoinAssociative(FilesSegments(init, cid), Empty<S>(), Empty<S>());
    } else {
      assert init[k] == files[k];
      EmptyFileSkipped(init, k, cid);
      var rest := init[..k] + init[k + 1..];
      DropBeforeLast(files, k);
      FilesSegmentsUnfold(dropped, cid, rest, last);
    }
  }

  /** Removing an element other than the last commutes with splitting off the last. */
  lemma DropBeforeLast<T>(xs: seq<T>, k: nat)
    requires k < |xs| - 1
    ensures xs[..k] + xs[k + 1..] == (xs[..|xs| - 1][..k] + xs[..|xs| - 1][k + 1..]) + [xs[|xs| - 1]]
  {
    var init := xs[..|xs| - 1];
    assert xs[..k] == init[..k];
    assert xs[k + 1..] == init[k + 1..] + [xs[|xs| - 1]];
  }

  /** One step of the file loop, with the split of `files` named by the caller. */
  lemma FilesSegmentsUnfold<S>(files: seq<Entry<S>>, cid: int, init: seq<Entry<S>>, last: Entry<S>)
    requires files == init + [last]
    ensures FilesSegments(files, cid) == Join(FilesSegments(init, cid), FileSegments(last, cid))
  {
    assert files[..|files| - 1] == init;
  }

}
