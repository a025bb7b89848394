/** The sync planner: what has to be copied and deleted to make one tree mirror another. */
module Plan {
  import opened Text
  import opened Sorting
  import opened Walk

  datatype Action = Copy(path: string) | Delete(path: string)

  function ActionPath(a: Action): string { a.path }

  datatype Meta = Meta(size: nat, mtime: int)

  type Files = map<string, Meta>

  function MetaOf(e: Entry): Meta { Meta(e.size, e.mtime) }

  /** A listing by path; of two entries for one path the later one counts. */
  function Index(es: seq<Entry>): Files {
    if es == [] then map[]
    else
      var last := es[|es| - 1];
      Index(es[..|es| - 1])[last.path := MetaOf(last)]
  }

  predicate Stale(src: Files, dst: Files, path: string) {
    path in src && !(path in dst && dst[path] == src[path])
  }

  predicate Extra(src: Files, dst: Files, del: bool, path: string) {
    del && path in dst && path !in src
  }

  // --- The loops ---------------------------------------------------------------------

  function Copies(src: seq<Entry>, dst: Files): seq<Action> {
    if src == [] then []
    else
      var s := src[|src| - 1];
      Copies(src[..|src| - 1], dst)
      + if s.path in dst && dst[s.path] == MetaOf(s) then [] else [Copy(s.path)]
  }

  function Deletes(dst: seq<Entry>, src: Files): seq<Action> {
    if dst == [] then []
    else
      var d := dst[|dst| - 1];
      Deletes(dst[..|dst| - 1], src) + if d.path in src then [] else [Delete(d.path)]
  }

  function PlanFor(src: seq<Entry>, dst: seq<Entry>, del: bool): seq<Action> {
    Sort(ActionPath, Copies(src, Index(dst))) + Sort(ActionPath, if del then Deletes(dst, Index(src)) else [])
  }

  method BuildIndex(entries: seq<Entry>) returns (m: Files)
    ensures m == Index(entries)
  {
    m := map[];
    for i := 0 to |entries|
      invariant m == Index(entries[..i])
    {
      assert entries[..i + 1][..i] == entries[..i];
      m := m[entries[i].path := MetaOf(entries[i])];
    }
    assert entries[..|entries|] == entries;
  }

  method PlanSync(src: seq<Entry>, dst: seq<Entry>, del: bool) returns (plan: seq<Action>)
    ensures plan == PlanFor(src, dst, del)
    ensures DistinctBy(PathOf, src) && DistinctBy(PathOf, dst) ==> Mirrors(plan, Index(src), Index(dst), del)
  {
    var dstByPath := BuildIndex(dst);
    var srcByPath: set<string> := {};
    var copies: seq<Action>, deletes: seq<Action> := [], [];
    for i := 0 to |src|
      invariant srcByPath == Index(src[..i]).Keys
      invariant copies == Copies(src[..i], dstByPath)
    {
      assert src[..i + 1][..i] == src[..i];
      var s := src[i];
      srcByPath := srcByPath + {s.path};
      if s.path !in dstByPath || dstByPath[s.path].size != s.size || dstByPath[s.path].mtime != s.mtime {
        copies := copies + [Copy(s.path)];
      }
    }
    assert src[..|src|] == src;
    if del {
      for i := 0 to |dst|
        invariant deletes == Deletes(dst[..i], Index(src))
      {
        assert dst[..i + 1][..i] == dst[..i];
        if dst[i].path !in srcByPath {
          deletes := deletes + [Delete(dst[i].path)];
        }
      }
      assert dst[..|dst|] == dst;
    }
    plan := Sort(ActionPath, copies) + Sort(ActionPath, deletes);
    if DistinctBy(PathOf, src) && DistinctBy(PathOf, dst) {
      PlanMirrors(src, dst, del);
    }
  }

  // --- What a plan is ----------------------------------------------------------------

  /** Copies come before deletes, each kind in the order of the paths and without repetition;
      there is a copy for every file that is missing or different, a delete for every file that
      is too many, and nothing else. */
  ghost predicate Mirrors(plan: seq<Action>, src: Files, dst: Files, del: bool) {
    && Ordered(plan)
    && (forall p :: Copy(p) in plan <==> Stale(src, dst, p))
    && (forall p :: Delete(p) in plan <==> Extra(src, dst, del, p))
  }

  ghost predicate Before(a: Action, b: Action) {
    if a.Copy? == b.Copy? then a.path != b.path && Leq(a.path, b.path) else a.Copy?
  }

  ghost predicate Ordered(plan: seq<Action>) {
    forall i, j :: 0 <= i < j < |plan| ==> Before(plan[i], plan[j])
  }

  lemma {:induction false} IndexMeans(es: seq<Entry>, path: string)
    requires DistinctBy(PathOf, es)
    ensures path in Index(es) <==> exists i :: 0 <= i < |es| && es[i].path == path
    ensures forall i :: 0 <= i < |es| && es[i].path == path ==> path in Index(es) && Index(es)[path] == MetaOf(es[i])
  {
    if es != [] {
      var n := |es| - 1;
      IndexMeans(es[..n], path);
      assert forall i | 0 <= i < n :: es[..n][i] == es[i];
      if i :| 0 <= i < |es| && es[i].path == path {
        assert i < n ==> PathOf(es[i]) != PathOf(es[n]);
      }
      if path in Index(es[..n]) {
        var i :| 0 <= i < n && es[..n][i].path == path;
        assert es[i].path == path;
      }
    }
  }

  lemma {:induction false} CopiesMean(src: seq<Entry>, dst: Files, a: Action)
    ensures a in Copies(src, dst)
            <==> exists i :: 0 <= i < |src| && a == Copy(src[i].path)
                             && !(src[i].path in dst && dst[src[i].path] == MetaOf(src[i]))
  {
    if src != [] {
      var n := |src| - 1;
      CopiesMean(src[..n], dst, a);
      assert forall i | 0 <= i < n :: src[..n][i] == src[i];
    }
  }

  lemma {:induction false} DeletesMean(dst: seq<Entry>, src: Files, a: Action)
    ensures a in Deletes(dst, src) <==> exists i :: 0 <= i < |dst| && a == Delete(dst[i].path) && dst[i].path !in src
  {
    if dst != [] {
      var n := |dst| - 1;
      DeletesMean(dst[..n], src, a);
      assert forall i | 0 <= i < n :: dst[..n][i] == dst[i];
    }
  }

  lemma {:induction false} CopiesDistinct(src: seq<Entry>, dst: Files)
    requires DistinctBy(PathOf, src)
    ensures DistinctBy(ActionPath, Copies(src, dst))
  {
    if src != [] {
      var n := |src| - 1;
      CopiesDistinct(src[..n], dst);
      forall a | a in Copies(src[..n], dst) ensures a.path != src[n].path {
        CopiesMean(src[..n], dst, a);
        var i :| 0 <= i < n && a == Copy(src[..n][i].path);
        assert PathOf(src[i]) != PathOf(src[n]);
      }
    }
  }

  lemma {:induction false} DeletesDistinct(dst: seq<Entry>, src: Files)
    requires DistinctBy(PathOf, dst)
    ensures DistinctBy(ActionPath, Deletes(dst, src))
  {
    if dst != [] {
      var n := |dst| - 1;
      DeletesDistinct(dst[..n], src);
      forall a | a in Deletes(dst[..n], src) ensures a.path != dst[n].path {
        DeletesMean(dst[..n], src, a);
        var i :| 0 <= i < n && a == Delete(dst[..n][i].path);
        assert PathOf(dst[i]) != PathOf(dst[n]);
      }
    }
  }

  lemma CopiesAreStale(src: seq<Entry>, dst: Files, p: string)
    requires DistinctBy(PathOf, src)
    ensures Copy(p) in Copies(src, dst) <==> Stale(Index(src), dst, p)
  {
    CopiesMean(src, dst, Copy(p));
    IndexMeans(src, p);
  }

  lemma DeletesAreExtra(dst: seq<Entry>, src: Files, p: string)
    requires DistinctBy(PathOf, dst)
    ensures Delete(p) in Deletes(dst, src) <==> Extra(src, Index(dst), true, p)
  {
    DeletesMean(dst, src, Delete(p));
    IndexMeans(dst, p);
  }

  lemma OrderedParts(copies: seq<Action>, deletes: seq<Action>)
    requires SortedBy(ActionPath, copies) && DistinctBy(ActionPath, copies) && forall a :: a in copies ==> a.Copy?
    requires SortedBy(ActionPath, deletes) && DistinctBy(ActionPath, deletes) && forall a :: a in deletes ==> a.Delete?
    ensures Ordered(copies + deletes)
  {
    var plan := copies + deletes;
    forall i, j | 0 <= i < j < |plan| ensures Before(plan[i], plan[j]) {
      assert if i < |copies| then plan[i] == copies[i] && plan[i] in copies
             else plan[i] == deletes[i - |copies|] && plan[i] in deletes;
      assert if j < |copies| then plan[j] == copies[j] && plan[j] in copies
             else plan[j] == deletes[j - |copies|] && plan[j] in deletes;
      if j < |copies| {
        assert ActionPath(copies[i]) != ActionPath(copies[j]) && Leq(ActionPath(copies[i]), ActionPath(copies[j]));
      } else if i >= |copies| {
        var k, l := i - |copies|, j - |copies|;
        assert ActionPath(deletes[k]) != ActionPath(deletes[l]) && Leq(ActionPath(deletes[k]), ActionPath(deletes[l]));
      }
    }
  }

  lemma PlanMirrors(src: seq<Entry>, dst: seq<Entry>, del: bool)
    requires DistinctBy(PathOf, src) && DistinctBy(PathOf, dst)
    ensures Mirrors(PlanFor(src, dst, del), Index(src), Index(dst), del)
  {
    var copies := Copies(src, Index(dst));
    var deletes := if del then Deletes(dst, Index(src)) else [];
    CopiesDistinct(src, Index(dst));
    DeletesDistinct(dst, Index(src));
    SortDistinct(ActionPath, copies);
    SortDistinct(ActionPath, deletes);
    SortSorts(ActionPath, copies);
    SortSorts(ActionPath, deletes);
    forall a | a in Sort(ActionPath, copies) ensures a.Copy? { CopiesMean(src, Index(dst), a); }
    forall a | a in Sort(ActionPath, deletes) ensures a.Delete? { DeletesMean(dst, Index(src), a); }
    OrderedParts(Sort(ActionPath, copies), Sort(ActionPath, deletes));
    forall p ensures Copy(p) in PlanFor(src, dst, del) <==> Stale(Index(src), Index(dst), p) {
      CopiesAreStale(src, Index(dst), p);
    }
    forall p ensures Delete(p) in PlanFor(src, dst, del) <==> Extra(Index(src), Index(dst), del, p) {
      DeletesAreExtra(dst, Index(src), p);
    }
  }

  lemma StaleOnEntries(src: seq<Entry>, dst: seq<Entry>, p: string)
    requires DistinctBy(PathOf, src) && DistinctBy(PathOf, dst)
    ensures Stale(Index(src), Index(dst), p) <==> exists e :: e in src && e.path == p && e !in dst
  {
    IndexMeans(src, p);
    IndexMeans(dst, p);
    if e :| e in src && e.path == p && e !in dst {
      var i :| 0 <= i < |src| && src[i] == e;
      assert src[i].path == p;
      if j :| 0 <= j < |dst| && dst[j].path == p { assert dst[j] in dst && dst[j] != e; }
    }
    if Stale(Index(src), Index(dst), p) {
      var i :| 0 <= i < |src| && src[i].path == p;
      assert src[i] in src;
      forall j | 0 <= j < |dst| && dst[j].path == p ensures dst[j] != src[i] {}
      assert forall e | e in dst && e.path != p :: e != src[i];
    }
  }

  /** In terms of the two listings: a file is copied if and only if it is not on the other side with the
      same size and time, and deleted, if that is asked for, if and only if it is only there. */
  lemma PlanOnEntries(src: seq<Entry>, dst: seq<Entry>, del: bool, p: string)
    requires DistinctBy(PathOf, src) && DistinctBy(PathOf, dst)
    ensures Copy(p) in PlanFor(src, dst, del) <==> exists e :: e in src && e.path == p && e !in dst
    ensures Delete(p) in PlanFor(src, dst, del)
            <==> del && (exists e :: e in dst && e.path == p) && forall e | e in src :: e.path != p
  {
    PlanMirrors(src, dst, del);
    assert Copy(p) in PlanFor(src, dst, del) <==> Stale(Index(src), Index(dst), p);
    assert Delete(p) in PlanFor(src, dst, del) <==> Extra(Index(src), Index(dst), del, p);
    StaleOnEntries(src, dst, p);
    IndexMeans(src, p);
    IndexMeans(dst, p);
  }

  // --- A plan is determined by the two trees -----------------------------------------

  lemma FirstUnique(a: seq<Action>, b: seq<Action>)
    requires Ordered(a) && Ordered(b) && a != [] && b != [] && (forall x :: x in a <==> x in b)
    ensures a[0] == b[0]
  {
    assert a[0] in b && b[0] in a;
    var i :| 0 <= i < |b| && b[i] == a[0];
    var j :| 0 <= j < |a| && a[j] == b[0];
    if i > 0 && j > 0 {
      assert Before(b[0], b[i]) && Before(a[0], a[j]);
      LeqAntisymmetric(a[0].path, b[0].path);
    }
  }

  lemma OrderedRest(a: seq<Action>, x: Action)
    requires Ordered(a) && a != []
    ensures Ordered(a[1..]) && (x in a[1..] <==> x in a && x != a[0])
  {
    assert a[0] !in a[1..] by {
      assert forall j :: 0 < j < |a| ==> Before(a[0], a[j]);
    }
  }

  lemma {:induction false} OrderedUnique(a: seq<Action>, b: seq<Action>)
    requires Ordered(a) && Ordered(b) && (forall x :: x in a <==> x in b)
    ensures a == b
  {
    assert b != [] ==> b[0] in a;
    if a != [] {
      assert a[0] in b;
      FirstUnique(a, b);
      forall x ensures x in a[1..] <==> x in b[1..] {
        OrderedRest(a, x);
        OrderedRest(b, x);
      }
      OrderedUnique(a[1..], b[1..]);
    }
  }

  lemma MirrorUnique(a: seq<Action>, b: seq<Action>, src: Files, dst: Files, del: bool)
    requires Mirrors(a, src, dst, del) && Mirrors(b, src, dst, del)
    ensures a == b
  {
    forall x ensures x in a <==> x in b {
      match x
      case Copy(p) => assert Copy(p) in a <==> Stale(src, dst, p);
      case Delete(p) => assert Delete(p) in a <==> Extra(src, dst, del, p);
    }
    OrderedUnique(a, b);
  }
}
