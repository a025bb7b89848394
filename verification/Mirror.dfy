/** Applying a plan, and starting over when a pass was interrupted. */
module Mirror {
  import opened Text
  import opened Sorting
  import opened Walk
  import opened Manifests
  import opened Plan

  /** The receiving side: its files, and its directories, which may be empty. */
  datatype Tree = Tree(files: Files, dirs: set<string>)

  /** A path is a file or a directory, not both, and everything lies in directories. */
  ghost predicate ValidTree(t: Tree) {
    && (forall p | p in t.files :: p !in t.dirs && Parents(p) <= t.dirs)
    && (forall d | d in t.dirs :: Parents(d) <= t.dirs)
  }

  /** A file cannot be written where a directory is, or below another file. */
  predicate Obstructed(t: Tree, path: string) {
    path in t.dirs || exists d :: d in Parents(path) && d in t.files
  }

  function FileWritten(t: Tree, path: string, meta: Meta): Tree {
    Tree(t.files[path := meta], t.dirs + Parents(path))
  }

  predicate Under(path: string, top: string) { path == top || top in Parents(path) }

  function Removed(t: Tree, top: string): Tree {
    Tree(map p | p in t.files && !Under(p, top) :: t.files[p], set d | d in t.dirs && !Under(d, top))
  }

  /** The writers set no time that is not positive, which leaves the time of writing. */
  function Stamped(meta: Meta, now: int): Meta {
    if meta.mtime > 0 then meta else meta.(mtime := now)
  }

  function Do(t: Tree, a: Action, src: Files, now: int): Tree {
    match a
    case Copy(p) => if p in src && !Obstructed(t, p) then FileWritten(t, p, Stamped(src[p], now)) else t
    case Delete(p) => Removed(t, p)
  }

  type Clock = nat -> int

  function After(t: Tree, plan: seq<Action>, src: Files, clock: Clock): Tree {
    if plan == [] then t
    else
      var n := |plan| - 1;
      Do(After(t, plan[..n], src, clock), plan[n], src, clock(n))
  }

  class Replica {
    var tree: Tree

    method Put(path: string, meta: Meta, now: int) returns (ok: bool)
      requires ValidTree(tree)
      modifies this
      ensures ok == !Obstructed(old(tree), path)
      ensures tree == if ok then FileWritten(old(tree), path, Stamped(meta, now)) else old(tree)
      ensures ok <==> path !in old(tree).dirs && forall d | d in Parents(path) :: d !in old(tree).files
      ensures ok ==>
                && tree.files == old(tree).files[path := Meta(meta.size, if meta.mtime > 0 then meta.mtime else now)]
                && tree.dirs == old(tree).dirs + Parents(path)
    {
      if exists d :: d in Parents(path) && d in tree.files { return false; }
      assert path in tree.dirs ==> tree.dirs + Parents(path) == tree.dirs;
      tree := tree.(dirs := tree.dirs + Parents(path));
      if path in tree.dirs { return false; }
      tree := tree.(files := tree.files[path := Meta(meta.size, now)]);
      if meta.mtime > 0 {
        tree := tree.(files := tree.files[path := Meta(meta.size, meta.mtime)]);
      }
      return true;
    }

    /** Nothing at or below the path is left, and everything else is as it was. */
    method RemoveAll(path: string)
      modifies this
      ensures forall p :: p in tree.files <==> p in old(tree).files && p != path && path !in Parents(p)
      ensures forall p | p in tree.files :: tree.files[p] == old(tree).files[p]
      ensures forall d :: d in tree.dirs <==> d in old(tree).dirs && d != path && path !in Parents(d)
      ensures ValidTree(old(tree)) ==> ValidTree(tree)
    {
      if ValidTree(tree) { DoKeepsValid(tree, Delete(path), map[], 0); }
      tree := Removed(tree, path);
    }
  }

  /** The paths a listing shows: it leaves out what is ignored, and everything under ".git". */
  type View = string -> bool

  function Shown(files: Files, view: View): Files {
    map p | p in files && view(p) :: files[p]
  }

  /** The listing is a manifest of those of these files that it shows. */
  ghost predicate Describes(es: seq<Entry>, files: Files, view: View) {
    DistinctBy(PathOf, es) && Index(es) == Shown(files, view)
  }

  /** No source path is a directory of another. */
  ghost predicate Flat(src: Files) {
    forall p, q | p in src && q in src :: p !in Parents(q)
  }

  /** What is asked of a source holds of every manifest of a real tree. */
  lemma ManifestsAreSources(root: Node, useGitignore: bool)
    requires WellFormed(root) && root.Dir? && Manifest(root, useGitignore).Ok?
    ensures DistinctBy(PathOf, Manifest(root, useGitignore).value) && Flat(Index(Manifest(root, useGitignore).value))
  {
    var es := Manifest(root, useGitignore).value;
    ManifestSorted(root, useGitignore);
    forall p, q | p in Index(es) && q in Index(es) ensures p !in Parents(q) {
      IndexMeans(es, p);
      IndexMeans(es, q);
      var i :| 0 <= i < |es| && es[i].path == p;
      var j :| 0 <= j < |es| && es[j].path == q;
      ManifestFlat(root, useGitignore, es[i], es[j]);
    }
  }

  /** No source path is a directory on the other side or lies below a file there. */
  ghost predicate Compatible(src: Files, t: Tree) {
    forall p | p in src :: !Obstructed(t, p)
  }

  lemma NotOwnParent(p: string)
    ensures p !in Parents(p)
  {
  }

  lemma ParentsNest(p: string, d: string)
    requires d in Parents(p)
    ensures Parents(d) <= Parents(p)
  {
    var k :| 0 <= k < |p| && p[k] == '/' && d == p[..k];
    forall e | e in Parents(d) ensures e in Parents(p) {
      var j :| 0 <= j < |d| && d[j] == '/' && e == d[..j];
      assert p[j] == '/' && e == p[..j];
    }
  }

  lemma DoKeepsValid(t: Tree, a: Action, src: Files, now: int)
    requires ValidTree(t)
    ensures ValidTree(Do(t, a, src, now))
  {
    match a
    case Copy(p) =>
      if p in src && !Obstructed(t, p) {
        NotOwnParent(p);
        var t1 := FileWritten(t, p, Stamped(src[p], now));
        forall d | d in t1.dirs ensures Parents(d) <= t1.dirs {
          if d in Parents(p) { ParentsNest(p, d); }
        }
        forall q | q in t1.files ensures q !in t1.dirs && Parents(q) <= t1.dirs {
          if q != p { assert q in t.files; }
        }
      }
    case Delete(p) =>
      var t1 := Removed(t, p);
      forall x, d | x !in {p} && !Under(x, p) && d in Parents(x) ensures !Under(d, p) {
        if p in Parents(d) { ParentsNest(x, d); }
      }
  }

  lemma DoKeepsCompatible(t: Tree, a: Action, src: Files, now: int)
    requires Compatible(src, t) && Flat(src)
    ensures Compatible(src, Do(t, a, src, now))
  {
    forall q | q in src ensures !Obstructed(Do(t, a, src, now), q) {
      assert !Obstructed(t, q);
    }
  }

  // --- Progress ----------------------------------------------------------------------

  /** The files after k actions: those copied are the source's, except for a time that was not set;
      those deleted are gone; all others are as they were. */
  ghost predicate Progress(plan: seq<Action>, k: nat, src: Files, before: Files, files: Files)
    requires k <= |plan|
  {
    && (forall p | p in src && Copy(p) in plan[..k] :: p in files && Arrived(files[p], src[p]))
    && (forall p | p in src && Copy(p) !in plan[..k] ::
          (p in files <==> p in before) && (p in files ==> files[p] == before[p]))
    && (forall p | p !in src ::
          (p in files <==> p in before && Delete(p) !in plan[..k]) && (p in files ==> files[p] == before[p]))
  }

  ghost predicate Arrived(file: Meta, source: Meta) {
    file.size == source.size && (file == source <==> source.mtime > 0)
  }

  lemma OrderedOnce(plan: seq<Action>, i: nat, k: nat)
    requires Ordered(plan) && i < k <= |plan|
    ensures plan[i] !in plan[k..]
  {
    assert forall j | k <= j < |plan| :: Before(plan[i], plan[j]);
  }

  lemma OneMoreDone(plan: seq<Action>, k: nat, a: Action)
    requires k < |plan|
    ensures a in plan[..k + 1] <==> a in plan[..k] || a == plan[k]
  {
    assert plan[..k + 1] == plan[..k] + [plan[k]];
  }

  lemma CopyProgress(plan: seq<Action>, k: nat, src: Files, before: Files, t: Tree, now: int)
    requires k < |plan| && plan[k].Copy? && plan[k].path in src && now > 0
    requires Progress(plan, k, src, before, t.files) && Compatible(src, t)
    ensures Progress(plan, k + 1, src, before, Do(t, plan[k], src, now).files)
  {
    var p := plan[k].path;
    assert Do(t, plan[k], src, now).files == t.files[p := Stamped(src[p], now)];
    forall a ensures a in plan[..k + 1] <==> a in plan[..k] || a == plan[k] { OneMoreDone(plan, k, a); }
  }

  lemma NothingBelow(t: Tree, p: string)
    requires ValidTree(t) && p in t.files
    ensures Removed(t, p).files == t.files - {p}
  {
    forall q | q in t.files && q != p ensures p !in Parents(q) {
      assert Parents(q) <= t.dirs;
    }
  }

  lemma DeleteProgress(plan: seq<Action>, k: nat, src: Files, before: Files, t: Tree, now: int)
    requires k < |plan| && plan[k].Delete? && plan[k].path !in src && plan[k].path in t.files
    requires Progress(plan, k, src, before, t.files) && ValidTree(t)
    ensures Progress(plan, k + 1, src, before, Do(t, plan[k], src, now).files)
  {
    NothingBelow(t, plan[k].path);
    forall a ensures a in plan[..k + 1] <==> a in plan[..k] || a == plan[k] { OneMoreDone(plan, k, a); }
  }

  /** A plan for what a listing showed, and sides that do not get in each other's way. */
  ghost predicate Ready(plan: seq<Action>, src: Files, t: Tree, view: View, del: bool, clock: Clock) {
    && ValidTree(t) && Compatible(src, t) && Flat(src)
    && Mirrors(plan, src, Shown(t.files, view), del)
    && forall i: nat :: clock(i) > 0
  }

  lemma Planned(plan: seq<Action>, k: nat, src: Files, files: Files, view: View, del: bool)
    requires Mirrors(plan, src, Shown(files, view), del) && k < |plan|
    ensures plan[k].Copy? ==> plan[k].path in src
    ensures plan[k].Delete? ==> plan[k].path !in src && plan[k].path in files && Delete(plan[k].path) !in plan[..k]
  {
    assert plan[k] in plan;
    match plan[k]
    case Copy(p) => assert Stale(src, Shown(files, view), p);
    case Delete(p) =>
      assert Extra(src, Shown(files, view), del, p);
      forall i | 0 <= i < k ensures plan[i] != plan[k] { assert Before(plan[i], plan[k]); }
  }

  lemma NothingDone(plan: seq<Action>, src: Files, files: Files)
    ensures Progress(plan, 0, src, files, files)
  {
    assert plan[..0] == [];
  }

  lemma AfterOneMore(t: Tree, plan: seq<Action>, k: nat, src: Files, clock: Clock)
    requires k < |plan|
    ensures After(t, plan[..k + 1], src, clock) == Do(After(t, plan[..k], src, clock), plan[k], src, clock(k))
  {
    assert plan[..k + 1][..k] == plan[..k];
  }

  lemma {:induction false} ProgressAfter(plan: seq<Action>, k: nat, src: Files, t: Tree, view: View, del: bool,
                                clock: Clock)
    requires Ready(plan, src, t, view, del, clock) && k <= |plan|
    ensures var tk := After(t, plan[..k], src, clock);
            ValidTree(tk) && Compatible(src, tk) && Progress(plan, k, src, t.files, tk.files)
  {
    if k == 0 {
      NothingDone(plan, src, t.files);
      assert plan[..0] == [];
    } else {
      var i := k - 1;
      ProgressAfter(plan, i, src, t, view, del, clock);
      var ti := After(t, plan[..i], src, clock);
      AfterOneMore(t, plan, i, src, clock);
      DoKeepsValid(ti, plan[i], src, clock(i));
      DoKeepsCompatible(ti, plan[i], src, clock(i));
      Planned(plan, i, src, t.files, view, del);
      if plan[i].Copy? {
        CopyProgress(plan, i, src, t.files, ti, clock(i));
      } else {
        DeleteProgress(plan, i, src, t.files, ti, clock(i));
      }
    }
  }

  // --- Resuming ----------------------------------------------------------------------

  /** All copies among these actions are of files with a positive time. */
  ghost predicate Dated(plan: seq<Action>, src: Files) {
    forall p :: Copy(p) in plan && p in src ==> src[p].mtime > 0
  }

  /** The listing that is made now shows what was copied, and of the rest that matters it shows what
      the first one did: files that are the same on both sides, and, if extra files are deleted, all
      others. */
  ghost predicate SameSight(plan: seq<Action>, k: nat, src: Files, files: Files, view: View, now: View, del: bool)
    requires k <= |plan|
  {
    && (forall p :: Copy(p) in plan[..k] ==> now(p))
    && (forall p | p in src && Copy(p) !in plan[..k] && p in files && files[p] == src[p] :: now(p) == view(p))
    && (del ==> forall p | p in files && p !in src :: now(p) == view(p))
  }

  lemma Remaining(plan: seq<Action>, k: nat, a: Action)
    requires Ordered(plan) && k <= |plan|
    ensures a in plan[k..] <==> a in plan && a !in plan[..k]
  {
    if a in plan[..k] {
      var i :| 0 <= i < k && plan[i] == a;
      OrderedOnce(plan, i, k);
    }
    assert plan == plan[..k] + plan[k..];
  }

  lemma OrderedSlice(plan: seq<Action>, k: nat)
    requires Ordered(plan) && k <= |plan|
    ensures Ordered(plan[k..])
  {
    forall i, j | 0 <= i < j < |plan[k..]| ensures Before(plan[k..][i], plan[k..][j]) {
      assert Before(plan[k + i], plan[k + j]);
    }
  }

  /** What has to hold of one path for the copies to come out right, and for the deletes. */
  ghost predicate CopySeen(plan: seq<Action>, k: nat, src: Files, files: Files, view: View, now: View, p: string)
    requires k <= |plan|
  {
    && (Copy(p) in plan[..k] ==> p in src && src[p].mtime > 0 && now(p))
    && (p in src && Copy(p) !in plan[..k] && p in files && files[p] == src[p] ==> now(p) == view(p))
  }

  ghost predicate DeleteSeen(src: Files, files: Files, view: View, now: View, del: bool, p: string) {
    del && p in files && p !in src ==> now(p) == view(p)
  }

  /** Which copies a listing asks for after k actions. */
  lemma CopyStillNeeded(plan: seq<Action>, k: nat, src: Files, before: Files, files: Files, view: View, now: View,
                        del: bool, p: string)
    requires Mirrors(plan, src, Shown(before, view), del) && k <= |plan| && Progress(plan, k, src, before, files)
    ensures (Copy(p) in plan[k..] <==> Stale(src, Shown(files, now), p))
            <==> CopySeen(plan, k, src, files, view, now, p)
  {
    Remaining(plan, k, Copy(p));
    assert Copy(p) in plan <==> Stale(src, Shown(before, view), p);
  }

  /** Which deletes it asks for. */
  lemma DeleteStillNeeded(plan: seq<Action>, k: nat, src: Files, before: Files, files: Files, view: View, now: View,
                          del: bool, p: string)
    requires Mirrors(plan, src, Shown(before, view), del) && k <= |plan| && Progress(plan, k, src, before, files)
    ensures (Delete(p) in plan[k..] <==> Extra(src, Shown(files, now), del, p))
            <==> DeleteSeen(src, files, view, now, del, p)
  {
    Remaining(plan, k, Delete(p));
    assert Delete(p) in plan <==> Extra(src, Shown(before, view), del, p);
  }

  lemma SeenIff(plan: seq<Action>, k: nat, src: Files, files: Files, view: View, now: View, del: bool)
    requires k <= |plan| && forall p | Copy(p) in plan[..k] :: p in src
    ensures Dated(plan[..k], src) && SameSight(plan, k, src, files, view, now, del)
            <==> (forall p :: CopySeen(plan, k, src, files, view, now, p))
                 && (forall p :: DeleteSeen(src, files, view, now, del, p))
  {
    if forall p :: CopySeen(plan, k, src, files, view, now, p) {
      assert forall p | Copy(p) in plan[..k] :: CopySeen(plan, k, src, files, view, now, p);
      assert forall p | p in src && p in files :: CopySeen(plan, k, src, files, view, now, p);
    }
    if forall p :: DeleteSeen(src, files, view, now, del, p) {
      assert forall p | p in files && p !in src :: DeleteSeen(src, files, view, now, del, p);
    }
  }

  lemma CopiedFromSource(plan: seq<Action>, k: nat, src: Files, before: Files, view: View, del: bool)
    requires Mirrors(plan, src, Shown(before, view), del) && k <= |plan|
    ensures forall p | Copy(p) in plan[..k] :: p in src
  {
    forall p | Copy(p) in plan[..k] ensures p in src {
      assert Copy(p) in plan;
      assert Stale(src, Shown(before, view), p);
    }
  }

  lemma RestMirrorsIff(plan: seq<Action>, k: nat, src: Files, before: Files, files: Files, view: View, now: View,
                       del: bool)
    requires Mirrors(plan, src, Shown(before, view), del) && k <= |plan| && Progress(plan, k, src, before, files)
    ensures Mirrors(plan[k..], src, Shown(files, now), del)
            <==> Dated(plan[..k], src) && SameSight(plan, k, src, files, view, now, del)
  {
    OrderedSlice(plan, k);
    CopiedFromSource(plan, k, src, before, view, del);
    SeenIff(plan, k, src, files, view, now, del);
    forall p ensures (Copy(p) in plan[k..] <==> Stale(src, Shown(files, now), p))
                     <==> CopySeen(plan, k, src, files, view, now, p)
    {
      CopyStillNeeded(plan, k, src, before, files, view, now, del, p);
    }
    forall p ensures (Delete(p) in plan[k..] <==> Extra(src, Shown(files, now), del, p))
                     <==> DeleteSeen(src, files, view, now, del, p)
    {
      DeleteStillNeeded(plan, k, src, before, files, view, now, del, p);
    }
  }

  /** Interrupted after any number of actions, the next pass plans exactly the remaining ones, if
      and only if every file copied so far had a positive time and the receiver's listing shows the
      same of what matters as it did before. */
  lemma Resumes(src: seq<Entry>, dst: seq<Entry>, t: Tree, view: View, del: bool, clock: Clock, k: nat,
                dst1: seq<Entry>, now: View)
    requires DistinctBy(PathOf, src) && Describes(dst, t.files, view) && k <= |PlanFor(src, dst, del)|
    requires ValidTree(t) && Compatible(Index(src), t) && Flat(Index(src)) && forall i: nat :: clock(i) > 0
    requires Describes(dst1, After(t, PlanFor(src, dst, del)[..k], Index(src), clock).files, now)
    ensures var plan := PlanFor(src, dst, del);
            var files := After(t, plan[..k], Index(src), clock).files;
            PlanFor(src, dst1, del) == plan[k..]
            <==> Dated(plan[..k], Index(src)) && SameSight(plan, k, Index(src), files, view, now, del)
  {
    var plan, s := PlanFor(src, dst, del), Index(src);
    PlanMirrors(src, dst, del);
    PlanMirrors(src, dst1, del);
    ProgressAfter(plan, k, s, t, view, del, clock);
    RestMirrorsIff(plan, k, s, t.files, After(t, plan[..k], s, clock).files, view, now, del);
    if Mirrors(plan[k..], s, Index(dst1), del) {
      MirrorUnique(PlanFor(src, dst1, del), plan[k..], s, Index(dst1), del);
    }
  }

  /** If what is shown does not change and shows all that the source has, only the times matter. This
      is so without -gitignore, whatever there is under ".git". */
  lemma SteadyView(plan: seq<Action>, k: nat, src: Files, files: Files, view: View, del: bool)
    requires k <= |plan| && forall p | p in src :: view(p)
    requires forall i | 0 <= i < k && plan[i].Copy? :: plan[i].path in src
    ensures SameSight(plan, k, src, files, view, view, del)
  {
    forall p | Copy(p) in plan[..k] ensures view(p) {
      var i :| 0 <= i < k && plan[i] == Copy(p);
    }
  }

  /** A file was half written over. */
  lemma CutMirrors(plan: seq<Action>, k: nat, src: Files, files: Files, now: View, del: bool, part: Meta)
    requires Ordered(plan) && k < |plan| && plan[k].Copy? && Mirrors(plan[k..], src, Shown(files, now), del)
    ensures var p := plan[k].path;
            p in src && Mirrors(if now(p) && part == src[p] then plan[k + 1..] else plan[k..],
                                src, Shown(files[p := part], now), del)
  {
    var p := plan[k].path;
    assert plan[k..] == [plan[k]] + plan[k + 1..];
    assert Copy(p) in plan[k..] && Stale(src, Shown(files, now), p);
    OrderedOnce(plan, k, k + 1);
    OrderedSlice(plan, k);
    OrderedSlice(plan, k + 1);
    var rest := if now(p) && part == src[p] then plan[k + 1..] else plan[k..];
    forall q ensures Copy(q) in rest <==> Stale(src, Shown(files[p := part], now), q) {
      assert Copy(q) in plan[k..] <==> Stale(src, Shown(files, now), q);
    }
    forall q ensures Delete(q) in rest <==> Extra(src, Shown(files[p := part], now), del, q) {
      assert Delete(q) in plan[k..] <==> Extra(src, Shown(files, now), del, q);
    }
  }

  /** A copy cut short leaves some part of the file with the time of writing. Planning again
      repeats that copy, unless what was left is shown and cannot be told from the whole file. */
  lemma ResumesAfterCut(src: seq<Entry>, dst: seq<Entry>, t: Tree, view: View, del: bool, clock: Clock, k: nat,
                        part: Meta, dst1: seq<Entry>, now: View)
    requires DistinctBy(PathOf, src) && Describes(dst, t.files, view)
    requires ValidTree(t) && Compatible(Index(src), t) && Flat(Index(src)) && forall i: nat :: clock(i) > 0
    requires k < |PlanFor(src, dst, del)| && PlanFor(src, dst, del)[k].Copy?
    requires var plan := PlanFor(src, dst, del);
             && Dated(plan[..k], Index(src))
             && SameSight(plan, k, Index(src), After(t, plan[..k], Index(src), clock).files, view, now, del)
    requires var plan := PlanFor(src, dst, del);
             Describes(dst1, FileWritten(After(t, plan[..k], Index(src), clock), plan[k].path, part).files, now)
    ensures var plan := PlanFor(src, dst, del); var p := plan[k].path;
            && p in Index(src)
            && PlanFor(src, dst1, del) == if now(p) && part == Index(src)[p] then plan[k + 1..] else plan[k..]
  {
    var plan, s := PlanFor(src, dst, del), Index(src);
    var files, p := After(t, plan[..k], s, clock).files, plan[k].path;
    PlanMirrors(src, dst, del);
    ProgressAfter(plan, k, s, t, view, del, clock);
    RestMirrorsIff(plan, k, s, t.files, files, view, now, del);
    CutMirrors(plan, k, s, files, now, del, part);
    PlanMirrors(src, dst1, del);
    var rest := if now(p) && part == s[p] then plan[k + 1..] else plan[k..];
    MirrorUnique(PlanFor(src, dst1, del), rest, s, Index(dst1), del);
  }

  // --- Converging --------------------------------------------------------------------

  /** The receiver's own files that a whole pass leaves: all that the source does not have, without
      those shown if extra files are deleted. */
  function Kept(files: Files, src: Files, view: View, del: bool): Files {
    map p | p in files && p !in src && !(del && view(p)) :: files[p]
  }

  lemma AllCopied(plan: seq<Action>, src: Files, before: Files, files: Files, view: View, del: bool, p: string)
    requires Mirrors(plan, src, Shown(before, view), del) && Progress(plan, |plan|, src, before, files)
    requires Dated(plan, src)
    ensures p in src ==> p in files && files[p] == src[p]
    ensures p !in src ==> (p in files <==> p in Kept(before, src, view, del)) && (p in files ==> files[p] == before[p])
  {
    assert plan[..|plan|] == plan;
    assert Copy(p) in plan <==> Stale(src, Shown(before, view), p);
    assert Delete(p) in plan <==> Extra(src, Shown(before, view), del, p);
  }

  lemma WholePass(plan: seq<Action>, src: Files, before: Files, files: Files, view: View, del: bool)
    requires Mirrors(plan, src, Shown(before, view), del) && Progress(plan, |plan|, src, before, files)
    requires Dated(plan, src)
    ensures files == Kept(before, src, view, del) + src
  {
    forall p ensures p in files <==> p in Kept(before, src, view, del) + src {
      AllCopied(plan, src, before, files, view, del, p);
    }
    forall p | p in files ensures files[p] == (Kept(before, src, view, del) + src)[p] {
      AllCopied(plan, src, before, files, view, del, p);
    }
  }

  /** A whole pass over dated files leaves the source's files and of its own what it is to keep; and
      there is nothing left to do if and only if the receiver's listing still shows what matters. */
  lemma Converges(src: seq<Entry>, dst: seq<Entry>, t: Tree, view: View, del: bool, clock: Clock,
                  dst1: seq<Entry>, now: View)
    requires DistinctBy(PathOf, src) && Describes(dst, t.files, view) && Dated(PlanFor(src, dst, del), Index(src))
    requires ValidTree(t) && Compatible(Index(src), t) && Flat(Index(src)) && forall i: nat :: clock(i) > 0
    requires Describes(dst1, After(t, PlanFor(src, dst, del), Index(src), clock).files, now)
    ensures var plan := PlanFor(src, dst, del); var files := After(t, plan, Index(src), clock).files;
            && files == Kept(t.files, Index(src), view, del) + Index(src)
            && (PlanFor(src, dst1, del) == [] <==> SameSight(plan, |plan|, Index(src), files, view, now, del))
  {
    var plan, s := PlanFor(src, dst, del), Index(src);
    PlanMirrors(src, dst, del);
    PlanMirrors(src, dst1, del);
    FullyDone(plan, s, t, view, del, clock, now);
    if Mirrors([], s, Index(dst1), del) {
      MirrorUnique(PlanFor(src, dst1, del), [], s, Index(dst1), del);
    }
  }

  lemma FullyDone(plan: seq<Action>, src: Files, t: Tree, view: View, del: bool, clock: Clock, now: View)
    requires Ready(plan, src, t, view, del, clock) && Dated(plan, src)
    ensures var files := After(t, plan, src, clock).files;
            && files == Kept(t.files, src, view, del) + src
            && (Mirrors([], src, Shown(files, now), del) <==> SameSight(plan, |plan|, src, files, view, now, del))
  {
    assert plan[..|plan|] == plan && plan[|plan|..] == [];
    var files := After(t, plan, src, clock).files;
    ProgressAfter(plan, |plan|, src, t, view, del, clock);
    WholePass(plan, src, t.files, files, view, del);
    RestMirrorsIff(plan, |plan|, src, t.files, files, view, now, del);
  }

  // --- When a pass gets through ------------------------------------------------------

  ghost predicate GetsThrough(t: Tree, plan: seq<Action>, src: Files, clock: Clock) {
    forall k | 0 <= k < |plan| && plan[k].Copy? :: !Obstructed(After(t, plan[..k], src, clock), plan[k].path)
  }

  lemma {:induction false} CopiesOnlyAdd(t: Tree, plan: seq<Action>, src: Files, clock: Clock)
    requires forall i | 0 <= i < |plan| :: plan[i].Copy?
    ensures t.files.Keys <= After(t, plan, src, clock).files.Keys && t.dirs <= After(t, plan, src, clock).dirs
  {
    if plan != [] { CopiesOnlyAdd(t, plan[..|plan| - 1], src, clock); }
  }

  lemma CopiesGetThrough(plan: seq<Action>, k: nat, src: Files, t: Tree, view: View, del: bool, clock: Clock)
    requires Ready(plan, src, t, view, del, clock) && k < |plan| && plan[k].Copy?
    ensures !Obstructed(After(t, plan[..k], src, clock), plan[k].path)
  {
    ProgressAfter(plan, k, src, t, view, del, clock);
    Planned(plan, k, src, t.files, view, del);
  }

  /** An obstruction at the start is still there when it is the file's turn. */
  lemma ObstructionStays(plan: seq<Action>, src: Files, t: Tree, view: View, del: bool, clock: Clock, p: string)
    requires ValidTree(t) && Mirrors(plan, src, Shown(t.files, view), del) && p in src && Obstructed(t, p)
    ensures !GetsThrough(t, plan, src, clock)
  {
    assert Stale(src, Shown(t.files, view), p);
    var k :| 0 <= k < |plan| && plan[k] == Copy(p);
    forall i | 0 <= i < k ensures plan[..k][i].Copy? { assert Before(plan[i], plan[k]); }
    CopiesOnlyAdd(t, plan[..k], src, clock);
    assert Obstructed(After(t, plan[..k], src, clock), p);
  }

  /** A pass fails exactly when some source path is a directory on the other side or lies below
      a file there, even one that was to be deleted: copies come before deletes. */
  lemma GetsThroughIff(plan: seq<Action>, src: Files, t: Tree, view: View, del: bool, clock: Clock)
    requires ValidTree(t) && Flat(src) && Mirrors(plan, src, Shown(t.files, view), del) && forall i: nat :: clock(i) > 0
    ensures GetsThrough(t, plan, src, clock) <==> Compatible(src, t)
  {
    if Compatible(src, t) {
      forall k | 0 <= k < |plan| && plan[k].Copy? ensures !Obstructed(After(t, plan[..k], src, clock), plan[k].path) {
        CopiesGetThrough(plan, k, src, t, view, del, clock);
      }
    } else {
      var p :| p in src && Obstructed(t, p);
      ObstructionStays(plan, src, t, view, del, clock, p);
    }
  }

  method Perform(a: Action, localBy: Files, dst: Replica, now: int) returns (ok: bool)
    requires ValidTree(dst.tree) && (a.Copy? ==> a.path in localBy)
    modifies dst
    ensures ok == !(a.Copy? && Obstructed(old(dst.tree), a.path))
    ensures dst.tree == Do(old(dst.tree), a, localBy, now) && ValidTree(dst.tree)
  {
    DoKeepsValid(dst.tree, a, localBy, now);
    match a {
      case Copy(p) =>
        ok := dst.Put(p, localBy[p], now);
      case Delete(p) =>
        ghost var before := dst.tree;
        dst.RemoveAll(p);
        assert dst.tree.files == Removed(before, p).files && dst.tree.dirs == Removed(before, p).dirs;
        ok := true;
    }
  }

  lemma OneMore(t: Tree, plan: seq<Action>, i: nat, src: Files, clock: Clock)
    requires i < |plan|
    ensures var fails := plan[i].Copy? && Obstructed(After(t, plan[..i], src, clock), plan[i].path);
            && (GetsThrough(t, plan[..i], src, clock) && !fails ==> GetsThrough(t, plan[..i + 1], src, clock))
            && (fails ==> !GetsThrough(t, plan, src, clock))
  {
    var more := plan[..i + 1];
    assert forall k | 0 <= k <= i :: more[..k] == plan[..i][..k];
    assert more[..i] == plan[..i];
  }

  lemma CopiesKnown(plan: seq<Action>, src: Files, dst: Files, del: bool)
    requires Mirrors(plan, src, dst, del)
    ensures forall i | 0 <= i < |plan| && plan[i].Copy? :: plan[i].path in src
  {
    forall i | 0 <= i < |plan| && plan[i].Copy? ensures plan[i].path in src {
      assert Copy(plan[i].path) in plan;
      assert Stale(src, dst, plan[i].path);
    }
  }

  /** The loop over the actions. The result names the one that failed, if any. */
  method Apply(actions: seq<Action>, localBy: Files, dst: Replica, clock: Clock) returns (failed: Option<nat>)
    requires ValidTree(dst.tree) && forall i | 0 <= i < |actions| && actions[i].Copy? :: actions[i].path in localBy
    modifies dst
    ensures failed.None? <==> GetsThrough(old(dst.tree), actions, localBy, clock)
    ensures failed.None? ==> dst.tree == After(old(dst.tree), actions, localBy, clock)
    ensures failed.Some? ==>
              && failed.value < |actions| && actions[failed.value].Copy?
              && dst.tree == After(old(dst.tree), actions[..failed.value], localBy, clock)
              && Obstructed(dst.tree, actions[failed.value].path)
  {
    ghost var start := dst.tree;
    for i := 0 to |actions|
      invariant dst.tree == After(start, actions[..i], localBy, clock) && ValidTree(dst.tree)
      invariant GetsThrough(start, actions[..i], localBy, clock)
    {
      OneMore(start, actions, i, localBy, clock);
      AfterOneMore(start, actions, i, localBy, clock);
      var ok := Perform(actions[i], localBy, dst, clock(i));
      if !ok { return Some(i); }
    }
    assert actions[..|actions|] == actions;
    return None;
  }

  /** One pass in either direction. It completes exactly if the two sides are compatible. */
  method RunPass(src: seq<Entry>, listed: seq<Entry>, dst: Replica, del: bool, dryRun: bool, clock: Clock,
                 ghost view: View)
    returns (failed: Option<nat>)
    requires DistinctBy(PathOf, src) && Flat(Index(src)) && ValidTree(dst.tree)
    requires Describes(listed, dst.tree.files, view) && forall i: nat :: clock(i) > 0
    modifies dst
    ensures dryRun ==> failed.None? && dst.tree == old(dst.tree)
    ensures !dryRun ==> (failed.None? <==> Compatible(Index(src), old(dst.tree)))
    ensures !dryRun ==>
              var plan := PlanFor(src, listed, del);
              if failed.None? then dst.tree == After(old(dst.tree), plan, Index(src), clock)
              else && failed.value < |plan| && plan[failed.value].Copy?
                   && dst.tree == After(old(dst.tree), plan[..failed.value], Index(src), clock)
                   && Obstructed(dst.tree, plan[failed.value].path)
  {
    var actions := PlanSync(src, listed, del);
    if dryRun { return None; }
    var localBy := BuildIndex(src);
    GetsThroughIff(actions, localBy, dst.tree, view, del, clock);
    CopiesKnown(actions, localBy, Shown(dst.tree.files, view), del);
    failed := Apply(actions, localBy, dst, clock);
  }
}
