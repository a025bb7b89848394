/** From the directories that are walked to the files and directories that a sync pass changes. */
module Trees {
  import opened Text
  import opened Glob
  import opened Walk
  import opened Manifests
  import opened Plan
  import opened Mirror

  /** The names of a path. */
  function Split(s: string): (p: seq<string>)
    ensures p != []
  {
    if '/' in s then [s[..FirstSlash(s)]] + Split(s[FirstSlash(s) + 1..]) else [s]
  }

  lemma {:induction false} JoinFrom(rel: string, p: seq<string>)
    requires rel != "" && p != [] && forall k | 0 <= k < |p| :: GoodName(p[k])
    ensures Join(rel, p) == rel + "/" + Join("", p)
    decreases |p|
  {
    if |p| > 1 {
      JoinFrom(ChildPath(rel, p[0]), p[1..]);
      JoinFrom(p[0], p[1..]);
    } else {
      assert p[1..] == [];
    }
  }

  /** A path is its first name, a slash, and the rest. */
  lemma JoinFirst(p: seq<string>)
    requires p != [] && forall k | 0 <= k < |p| :: GoodName(p[k])
    ensures Join("", p) == if |p| == 1 then p[0] else p[0] + "/" + Join("", p[1..])
  {
    if |p| > 1 {
      JoinFrom(p[0], p[1..]);
    } else {
      assert p[1..] == [];
    }
  }

  lemma {:induction false} FirstSlashIs(s: string, n: nat)
    requires n < |s| && s[n] == '/' && forall k | 0 <= k < n :: s[k] != '/'
    ensures '/' in s && FirstSlash(s) == n
  {
    if n > 0 { FirstSlashIs(s[1..], n - 1); }
  }

  lemma SlashFound(a: string, b: string)
    requires '/' !in a
    ensures '/' in a + "/" + b && FirstSlash(a + "/" + b) == |a|
    ensures (a + "/" + b)[..|a|] == a && (a + "/" + b)[|a| + 1..] == b
  {
    var s := a + "/" + b;
    assert forall k | 0 <= k < |a| :: s[k] == a[k] && a[k] in a;
    FirstSlashIs(s, |a|);
  }

  /** The names of a path are told apart by the slashes. */
  lemma {:induction false} SplitJoin(p: seq<string>)
    requires p != [] && forall k | 0 <= k < |p| :: GoodName(p[k])
    ensures Split(Join("", p)) == p
    decreases |p|
  {
    JoinFirst(p);
    if |p| > 1 {
      SlashFound(p[0], Join("", p[1..]));
      SplitJoin(p[1..]);
      assert p == [p[0]] + p[1..];
    } else {
      assert p == [p[0]];
    }
  }

  /** The directories of a path are its shorter beginnings. */
  lemma {:induction false} ParentNames(p: seq<string>, d: string) returns (n: nat)
    requires p != [] && (forall k | 0 <= k < |p| :: GoodName(p[k])) && d in Parents(Join("", p))
    ensures 0 < n < |p| && d == Join("", p[..n])
    decreases |p|
  {
    var s, a := Join("", p), p[0];
    var k :| 0 <= k < |s| && s[k] == '/' && d == s[..k];
    JoinFirst(p);
    assert forall i | 0 <= i < |a| :: s[i] == a[i] && a[i] in a;
    n := 1;
    if |p| > 1 {
      var b := Join("", p[1..]);
      if k == |a| {
        JoinFirst(p[..1]);
        assert p[..1][0] == a && s[..k] == a;
      } else {
        var m := k - |a| - 1;
        assert b[m] == s[k] && s[..k] == a + "/" + b[..m];
        assert b[..m] in Parents(b);
        n := ParentNames(p[1..], b[..m]);
        n := n + 1;
        JoinFirst(p[..n]);
        assert p[..n][1..] == p[1..][..n - 1];
      }
    }
  }

  // --- Trees -------------------------------------------------------------------------

  /** The tree has the files of this directory, with their sizes and times, and its directories. */
  ghost predicate Depicts(root: Node, t: Tree) {
    && (forall p, info | p != [] && Lookup(root, p) == Some(File(Some(info))) ::
          Join("", p) in t.files && t.files[Join("", p)] == Meta(info.size, info.mtime))
    && (forall path | path in t.files :: exists p :: IsFileAt(root, p, path))
    && (forall path | path in t.dirs :: exists p :: IsDirAt(root, p, path))
    && (forall p | p != [] && Lookup(root, p).Some? && Lookup(root, p).value.Dir? :: Join("", p) in t.dirs)
  }

  ghost predicate IsFileAt(root: Node, p: seq<string>, path: string) {
    && p != [] && path == Join("", p)
    && Lookup(root, p).Some? && Lookup(root, p).value.File? && Lookup(root, p).value.info.Some?
  }

  ghost predicate IsDirAt(root: Node, p: seq<string>, path: string) {
    p != [] && Lookup(root, p).Some? && Lookup(root, p).value.Dir? && path == Join("", p)
  }

  lemma OnePlace(root: Node, p: seq<string>, q: seq<string>)
    requires WellFormed(root) && Lookup(root, p).Some? && Lookup(root, q).Some? && p != [] && q != []
    ensures Join("", p) == Join("", q) ==> p == q
  {
    NamesGood(root, p);
    NamesGood(root, q);
    SplitJoin(p);
    SplitJoin(q);
  }

  lemma {:induction false} OnlyDirsAbove(node: Node, p: seq<string>, n: nat)
    requires Lookup(node, p).Some? && n < |p|
    ensures Lookup(node, p[..n]).Some? && Lookup(node, p[..n]).value.Dir?
    decreases n
  {
    if n > 0 {
      OnlyDirsAbove(Child(node, p[0]).value, p[1..], n - 1);
      assert p[..n][1..] == p[1..][..n - 1];
    }
  }

  lemma ParentsDepicted(root: Node, t: Tree, p: seq<string>)
    requires WellFormed(root) && Depicts(root, t) && p != [] && Lookup(root, p).Some?
    ensures Parents(Join("", p)) <= t.dirs
  {
    NamesGood(root, p);
    forall d | d in Parents(Join("", p)) ensures d in t.dirs {
      var n := ParentNames(p, d);
      OnlyDirsAbove(root, p, n);
    }
  }

  /** What a directory looks like is a valid tree. */
  lemma DepictedIsValid(root: Node, t: Tree)
    requires WellFormed(root) && Depicts(root, t)
    ensures ValidTree(t)
  {
    forall path | path in t.files ensures path !in t.dirs && Parents(path) <= t.dirs {
      var p :| IsFileAt(root, p, path);
      ParentsDepicted(root, t, p);
      if path in t.dirs {
        var q :| IsDirAt(root, q, path);
        OnePlace(root, p, q);
      }
    }
    forall d | d in t.dirs ensures Parents(d) <= t.dirs {
      var p :| IsDirAt(root, p, d);
      ParentsDepicted(root, t, p);
    }
  }

  /** What a listing of the directory shows. */
  ghost function ViewOf(root: Node, useGitignore: bool): View {
    path => Included(root, "", [], Split(path), useGitignore)
  }

  lemma EntryShown(root: Node, t: Tree, useGitignore: bool, e: Entry)
    requires WellFormed(root) && Depicts(root, t) && Manifest(root, useGitignore).Ok?
    requires e in Manifest(root, useGitignore).value
    ensures e.path in Shown(t.files, ViewOf(root, useGitignore)) && t.files[e.path] == MetaOf(e)
  {
    ManifestLists(root, useGitignore);
    var p :| Lists(root, "", [], useGitignore, p, e);
    NamesGood(root, p);
    SplitJoin(p);
  }

  lemma ShownEntry(root: Node, t: Tree, useGitignore: bool, path: string) returns (e: Entry)
    requires WellFormed(root) && Depicts(root, t) && Manifest(root, useGitignore).Ok?
    requires path in Shown(t.files, ViewOf(root, useGitignore))
    ensures e in Manifest(root, useGitignore).value && e.path == path
  {
    var p :| IsFileAt(root, p, path);
    var info := Lookup(root, p).value.info.value;
    NamesGood(root, p);
    SplitJoin(p);
    e := Entry(path, info.size, info.mtime);
    assert Lists(root, "", [], useGitignore, p, e);
    ManifestLists(root, useGitignore);
  }

  /** The manifest of a directory is a listing, in the sense of the planner's results, of the tree the
      directory looks like: of all its files without -gitignore, except those below ".git", and of the
      files that its rules leave otherwise. */
  lemma ManifestDescribes(root: Node, t: Tree, useGitignore: bool)
    requires WellFormed(root) && Depicts(root, t) && Manifest(root, useGitignore).Ok?
    ensures Describes(Manifest(root, useGitignore).value, t.files, ViewOf(root, useGitignore)) && ValidTree(t)
  {
    DepictedIsValid(root, t);
    ManifestSorted(root, useGitignore);
    var es, shown := Manifest(root, useGitignore).value, Shown(t.files, ViewOf(root, useGitignore));
    forall path ensures path in Index(es) <==> path in shown {
      IndexMeans(es, path);
      if path in Index(es) {
        var i :| 0 <= i < |es| && es[i].path == path;
        EntryShown(root, t, useGitignore, es[i]);
      }
      if path in shown {
        var e := ShownEntry(root, t, useGitignore, path);
        var i :| 0 <= i < |es| && es[i] == e;
      }
    }
    forall path | path in Index(es) ensures Index(es)[path] == shown[path] {
      IndexMeans(es, path);
      var i :| 0 <= i < |es| && es[i].path == path;
      EntryShown(root, t, useGitignore, es[i]);
    }
  }

  /** Without -gitignore only the names decide, so what is written or deleted changes no view. */
  lemma PlainView(root: Node, path: string)
    requires WellFormed(root) && Lookup(root, Split(path)).Some?
    ensures ViewOf(root, false)(path) <==> ".git" !in Split(path)
  {
    var p := Split(path);
    forall n | 0 < n <= |p| ensures Passes(root, "", [], p[..n], false) <==> p[n - 1] != ".git" {
      if n < |p| { OnlyDirsAbove(root, p, n); } else { assert p[..n] == p; }
    }
    if Included(root, "", [], p, false) {
      forall k | 0 <= k < |p| ensures p[k] != ".git" {
        assert Passes(root, "", [], p[..k + 1], false);
      }
    }
  }

  // --- A pass over directories without -gitignore ------------------------------------

  lemma FileNames(root: Node, t: Tree, path: string)
    requires WellFormed(root) && Depicts(root, t) && path in t.files
    ensures Lookup(root, Split(path)).Some?
  {
    var p :| IsFileAt(root, p, path);
    NamesGood(root, p);
    SplitJoin(p);
  }

  /** What a source lists has no name ".git" in it. */
  lemma ListedNames(source: Node, path: string)
    requires WellFormed(source) && Manifest(source, false).Ok? && path in Index(Manifest(source, false).value)
    ensures ".git" !in Split(path)
  {
    var es := Manifest(source, false).value;
    ManifestSorted(source, false);
    IndexMeans(es, path);
    var i :| 0 <= i < |es| && es[i].path == path;
    ManifestLists(source, false);
    var e := es[i];
    assert e in es;
    var p :| Lists(source, "", [], false, p, e);
    NamesGood(source, p);
    SplitJoin(p);
    forall k | 0 <= k < |p| ensures p[k] != ".git" {
      assert Passes(source, "", [], p[..k + 1], false);
    }
  }

  lemma SamePlainView(root: Node, t: Tree, root1: Node, t1: Tree, path: string)
    requires WellFormed(root) && Depicts(root, t) && WellFormed(root1) && Depicts(root1, t1)
    requires path in t.files && path in t1.files
    ensures ViewOf(root, false)(path) == ViewOf(root1, false)(path)
  {
    FileNames(root, t, path);
    FileNames(root1, t1, path);
    PlainView(root, path);
    PlainView(root1, path);
  }

  lemma CopiedIsShown(source: Node, root1: Node, t1: Tree, path: string)
    requires WellFormed(source) && Manifest(source, false).Ok? && path in Index(Manifest(source, false).value)
    requires WellFormed(root1) && Depicts(root1, t1) && path in t1.files
    ensures ViewOf(root1, false)(path)
  {
    ListedNames(source, path);
    FileNames(root1, t1, path);
    PlainView(root1, path);
  }

  lemma PlainSight(source: Node, root: Node, t: Tree, root1: Node, t1: Tree, plan: seq<Action>, k: nat, del: bool)
    requires WellFormed(source) && Manifest(source, false).Ok?
    requires WellFormed(root) && Depicts(root, t) && WellFormed(root1) && Depicts(root1, t1) && k <= |plan|
    requires forall p | Copy(p) in plan[..k] :: p in Index(Manifest(source, false).value)
    requires Progress(plan, k, Index(Manifest(source, false).value), t.files, t1.files)
    ensures SameSight(plan, k, Index(Manifest(source, false).value), t1.files, ViewOf(root, false),
                      ViewOf(root1, false), del)
  {
    var src := Index(Manifest(source, false).value);
    forall p | Copy(p) in plan[..k] ensures ViewOf(root1, false)(p) {
      CopiedIsShown(source, root1, t1, p);
    }
    forall p | p in t1.files && p in t.files ensures ViewOf(root, false)(p) == ViewOf(root1, false)(p) {
      SamePlainView(root, t, root1, t1, p);
    }
  }

  /** From one walk to the next: without -gitignore, and whatever the receiver has under ".git", a
      pass that was interrupted resumes exactly if and only if what it had copied was dated. */
  lemma ResumesPlain(source: Node, root: Node, t: Tree, root1: Node, del: bool, clock: Clock, k: nat)
    requires WellFormed(source) && source.Dir? && Manifest(source, false).Ok?
    requires WellFormed(root) && Manifest(root, false).Ok? && Depicts(root, t)
    requires WellFormed(root1) && Manifest(root1, false).Ok?
    requires Compatible(Index(Manifest(source, false).value), t) && forall i: nat :: clock(i) > 0
    requires var src := Manifest(source, false).value; var plan := PlanFor(src, Manifest(root, false).value, del);
             k <= |plan| && Depicts(root1, After(t, plan[..k], Index(src), clock))
    ensures var src := Manifest(source, false).value; var plan := PlanFor(src, Manifest(root, false).value, del);
            PlanFor(src, Manifest(root1, false).value, del) == plan[k..] <==> Dated(plan[..k], Index(src))
  {
    var src, dst := Manifest(source, false).value, Manifest(root, false).value;
    var plan := PlanFor(src, dst, del);
    var t1 := After(t, plan[..k], Index(src), clock);
    var view := ViewOf(root, false);
    ManifestsAreSources(source, false);
    ManifestDescribes(root, t, false);
    ManifestDescribes(root1, t1, false);
    PlanMirrors(src, dst, del);
    ProgressAfter(plan, k, Index(src), t, view, del, clock);
    CopiedFromSource(plan, k, Index(src), t.files, view, del);
    PlainSight(source, root, t, root1, t1, plan, k, del);
    Resumes(src, dst, t, view, del, clock, k, Manifest(root1, false).value, ViewOf(root1, false));
  }
}
