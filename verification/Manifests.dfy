/** What a manifest contains, whatever order directories are read in. */
module Manifests {
  import opened Text
  import opened Sorting
  import opened Ignore
  import opened Walk

  predicate GoodName(name: string) { name != "" && '/' !in name }

  ghost predicate NamesOk(entries: seq<Named>) {
    && (forall i | 0 <= i < |entries| :: GoodName(entries[i].name))
    && (forall i, j | 0 <= i < j < |entries| :: entries[i].name != entries[j].name)
  }

  /** The names in each directory are file names, and distinct. */
  ghost predicate WellFormed(node: Node) {
    node.Dir? ==> NamesOk(node.entries) && forall i | 0 <= i < |node.entries| :: WellFormed(node.entries[i].node)
  }

  function Find(entries: seq<Named>, name: string): Option<Node> {
    if entries == [] then None
    else
      var last := entries[|entries| - 1];
      if last.name == name then Some(last.node) else Find(entries[..|entries| - 1], name)
  }

  function Child(dir: Node, name: string): Option<Node> {
    if dir.Dir? then Find(dir.entries, name) else None
  }

  function Lookup(node: Node, p: seq<string>): Option<Node>
    decreases |p|
  {
    if p == [] then Some(node)
    else
      var child := Child(node, p[0]);
      if child.None? then None else Lookup(child.value, p[1..])
  }

  function Join(rel: string, p: seq<string>): string
    decreases |p|
  {
    if p == [] then rel else Join(ChildPath(rel, p[0]), p[1..])
  }

  /** The rules of the directories from `node` down to p. */
  function RulesDown(node: Node, rel: string, inherited: seq<Rule>, p: seq<string>, useGitignore: bool): seq<Rule>
    decreases |p|
  {
    var here := RulesHere(node, rel, inherited, useGitignore);
    if p == [] || Child(node, p[0]).None? then here
    else RulesDown(Child(node, p[0]).value, ChildPath(rel, p[0]), here, p[1..], useGitignore)
  }

  /** The rules of the directories above q do not ignore it, and it is not called ".git". */
  ghost predicate Passes(node: Node, rel: string, inherited: seq<Rule>, q: seq<string>, useGitignore: bool)
    requires q != []
  {
    && q[|q| - 1] != ".git"
    && Lookup(node, q).Some?
    && (useGitignore ==>
          !Ignored(RulesDown(node, rel, inherited, q[..|q| - 1], useGitignore), Join(rel, q),
                   Lookup(node, q).value.Dir?))
  }

  /** This holds for p and for every directory on the way to it. */
  ghost predicate Included(node: Node, rel: string, inherited: seq<Rule>, p: seq<string>, useGitignore: bool) {
    forall n | 0 < n <= |p| :: Passes(node, rel, inherited, p[..n], useGitignore)
  }

  /** The entry describes a regular file at p that is included. */
  ghost predicate Lists(node: Node, rel: string, inherited: seq<Rule>, useGitignore: bool, p: seq<string>, e: Entry) {
    && p != []
    && Included(node, rel, inherited, p, useGitignore)
    && Lookup(node, p) == Some(File(Some(Info(e.size, e.mtime))))
    && e.path == Join(rel, p)
  }

  // --- One level down ----------------------------------------------------------------

  lemma {:induction false} FindAt(entries: seq<Named>, i: nat)
    requires i < |entries| && NamesOk(entries)
    ensures Find(entries, entries[i].name) == Some(entries[i].node)
  {
    if i < |entries| - 1 {
      FindAt(entries[..|entries| - 1], i);
    }
  }

  lemma {:induction false} FoundAt(entries: seq<Named>, name: string) returns (i: nat)
    requires Find(entries, name).Some?
    ensures i < |entries| && entries[i] == Named(name, Find(entries, name).value)
  {
    if entries[|entries| - 1].name == name {
      i := |entries| - 1;
    } else {
      i := FoundAt(entries[..|entries| - 1], name);
    }
  }

  lemma PassesBelow(node: Node, rel: string, inherited: seq<Rule>, q: seq<string>, useGitignore: bool)
    requires |q| >= 2 && Child(node, q[0]).Some?
    ensures Passes(node, rel, inherited, q, useGitignore)
            <==> Passes(Child(node, q[0]).value, ChildPath(rel, q[0]), RulesHere(node, rel, inherited, useGitignore),
                        q[1..], useGitignore)
  {
    assert q[..|q| - 1][1..] == q[1..][..|q[1..]| - 1];
  }

  lemma IncludedBelow(node: Node, rel: string, inherited: seq<Rule>, p: seq<string>, useGitignore: bool)
    requires p != [] && Child(node, p[0]).Some?
    ensures Included(node, rel, inherited, p, useGitignore)
            <==> && Passes(node, rel, inherited, [p[0]], useGitignore)
                 && Included(Child(node, p[0]).value, ChildPath(rel, p[0]),
                             RulesHere(node, rel, inherited, useGitignore), p[1..], useGitignore)
  {
    var child, path := Child(node, p[0]).value, ChildPath(rel, p[0]);
    var rules := RulesHere(node, rel, inherited, useGitignore);
    assert p[..1] == [p[0]];
    forall n | 1 < n <= |p|
      ensures Passes(node, rel, inherited, p[..n], useGitignore)
              <==> Passes(child, path, rules, p[1..][..n - 1], useGitignore)
    {
      assert p[..n][1..] == p[1..][..n - 1];
      PassesBelow(node, rel, inherited, p[..n], useGitignore);
    }
    if Included(node, rel, inherited, p, useGitignore) {
      forall m | 0 < m <= |p[1..]| ensures Passes(child, path, rules, p[1..][..m], useGitignore) {
        assert Passes(node, rel, inherited, p[..m + 1], useGitignore);
      }
    }
  }

  /** Whether an entry of the directory itself passes. */
  lemma PassesHere(node: Node, rel: string, inherited: seq<Rule>, i: nat, useGitignore: bool)
    requires node.Dir? && NamesOk(node.entries) && i < |node.entries|
    ensures var e := node.entries[i];
            Passes(node, rel, inherited, [e.name], useGitignore)
            <==> e.name != ".git"
                 && !(useGitignore && Ignored(RulesHere(node, rel, inherited, useGitignore), ChildPath(rel, e.name),
                                              e.node.Dir?))
  {
    FindAt(node.entries, i);
    var q := [node.entries[i].name];
    assert q[1..] == [] && q[..0] == [];
    assert Lookup(node, q) == Some(node.entries[i].node);
    assert Join(rel, q) == ChildPath(rel, q[0]);
  }

  // --- What a walk finds -------------------------------------------------------------

  lemma {:induction false} AllOk(entries: seq<Named>, rel: string, rules: seq<Rule>, useGitignore: bool)
    ensures WalkedAll(entries, rel, rules, useGitignore).Ok?
            <==> forall i | 0 <= i < |entries| :: WalkedOne(entries[i], rel, rules, useGitignore).Ok?
  {
    if entries != [] {
      var before := entries[..|entries| - 1];
      AllOk(before, rel, rules, useGitignore);
      assert forall i | 0 <= i < |before| :: before[i] == entries[i];
    }
  }

  ghost predicate FoundIn(entries: seq<Named>, i: nat, rel: string, rules: seq<Rule>, useGitignore: bool, e: Entry)
    requires i < |entries|
  {
    WalkedOne(entries[i], rel, rules, useGitignore).Ok? && e in WalkedOne(entries[i], rel, rules, useGitignore).value
  }

  lemma {:induction false} AllFound(entries: seq<Named>, rel: string, rules: seq<Rule>, useGitignore: bool, e: Entry)
    requires WalkedAll(entries, rel, rules, useGitignore).Ok?
    ensures e in WalkedAll(entries, rel, rules, useGitignore).value
            <==> exists i | 0 <= i < |entries| :: FoundIn(entries, i, rel, rules, useGitignore, e)
  {
    if entries != [] {
      var n := |entries| - 1;
      AllFound(entries[..n], rel, rules, useGitignore, e);
      if i: nat :| i < n && FoundIn(entries[..n], i, rel, rules, useGitignore, e) {
        assert FoundIn(entries, i, rel, rules, useGitignore, e);
      }
      if i: nat :| i < |entries| && FoundIn(entries, i, rel, rules, useGitignore, e) {
        assert i < n ==> FoundIn(entries[..n], i, rel, rules, useGitignore, e);
        assert i == n ==> FoundIn(entries, n, rel, rules, useGitignore, e);
      }
      assert FoundIn(entries, n, rel, rules, useGitignore, e)
        <==> e in WalkedOne(entries[n], rel, rules, useGitignore).value;
    }
  }

  /** Everything a walk finds is a file that is included. */
  lemma {:induction false} FoundIsListed(node: Node, rel: string, inherited: seq<Rule>, useGitignore: bool, e: Entry)
    returns (p: seq<string>)
    requires WellFormed(node) && Walked(node, rel, inherited, useGitignore).Ok?
    requires e in Walked(node, rel, inherited, useGitignore).value
    ensures Lists(node, rel, inherited, useGitignore, p, e)
    decreases node
  {
    var rules := RulesHere(node, rel, inherited, useGitignore);
    AllFound(node.entries, rel, rules, useGitignore, e);
    var i: nat :| i < |node.entries| && FoundIn(node.entries, i, rel, rules, useGitignore, e);
    var named := node.entries[i];
    FindAt(node.entries, i);
    PassesHere(node, rel, inherited, i, useGitignore);
    var tail: seq<string> := [];
    if named.node.Dir? {
      tail := FoundIsListed(named.node, ChildPath(rel, named.name), rules, useGitignore, e);
    }
    p := [named.name] + tail;
    assert p[1..] == tail;
    IncludedBelow(node, rel, inherited, p, useGitignore);
  }

  /** Every file that is included is found. */
  lemma {:induction false} ListedIsFound(node: Node, rel: string, inherited: seq<Rule>, useGitignore: bool,
                              p: seq<string>, e: Entry)
    requires WellFormed(node) && Walked(node, rel, inherited, useGitignore).Ok?
    requires Lists(node, rel, inherited, useGitignore, p, e)
    ensures e in Walked(node, rel, inherited, useGitignore).value
    decreases |p|
  {
    var rules := RulesHere(node, rel, inherited, useGitignore);
    var i := FoundAt(node.entries, p[0]);
    var named := node.entries[i];
    PassesHere(node, rel, inherited, i, useGitignore);
    IncludedBelow(node, rel, inherited, p, useGitignore);
    AllOk(node.entries, rel, rules, useGitignore);
    assert Lookup(node, p) == Lookup(named.node, p[1..]);
    assert WalkedOne(named, rel, rules, useGitignore).Ok?;
    if |p| > 1 {
      ListedIsFound(named.node, ChildPath(rel, named.name), rules, useGitignore, p[1..], e);
    }
    assert FoundIn(node.entries, i, rel, rules, useGitignore, e);
    AllFound(node.entries, rel, rules, useGitignore, e);
  }

  // --- When a walk fails -------------------------------------------------------------

  predicate Broken(node: Node, useGitignore: bool) {
    match node
    case File(info) => info.None?
    case Dir(rules, readable, _) => !readable || (useGitignore && rules.Err?)
    case Special => false
  }

  /** Something that cannot be read lies where the walk goes. */
  ghost predicate Blocked(node: Node, rel: string, inherited: seq<Rule>, useGitignore: bool, p: seq<string>) {
    && Included(node, rel, inherited, p, useGitignore)
    && Lookup(node, p).Some? && Broken(Lookup(node, p).value, useGitignore)
  }

  lemma {:induction false} FailureIsBlocked(node: Node, rel: string, inherited: seq<Rule>, useGitignore: bool)
    returns (p: seq<string>)
    requires WellFormed(node) && node.Dir? && Walked(node, rel, inherited, useGitignore).Err?
    ensures Blocked(node, rel, inherited, useGitignore, p)
    decreases node
  {
    p := [];
    if !Broken(node, useGitignore) {
      var rules := RulesHere(node, rel, inherited, useGitignore);
      AllOk(node.entries, rel, rules, useGitignore);
      var i :| 0 <= i < |node.entries| && WalkedOne(node.entries[i], rel, rules, useGitignore).Err?;
      var named := node.entries[i];
      FindAt(node.entries, i);
      PassesHere(node, rel, inherited, i, useGitignore);
      var tail: seq<string> := [];
      if named.node.Dir? {
        tail := FailureIsBlocked(named.node, ChildPath(rel, named.name), rules, useGitignore);
      }
      p := [named.name] + tail;
      assert p[1..] == tail;
      IncludedBelow(node, rel, inherited, p, useGitignore);
    }
  }

  lemma {:induction false} BlockedIsFailure(node: Node, rel: string, inherited: seq<Rule>, useGitignore: bool,
                              p: seq<string>)
    requires WellFormed(node) && node.Dir? && Blocked(node, rel, inherited, useGitignore, p)
    ensures Walked(node, rel, inherited, useGitignore).Err?
    decreases |p|
  {
    if p != [] && !Broken(node, useGitignore) {
      var rules := RulesHere(node, rel, inherited, useGitignore);
      var i := FoundAt(node.entries, p[0]);
      var named := node.entries[i];
      PassesHere(node, rel, inherited, i, useGitignore);
      IncludedBelow(node, rel, inherited, p, useGitignore);
      assert Lookup(node, p) == Lookup(named.node, p[1..]);
      if named.node.Dir? {
        BlockedIsFailure(named.node, ChildPath(rel, named.name), rules, useGitignore, p[1..]);
      }
      AllOk(node.entries, rel, rules, useGitignore);
    }
  }

  // --- Paths -------------------------------------------------------------------------

  predicate AtOrUnder(dir: string, path: string) {
    path == dir || IsPrefix(dir + "/", path)
  }

  lemma UnderChild(rel: string, name: string, dir: string, path: string)
    requires name != "" && AtOrUnder(ChildPath(rel, name), dir) && AtOrUnder(dir, path)
    ensures AtOrUnder(ChildPath(rel, name), path)
  {
    var c := ChildPath(rel, name);
    if dir != c && path != dir {
      assert path[..|c| + 1] == dir[..|c| + 1] by {
        assert path[..|dir| + 1] == dir + "/";
        assert path[..|c| + 1] == path[..|dir| + 1][..|c| + 1];
      }
    }
  }

  lemma ParentAbove(rel: string, name: string, path: string)
    requires rel != "" && AtOrUnder(ChildPath(rel, name), path)
    ensures IsPrefix(rel + "/", path)
  {
    var c := ChildPath(rel, name);
    assert c[..|rel| + 1] == rel + "/";
    if path != c {
      assert path[..|c|] == c by { assert path[..|c| + 1][..|c|] == c; }
      assert path[..|rel| + 1] == path[..|c|][..|rel| + 1];
    }
  }

  /** The first name of a path below a directory can be read off the path. */
  lemma NameReadOff(head: string, name: string, path: string)
    requires AtOrUnder(head + name, path)
    ensures |head| + |name| <= |path|
    ensures forall k | 0 <= k < |name| :: path[|head| + k] == name[k]
    ensures |head| + |name| < |path| ==> path[|head| + |name|] == '/'
  {
    if path != head + name {
      assert path[..|head + name| + 1] == head + name + "/";
      assert forall k | 0 <= k <= |head + name| :: path[k] == path[..|head + name| + 1][k];
    }
  }

  /** Nothing is at or under two different children. */
  lemma SeparateChildren(rel: string, a: string, b: string, path: string)
    requires GoodName(a) && GoodName(b)
    requires AtOrUnder(ChildPath(rel, a), path) && AtOrUnder(ChildPath(rel, b), path)
    ensures a == b
  {
    var head := if rel == "" then "" else rel + "/";
    assert ChildPath(rel, a) == head + a && ChildPath(rel, b) == head + b;
    NameReadOff(head, a, path);
    NameReadOff(head, b, path);
    assert forall k | 0 <= k < |a| && k < |b| :: a[k] == path[|head| + k] == b[k];
  }

  lemma {:induction false} NamesGood(node: Node, p: seq<string>)
    requires WellFormed(node) && Lookup(node, p).Some?
    ensures forall k | 0 <= k < |p| :: GoodName(p[k])
    decreases |p|
  {
    if p != [] {
      var i := FoundAt(node.entries, p[0]);
      NamesGood(node.entries[i].node, p[1..]);
      assert forall k | 0 < k < |p| :: p[k] == p[1..][k - 1];
    }
  }

  lemma {:induction false} JoinUnder(rel: string, p: seq<string>)
    requires rel != "" && forall k | 0 <= k < |p| :: GoodName(p[k])
    ensures AtOrUnder(rel, Join(rel, p))
    decreases |p|
  {
    if p != [] {
      JoinUnder(ChildPath(rel, p[0]), p[1..]);
      ParentAbove(rel, p[0], Join(rel, p));
    }
  }

  /** A path into the tree lies at or under its first name. */
  lemma PathUnder(node: Node, rel: string, p: seq<string>)
    requires WellFormed(node) && Lookup(node, p).Some? && p != []
    ensures GoodName(p[0]) && AtOrUnder(ChildPath(rel, p[0]), Join(rel, p))
  {
    NamesGood(node, p);
    JoinUnder(ChildPath(rel, p[0]), p[1..]);
  }

  // --- Distinct paths ----------------------------------------------------------------

  lemma OneUnder(named: Named, rel: string, rules: seq<Rule>, useGitignore: bool, e: Entry)
    requires GoodName(named.name) && WellFormed(named.node)
    requires WalkedOne(named, rel, rules, useGitignore).Ok? && e in WalkedOne(named, rel, rules, useGitignore).value
    ensures AtOrUnder(ChildPath(rel, named.name), e.path)
  {
    if named.node.Dir? {
      var path := ChildPath(rel, named.name);
      var p := FoundIsListed(named.node, path, rules, useGitignore, e);
      NamesGood(named.node, p);
      JoinUnder(path, p);
    }
  }

  lemma {:induction false} DistinctAll(entries: seq<Named>, rel: string, rules: seq<Rule>, useGitignore: bool)
    requires NamesOk(entries) && forall i | 0 <= i < |entries| :: WellFormed(entries[i].node)
    requires WalkedAll(entries, rel, rules, useGitignore).Ok?
    ensures DistinctBy(PathOf, WalkedAll(entries, rel, rules, useGitignore).value)
    decreases entries
  {
    if entries != [] {
      var n := |entries| - 1;
      DistinctAll(entries[..n], rel, rules, useGitignore);
      var before := WalkedAll(entries[..n], rel, rules, useGitignore).value;
      var last := WalkedOne(entries[n], rel, rules, useGitignore).value;
      if entries[n].node.Dir? && last != [] {
        DistinctPaths(entries[n].node, ChildPath(rel, entries[n].name), rules, useGitignore);
      }
      forall e, f | e in before && f in last ensures e.path != f.path {
        AllFound(entries[..n], rel, rules, useGitignore, e);
        var i: nat :| i < n && FoundIn(entries[..n], i, rel, rules, useGitignore, e);
        OneUnder(entries[i], rel, rules, useGitignore, e);
        OneUnder(entries[n], rel, rules, useGitignore, f);
        if e.path == f.path {
          SeparateChildren(rel, entries[i].name, entries[n].name, e.path);
        }
      }
    }
  }

  lemma {:induction false} DistinctPaths(node: Node, rel: string, inherited: seq<Rule>, useGitignore: bool)
    requires WellFormed(node) && Walked(node, rel, inherited, useGitignore).Ok?
    ensures DistinctBy(PathOf, Walked(node, rel, inherited, useGitignore).value)
    decreases node
  {
    DistinctAll(node.entries, rel, RulesHere(node, rel, inherited, useGitignore), useGitignore);
  }

  // --- The manifest ------------------------------------------------------------------

  /** The manifest can be built exactly when nothing the walk visits is unreadable. */
  lemma ManifestFails(root: Node, useGitignore: bool)
    requires WellFormed(root) && root.Dir?
    ensures Manifest(root, useGitignore).Err? <==> exists p :: Blocked(root, "", [], useGitignore, p)
  {
    if Walked(root, "", [], useGitignore).Err? {
      var p := FailureIsBlocked(root, "", [], useGitignore);
    } else if p :| Blocked(root, "", [], useGitignore, p) {
      BlockedIsFailure(root, "", [], useGitignore, p);
    }
  }

  /** It is in the order of the paths, and no path is listed twice. */
  lemma ManifestSorted(root: Node, useGitignore: bool)
    requires WellFormed(root) && Manifest(root, useGitignore).Ok?
    ensures SortedBy(PathOf, Manifest(root, useGitignore).value)
    ensures DistinctBy(PathOf, Manifest(root, useGitignore).value)
  {
    var found := Walked(root, "", [], useGitignore).value;
    SortSorts(PathOf, found);
    DistinctPaths(root, "", [], useGitignore);
    SortDistinct(PathOf, found);
  }

  /** It lists exactly the regular files that are included. */
  lemma ManifestLists(root: Node, useGitignore: bool)
    requires WellFormed(root) && Manifest(root, useGitignore).Ok?
    ensures forall e :: e in Manifest(root, useGitignore).value <==> exists p :: Lists(root, "", [], useGitignore, p, e)
  {
    var found := Walked(root, "", [], useGitignore).value;
    DistinctPaths(root, "", [], useGitignore);
    SortDistinct(PathOf, found);
    forall e ensures e in Sort(PathOf, found) <==> exists p :: Lists(root, "", [], useGitignore, p, e) {
      FoundIffListed(root, useGitignore, e);
    }
  }

  lemma FoundIffListed(root: Node, useGitignore: bool, e: Entry)
    requires WellFormed(root) && Walked(root, "", [], useGitignore).Ok?
    ensures e in Walked(root, "", [], useGitignore).value <==> exists p :: Lists(root, "", [], useGitignore, p, e)
  {
    if e in Walked(root, "", [], useGitignore).value {
      var p := FoundIsListed(root, "", [], useGitignore, e);
    }
    if p :| Lists(root, "", [], useGitignore, p, e) {
      ListedIsFound(root, "", [], useGitignore, p, e);
    }
  }

  // --- Directory order ---------------------------------------------------------------

  /** What a walk can see of a node, apart from the order of its entries. */
  datatype Shape = FileShape(info: Option<Info>) | SpecialShape | DirShape(rules: Result<seq<string>>, readable: bool)

  function ShapeOf(node: Option<Node>): Option<Shape> {
    match node
    case None => None
    case Some(File(info)) => Some(FileShape(info))
    case Some(Special) => Some(SpecialShape)
    case Some(Dir(rules, readable, _)) => Some(DirShape(rules, readable))
  }

  /** The same things are at the same paths. */
  ghost predicate SameTree(a: Node, b: Node) {
    forall p :: ShapeOf(Lookup(a, p)) == ShapeOf(Lookup(b, p))
  }

  lemma ChildLookup(node: Node, name: string)
    ensures Lookup(node, [name]) == Child(node, name)
  {
    assert [name][1..] == [];
  }

  lemma SameChildren(a: Node, b: Node, name: string)
    requires SameTree(a, b)
    ensures Child(a, name).Some? <==> Child(b, name).Some?
    ensures Child(a, name).Some? ==> SameTree(Child(a, name).value, Child(b, name).value)
  {
    ChildLookup(a, name);
    ChildLookup(b, name);
    assert ShapeOf(Lookup(a, [name])) == ShapeOf(Lookup(b, [name]));
    if Child(a, name).Some? {
      forall p ensures ShapeOf(Lookup(Child(a, name).value, p)) == ShapeOf(Lookup(Child(b, name).value, p)) {
        assert ShapeOf(Lookup(a, [name] + p)) == ShapeOf(Lookup(b, [name] + p));
        assert ([name] + p)[1..] == p;
      }
    }
  }

  lemma {:induction false} SameRules(a: Node, b: Node, rel: string, inherited: seq<Rule>, p: seq<string>,
                              useGitignore: bool)
    requires SameTree(a, b)
    ensures RulesDown(a, rel, inherited, p, useGitignore) == RulesDown(b, rel, inherited, p, useGitignore)
    decreases |p|
  {
    assert ShapeOf(Lookup(a, [])) == ShapeOf(Lookup(b, []));
    var here := RulesHere(a, rel, inherited, useGitignore);
    assert here == RulesHere(b, rel, inherited, useGitignore);
    if p != [] {
      SameChildren(a, b, p[0]);
      if Child(a, p[0]).Some? {
        SameRules(Child(a, p[0]).value, Child(b, p[0]).value, ChildPath(rel, p[0]), here, p[1..], useGitignore);
      }
    }
  }

  lemma SamePasses(a: Node, b: Node, q: seq<string>, useGitignore: bool)
    requires SameTree(a, b) && q != []
    ensures Passes(a, "", [], q, useGitignore) <==> Passes(b, "", [], q, useGitignore)
  {
    assert ShapeOf(Lookup(a, q)) == ShapeOf(Lookup(b, q));
    SameRules(a, b, "", [], q[..|q| - 1], useGitignore);
  }

  lemma SameIncluded(a: Node, b: Node, p: seq<string>, useGitignore: bool)
    requires SameTree(a, b)
    ensures Included(a, "", [], p, useGitignore) <==> Included(b, "", [], p, useGitignore)
  {
    forall n | 0 < n <= |p|
      ensures Passes(a, "", [], p[..n], useGitignore) <==> Passes(b, "", [], p[..n], useGitignore)
    {
      SamePasses(a, b, p[..n], useGitignore);
    }
  }

  lemma SameBlocked(a: Node, b: Node, useGitignore: bool, p: seq<string>)
    requires SameTree(a, b)
    ensures Blocked(a, "", [], useGitignore, p) <==> Blocked(b, "", [], useGitignore, p)
  {
    SameIncluded(a, b, p, useGitignore);
    assert ShapeOf(Lookup(a, p)) == ShapeOf(Lookup(b, p));
  }

  lemma SameLists(a: Node, b: Node, useGitignore: bool, p: seq<string>, e: Entry)
    requires SameTree(a, b)
    ensures Lists(a, "", [], useGitignore, p, e) <==> Lists(b, "", [], useGitignore, p, e)
  {
    SameIncluded(a, b, p, useGitignore);
    assert ShapeOf(Lookup(a, p)) == ShapeOf(Lookup(b, p));
  }

  lemma SameFailure(a: Node, b: Node, useGitignore: bool)
    requires WellFormed(a) && WellFormed(b) && a.Dir? && b.Dir? && SameTree(a, b)
    ensures Manifest(a, useGitignore).Ok? <==> Manifest(b, useGitignore).Ok?
  {
    ManifestFails(a, useGitignore);
    ManifestFails(b, useGitignore);
    if p :| Blocked(a, "", [], useGitignore, p) { SameBlocked(a, b, useGitignore, p); }
    if p :| Blocked(b, "", [], useGitignore, p) { SameBlocked(a, b, useGitignore, p); }
  }

  lemma SameMembers(a: Node, b: Node, useGitignore: bool, e: Entry)
    requires WellFormed(a) && WellFormed(b) && a.Dir? && b.Dir? && SameTree(a, b)
    requires Manifest(a, useGitignore).Ok? && Manifest(b, useGitignore).Ok?
    ensures e in Manifest(a, useGitignore).value <==> e in Manifest(b, useGitignore).value
  {
    ManifestLists(a, useGitignore);
    ManifestLists(b, useGitignore);
    if p :| Lists(a, "", [], useGitignore, p, e) { SameLists(a, b, useGitignore, p, e); }
    if p :| Lists(b, "", [], useGitignore, p, e) { SameLists(a, b, useGitignore, p, e); }
  }

  /** Whether the walk succeeds, and the manifest it yields, do not depend on the order in which
      directories list their entries. */
  lemma OrderDoesNotMatter(a: Node, b: Node, useGitignore: bool)
    requires WellFormed(a) && WellFormed(b) && a.Dir? && b.Dir? && SameTree(a, b)
    ensures Manifest(a, useGitignore).Ok? <==> Manifest(b, useGitignore).Ok?
    ensures Manifest(a, useGitignore).Ok? ==> Manifest(a, useGitignore) == Manifest(b, useGitignore)
  {
    SameFailure(a, b, useGitignore);
    if Manifest(a, useGitignore).Ok? {
      ManifestSorted(a, useGitignore);
      ManifestSorted(b, useGitignore);
      forall e ensures e in Manifest(a, useGitignore).value <==> e in Manifest(b, useGitignore).value {
        SameMembers(a, b, useGitignore, e);
      }
      SameListing(PathOf, Manifest(a, useGitignore).value, Manifest(b, useGitignore).value);
    }
  }

  // --- Nesting -----------------------------------------------------------------------

  /** The proper prefixes of a path that are directories. */
  function Parents(path: string): set<string> {
    set k | 0 <= k < |path| && path[k] == '/' :: path[..k]
  }

  lemma ParentsMean(path: string, dir: string)
    ensures dir in Parents(path) <==> IsPrefix(dir + "/", path)
  {
    if IsPrefix(dir + "/", path) {
      assert path[|dir|] == path[..|dir| + 1][|dir|] == '/';
      assert path[..|dir|] == path[..|dir| + 1][..|dir|] == dir;
    }
    if k :| 0 <= k < |path| && path[k] == '/' && dir == path[..k] {
      assert path[..k + 1] == dir + "/";
    }
  }

  lemma {:induction false} NothingBelowFiles(node: Node, rel: string, p: seq<string>, q: seq<string>)
    requires WellFormed(node) && p != [] && Lookup(node, p).Some? && Lookup(node, p).value.File?
    requires Lookup(node, q).Some?
    requires q != [] || rel == "" || AtOrUnder(rel, Join(rel, p))
    ensures !IsPrefix(Join(rel, p) + "/", Join(rel, q))
    decreases |p|
  {
    PathUnder(node, rel, p);
    if q == [] {
    } else {
      PathUnder(node, rel, q);
      if IsPrefix(Join(rel, p) + "/", Join(rel, q)) {
        UnderChild(rel, p[0], Join(rel, p), Join(rel, q));
        SeparateChildren(rel, p[0], q[0], Join(rel, q));
        var i := FoundAt(node.entries, p[0]);
        if |p| > 1 {
          JoinUnder(ChildPath(rel, p[0]), p[1..]) by { NamesGood(node, p); }
          NothingBelowFiles(node.entries[i].node, ChildPath(rel, p[0]), p[1..], q[1..]);
        }
      }
    }
  }

  /** No listed path is a directory of another one. */
  lemma ManifestFlat(root: Node, useGitignore: bool, e: Entry, f: Entry)
    requires WellFormed(root) && root.Dir? && Manifest(root, useGitignore).Ok?
    requires e in Manifest(root, useGitignore).value && f in Manifest(root, useGitignore).value
    ensures e.path !in Parents(f.path)
  {
    ManifestLists(root, useGitignore);
    var p :| Lists(root, "", [], useGitignore, p, e);
    var q :| Lists(root, "", [], useGitignore, q, f);
    NothingBelowFiles(root, "", p, q);
    ParentsMean(f.path, e.path);
  }
}
