/** Directories on which a sync pass does not do what one might expect. */
module SyncExamples {
  import opened Text
  import opened Sorting
  import opened Glob
  import opened Ignore
  import opened Walk
  import opened Manifests
  import opened Plan
  import opened Mirror
  import opened Trees

  function FileNode(size: nat, mtime: int): Node { File(Some(Info(size, mtime))) }

  function Folder(lines: seq<string>, entries: seq<Named>): Node { Dir(Ok(lines), true, entries) }

  // --- Readable directories ----------------------------------------------------------

  ghost predicate Readable(node: Node) {
    match node
    case File(info) => info.Some?
    case Special => true
    case Dir(rules, readable, entries) =>
      rules.Ok? && readable && forall i | 0 <= i < |entries| :: Readable(entries[i].node)
  }

  lemma {:induction false} ReadableBelow(node: Node, p: seq<string>)
    requires Readable(node) && Lookup(node, p).Some?
    ensures Readable(Lookup(node, p).value)
    decreases |p|
  {
    if p != [] {
      var i := FoundAt(node.entries, p[0]);
      ReadableBelow(node.entries[i].node, p[1..]);
    }
  }

  lemma ReadableListed(root: Node, useGitignore: bool)
    requires WellFormed(root) && root.Dir? && Readable(root)
    ensures Manifest(root, useGitignore).Ok?
  {
    ManifestFails(root, useGitignore);
    if p :| Blocked(root, "", [], useGitignore, p) {
      ReadableBelow(root, p);
    }
  }

  // --- Directories of one or two files -----------------------------------------------

  lemma OneEntry(lines: seq<string>, name: string, node: Node, p: seq<string>)
    requires p != []
    ensures Lookup(Folder(lines, [Named(name, node)]), p) == if p[0] == name then Lookup(node, p[1..]) else None
  {
    assert Find([Named(name, node)], p[0]) == if name == p[0] then Some(node) else Find([], p[0]) by {
      assert [Named(name, node)][..0] == [];
    }
  }

  lemma OneFileDepicted(lines: seq<string>, name: string, size: nat, mtime: int)
    requires GoodName(name)
    ensures var root := Folder(lines, [Named(name, FileNode(size, mtime))]);
            && WellFormed(root) && Readable(root) && Depicts(root, Tree(map[name := Meta(size, mtime)], {}))
            && Lookup(root, [name]) == Some(FileNode(size, mtime)) && Join("", [name]) == name && Split(name) == [name]
  {
    var node := FileNode(size, mtime);
    var root := Folder(lines, [Named(name, node)]);
    forall p | p != [] ensures Lookup(root, p) == if p == [name] then Some(node) else None {
      OneEntry(lines, name, node, p);
      assert p[0] == name && p[1..] == [] ==> p == [name];
    }
    JoinFirst([name]);
    SplitJoin([name]);
    assert IsFileAt(root, [name], name);
  }

  lemma TwoEntries(lines: seq<string>, a: Named, b: Named, p: seq<string>)
    requires p != [] && a.name != b.name
    ensures Lookup(Folder(lines, [a, b]), p)
            == if p[0] == a.name then Lookup(a.node, p[1..])
               else if p[0] == b.name then Lookup(b.node, p[1..]) else None
  {
    var entries := [a, b];
    assert entries[..1] == [a] && [a][..0] == [];
    assert Find([a], p[0]) == if a.name == p[0] then Some(a.node) else Find([], p[0]);
    assert Find(entries, p[0]) == if b.name == p[0] then Some(b.node) else Find([a], p[0]);
  }

  lemma TwoFilesDepicted(lines: seq<string>, a: string, am: Meta, b: string, bm: Meta)
    requires GoodName(a) && GoodName(b) && a != b
    ensures var root := Folder(lines, [Named(a, FileNode(am.size, am.mtime)), Named(b, FileNode(bm.size, bm.mtime))]);
            && WellFormed(root) && Readable(root) && Depicts(root, Tree(map[a := am, b := bm], {}))
            && Lookup(root, [a]).Some? && Lookup(root, [b]).Some?
            && !Lookup(root, [a]).value.Dir? && !Lookup(root, [b]).value.Dir?
  {
    var x, y := FileNode(am.size, am.mtime), FileNode(bm.size, bm.mtime);
    var root := Folder(lines, [Named(a, x), Named(b, y)]);
    forall p | p != [] ensures Lookup(root, p) == if p == [a] then Some(x) else if p == [b] then Some(y) else None {
      TwoEntries(lines, Named(a, x), Named(b, y), p);
      assert p[1..] == [] ==> p == [p[0]];
    }
    JoinFirst([a]);
    JoinFirst([b]);
    assert IsFileAt(root, [a], a) && IsFileAt(root, [b], b);
  }

  lemma SingleShown(lines: seq<string>, name: string, size: nat, mtime: int)
    requires GoodName(name) && name != ".git"
    ensures ViewOf(Folder(lines, [Named(name, FileNode(size, mtime))]), false)(name)
  {
    OneFileDepicted(lines, name, size, mtime);
    PlainView(Folder(lines, [Named(name, FileNode(size, mtime))]), name);
  }

  /** The manifest of a directory with one file, without -gitignore. */
  lemma SingleListed(lines: seq<string>, name: string, size: nat, mtime: int)
    requires GoodName(name) && name != ".git"
    ensures var root := Folder(lines, [Named(name, FileNode(size, mtime))]);
            && WellFormed(root) && Manifest(root, false).Ok?
            && DistinctBy(PathOf, Manifest(root, false).value)
            && Index(Manifest(root, false).value) == map[name := Meta(size, mtime)]
  {
    var root := Folder(lines, [Named(name, FileNode(size, mtime))]);
    OneFileDepicted(lines, name, size, mtime);
    ReadableListed(root, false);
    ManifestDescribes(root, Tree(map[name := Meta(size, mtime)], {}), false);
    SingleShown(lines, name, size, mtime);
  }

  lemma EmptyListed(lines: seq<string>)
    ensures var root := Folder(lines, []);
            && WellFormed(root) && Manifest(root, false).Ok? && Depicts(root, Tree(map[], {}))
            && DistinctBy(PathOf, Manifest(root, false).value) && Index(Manifest(root, false).value) == map[]
  {
    var root := Folder(lines, []);
    forall p | p != [] ensures Lookup(root, p).None? {}
    ReadableListed(root, false);
    ManifestDescribes(root, Tree(map[], {}), false);
  }

  // --- A directory where a file is to be ---------------------------------------------

  /** A directory `a` with a file `b` in it. */
  function Holding(a: string, b: string, m: Meta): Node {
    Folder([], [Named(a, Folder([], [Named(b, FileNode(m.size, m.mtime))]))])
  }

  function HoldingTree(a: string, b: string, m: Meta): Tree { Tree(map[a + "/" + b := m], {a}) }

  lemma HoldingLookup(a: string, b: string, m: Meta, p: seq<string>)
    requires p != []
    ensures Lookup(Holding(a, b, m), p)
            == if p == [a] then Some(Folder([], [Named(b, FileNode(m.size, m.mtime))]))
               else if p == [a, b] then Some(FileNode(m.size, m.mtime)) else None
  {
    OneEntry([], a, Folder([], [Named(b, FileNode(m.size, m.mtime))]), p);
    if p[0] == a && |p| > 1 {
      OneEntry([], b, FileNode(m.size, m.mtime), p[1..]);
      assert p[1..][1..] == [] ==> p == [p[0], p[1]];
    }
    assert p[1..] == [] ==> p == [p[0]];
  }

  lemma HoldingPaths(a: string, b: string)
    requires GoodName(a) && GoodName(b)
    ensures Join("", [a]) == a && Join("", [a, b]) == a + "/" + b && Split(a + "/" + b) == [a, b]
  {
    JoinFirst([a]);
    JoinFirst([b]);
    JoinFirst([a, b]);
    assert [a, b][1..] == [b];
    SplitJoin([a, b]);
  }

  lemma HoldingDepicted(a: string, b: string, m: Meta)
    requires GoodName(a) && GoodName(b)
    ensures WellFormed(Holding(a, b, m)) && Readable(Holding(a, b, m))
    ensures Depicts(Holding(a, b, m), HoldingTree(a, b, m))
  {
    var root := Holding(a, b, m);
    HoldingPaths(a, b);
    forall p | p != []
      ensures Lookup(root, p) == if p == [a] then Some(Folder([], [Named(b, FileNode(m.size, m.mtime))]))
                                 else if p == [a, b] then Some(FileNode(m.size, m.mtime)) else None
    {
      HoldingLookup(a, b, m, p);
    }
    assert IsFileAt(root, [a, b], a + "/" + b) && IsDirAt(root, [a], a);
  }

  lemma HoldingListed(a: string, b: string, m: Meta)
    requires GoodName(a) && GoodName(b) && a != ".git" && b != ".git"
    ensures var root := Holding(a, b, m);
            && WellFormed(root) && Manifest(root, false).Ok?
            && Describes(Manifest(root, false).value, HoldingTree(a, b, m).files, ViewOf(root, false))
            && Index(Manifest(root, false).value) == HoldingTree(a, b, m).files && ValidTree(HoldingTree(a, b, m))
  {
    var root := Holding(a, b, m);
    HoldingDepicted(a, b, m);
    HoldingPaths(a, b);
    ReadableListed(root, false);
    ManifestDescribes(root, HoldingTree(a, b, m), false);
    HoldingLookup(a, b, m, [a, b]);
    PlainView(root, a + "/" + b);
  }

  /** The source has a file where the receiver has a directory. With deletes switched on the plan has
      both the copy of the file and the delete of what is in the directory, but the copy comes first
      and fails, now and every time. */
  lemma DirectoryInTheWay(a: string, b: string, source: Meta, m: Meta, clock: Clock)
    requires GoodName(a) && GoodName(b) && a != ".git" && b != ".git" && forall i: nat :: clock(i) > 0
    ensures var from := Folder([], [Named(a, FileNode(source.size, source.mtime))]);
            var root, t := Holding(a, b, m), HoldingTree(a, b, m);
            && Manifest(from, false).Ok? && Manifest(root, false).Ok? && Depicts(root, t) && ValidTree(t)
            && var src := Manifest(from, false).value;
               var plan := PlanFor(src, Manifest(root, false).value, true);
            && Flat(Index(src)) && Copy(a) in plan && Delete(a + "/" + b) in plan
            && !Compatible(Index(src), t) && !GetsThrough(t, plan, Index(src), clock)
  {
    var from := Folder([], [Named(a, FileNode(source.size, source.mtime))]);
    var root, t := Holding(a, b, m), HoldingTree(a, b, m);
    SingleListed([], a, source.size, source.mtime);
    ManifestsAreSources(from, false);
    HoldingDepicted(a, b, m);
    HoldingListed(a, b, m);
    var src, dst := Manifest(from, false).value, Manifest(root, false).value;
    PlanMirrors(src, dst, true);
    assert Stale(Index(src), Index(dst), a) && Extra(Index(src), Index(dst), true, a + "/" + b);
    assert Obstructed(t, a);
    GetsThroughIff(PlanFor(src, dst, true), Index(src), t, ViewOf(root, false), true, clock);
  }

  // --- A file without a time ---------------------------------------------------------

  lemma OneCopy(name: string, m: Meta, dst: Files, del: bool)
    requires dst.Keys <= {name} && (name in dst ==> dst[name] != m)
    ensures Mirrors([Copy(name)], map[name := m], dst, del)
  {
    var plan, src := [Copy(name)], map[name := m];
    assert plan[0] == Copy(name);
    forall p ensures Copy(p) in plan <==> Stale(src, dst, p) {}
    forall p ensures Delete(p) in plan <==> Extra(src, dst, del, p) {}
  }

  lemma OneCopyPlanned(src: seq<Entry>, dst: seq<Entry>, name: string, m: Meta, del: bool)
    requires DistinctBy(PathOf, src) && Index(src) == map[name := m] && DistinctBy(PathOf, dst)
    requires Index(dst).Keys <= {name} && (name in Index(dst) ==> Index(dst)[name] != m)
    ensures PlanFor(src, dst, del) == [Copy(name)]
  {
    PlanMirrors(src, dst, del);
    OneCopy(name, m, Index(dst), del);
    MirrorUnique(PlanFor(src, dst, del), [Copy(name)], Index(src), Index(dst), del);
  }

  lemma OneCopied(plan: seq<Action>, name: string, m: Meta, src: Files, clock: Clock)
    requires plan == [Copy(name)] && src == map[name := m] && GoodName(name)
    ensures After(Tree(map[], {}), plan, src, clock) == Tree(map[name := Stamped(m, clock(0))], {})
  {
    assert plan[..0] == [] && plan[0] == Copy(name);
    assert Parents(name) == {};
    assert Do(Tree(map[], {}), Copy(name), src, clock(0)) == FileWritten(Tree(map[], {}), name, Stamped(m, clock(0)));
  }

  /** The source's only file has no positive time and the receiver is empty: after the whole pass, which
      copies the file, the receiver has it with the time of writing, and the next plan is to copy it again. */
  lemma UndatedNeverDone(name: string, size: nat, mtime: int, del: bool, clock: Clock)
    requires GoodName(name) && name != ".git" && mtime <= 0 && clock(0) > 0
    ensures var from, root := Folder([], [Named(name, FileNode(size, mtime))]), Folder([], []);
            var root1 := Folder([], [Named(name, FileNode(size, clock(0)))]);
            && Manifest(from, false).Ok? && Manifest(root, false).Ok? && Manifest(root1, false).Ok?
            && var src := Manifest(from, false).value;
               var plan := PlanFor(src, Manifest(root, false).value, del);
            && plan == [Copy(name)] && Depicts(root, Tree(map[], {}))
            && Depicts(root1, After(Tree(map[], {}), plan, Index(src), clock))
            && PlanFor(src, Manifest(root1, false).value, del) == plan
  {
    var from, root := Folder([], [Named(name, FileNode(size, mtime))]), Folder([], []);
    var root1 := Folder([], [Named(name, FileNode(size, clock(0)))]);
    SingleListed([], name, size, mtime);
    EmptyListed([]);
    SingleListed([], name, size, clock(0));
    OneFileDepicted([], name, size, clock(0));
    var src, dst := Manifest(from, false).value, Manifest(root, false).value;
    OneCopyPlanned(src, dst, name, Meta(size, mtime), del);
    OneCopyPlanned(src, Manifest(root1, false).value, name, Meta(size, mtime), del);
    OneCopied(PlanFor(src, dst, del), name, Meta(size, mtime), Index(src), clock);
  }

  // --- A .gitignore file that arrives ------------------------------------------------

  predicate Plain(g: string) {
    forall k | 0 <= k < |g| :: g[k] != '*' && g[k] != '?' && g[k] != '/'
  }

  lemma {:induction false} PlainGlob(g: string, s: string)
    requires Plain(g)
    ensures GlobMatch(g, s, false) <==> s == g
    decreases |g|
  {
    if g != "" && s != "" {
      PlainGlob(g[1..], s[1..]);
      assert g == [g[0]] + g[1..] && s == [s[0]] + s[1..];
    }
  }

  /** In the top directory a line with a plain name is about the file of that name. */
  lemma PlainLine(name: string, path: string)
    requires name != "" && Plain(name) && name[0] !in {'#', '!', '\\'} && name[|name| - 1] !in {' ', '\r'}
    requires GoodName(path) && '\n' !in path
    ensures RuleOf(name, "").Some? && !RuleOf(name, "").value.negate
    ensures RuleOf(name, "").value.Matches(path, false) <==> path == name
  {
    assert Significant(name) == name && Unnegated(name) == name && Unescaped(name) == name;
    assert '/' !in name && !HasDoubleStar(name);
    LineMeans(name, "", path, false);
    assert ("**/" + name)[3..] == name;
    PlainGlob(name, path);
  }

  lemma OneRule(line: string)
    requires RuleOf(line, "").Some?
    ensures RulesIn([line], "") == [RuleOf(line, "").value]
  {
    assert [line][..0] == [];
    assert RulesIn([], "") == [];
  }

  lemma OnlyRuleDecides(rules: seq<Rule>, rule: Rule, path: string)
    requires rules == [rule] && !rule.negate
    ensures Ignored(rules, path, false) <==> rule.Matches(path, false)
  {
    assert rules[0] == rule;
    if rule.Matches(path, false) { assert Decides(rules, 0, path, false); }
  }

  /** What the listing of a directory without sub-directories shows under such a rule. */
  lemma ShownUnderRule(root: Node, name: string, path: string)
    requires root.Dir? && root.rules == Ok([name]) && WellFormed(root)
    requires name != "" && Plain(name) && name[0] !in {'#', '!', '\\'} && name[|name| - 1] !in {' ', '\r'}
    requires GoodName(path) && '\n' !in path && path != ".git"
    requires Lookup(root, [path]).Some? && !Lookup(root, [path]).value.Dir?
    ensures ViewOf(root, true)(path) <==> path != name
  {
    PlainLine(name, path);
    OneRule(name);
    JoinFirst([path]);
    SplitJoin([path]);
    var rules := RulesDown(root, "", [], [], true);
    assert rules == [RuleOf(name, "").value];
    OnlyRuleDecides(rules, RuleOf(name, "").value, path);
    assert [path][..0] == [] && [path][..1] == [path];
    assert Ignored(rules, path, false) <==> path == name;
    assert Passes(root, "", [], [path], true) <==> path != name;
    assert Included(root, "", [], [path], true) <==> Passes(root, "", [], [path], true);
  }

  /** A source with a .gitignore file, a receiver with a file that it hides, and the receiver with both. */
  function Hiding(log: string, ig: string, g: Meta): Node { Folder([log], [Named(ig, FileNode(g.size, g.mtime))]) }

  function Having(log: string, x: Meta): Node { Folder([], [Named(log, FileNode(x.size, x.mtime))]) }

  function Both(log: string, ig: string, g: Meta, x: Meta): Node {
    Folder([log], [Named(ig, FileNode(g.size, g.mtime)), Named(log, FileNode(x.size, x.mtime))])
  }

  /** Two file names, of which a line can name the first. */
  predicate Nameable(log: string, ig: string) {
    && log != ig && log != ".git" && GoodName(log) && '\n' !in log
    && Plain(log) && log[0] !in {'#', '!', '\\'} && log[|log| - 1] !in {' ', '\r'}
    && ig != ".git" && GoodName(ig) && '\n' !in ig
  }

  lemma OnlyFirstShown(files: Files, view: View, a: string, am: Meta, b: string, bm: Meta)
    requires files == map[a := am, b := bm] && a != b && view(a) && !view(b)
    ensures Shown(files, view) == map[a := am]
  {
  }

  lemma OnlyOneShown(files: Files, view: View, a: string, am: Meta)
    requires files == map[a := am] && view(a)
    ensures Shown(files, view) == map[a := am]
  {
  }

  lemma HidingListed(log: string, ig: string, g: Meta)
    requires Nameable(log, ig)
    ensures Manifest(Hiding(log, ig, g), true).Ok? && DistinctBy(PathOf, Manifest(Hiding(log, ig, g), true).value)
    ensures Index(Manifest(Hiding(log, ig, g), true).value) == map[ig := g]
  {
    var root := Hiding(log, ig, g);
    OneFileDepicted([log], ig, g.size, g.mtime);
    ReadableListed(root, true);
    ManifestDescribes(root, Tree(map[ig := g], {}), true);
    ShownUnderRule(root, log, ig);
    OnlyOneShown(map[ig := g], ViewOf(root, true), ig, g);
  }

  lemma NoRules(root: Node, path: string)
    requires root.Dir? && root.rules == Ok([]) && GoodName(path) && path != ".git" && Lookup(root, [path]).Some?
    ensures ViewOf(root, true)(path)
  {
    SplitJoin([path]);
    JoinFirst([path]);
    assert RulesDown(root, "", [], [], true) == [];
    assert [path][..0] == [] && [path][..1] == [path];
    assert Passes(root, "", [], [path], true);
  }

  lemma HavingListed(log: string, x: Meta)
    requires GoodName(log) && log != ".git"
    ensures Depicts(Having(log, x), Tree(map[log := x], {})) && Manifest(Having(log, x), true).Ok?
    ensures DistinctBy(PathOf, Manifest(Having(log, x), true).value)
    ensures Index(Manifest(Having(log, x), true).value) == map[log := x]
  {
    var root := Having(log, x);
    OneFileDepicted([], log, x.size, x.mtime);
    ReadableListed(root, true);
    ManifestDescribes(root, Tree(map[log := x], {}), true);
    NoRules(root, log);
    OnlyOneShown(map[log := x], ViewOf(root, true), log, x);
  }

  lemma BothListed(log: string, ig: string, g: Meta, x: Meta)
    requires Nameable(log, ig)
    ensures Depicts(Both(log, ig, g, x), Tree(map[ig := g, log := x], {})) && Manifest(Both(log, ig, g, x), true).Ok?
    ensures DistinctBy(PathOf, Manifest(Both(log, ig, g, x), true).value)
    ensures Index(Manifest(Both(log, ig, g, x), true).value) == map[ig := g]
  {
    var root, t := Both(log, ig, g, x), Tree(map[ig := g, log := x], {});
    TwoFilesDepicted([log], ig, g, log, x);
    ReadableListed(root, true);
    ManifestDescribes(root, t, true);
    ShownUnderRule(root, log, ig);
    ShownUnderRule(root, log, log);
    OnlyFirstShown(t.files, ViewOf(root, true), ig, g, log, x);
  }

  lemma TwoMirror(a: string, am: Meta, b: string, bm: Meta)
    requires a != b
    ensures Mirrors([Copy(a), Delete(b)], map[a := am], map[b := bm], true)
  {
    var plan, src, dst := [Copy(a), Delete(b)], map[a := am], map[b := bm];
    assert plan[0] == Copy(a) && plan[1] == Delete(b);
    forall p ensures Copy(p) in plan <==> Stale(src, dst, p) {}
    forall p ensures Delete(p) in plan <==> Extra(src, dst, true, p) {}
  }

  lemma TwoActions(src: seq<Entry>, dst: seq<Entry>, a: string, am: Meta, b: string, bm: Meta)
    requires DistinctBy(PathOf, src) && Index(src) == map[a := am]
    requires DistinctBy(PathOf, dst) && Index(dst) == map[b := bm] && a != b
    ensures PlanFor(src, dst, true) == [Copy(a), Delete(b)]
  {
    PlanMirrors(src, dst, true);
    TwoMirror(a, am, b, bm);
    MirrorUnique(PlanFor(src, dst, true), [Copy(a), Delete(b)], Index(src), Index(dst), true);
  }

  lemma NoAction(src: seq<Entry>, dst: seq<Entry>)
    requires DistinctBy(PathOf, src) && DistinctBy(PathOf, dst) && Index(src) == Index(dst)
    ensures PlanFor(src, dst, true) == []
  {
    PlanMirrors(src, dst, true);
    assert Mirrors([], Index(src), Index(dst), true);
    MirrorUnique(PlanFor(src, dst, true), [], Index(src), Index(dst), true);
  }

  lemma FirstCopied(plan: seq<Action>, ig: string, g: Meta, log: string, x: Meta, src: Files, clock: Clock)
    requires plan != [] && plan[0] == Copy(ig) && src == map[ig := g] && g.mtime > 0 && GoodName(ig) && log != ig
    ensures After(Tree(map[log := x], {}), plan[..1], src, clock) == Tree(map[ig := g, log := x], {})
  {
    var t := Tree(map[log := x], {});
    assert plan[..1][..0] == [] && plan[..1][0] == Copy(ig);
    assert Parents(ig) == {};
    assert Do(t, Copy(ig), src, clock(0)) == FileWritten(t, ig, g);
    assert t.files[ig := g] == map[ig := g, log := x];
  }

  lemma Arrives(src: seq<Entry>, dst: seq<Entry>, dst1: seq<Entry>, ig: string, g: Meta, log: string, x: Meta,
                clock: Clock)
    requires DistinctBy(PathOf, src) && Index(src) == map[ig := g]
    requires DistinctBy(PathOf, dst) && Index(dst) == map[log := x]
    requires DistinctBy(PathOf, dst1) && Index(dst1) == map[ig := g] && g.mtime > 0 && GoodName(ig) && log != ig
    ensures PlanFor(src, dst, true) == [Copy(ig), Delete(log)] && PlanFor(src, dst1, true) == []
    ensures After(Tree(map[log := x], {}), PlanFor(src, dst, true)[..1], Index(src), clock)
            == Tree(map[ig := g, log := x], {})
  {
    TwoActions(src, dst, ig, g, log, x);
    NoAction(src, dst1);
    FirstCopied(PlanFor(src, dst, true), ig, g, log, x, Index(src), clock);
  }

  /** With -gitignore and deletes: the plan is to copy a .gitignore file and then to delete a file it
      hides. If the pass is interrupted in between, the receiver no longer shows that file, so the next
      plan is empty and the file stays. */
  lemma IgnoreFileArrives(log: string, ig: string, g: Meta, x: Meta, clock: Clock)
    requires Nameable(log, ig) && g.mtime > 0
    ensures Manifest(Hiding(log, ig, g), true).Ok? && Manifest(Having(log, x), true).Ok?
    ensures Manifest(Both(log, ig, g, x), true).Ok?
    ensures var src := Manifest(Hiding(log, ig, g), true).value;
            var t := Tree(map[log := x], {});
            var plan := PlanFor(src, Manifest(Having(log, x), true).value, true);
            && Depicts(Having(log, x), t) && plan == [Copy(ig), Delete(log)]
            && Depicts(Both(log, ig, g, x), After(t, plan[..1], Index(src), clock))
            && PlanFor(src, Manifest(Both(log, ig, g, x), true).value, true) == []
  {
    HidingListed(log, ig, g);
    HavingListed(log, x);
    BothListed(log, ig, g, x);
    var src, dst := Manifest(Hiding(log, ig, g), true).value, Manifest(Having(log, x), true).value;
    Arrives(src, dst, Manifest(Both(log, ig, g, x), true).value, ig, g, log, x, clock);
  }
}
