/** A rule never reaches outside the directory of its .gitignore, so a walk may look at the rules
    of the directories it passes through and forget all others. */
module RuleScope {
  import opened Text
  import opened Ignore
  import opened Walk
  import opened Manifests

  /** The rules of every .gitignore in the tree, a directory's before those below it. */
  function AllRules(node: Node, rel: string): seq<Rule>
    decreases node
  {
    if node.Dir? then LocalRules(node, rel) + RulesBelow(node.entries, rel) else []
  }

  function RulesBelow(entries: seq<Named>, rel: string): seq<Rule>
    decreases entries
  {
    if entries == [] then []
    else
      var last := entries[|entries| - 1];
      RulesBelow(entries[..|entries| - 1], rel) + AllRules(last.node, ChildPath(rel, last.name))
  }

  lemma {:induction false} LocalBase(lines: seq<string>, rel: string)
    ensures forall r | r in RulesIn(lines, rel) :: r.base == rel
  {
    if lines != [] { LocalBase(lines[..|lines| - 1], rel); }
  }

  lemma {:induction false} BasesUnder(node: Node, rel: string)
    requires rel != "" && WellFormed(node)
    ensures forall r | r in AllRules(node, rel) :: AtOrUnder(rel, r.base)
    decreases node
  {
    if node.Dir? {
      if node.rules.Ok? { LocalBase(node.rules.value, rel); }
      BasesOfAll(node.entries, rel);
    }
  }

  lemma {:induction false} BasesOfAll(entries: seq<Named>, rel: string)
    requires rel != "" && NamesOk(entries) && forall i | 0 <= i < |entries| :: WellFormed(entries[i].node)
    ensures forall r | r in RulesBelow(entries, rel) :: AtOrUnder(rel, r.base)
    decreases entries
  {
    if entries != [] {
      var last := entries[|entries| - 1];
      BasesOfAll(entries[..|entries| - 1], rel);
      BasesUnder(last.node, ChildPath(rel, last.name));
      forall r | r in AllRules(last.node, ChildPath(rel, last.name)) ensures AtOrUnder(rel, r.base) {
        ParentAbove(rel, last.name, r.base);
      }
    }
  }

  lemma BelowBoth(dir: string, base: string, path: string)
    requires AtOrUnder(dir, base) && IsPrefix(base + "/", path)
    ensures IsPrefix(dir + "/", path)
  {
    if base != dir {
      assert path[..|dir| + 1] == path[..|base| + 1][..|dir| + 1] == base[..|dir| + 1];
    }
  }

  /** A rule is silent about paths that are not below its base. */
  lemma SilentOutside(r: Rule, dir: string, path: string, isDir: bool)
    requires dir != "" && AtOrUnder(dir, r.base) && !IsPrefix(dir + "/", path)
    ensures !r.Matches(path, isDir)
  {
    if IsPrefix(r.base + "/", path) {
      BelowBoth(dir, r.base, path);
    }
  }

  ghost predicate GoodNames(q: seq<string>) {
    forall k | 0 <= k < |q| :: GoodName(q[k])
  }

  ghost predicate AllWellFormed(entries: seq<Named>) {
    NamesOk(entries) && forall i | 0 <= i < |entries| :: WellFormed(entries[i].node)
  }

  lemma SiblingSilent(named: Named, rel: string, q: seq<string>, isDir: bool)
    requires WellFormed(named.node) && GoodName(named.name)
    requires q != [] && GoodNames(q) && (named.name != q[0] || |q| == 1)
    ensures !AnyMatches(AllRules(named.node, ChildPath(rel, named.name)), Join(rel, q), isDir)
  {
    var dir, path := ChildPath(rel, named.name), Join(rel, q);
    JoinUnder(ChildPath(rel, q[0]), q[1..]);
    assert |q| == 1 ==> q[1..] == [] && path == ChildPath(rel, q[0]);
    if IsPrefix(dir + "/", path) {
      SeparateChildren(rel, named.name, q[0], path);
    }
    BasesUnder(named.node, dir);
    forall r | r in AllRules(named.node, dir) ensures !r.Matches(path, isDir) {
      SilentOutside(r, dir, path, isDir);
    }
  }

  lemma BothSilent(a: seq<Rule>, b: seq<Rule>, path: string, isDir: bool)
    requires !AnyMatches(a, path, isDir) && !AnyMatches(b, path, isDir)
    ensures !AnyMatches(a + b, path, isDir)
  {
    var both := a + b;
    forall k | 0 <= k < |both| ensures !both[k].Matches(path, isDir) {
      assert both[k] == if k < |a| then a[k] else b[k - |a|];
    }
  }

  lemma {:induction false} SiblingsSilent(entries: seq<Named>, rel: string, q: seq<string>, isDir: bool)
    requires AllWellFormed(entries)
    requires q != [] && GoodNames(q)
    requires forall i | 0 <= i < |entries| :: entries[i].name != q[0]
    ensures !AnyMatches(RulesBelow(entries, rel), Join(rel, q), isDir)
  {
    if entries != [] {
      var n := |entries| - 1;
      SiblingsSilent(entries[..n], rel, q, isDir);
      SiblingSilent(entries[n], rel, q, isDir);
      BothSilent(RulesBelow(entries[..n], rel), AllRules(entries[n].node, ChildPath(rel, entries[n].name)),
                 Join(rel, q), isDir);
    }
  }

  lemma SilentTail(a: seq<Rule>, b: seq<Rule>, c: seq<Rule>, path: string, isDir: bool)
    requires !AnyMatches(c, path, isDir)
    ensures Ignored(a + (b + c), path, isDir) <==> Ignored(a + b, path, isDir)
  {
    assert a + (b + c) == (a + b) + c;
    LaterRulesDecide(a + b, c, path, isDir);
  }

  lemma SilentMiddle(a: seq<Rule>, b: seq<Rule>, c: seq<Rule>, path: string, isDir: bool)
    requires !AnyMatches(b, path, isDir)
    ensures Ignored(a + (b + c), path, isDir) <==> Ignored(a + c, path, isDir)
  {
    assert a + (b + c) == (a + b) + c;
    LaterRulesDecide(a + b, c, path, isDir);
    LaterRulesDecide(a, b, path, isDir);
    LaterRulesDecide(a, c, path, isDir);
  }

  /** A child that is not on the way to q has no say about it. */
  lemma LastOffTheWay(entries: seq<Named>, rel: string, inherited: seq<Rule>, q: seq<string>, isDir: bool)
    requires entries != [] && AllWellFormed(entries)
    requires q != [] && GoodNames(q) && (entries[|entries| - 1].name != q[0] || |q| == 1)
    ensures Ignored(inherited + RulesBelow(entries, rel), Join(rel, q), isDir)
            <==> Ignored(inherited + RulesBelow(entries[..|entries| - 1], rel), Join(rel, q), isDir)
  {
    var last := entries[|entries| - 1];
    var before, rules := RulesBelow(entries[..|entries| - 1], rel), AllRules(last.node, ChildPath(rel, last.name));
    SiblingSilent(last, rel, q, isDir);
    SilentTail(inherited, before, rules, Join(rel, q), isDir);
  }

  /** If the last child is on the way, its siblings have no say. */
  lemma LastOnTheWay(entries: seq<Named>, rel: string, inherited: seq<Rule>, q: seq<string>, isDir: bool)
    requires entries != [] && AllWellFormed(entries)
    requires q != [] && GoodNames(q) && entries[|entries| - 1].name == q[0]
    ensures Ignored(inherited + RulesBelow(entries, rel), Join(rel, q), isDir)
            <==> Ignored(inherited + AllRules(entries[|entries| - 1].node, ChildPath(rel, q[0])), Join(rel, q), isDir)
  {
    var n := |entries| - 1;
    SiblingsSilent(entries[..n], rel, q, isDir);
    SilentMiddle(inherited, RulesBelow(entries[..n], rel), AllRules(entries[n].node, ChildPath(rel, q[0])),
                 Join(rel, q), isDir);
  }

  /** Of the rules below a directory, only those of the child on the way to q can speak about q. */
  lemma {:induction false} OnlyTheWayMatters(entries: seq<Named>, rel: string, inherited: seq<Rule>, q: seq<string>,
                              isDir: bool)
    requires AllWellFormed(entries)
    requires q != [] && GoodNames(q)
    ensures var child := Find(entries, q[0]);
            Ignored(inherited + RulesBelow(entries, rel), Join(rel, q), isDir)
            <==> Ignored(if |q| > 1 && child.Some? then inherited + AllRules(child.value, ChildPath(rel, q[0]))
                         else inherited,
                         Join(rel, q), isDir)
  {
    if entries == [] {
      assert inherited + [] == inherited;
    } else if entries[|entries| - 1].name == q[0] && |q| > 1 {
      LastOnTheWay(entries, rel, inherited, q, isDir);
    } else {
      LastOffTheWay(entries, rel, inherited, q, isDir);
      OnlyTheWayMatters(entries[..|entries| - 1], rel, inherited, q, isDir);
    }
  }

  lemma RulesOneDown(node: Node, rel: string, inherited: seq<Rule>, q: seq<string>)
    requires |q| > 1 && Child(node, q[0]).Some?
    ensures RulesDown(node, rel, inherited, q[..|q| - 1], true)
            == RulesDown(Child(node, q[0]).value, ChildPath(rel, q[0]), RulesHere(node, rel, inherited, true),
                         q[1..][..|q[1..]| - 1], true)
  {
    assert q[..|q| - 1][1..] == q[1..][..|q[1..]| - 1];
  }

  lemma AllFromHere(node: Node, rel: string, inherited: seq<Rule>)
    requires node.Dir?
    ensures inherited + AllRules(node, rel) == RulesHere(node, rel, inherited, true) + RulesBelow(node.entries, rel)
  {
  }

  lemma {:induction false} RulesOnTheWaySuffice(node: Node, rel: string, inherited: seq<Rule>, q: seq<string>,
                              isDir: bool)
    requires WellFormed(node) && q != [] && Lookup(node, q).Some?
    ensures Ignored(inherited + AllRules(node, rel), Join(rel, q), isDir)
            <==> Ignored(RulesDown(node, rel, inherited, q[..|q| - 1], true), Join(rel, q), isDir)
    decreases |q|
  {
    var here := RulesHere(node, rel, inherited, true);
    NamesGood(node, q);
    AllFromHere(node, rel, inherited);
    OnlyTheWayMatters(node.entries, rel, here, q, isDir);
    if |q| > 1 {
      var child := Child(node, q[0]).value;
      assert WellFormed(child) by { var i := FoundAt(node.entries, q[0]); }
      RulesOnTheWaySuffice(child, ChildPath(rel, q[0]), here, q[1..], isDir);
      RulesOneDown(node, rel, inherited, q);
    } else {
      assert q[..|q| - 1] == [];
    }
  }

  /** Deciding every path by all the .gitignore files of the tree, shallow to deep, ignores the
      same paths as the rules the walk carries along. */
  lemma EveryRuleFile(root: Node, q: seq<string>, isDir: bool)
    requires WellFormed(root) && q != [] && Lookup(root, q).Some?
    ensures Ignored(AllRules(root, ""), Join("", q), isDir)
            <==> Ignored(RulesDown(root, "", [], q[..|q| - 1], true), Join("", q), isDir)
  {
    RulesOnTheWaySuffice(root, "", [], q, isDir);
    assert [] + AllRules(root, "") == AllRules(root, "");
  }

  /** Passing by the rules of every .gitignore file in the tree. */
  ghost predicate PassesAllRules(root: Node, q: seq<string>)
    requires q != []
  {
    && q[|q| - 1] != ".git"
    && Lookup(root, q).Some?
    && !Ignored(AllRules(root, ""), Join("", q), Lookup(root, q).value.Dir?)
  }

  ghost predicate ListsByAllRules(root: Node, p: seq<string>, e: Entry) {
    && p != []
    && (forall n | 0 < n <= |p| :: PassesAllRules(root, p[..n]))
    && Lookup(root, p) == Some(File(Some(Info(e.size, e.mtime))))
    && e.path == Join("", p)
  }

  lemma PassesTheSame(root: Node, q: seq<string>)
    requires WellFormed(root) && q != []
    ensures PassesAllRules(root, q) <==> Passes(root, "", [], q, true)
  {
    if Lookup(root, q).Some? {
      EveryRuleFile(root, q, Lookup(root, q).value.Dir?);
    }
  }

  lemma ListsTheSame(root: Node, p: seq<string>, e: Entry)
    requires WellFormed(root)
    ensures ListsByAllRules(root, p, e) <==> Lists(root, "", [], true, p, e)
  {
    forall n | 0 < n <= |p| ensures PassesAllRules(root, p[..n]) <==> Passes(root, "", [], p[..n], true) {
      PassesTheSame(root, p[..n]);
    }
  }

  /** So the manifest is the one that would be made with all rules at hand from the start. */
  lemma ManifestByAllRules(root: Node)
    requires WellFormed(root) && Manifest(root, true).Ok?
    ensures forall e :: e in Manifest(root, true).value <==> exists p :: ListsByAllRules(root, p, e)
  {
    ManifestLists(root, true);
    forall e, p ensures ListsByAllRules(root, p, e) <==> Lists(root, "", [], true, p, e) {
      ListsTheSame(root, p, e);
    }
  }
}
