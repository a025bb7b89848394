/** Which line decides when several .gitignore files along a path have something to say about it. */
module RulePrecedence {
  import opened Text
  import opened Ignore
  import opened Walk
  import opened Manifests

  // --- One file ----------------------------------------------------------------------

  /** What the lines of a file are read as. */
  function Read(lines: seq<string>, base: string): (read: seq<Option<Rule>>)
    ensures |read| == |lines| && forall i | 0 <= i < |lines| :: read[i] == RuleOf(lines[i], base)
  {
    if lines == [] then [] else Read(lines[..|lines| - 1], base) + [RuleOf(lines[|lines| - 1], base)]
  }

  function Kept(read: seq<Option<Rule>>): seq<Rule> {
    if read == [] then []
    else Kept(read[..|read| - 1]) + LastKept(read)
  }

  function LastKept(read: seq<Option<Rule>>): seq<Rule>
    requires read != []
  {
    var last := read[|read| - 1];
    if last.Some? then [last.value] else []
  }

  lemma KeptSnoc(read: seq<Option<Rule>>, r: Option<Rule>)
    ensures Kept(read + [r]) == Kept(read) + if r.Some? then [r.value] else []
  {
    assert (read + [r])[..|read|] == read;
  }

  lemma {:induction false} RulesAreKept(lines: seq<string>, base: string)
    ensures RulesIn(lines, base) == Kept(Read(lines, base))
  {
    if lines != [] {
      var before, last := lines[..|lines| - 1], RuleOf(lines[|lines| - 1], base);
      RulesAreKept(before, base);
      KeptSnoc(Read(before, base), last);
    }
  }

  /** Rule i is there and matches. */
  predicate Hits(read: seq<Option<Rule>>, path: string, isDir: bool, i: nat) {
    i < |read| && read[i].Some? && read[i].value.Matches(path, isDir)
  }

  /** No rule from i on does. */
  ghost predicate MissesFrom(read: seq<Option<Rule>>, path: string, isDir: bool, i: nat) {
    forall j: nat | j >= i :: !Hits(read, path, isDir, j)
  }

  lemma LastAlone(read: seq<Option<Rule>>, path: string, isDir: bool)
    requires read != []
    ensures AnyMatches(LastKept(read), path, isDir) <==> Hits(read, path, isDir, |read| - 1)
    ensures Hits(read, path, isDir, |read| - 1) ==>
              (Ignored(LastKept(read), path, isDir) <==> !read[|read| - 1].value.negate)
  {
    var rules := LastKept(read);
    if rules != [] { assert rules[0] == read[|read| - 1].value; }
  }

  lemma AnyOfBoth(a: seq<Rule>, b: seq<Rule>, path: string, isDir: bool)
    ensures AnyMatches(a + b, path, isDir) <==> AnyMatches(a, path, isDir) || AnyMatches(b, path, isDir)
  {
    assert forall k | 0 <= k < |a| :: (a + b)[k] == a[k];
    assert forall k | 0 <= k < |b| :: (a + b)[|a| + k] == b[k];
  }

  lemma Behind(rules: seq<Rule>, a: seq<Rule>, b: seq<Rule>, path: string, isDir: bool)
    requires rules == a + b
    ensures AnyMatches(rules, path, isDir) <==> AnyMatches(a, path, isDir) || AnyMatches(b, path, isDir)
    ensures Ignored(rules, path, isDir)
            <==> if AnyMatches(b, path, isDir) then Ignored(b, path, isDir) else Ignored(a, path, isDir)
  {
    AnyOfBoth(a, b, path, isDir);
    LaterRulesDecide(a, b, path, isDir);
  }

  lemma MissesBefore(read: seq<Option<Rule>>, path: string, isDir: bool, i: nat)
    requires read != [] && MissesFrom(read, path, isDir, i)
    ensures MissesFrom(read[..|read| - 1], path, isDir, i)
  {
    var before := read[..|read| - 1];
    forall j: nat | j >= i ensures !Hits(before, path, isDir, j) {
      assert !Hits(read, path, isDir, j);
    }
  }

  lemma {:induction false} NoHits(read: seq<Option<Rule>>, path: string, isDir: bool)
    requires MissesFrom(read, path, isDir, 0)
    ensures !AnyMatches(Kept(read), path, isDir)
  {
    if read != [] {
      var before := read[..|read| - 1];
      MissesBefore(read, path, isDir, 0);
      NoHits(before, path, isDir);
      LastAlone(read, path, isDir);
      assert !Hits(read, path, isDir, |read| - 1);
      Behind(Kept(read), Kept(before), LastKept(read), path, isDir);
    }
  }

  lemma {:induction false} LastHitDecides(read: seq<Option<Rule>>, path: string, isDir: bool, i: nat)
    requires Hits(read, path, isDir, i) && MissesFrom(read, path, isDir, i + 1)
    ensures AnyMatches(Kept(read), path, isDir)
    ensures Ignored(Kept(read), path, isDir) <==> !read[i].value.negate
  {
    var before := read[..|read| - 1];
    LastAlone(read, path, isDir);
    Behind(Kept(read), Kept(before), LastKept(read), path, isDir);
    if i < |read| - 1 {
      assert !Hits(read, path, isDir, |read| - 1);
      MissesBefore(read, path, isDir, i + 1);
      assert Hits(before, path, isDir, i);
      LastHitDecides(before, path, isDir, i);
    }
  }

  /** Line i of a file in the directory `base` is a rule that matches. */
  predicate LineMatches(lines: seq<string>, base: string, path: string, isDir: bool, i: nat) {
    i < |lines| && RuleOf(lines[i], base).Some? && RuleOf(lines[i], base).value.Matches(path, isDir)
  }

  /** No line from i on does. */
  ghost predicate SilentFrom(lines: seq<string>, base: string, path: string, isDir: bool, i: nat) {
    forall j: nat | j >= i :: !LineMatches(lines, base, path, isDir, j)
  }

  lemma LineHits(lines: seq<string>, base: string, path: string, isDir: bool, i: nat)
    ensures LineMatches(lines, base, path, isDir, i) <==> Hits(Read(lines, base), path, isDir, i)
    ensures i < |lines| ==> Read(lines, base)[i] == RuleOf(lines[i], base)
  {
  }

  lemma SilentMisses(lines: seq<string>, base: string, path: string, isDir: bool, i: nat)
    requires SilentFrom(lines, base, path, isDir, i)
    ensures MissesFrom(Read(lines, base), path, isDir, i)
  {
    var read := Read(lines, base);
    forall j: nat | j >= i ensures !Hits(read, path, isDir, j) { LineHits(lines, base, path, isDir, j); }
  }

  lemma SilentFile(lines: seq<string>, base: string, path: string, isDir: bool)
    requires SilentFrom(lines, base, path, isDir, 0)
    ensures !AnyMatches(RulesIn(lines, base), path, isDir)
  {
    RulesAreKept(lines, base);
    SilentMisses(lines, base, path, isDir, 0);
    NoHits(Read(lines, base), path, isDir);
  }

  /** Within one file the last line that matches decides. */
  lemma LastLineDecides(lines: seq<string>, base: string, path: string, isDir: bool, i: nat)
    requires LineMatches(lines, base, path, isDir, i) && SilentFrom(lines, base, path, isDir, i + 1)
    ensures AnyMatches(RulesIn(lines, base), path, isDir)
    ensures Ignored(RulesIn(lines, base), path, isDir) <==> !RuleOf(lines[i], base).value.negate
  {
    RulesAreKept(lines, base);
    LineHits(lines, base, path, isDir, i);
    SilentMisses(lines, base, path, isDir, i + 1);
    LastHitDecides(Read(lines, base), path, isDir, i);
  }

  lemma {:induction false} LastMatch(lines: seq<string>, base: string, path: string, isDir: bool, n: nat)
    returns (i: nat)
    requires !SilentFrom(lines, base, path, isDir, n) && n <= |lines|
    ensures i >= n && LineMatches(lines, base, path, isDir, i) && SilentFrom(lines, base, path, isDir, i + 1)
    decreases |lines| - n
  {
    if SilentFrom(lines, base, path, isDir, n + 1) {
      i := n;
    } else {
      var j: nat :| j >= n + 1 && LineMatches(lines, base, path, isDir, j);
      i := LastMatch(lines, base, path, isDir, n + 1);
    }
  }

  // --- All files on the way ----------------------------------------------------------

  /** The lines of the .gitignore in the directory d steps down the path. */
  function LinesAt(node: Node, p: seq<string>, d: nat): seq<string> {
    if d > |p| then []
    else
      match Lookup(node, p[..d])
      case None => []
      case Some(dir) => if dir.Dir? && dir.rules.Ok? then dir.rules.value else []
  }

  function BaseAt(rel: string, p: seq<string>, d: nat): string {
    if d > |p| then "" else Join(rel, p[..d])
  }

  /** No file from depth d on has a line that matches. */
  ghost predicate SilentBelow(node: Node, rel: string, p: seq<string>, d: nat, path: string, isDir: bool) {
    forall e: nat | e >= d :: SilentFrom(LinesAt(node, p, e), BaseAt(rel, p, e), path, isDir, 0)
  }

  /** Line i of the file at depth d matches, and none behind it or in a deeper directory does. */
  ghost predicate Deciding(node: Node, rel: string, p: seq<string>, d: nat, i: nat, path: string, isDir: bool) {
    && LineMatches(LinesAt(node, p, d), BaseAt(rel, p, d), path, isDir, i)
    && SilentFrom(LinesAt(node, p, d), BaseAt(rel, p, d), path, isDir, i + 1)
    && SilentBelow(node, rel, p, d + 1, path, isDir)
  }

  lemma OneDown(node: Node, rel: string, p: seq<string>, d: nat)
    requires p != [] && Child(node, p[0]).Some?
    ensures LinesAt(node, p, d + 1) == LinesAt(Child(node, p[0]).value, p[1..], d)
    ensures d <= |p| - 1 ==> BaseAt(rel, p, d + 1) == BaseAt(ChildPath(rel, p[0]), p[1..], d)
  {
    if d + 1 <= |p| { assert p[..d + 1][1..] == p[1..][..d] && p[..d + 1][0] == p[0]; }
  }

  lemma Nowhere(node: Node, p: seq<string>, d: nat)
    requires p != [] ==> Child(node, p[0]).None?
    ensures d > 0 ==> LinesAt(node, p, d) == []
  {
    if 0 < d <= |p| { assert p[..d][0] == p[0]; }
  }

  lemma Here(node: Node, rel: string, p: seq<string>)
    ensures LocalRules(node, rel) == RulesIn(LinesAt(node, p, 0), BaseAt(rel, p, 0))
  {
    assert p[..0] == [];
  }

  lemma Regroup(a: seq<Rule>, b: seq<Rule>, c: seq<Rule>)
    ensures (a + b) + c == a + (b + c) && [] + b == b
  {
  }

  lemma {:induction false} RulesOnTop(node: Node, rel: string, inherited: seq<Rule>, p: seq<string>)
    ensures RulesDown(node, rel, inherited, p, true) == inherited + RulesDown(node, rel, [], p, true)
    decreases |p|
  {
    var local := LocalRules(node, rel);
    Regroup(inherited, local, []);
    if p != [] && Child(node, p[0]).Some? {
      var child, path := Child(node, p[0]).value, ChildPath(rel, p[0]);
      RulesOnTop(child, path, inherited + local, p[1..]);
      RulesOnTop(child, path, local, p[1..]);
      Regroup(inherited, local, RulesDown(child, path, [], p[1..], true));
    }
  }

  /** The rules on the way down are those of the first directory, followed by those from the next one on. */
  lemma RulesSplit(node: Node, rel: string, p: seq<string>)
    ensures if p != [] && Child(node, p[0]).Some? then
              RulesDown(node, rel, [], p, true)
              == LocalRules(node, rel) + RulesDown(Child(node, p[0]).value, ChildPath(rel, p[0]), [], p[1..], true)
            else RulesDown(node, rel, [], p, true) == LocalRules(node, rel)
  {
    Regroup([], LocalRules(node, rel), []);
    if p != [] && Child(node, p[0]).Some? {
      RulesOnTop(Child(node, p[0]).value, ChildPath(rel, p[0]), LocalRules(node, rel), p[1..]);
    }
  }

  lemma SilentChild(node: Node, rel: string, p: seq<string>, d: nat, path: string, isDir: bool)
    requires p != [] && Child(node, p[0]).Some? && SilentBelow(node, rel, p, d + 1, path, isDir)
    ensures SilentBelow(Child(node, p[0]).value, ChildPath(rel, p[0]), p[1..], d, path, isDir)
  {
    forall e: nat | e >= d
      ensures SilentFrom(LinesAt(Child(node, p[0]).value, p[1..], e), BaseAt(ChildPath(rel, p[0]), p[1..], e),
                         path, isDir, 0)
    {
      OneDown(node, rel, p, e);
      assert SilentFrom(LinesAt(node, p, e + 1), BaseAt(rel, p, e + 1), path, isDir, 0);
    }
  }

  lemma {:induction false} SilentAll(node: Node, rel: string, p: seq<string>, path: string, isDir: bool)
    requires SilentBelow(node, rel, p, 0, path, isDir)
    ensures !AnyMatches(RulesDown(node, rel, [], p, true), path, isDir)
    decreases |p|
  {
    assert SilentFrom(LinesAt(node, p, 0), BaseAt(rel, p, 0), path, isDir, 0);
    SilentFile(LinesAt(node, p, 0), BaseAt(rel, p, 0), path, isDir);
    Here(node, rel, p);
    RulesSplit(node, rel, p);
    if p != [] && Child(node, p[0]).Some? {
      var child := Child(node, p[0]).value;
      SilentChild(node, rel, p, 0, path, isDir);
      SilentAll(child, ChildPath(rel, p[0]), p[1..], path, isDir);
      AnyOfBoth(LocalRules(node, rel), RulesDown(child, ChildPath(rel, p[0]), [], p[1..], true), path, isDir);
    }
  }

  /** The deepest file with a line that matches decides, by its last such line. */
  lemma {:induction false} DecidingDecides(node: Node, rel: string, p: seq<string>, d: nat, i: nat, path: string,
                                           isDir: bool)
    requires Deciding(node, rel, p, d, i, path, isDir)
    ensures AnyMatches(RulesDown(node, rel, [], p, true), path, isDir)
    ensures Ignored(RulesDown(node, rel, [], p, true), path, isDir)
            <==> !RuleOf(LinesAt(node, p, d)[i], BaseAt(rel, p, d)).value.negate
    decreases |p|
  {
    RulesSplit(node, rel, p);
    Here(node, rel, p);
    if p != [] && Child(node, p[0]).Some? {
      var child, local := Child(node, p[0]).value, LocalRules(node, rel);
      var below := RulesDown(child, ChildPath(rel, p[0]), [], p[1..], true);
      Behind(RulesDown(node, rel, [], p, true), local, below, path, isDir);
      SilentChild(node, rel, p, d, path, isDir);
      if d == 0 {
        SilentAll(child, ChildPath(rel, p[0]), p[1..], path, isDir);
        LastLineDecides(LinesAt(node, p, 0), BaseAt(rel, p, 0), path, isDir, i);
      } else {
        OneDown(node, rel, p, d - 1);
        DecidingDecides(child, ChildPath(rel, p[0]), p[1..], d - 1, i, path, isDir);
      }
    } else {
      assert d == 0 by { Nowhere(node, p, d); }
      LastLineDecides(LinesAt(node, p, 0), BaseAt(rel, p, 0), path, isDir, i);
    }
  }

  lemma {:induction false} SomeDeciding(node: Node, rel: string, p: seq<string>, d: nat, path: string, isDir: bool)
    returns (e: nat, i: nat)
    requires !SilentBelow(node, rel, p, d, path, isDir) && d <= |p| + 1
    ensures Deciding(node, rel, p, e, i, path, isDir)
    decreases |p| + 1 - d
  {
    if SilentBelow(node, rel, p, d + 1, path, isDir) {
      e := d;
      i := LastMatch(LinesAt(node, p, d), BaseAt(rel, p, d), path, isDir, 0);
    } else {
      var e1: nat :| e1 >= d + 1 && !SilentFrom(LinesAt(node, p, e1), BaseAt(rel, p, e1), path, isDir, 0);
      e, i := SomeDeciding(node, rel, p, d + 1, path, isDir);
    }
  }

  /** By the rules the walk carries down a path, something is ignored if and only if there is a line in one
      of the .gitignore files on the way that matches and is not negated, and no line behind it in the
      same file and no line in a deeper directory matches. */
  lemma DeepestLineDecides(node: Node, rel: string, p: seq<string>, path: string, isDir: bool)
    ensures Ignored(RulesDown(node, rel, [], p, true), path, isDir)
            <==> exists d: nat, i: nat :: Deciding(node, rel, p, d, i, path, isDir)
                                          && !RuleOf(LinesAt(node, p, d)[i], BaseAt(rel, p, d)).value.negate
  {
    if SilentBelow(node, rel, p, 0, path, isDir) {
      SilentAll(node, rel, p, path, isDir);
    } else {
      var d, i := SomeDeciding(node, rel, p, 0, path, isDir);
      DecidingDecides(node, rel, p, d, i, path, isDir);
    }
    forall d: nat, i: nat | Deciding(node, rel, p, d, i, path, isDir)
      ensures Ignored(RulesDown(node, rel, [], p, true), path, isDir)
              <==> !RuleOf(LinesAt(node, p, d)[i], BaseAt(rel, p, d)).value.negate
    {
      DecidingDecides(node, rel, p, d, i, path, isDir);
    }
  }
}
