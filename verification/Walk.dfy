/** The manifest: a recursive walk that prunes ignored directories, against the set of files
    it is meant to list. */
module Walk {
  import opened Text
  import opened Sorting
  import opened Ignore

  datatype Info = Info(size: nat, mtime: int)

  /** A tree of files. `rules` holds the lines of the directory's .gitignore, none if it has no
      such file. Reading a directory, its .gitignore or a file's information may fail. */
  datatype Node =
    | File(info: Option<Info>)
    | Special
    | Dir(rules: Result<seq<string>>, readable: bool, entries: seq<Named>)

  datatype Named = Named(name: string, node: Node)

  datatype Entry = Entry(path: string, size: nat, mtime: int)

  function ChildPath(rel: string, name: string): string {
    if rel == "" then name else rel + "/" + name
  }

  // --- Rules in force ----------------------------------------------------------------

  function RulesIn(lines: seq<string>, rel: string): seq<Rule> {
    if lines == [] then []
    else
      var last := RuleOf(lines[|lines| - 1], rel);
      RulesIn(lines[..|lines| - 1], rel) + if last.Some? then [last.value] else []
  }

  method LoadIgnoreRules(lines: seq<string>, rel: string) returns (rules: seq<Rule>)
    ensures rules == RulesIn(lines, rel)
  {
    rules := [];
    for i := 0 to |lines|
      invariant rules == RulesIn(lines[..i], rel)
    {
      assert lines[..i + 1][..i] == lines[..i];
      var r := CompileIgnoreLine(lines[i], rel);
      if r.Some? {
        rules := rules + [r.value];
      }
    }
    assert lines[..|lines|] == lines;
  }

  /** The rules of the directory itself. */
  function LocalRules(dir: Node, rel: string): seq<Rule> {
    if dir.Dir? && dir.rules.Ok? then RulesIn(dir.rules.value, rel) else []
  }

  /** The rules for what is in the directory. */
  function RulesHere(dir: Node, rel: string, inherited: seq<Rule>, useGitignore: bool): seq<Rule> {
    if useGitignore then inherited + LocalRules(dir, rel) else inherited
  }

  // --- The walk ----------------------------------------------------------------------

  ghost function Walked(dir: Node, rel: string, inherited: seq<Rule>, useGitignore: bool): Result<seq<Entry>>
    decreases dir
  {
    if !dir.Dir? then Err("not a directory")
    else if useGitignore && dir.rules.Err? then Err(dir.rules.error)
    else if !dir.readable then Err("cannot read directory")
    else WalkedAll(dir.entries, rel, RulesHere(dir, rel, inherited, useGitignore), useGitignore)
  }

  ghost function WalkedAll(entries: seq<Named>, rel: string, rules: seq<Rule>, useGitignore: bool): Result<seq<Entry>>
    decreases entries
  {
    if entries == [] then Ok([])
    else
      match WalkedAll(entries[..|entries| - 1], rel, rules, useGitignore)
      case Err(e) => Err(e)
      case Ok(before) =>
        match WalkedOne(entries[|entries| - 1], rel, rules, useGitignore)
        case Err(e) => Err(e)
        case Ok(here) => Ok(before + here)
  }

  ghost function WalkedOne(named: Named, rel: string, rules: seq<Rule>, useGitignore: bool): Result<seq<Entry>>
    decreases named
  {
    var path := ChildPath(rel, named.name);
    if named.name == ".git" then Ok([])
    else if useGitignore && Ignored(rules, path, named.node.Dir?) then Ok([])
    else
      match named.node
      case Dir(_, _, _) => Walked(named.node, path, rules, useGitignore)
      case File(info) =>
        if info.None? then Err("file vanished") else Ok([Entry(path, info.value.size, info.value.mtime)])
      case Special => Ok([])
  }

  /** Where a walk puts what it finds. */
  class Listing {
    var entries: seq<Entry>

    constructor ()
      ensures entries == []
    {
      entries := [];
    }
  }

  method WalkTree(dir: Node, rel: string, inherited: seq<Rule>, useGitignore: bool, out: Listing)
    returns (err: Option<string>)
    modifies out
    ensures match Walked(dir, rel, inherited, useGitignore)
            case Ok(found) => err == None && out.entries == old(out.entries) + found
            case Err(e) => err == Some(e)
    decreases dir
  {
    if !dir.Dir? { return Some("not a directory"); }
    var rules := inherited;
    if useGitignore {
      if dir.rules.Err? { return Some(dir.rules.error); }
      var local := LoadIgnoreRules(dir.rules.value, rel);
      if |local| > 0 {
        rules := inherited + local;
      }
    }
    if !dir.readable { return Some("cannot read directory"); }
    assert rules == RulesHere(dir, rel, inherited, useGitignore);
    err := WalkEntries(dir.entries, rel, rules, useGitignore, out);
  }

  method WalkEntries(entries: seq<Named>, rel: string, rules: seq<Rule>, useGitignore: bool, out: Listing)
    returns (err: Option<string>)
    modifies out
    ensures match WalkedAll(entries, rel, rules, useGitignore)
            case Ok(found) => err == None && out.entries == old(out.entries) + found
            case Err(e) => err == Some(e)
    decreases entries
  {
    ghost var found: seq<Entry> := [];
    for i := 0 to |entries|
      invariant WalkedAll(entries[..i], rel, rules, useGitignore) == Ok(found)
      invariant out.entries == old(out.entries) + found
    {
      assert entries[..i + 1][..i] == entries[..i];
      WalkedPrefix(entries, i + 1, rel, rules, useGitignore);
      err := WalkEntry(entries[i], rel, rules, useGitignore, out);
      if err.Some? { return; }
      found := found + WalkedOne(entries[i], rel, rules, useGitignore).value;
    }
    assert entries[..|entries|] == entries;
    return None;
  }

  method WalkEntry(named: Named, rel: string, rules: seq<Rule>, useGitignore: bool, out: Listing)
    returns (err: Option<string>)
    modifies out
    ensures match WalkedOne(named, rel, rules, useGitignore)
            case Ok(found) => err == None && out.entries == old(out.entries) + found
            case Err(e) => err == Some(e)
    decreases named
  {
    if named.name == ".git" { return None; }
    var childRel := ChildPath(rel, named.name);
    if useGitignore {
      var ignored := IsIgnored(rules, childRel, named.node.Dir?);
      if ignored { return None; }
    }
    match named.node {
      case Dir(_, _, _) =>
        err := WalkTree(named.node, childRel, rules, useGitignore, out);
      case File(info) =>
        if info.None? { return Some("file vanished"); }
        out.entries := out.entries + [Entry(childRel, info.value.size, info.value.mtime)];
        return None;
      case Special =>
        return None;
    }
  }

  /** A failure on the way is the result of the whole. */
  lemma {:induction false} WalkedPrefix(entries: seq<Named>, n: nat, rel: string, rules: seq<Rule>, useGitignore: bool)
    requires n <= |entries|
    ensures var part := WalkedAll(entries[..n], rel, rules, useGitignore);
            part.Err? ==> WalkedAll(entries, rel, rules, useGitignore) == part
    decreases |entries|
  {
    if n == |entries| {
      assert entries[..n] == entries;
    } else {
      WalkedPrefix(entries[..|entries| - 1], n, rel, rules, useGitignore);
      assert entries[..|entries| - 1][..n] == entries[..n];
    }
  }

  function PathOf(e: Entry): string { e.path }

  method BuildManifest(root: Node, useGitignore: bool) returns (r: Result<seq<Entry>>)
    ensures r == Manifest(root, useGitignore)
  {
    var out := new Listing();
    var err := WalkTree(root, "", [], useGitignore, out);
    if err.Some? { return Err(err.value); }
    ghost var found := Walked(root, "", [], useGitignore);
    assert found.Ok?;
    assert out.entries == found.value;
    assert Manifest(root, useGitignore) == Ok(Sort(PathOf, found.value));
    return Ok(Sort(PathOf, out.entries));
  }

  ghost function Manifest(root: Node, useGitignore: bool): Result<seq<Entry>> {
    match Walked(root, "", [], useGitignore)
    case Err(e) => Err(e)
    case Ok(found) => Ok(Sort(PathOf, found))
  }
}
