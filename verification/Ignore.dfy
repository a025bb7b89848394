/** Gitignore rules: reading one from a line, and deciding whether a path is ignored. */
module Ignore {
  import opened Text
  import opened Regexp
  import opened Glob

  /** The path as the rules of `base` see it. */
  function Below(base: string, rel: string): Option<string> {
    if base == "" then Some(rel)
    else if IsPrefix(base + "/", rel) then Some(rel[|base| + 1..])
    else None
  }

  /** The directory and the path below it make up the path. */
  lemma BelowIff(base: string, rel: string, sub: string)
    ensures Below(base, rel) == Some(sub) <==> rel == if base == "" then sub else base + "/" + sub
  {
    if base != "" && IsPrefix(base + "/", rel) {
      assert rel == (base + "/") + rel[|base| + 1..];
    }
    assert (base + "/" + sub)[|base| + 1..] == sub && (base + "/" + sub)[..|base| + 1] == base + "/";
  }

  /** One line, in force below the directory `base`. */
  datatype Rule = Rule(base: string, negate: bool, dirOnly: bool, anchored: bool, re: Regex) {
    predicate Matches(rel: string, isDir: bool) {
      if dirOnly && !isDir then false
      else
        match Below(base, rel)
        case None => false
        case Some(sub) => Search(re, if anchored then sub else BaseName(sub))
    }
  }

  // --- Lines -------------------------------------------------------------------------

  function TrimRight(s: string, c: char): string {
    if s != "" && s[|s| - 1] == c then TrimRight(s[..|s| - 1], c) else s
  }

  predicate Escaped(s: string) {
    |s| >= 2 && s[0] == '\\' && (s[1] == '#' || s[1] == '!')
  }

  /** What is left of a line when the blanks at its end are gone, or nothing for a comment. */
  function Significant(line: string): string {
    var l := TrimRight(line, '\r');
    if l != "" && l[0] == '#' then "" else TrimRight(l, ' ')
  }

  function Unnegated(l: string): string {
    if l != "" && l[0] == '!' then l[1..] else l
  }

  function Unescaped(l: string): string {
    if Escaped(l) then l[1..] else l
  }

  predicate ForDirs(l: string) {
    l != "" && l[|l| - 1] == '/'
  }

  function WithoutDirMark(l: string): string {
    if ForDirs(l) then l[..|l| - 1] else l
  }

  function Unrooted(l: string): string {
    if l != "" && l[0] == '/' then l[1..] else l
  }

  function RuleOf(line: string, base: string): Option<Rule> {
    var l := Significant(line);
    var marked := Unescaped(Unnegated(l));
    var path := WithoutDirMark(marked);
    if Unrooted(path) == "" then None
    else Some(Rule(base, l != Unnegated(l), ForDirs(marked), '/' in path, Compiled(Unrooted(path))))
  }

  method CompileIgnoreLine(text: string, base: string) returns (r: Option<Rule>)
    ensures r == RuleOf(text, base)
    ensures r.None? <==> (text != "" && text[0] == '#') || Hollow(text)
  {
    NoRule(text, base);
    var line := TrimRight(text, '\r');
    if line == "" || line[0] == '#' { return None; }
    line := TrimRight(line, ' ');
    if line == "" { return None; }
    assert line == Significant(text);
    var negate, dirOnly, anchored := false, false, false;
    if line[0] == '!' {
      negate := true;
      line := line[1..];
    }
    assert line == Unnegated(Significant(text)) && negate == (line != Significant(text));
    if Escaped(line) {
      line := line[1..];
    }
    ghost var marked := line;
    if line != "" && line[|line| - 1] == '/' {
      dirOnly := true;
      line := line[..|line| - 1];
    }
    assert line == WithoutDirMark(marked) && dirOnly == ForDirs(marked);
    if '/' in line {
      anchored := true;
    }
    ghost var path := line;
    if line != "" && line[0] == '/' {
      line := line[1..];
    }
    assert line == Unrooted(path);
    if line == "" { return None; }
    var source := GlobToRegex(line);
    return Some(Rule(base, negate, dirOnly, anchored, Parse(source).value));
  }

  function Repeat(c: char, n: nat): string {
    if n == 0 then "" else Repeat(c, n - 1) + [c]
  }

  lemma OneMoreBlank(s: string, c: char, n: nat)
    requires n > 0
    ensures var t := s + Repeat(c, n);
            t != "" && t[|t| - 1] == c && t[..|t| - 1] == s + Repeat(c, n - 1)
  {
    assert s + Repeat(c, n) == (s + Repeat(c, n - 1)) + [c];
  }

  lemma {:induction false} TrimsRepeat(s: string, c: char, n: nat)
    requires s == "" || s[|s| - 1] != c
    ensures TrimRight(s + Repeat(c, n), c) == s
  {
    if n == 0 {
      assert s + Repeat(c, n) == s;
    } else {
      OneMoreBlank(s, c, n);
      TrimsRepeat(s, c, n - 1);
    }
  }

  /** Trimming takes off characters of that kind, and leaves none at the end. */
  lemma {:induction false} TrimmedOff(s: string, c: char) returns (n: nat)
    ensures var t := TrimRight(s, c); s == t + Repeat(c, n) && (t == "" || t[|t| - 1] != c)
  {
    if s != "" && s[|s| - 1] == c {
      n := TrimmedOff(s[..|s| - 1], c);
      n := n + 1;
      assert s == s[..|s| - 1] + [c];
    } else {
      n := 0;
    }
  }

  /** A line with blanks behind it, and what is left of it. */
  lemma SignificantOf(l: string, spaces: nat, ends: nat)
    requires l == "" || (l[0] != '#' && l[|l| - 1] != ' ')
    requires l != "" && spaces == 0 ==> l[|l| - 1] != '\r'
    ensures Significant(l + Repeat(' ', spaces) + Repeat('\r', ends)) == l
    ensures !Comment(l + Repeat(' ', spaces) + Repeat('\r', ends))
  {
    var spaced := l + Repeat(' ', spaces);
    RepeatAll(' ', spaces);
    RepeatAll('\r', ends);
    assert spaced == "" || (spaced[|spaced| - 1] != '\r' && spaced[0] != '#') by {
      if spaces == 0 { assert spaced == l; }
    }
    TrimsRepeat(spaced, '\r', ends);
    TrimsRepeat(l, ' ', spaces);
  }

  lemma {:induction false} RepeatAll(c: char, n: nat)
    ensures |Repeat(c, n)| == n && forall i | 0 <= i < n :: Repeat(c, n)[i] == c
  {
    if n > 0 { RepeatAll(c, n - 1); }
  }

  predicate Comment(line: string) {
    line != "" && line[0] == '#'
  }

  /** What is left of a line that is no comment is the line without blanks behind it. */
  lemma SignificantParts(line: string) returns (spaces: nat, ends: nat)
    requires !Comment(line)
    ensures var l := Significant(line);
            && line == l + Repeat(' ', spaces) + Repeat('\r', ends)
            && (l == "" || (l[0] != '#' && l[|l| - 1] != ' ')) && (l != "" && spaces == 0 ==> l[|l| - 1] != '\r')
  {
    ends := TrimmedOff(line, '\r');
    var spaced := TrimRight(line, '\r');
    spaces := TrimmedOff(spaced, ' ');
    assert spaced != "" ==> spaced[0] == line[0];
    if spaces == 0 { assert spaced == TrimRight(spaced, ' '); }
  }

  /** At most one exclamation mark and two slashes, then blanks, then carriage returns. */
  ghost predicate Hollow(line: string) {
    exists bang: bool, slashes: nat, spaces: nat, ends: nat ::
      slashes <= 2 && line == HollowLine(bang, slashes, spaces, ends)
  }

  function HollowLine(bang: bool, slashes: nat, spaces: nat, ends: nat): string {
    MarkAndSlashes(bang, slashes) + Repeat(' ', spaces) + Repeat('\r', ends)
  }

  function MarkAndSlashes(bang: bool, slashes: nat): string {
    if bang then "!" + Repeat('/', slashes) else Repeat('/', slashes)
  }

  lemma FewSlashes()
    ensures Repeat('/', 0) == "" && Repeat('/', 1) == "/" && Repeat('/', 2) == "//"
  {
  }

  lemma OnlySlashes(u: string)
    requires Unrooted(WithoutDirMark(Unescaped(u))) == ""
    ensures u == "" || u == "/" || u == "//"
  {
    var path := WithoutDirMark(Unescaped(u));
    assert path == "" || path == "/";
    assert Unescaped(u) == path || Unescaped(u) == path + "/";
  }

  lemma NothingLeft(l: string) returns (bang: bool, slashes: nat)
    requires Unrooted(WithoutDirMark(Unescaped(Unnegated(l)))) == ""
    ensures slashes <= 2 && l == MarkAndSlashes(bang, slashes)
  {
    var u := Unnegated(l);
    bang, slashes := l != u, |u|;
    OnlySlashes(u);
    assert u == Repeat('/', slashes) by { FewSlashes(); }
    assert bang ==> l == "!" + u;
  }

  lemma SlashesOnly(u: string)
    requires u == "" || u == "/" || u == "//"
    ensures Unescaped(u) == u && Unnegated(u) == u && Unrooted(WithoutDirMark(u)) == ""
  {
    if u == "//" { assert WithoutDirMark(u) == "/"; }
  }

  lemma NothingRead(bang: bool, slashes: nat)
    requires slashes <= 2
    ensures Unrooted(WithoutDirMark(Unescaped(Unnegated(MarkAndSlashes(bang, slashes))))) == ""
  {
    var u := Repeat('/', slashes);
    FewSlashes();
    SlashesOnly(u);
    assert ("!" + u)[1..] == u;
  }

  lemma HollowRead(bang: bool, slashes: nat, spaces: nat, ends: nat, base: string)
    requires slashes <= 2
    ensures RuleOf(HollowLine(bang, slashes, spaces, ends), base).None?
  {
    FewSlashes();
    SignificantOf(MarkAndSlashes(bang, slashes), spaces, ends);
    NothingRead(bang, slashes);
  }

  /** A line gives no rule if and only if it begins with "#", or there is nothing in it but an exclamation
      mark at the beginning, one or two slashes, and blanks and carriage returns at the end, each of
      which may be missing. */
  lemma NoRule(line: string, base: string)
    ensures RuleOf(line, base).None? <==> (line != "" && line[0] == '#') || Hollow(line)
  {
    if Comment(line) {
      CommentRead(line);
    } else {
      var spaces, ends := SignificantParts(line);
      if RuleOf(line, base).None? {
        var bang, slashes := NothingLeft(Significant(line));
        assert line == HollowLine(bang, slashes, spaces, ends);
      }
      if Hollow(line) {
        var bang: bool, slashes: nat, spaces1: nat, ends1: nat :|
          slashes <= 2 && line == HollowLine(bang, slashes, spaces1, ends1);
        HollowRead(bang, slashes, spaces1, ends1, base);
      }
    }
  }

  lemma CommentRead(line: string)
    requires Comment(line)
    ensures Significant(line) == ""
  {
    var n := TrimmedOff(line, '\r');
    RepeatAll('\r', n);
    assert TrimRight(line, '\r') != "";
  }

  function Rooted(pattern: string, rooted: bool): string {
    if rooted then "/" + pattern else pattern
  }

  function Marked(path: string, dirOnly: bool): string {
    if dirOnly then path + "/" else path
  }

  function Escape(l: string): string {
    if l != "" && (l[0] == '#' || l[0] == '!') then "\\" + l else l
  }

  function Negated(l: string, negate: bool): string {
    if negate then "!" + l else l
  }

  /** How a rule is written: a leading slash roots it, a trailing one restricts it to directories,
      and a backslash protects a leading "#" or "!". */
  function LineFor(negate: bool, rooted: bool, pattern: string, dirOnly: bool): string {
    Negated(Escape(Marked(Rooted(pattern, rooted), dirOnly)), negate)
  }

  /** The patterns that can be written down so. */
  predicate Expressible(rooted: bool, pattern: string, dirOnly: bool) {
    && pattern != ""
    && (rooted || (pattern[0] != '/' && !Escaped(pattern)))
    && (dirOnly || pattern[|pattern| - 1] !in {'/', ' ', '\r'})
  }

  /** A line with all its parts: negated, protected, rooted, for directories, and the blanks behind it. */
  function Spelled(negate: bool, escaped: bool, rooted: bool, pattern: string, dirOnly: bool, spaces: nat, ends: nat)
    : string
  {
    Negated(Protected(Marked(Rooted(pattern, rooted), dirOnly), escaped), negate)
    + Repeat(' ', spaces) + Repeat('\r', ends)
  }

  function Protected(l: string, escaped: bool): string {
    if escaped then "\\" + l else l
  }

  /** The parts are where they seem to be: what looks like a mark is one, and what looks like the end of
      the line is in front of the blanks. */
  predicate Unambiguous(negate: bool, escaped: bool, rooted: bool, pattern: string, dirOnly: bool, spaces: nat) {
    && pattern != ""
    && (!rooted ==> pattern[0] != '/')
    && (!dirOnly ==> pattern[|pattern| - 1] !in {'/', ' '} && (spaces == 0 ==> pattern[|pattern| - 1] != '\r'))
    && var marked := Marked(Rooted(pattern, rooted), dirOnly);
       if escaped then marked[0] in {'#', '!'} else !Escaped(marked) && (marked[0] in {'#', '!'} ==> negate)
  }

  lemma NegationRead(l: string, negate: bool)
    requires l != "" && (negate || l[0] != '!')
    ensures Unnegated(Negated(l, negate)) == l && (Unnegated(Negated(l, negate)) != Negated(l, negate) <==> negate)
  {
    assert ("!" + l)[1..] == l;
    assert |"!" + l| != |l|;
  }

  lemma ProtectionRead(l: string, escaped: bool)
    requires l != "" && if escaped then l[0] in {'#', '!'} else !Escaped(l)
    ensures Unescaped(Protected(l, escaped)) == l
  {
    assert ("\\" + l)[1..] == l;
  }

  lemma MarkRead(path: string, dirOnly: bool)
    requires path != "" && (dirOnly || path[|path| - 1] != '/')
    ensures WithoutDirMark(Marked(path, dirOnly)) == path && (ForDirs(Marked(path, dirOnly)) <==> dirOnly)
  {
    assert (path + "/")[..|path|] == path;
  }

  lemma RootRead(pattern: string, rooted: bool)
    requires pattern != "" && (rooted || pattern[0] != '/')
    ensures Unrooted(Rooted(pattern, rooted)) == pattern
    ensures '/' in Rooted(pattern, rooted) <==> rooted || '/' in pattern
  {
    assert ("/" + pattern)[1..] == pattern;
    assert ("/" + pattern)[0] == '/';
  }

  /** A line that spells these parts reads as the rule they describe; blanks and carriage returns behind
      it do not matter. */
  lemma ReadsAs(negate: bool, escaped: bool, rooted: bool, pattern: string, dirOnly: bool, spaces: nat, ends: nat,
                base: string)
    requires Unambiguous(negate, escaped, rooted, pattern, dirOnly, spaces)
    ensures RuleOf(Spelled(negate, escaped, rooted, pattern, dirOnly, spaces, ends), base)
            == Some(Rule(base, negate, dirOnly, rooted || '/' in pattern, Compiled(pattern)))
  {
    var marked := Marked(Rooted(pattern, rooted), dirOnly);
    var l := Negated(Protected(marked, escaped), negate);
    assert l[|l| - 1] == if dirOnly then '/' else pattern[|pattern| - 1];
    SignificantOf(l, spaces, ends);
    NegationRead(Protected(marked, escaped), negate);
    ProtectionRead(marked, escaped);
    MarkRead(Rooted(pattern, rooted), dirOnly);
    RootRead(pattern, rooted);
  }

  lemma PutBack(l: string)
    ensures l == Negated(Unnegated(l), l != Unnegated(l)) && l == Protected(Unescaped(l), Escaped(l))
    ensures l == Marked(WithoutDirMark(l), ForDirs(l)) && l == Rooted(Unrooted(l), l != Unrooted(l))
  {
    if l != "" {
      assert l == [l[0]] + l[1..] && l == l[..|l| - 1] + [l[|l| - 1]];
      assert l != l[1..];
    }
  }

  lemma SameEnd(l: string)
    requires l != ""
    ensures Unnegated(l) != "" ==> Unnegated(l)[|Unnegated(l)| - 1] == l[|l| - 1]
    ensures Unescaped(l) != "" && Unescaped(l)[|Unescaped(l)| - 1] == l[|l| - 1]
    ensures Unrooted(l) != "" ==> Unrooted(l)[|Unrooted(l)| - 1] == l[|l| - 1]
  {
  }

  lemma EndFits(l: string, pattern: string)
    requires l != "" && pattern == Unrooted(WithoutDirMark(Unescaped(Unnegated(l)))) != ""
    requires !ForDirs(Unescaped(Unnegated(l)))
    ensures pattern[|pattern| - 1] == l[|l| - 1] != '/'
  {
    var u := Unnegated(l);
    SameEnd(l);
    SameEnd(u);
    SameEnd(Unescaped(u));
  }

  lemma LeadFits(l: string, u: string, marked: string)
    requires u == Unnegated(l) && marked == Unescaped(u) && marked != "" && l != "" && l[0] != '#'
    ensures if Escaped(u) then marked[0] in {'#', '!'} else !Escaped(marked) && (marked[0] in {'#', '!'} ==> l != u)
  {
  }

  lemma PartsFit(l: string, u: string, marked: string, path: string, spaces: nat)
    requires u == Unnegated(l) && marked == Unescaped(u) && path == WithoutDirMark(marked) && Unrooted(path) != ""
    requires l != "" && l[0] != '#' && l[|l| - 1] != ' ' && (spaces == 0 ==> l[|l| - 1] != '\r')
    ensures Unambiguous(l != u, Escaped(u), path != Unrooted(path), Unrooted(path), ForDirs(marked), spaces)
  {
    assert Marked(Rooted(Unrooted(path), path != Unrooted(path)), ForDirs(marked)) == marked by {
      PutBack(marked);
      PutBack(path);
    }
    LeadFits(l, u, marked);
    if !ForDirs(marked) { EndFits(l, Unrooted(path)); }
  }

  lemma Respelled(l: string, u: string, marked: string, path: string, spaces: nat, ends: nat)
    requires u == Unnegated(l) && marked == Unescaped(u) && path == WithoutDirMark(marked)
    ensures Spelled(l != u, Escaped(u), path != Unrooted(path), Unrooted(path), ForDirs(marked), spaces, ends)
            == l + Repeat(' ', spaces) + Repeat('\r', ends)
  {
    var core := Negated(Protected(Marked(Rooted(Unrooted(path), path != Unrooted(path)), ForDirs(marked)), Escaped(u)),
                        l != u);
    assert core == l by {
      PutBack(l);
      PutBack(u);
      PutBack(marked);
      PutBack(path);
    }
  }

  lemma CoreOf(line: string, base: string) returns (l: string, spaces: nat, ends: nat)
    requires RuleOf(line, base).Some?
    ensures l + Repeat(' ', spaces) + Repeat('\r', ends) == line
    ensures l != "" && l[0] != '#' && l[|l| - 1] != ' ' && (spaces == 0 ==> l[|l| - 1] != '\r')
    ensures Unrooted(WithoutDirMark(Unescaped(Unnegated(l)))) != ""
  {
    if Comment(line) { CommentRead(line); }
    spaces, ends := SignificantParts(line);
    l := Significant(line);
  }

  /** Every line that gives a rule spells some parts, so nothing else gives one. */
  lemma EveryRuleSpelled(line: string, base: string)
    returns (negate: bool, escaped: bool, rooted: bool, pattern: string, dirOnly: bool, spaces: nat, ends: nat)
    requires RuleOf(line, base).Some?
    ensures Spelled(negate, escaped, rooted, pattern, dirOnly, spaces, ends) == line
    ensures Unambiguous(negate, escaped, rooted, pattern, dirOnly, spaces)
  {
    var l;
    l, spaces, ends := CoreOf(line, base);
    var u := Unnegated(l);
    var marked := Unescaped(u);
    var path := WithoutDirMark(marked);
    negate, escaped, rooted, pattern, dirOnly :=
      l != u, Escaped(u), path != Unrooted(path), Unrooted(path), ForDirs(marked);
    assert Spelled(negate, escaped, rooted, pattern, dirOnly, spaces, ends) == line by {
      Respelled(l, u, marked, path, spaces, ends);
    }
    assert Unambiguous(negate, escaped, rooted, pattern, dirOnly, spaces) by {
      PartsFit(l, u, marked, path, spaces);
    }
  }

  /** Reading back what was written gives the rule that was meant. */
  lemma ReadsBack(negate: bool, rooted: bool, pattern: string, dirOnly: bool, spaces: nat, ends: nat, base: string)
    requires Expressible(rooted, pattern, dirOnly)
    ensures RuleOf(LineFor(negate, rooted, pattern, dirOnly) + Repeat(' ', spaces) + Repeat('\r', ends), base)
            == Some(Rule(base, negate, dirOnly, rooted || '/' in pattern, Compiled(pattern)))
  {
    var marked := Marked(Rooted(pattern, rooted), dirOnly);
    ReadsAs(negate, marked[0] in {'#', '!'}, rooted, pattern, dirOnly, spaces, ends, base);
  }

  /** What a pattern without a directory mark says about a path below its directory: with a slash
      it is about the whole path, without one about the base name, which for a pattern without "**"
      is to say that it may match at any depth. */
  predicate PatternMatches(path: string, sub: string) {
    if '/' in path then GlobMatch(Unrooted(path), sub, false)
    else if HasDoubleStar(path) then GlobMatch(path, BaseName(sub), false)
    else GlobMatch("**/" + path, sub, false)
  }

  lemma {:induction false} TrimKeepsLine(p: string)
    requires '\n' !in p
    ensures '\n' !in TrimSlashes(p)
  {
    if p != "" && p[|p| - 1] == '/' { TrimKeepsLine(p[..|p| - 1]); }
  }

  lemma {:induction false} SegmentKeepsLine(p: string)
    requires '\n' !in p
    ensures '\n' !in AfterLastSlash(p)
    decreases |p|
  {
    if '/' in p { SegmentKeepsLine(p[FirstSlash(p) + 1..]); }
  }

  lemma BaseNameKeepsLine(p: string)
    requires '\n' !in p
    ensures '\n' !in BaseName(p)
  {
    TrimKeepsLine(p);
    SegmentKeepsLine(TrimSlashes(p));
  }

  lemma PatternMeans(path: string, sub: string)
    requires '\n' !in sub && sub != "" && !ForDirs(sub)
    ensures Search(Compiled(Unrooted(path)), if '/' in path then sub else BaseName(sub)) <==> PatternMatches(path, sub)
  {
    if '/' in path {
      MeansTheSame(Unrooted(path), sub);
    } else if HasDoubleStar(path) {
      BaseNameKeepsLine(sub);
      MeansTheSame(path, BaseName(sub));
    } else {
      BaseNameSuffices(path, sub);
      MeansTheSame("**/" + path, sub);
    }
  }

  /** What a line means: its pattern matches the path below the rule's directory, and a rule for
      directories only concerns directories. */
  lemma LineMeans(line: string, base: string, rel: string, isDir: bool)
    requires RuleOf(line, base).Some? && '\n' !in rel
    requires Below(base, rel).Some? ==> Below(base, rel).value != "" && !ForDirs(Below(base, rel).value)
    ensures var marked := Unescaped(Unnegated(Significant(line)));
            RuleOf(line, base).value.Matches(rel, isDir)
            <==> && (ForDirs(marked) ==> isDir)
                 && Below(base, rel).Some?
                 && PatternMatches(WithoutDirMark(marked), Below(base, rel).value)
  {
    if Below(base, rel).Some? {
      PatternMeans(WithoutDirMark(Unescaped(Unnegated(Significant(line)))), Below(base, rel).value);
    }
  }

  /** The same for a line with all its parts, and a path that is given from the rule's directory on. */
  lemma SpelledMeans(negate: bool, escaped: bool, rooted: bool, pattern: string, dirOnly: bool, spaces: nat, ends: nat,
                     base: string, sub: string, isDir: bool)
    requires Unambiguous(negate, escaped, rooted, pattern, dirOnly, spaces)
    requires '\n' !in base && '\n' !in sub && sub != "" && !ForDirs(sub)
    ensures var rule := RuleOf(Spelled(negate, escaped, rooted, pattern, dirOnly, spaces, ends), base);
            && rule.Some? && rule.value.negate == negate
            && (rule.value.Matches(if base == "" then sub else base + "/" + sub, isDir)
                <==> && (dirOnly ==> isDir)
                     && if rooted || '/' in pattern then GlobMatch(pattern, sub, false)
                        else if HasDoubleStar(pattern) then GlobMatch(pattern, BaseName(sub), false)
                        else GlobMatch("**/" + pattern, sub, false))
  {
    ReadsAs(negate, escaped, rooted, pattern, dirOnly, spaces, ends, base);
    BelowIff(base, if base == "" then sub else base + "/" + sub, sub);
    RootRead(pattern, rooted);
    PatternMeans(Rooted(pattern, rooted), sub);
  }

  // --- Deciding ----------------------------------------------------------------------

  predicate AnyMatches(rules: seq<Rule>, rel: string, isDir: bool) {
    exists i :: 0 <= i < |rules| && rules[i].Matches(rel, isDir)
  }

  /** The last rule that matches decides. */
  ghost predicate Ignored(rules: seq<Rule>, rel: string, isDir: bool) {
    exists i :: 0 <= i < |rules| && rules[i].Matches(rel, isDir) && !rules[i].negate
                && forall j :: i < j < |rules| ==> !rules[j].Matches(rel, isDir)
  }

  method IsIgnored(rules: seq<Rule>, rel: string, isDir: bool) returns (ignored: bool)
    ensures ignored <==> Ignored(rules, rel, isDir)
  {
    ignored := false;
    ghost var last := -1;
    for n := 0 to |rules|
      invariant -1 <= last < n
      invariant forall j :: last < j < n ==> !rules[j].Matches(rel, isDir)
      invariant last >= 0 ==> rules[last].Matches(rel, isDir)
      invariant ignored <==> last >= 0 && !rules[last].negate
    {
      if rules[n].Matches(rel, isDir) {
        ignored := !rules[n].negate;
        last := n;
      }
    }
  }

  /** Rule i is the last one that matches. */
  ghost predicate Decides(rules: seq<Rule>, i: int, rel: string, isDir: bool) {
    0 <= i < |rules| && rules[i].Matches(rel, isDir) && forall j :: i < j < |rules| ==> !rules[j].Matches(rel, isDir)
  }

  lemma {:induction false} LastHit(hits: seq<bool>) returns (i: nat)
    requires true in hits
    ensures i < |hits| && hits[i] && forall j :: i < j < |hits| ==> !hits[j]
  {
    if hits[|hits| - 1] {
      i := |hits| - 1;
    } else {
      i := LastHit(hits[..|hits| - 1]);
    }
  }

  lemma SomeRuleDecides(rules: seq<Rule>, rel: string, isDir: bool) returns (i: nat)
    requires AnyMatches(rules, rel, isDir)
    ensures Decides(rules, i, rel, isDir)
  {
    var hits := seq(|rules|, n requires 0 <= n < |rules| => rules[n].Matches(rel, isDir));
    var k :| 0 <= k < |rules| && rules[k].Matches(rel, isDir);
    assert hits[k];
    i := LastHit(hits);
    assert forall j :: i < j < |rules| ==> hits[j] == rules[j].Matches(rel, isDir);
  }

  lemma DeciderIsLast(rules: seq<Rule>, i: int, rel: string, isDir: bool)
    requires Decides(rules, i, rel, isDir)
    ensures Ignored(rules, rel, isDir) <==> !rules[i].negate
  {
  }

  lemma DecidesBehind(a: seq<Rule>, b: seq<Rule>, i: nat, rel: string, isDir: bool)
    requires Decides(b, i, rel, isDir)
    ensures Decides(a + b, |a| + i, rel, isDir)
  {
  }

  lemma DecidesBefore(a: seq<Rule>, b: seq<Rule>, i: nat, rel: string, isDir: bool)
    requires Decides(a, i, rel, isDir) && !AnyMatches(b, rel, isDir)
    ensures Decides(a + b, i, rel, isDir)
  {
    assert forall j :: |a| <= j < |a + b| ==> (a + b)[j] == b[j - |a|];
  }

  lemma NothingDecides(a: seq<Rule>, b: seq<Rule>, rel: string, isDir: bool)
    requires !AnyMatches(a, rel, isDir) && !AnyMatches(b, rel, isDir)
    ensures !Ignored(a + b, rel, isDir) && !Ignored(a, rel, isDir)
  {
    assert forall j :: 0 <= j < |a + b| ==> (a + b)[j] == if j < |a| then a[j] else b[j - |a|];
  }

  /** Of two groups of rules the later one decides if it has anything to say. */
  lemma LaterRulesDecide(a: seq<Rule>, b: seq<Rule>, rel: string, isDir: bool)
    ensures Ignored(a + b, rel, isDir)
            <==> if AnyMatches(b, rel, isDir) then Ignored(b, rel, isDir) else Ignored(a, rel, isDir)
  {
    if AnyMatches(b, rel, isDir) {
      var i := SomeRuleDecides(b, rel, isDir);
      DecidesBehind(a, b, i, rel, isDir);
      DeciderIsLast(b, i, rel, isDir);
      DeciderIsLast(a + b, |a| + i, rel, isDir);
    } else if AnyMatches(a, rel, isDir) {
      var i := SomeRuleDecides(a, rel, isDir);
      DecidesBefore(a, b, i, rel, isDir);
      DeciderIsLast(a, i, rel, isDir);
      DeciderIsLast(a + b, i, rel, isDir);
    } else {
      NothingDecides(a, b, rel, isDir);
    }
  }
}
