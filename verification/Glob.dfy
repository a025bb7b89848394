/** Gitignore globs: what they mean, and the compiler that turns them into regular expressions. */
module Glob {
  import opened Text
  import opened Regexp

  predicate Deep(g: string) { |g| >= 2 && g[0] == '*' && g[1] == '*' }

  predicate DeepDir(g: string) { Deep(g) && |g| >= 3 && g[2] == '/' }

  function FirstSlash(s: string): (k: nat)
    requires '/' in s
    ensures k < |s| && s[k] == '/' && '/' !in s[..k]
  {
    if s[0] == '/' then 0
    else
      assert s == [s[0]] + s[1..];
      var k := 1 + FirstSlash(s[1..]);
      assert s[..k] == [s[0]] + s[1..][..k - 1];
      k
  }

  /** The meaning of a glob: "*" and "?" stop at a slash, "**" does not, and "**" with a slash
      behind it stands for any number of leading segments. With `lines` set, "**" does stop at
      a newline. */
  predicate GlobMatch(g: string, s: string, lines: bool)
    decreases |g| + |s|
  {
    if g == "" then s == ""
    else if DeepDir(g) then
      GlobMatch(g[3..], s, lines) ||
      ('/' in s && (lines ==> '\n' !in s[..FirstSlash(s)]) && GlobMatch(g, s[FirstSlash(s) + 1..], lines))
    else if Deep(g) then
      GlobMatch(g[2..], s, lines) || (s != "" && (lines ==> s[0] != '\n') && GlobMatch(g, s[1..], lines))
    else if g[0] == '*' then
      GlobMatch(g[1..], s, lines) || (s != "" && s[0] != '/' && GlobMatch(g, s[1..], lines))
    else
      s != "" && (if g[0] == '?' then s[0] != '/' else s[0] == g[0]) && GlobMatch(g[1..], s[1..], lines)
  }

  // --- The compiler ------------------------------------------------------------------

  /** How much of the glob its first token takes. */
  function Width(g: string): (n: nat)
    requires g != ""
    ensures 1 <= n <= |g|
  {
    if DeepDir(g) then 3 else if Deep(g) then 2 else 1
  }

  /** The expression text for the first token. */
  function Fragment(g: string): string
    requires g != ""
  {
    if DeepDir(g) then "(?:.*/)?"
    else if Deep(g) then ".*"
    else if g[0] == '*' then "[^/]*"
    else if g[0] == '?' then "[^/]"
    else if g[0] in SPECIAL then ['\\', g[0]]
    else [g[0]]
  }

  function Body(g: string): string {
    if g == "" then "" else Fragment(g) + Body(g[Width(g)..])
  }

  /** The expression for the first token. */
  function Piece(g: string): Regex
    requires g != ""
  {
    if DeepDir(g) then Optional(Cat(Star(AnyInLine), Cat(Literal('/'), Empty)))
    else if Deep(g) then Star(AnyInLine)
    else if g[0] == '*' then Star(NotSlash)
    else if g[0] == '?' then NotSlash
    else Literal(g[0])
  }

  function Pieces(g: string): Regex {
    if g == "" then Cat(End, Empty) else Cat(Piece(g), Pieces(g[Width(g)..]))
  }

  function Compiled(g: string): Regex { Cat(Begin, Pieces(g)) }

  /** The compiler's output never lets an operator slip behind the wrong atom. */
  lemma TailStartsPlain(g: string)
    ensures (Body(g) + "$")[0] != '*' && (Body(g) + "$")[0] != '?'
  {
    if g != "" {
      assert (Body(g) + "$")[0] == Fragment(g)[0];
    }
  }

  lemma ParsesGroupBody(tail: string)
    ensures ParseSequence(".*/)" + tail) == Some(Parsed(Cat(Star(AnyInLine), Cat(Literal('/'), Empty)), ")" + tail))
  {
    var s3 := ".*/)" + tail;
    var s5 := "/)" + tail;
    var s6 := ")" + tail;
    assert s3[1..][1..] == s5 && s5[1..] == s6;
    assert ParsePiece(s3) == Some(Parsed(Star(AnyInLine), s5));
    assert ParsePiece(s5) == Some(Parsed(Literal('/'), s6));
    assert ParseSequence(s6) == Some(Parsed(Empty, s6));
    assert ParseSequence(s5) == Some(Parsed(Cat(Literal('/'), Empty), s6));
  }

  lemma ParsesDeepDir(tail: string)
    ensures ParsePiece("(?:.*/)?" + tail)
            == Some(Parsed(Optional(Cat(Star(AnyInLine), Cat(Literal('/'), Empty))), tail))
  {
    var s := "(?:.*/)?" + tail;
    var body := Cat(Star(AnyInLine), Cat(Literal('/'), Empty));
    ParsesGroupBody("?" + tail);
    assert s[3..] == ".*/)" + ("?" + tail);
    assert s[..3] == "(?:";
    assert (")" + ("?" + tail))[1..] == "?" + tail;
    assert ParseAtom(s) == Some(Parsed(body, "?" + tail));
    assert ("?" + tail)[1..] == tail;
  }

  lemma ParsesFragment(g: string, tail: string)
    requires g != "" && tail != "" && tail[0] != '*' && tail[0] != '?'
    ensures ParsePiece(Fragment(g) + tail) == Some(Parsed(Piece(g), tail))
  {
    var s := Fragment(g) + tail;
    if DeepDir(g) {
      ParsesDeepDir(tail);
    } else if Deep(g) {
      assert s[1..][1..] == tail;
    } else if g[0] == '*' {
      assert s[4..][1..] == tail && s[4..][0] == '*';
      assert s[..4] == "[^/]";
    } else if g[0] == '?' {
      assert s[4..] == tail && s[..4] == "[^/]";
    } else if g[0] in SPECIAL {
      assert s[2..] == tail && s[1] == g[0];
    } else {
      assert s[1..] == tail;
    }
  }

  lemma {:induction false} ParsesBody(g: string)
    ensures ParseSequence(Body(g) + "$") == Some(Parsed(Pieces(g), ""))
  {
    var s := Body(g) + "$";
    if g == "" {
      assert s == "$" && s[1..] == "";
      assert ParsePiece(s) == Some(Parsed(End, ""));
      assert ParseSequence("") == Some(Parsed(Empty, ""));
    } else {
      var rest := g[Width(g)..];
      ParsesBody(rest);
      TailStartsPlain(rest);
      assert s == Fragment(g) + (Body(rest) + "$");
      ParsesFragment(g, Body(rest) + "$");
      assert s[0] == Fragment(g)[0] != ')';
    }
  }

  /** What the compiler writes is well formed, and it reads back as the intended expression. */
  lemma CompilesToSyntax(g: string)
    ensures Parse("^" + Body(g) + "$") == Some(Compiled(g))
  {
    var s := "^" + Body(g) + "$";
    assert s[1..] == Body(g) + "$";
    ParsesBody(g);
    TailStartsPlain(g);
    assert ParsePiece(s) == Some(Parsed(Begin, Body(g) + "$"));
  }

  // --- The expression means the same -------------------------------------------------

  /** The first token takes s[..k], in which `bad` must not occur, and the rest matches what follows. */
  ghost predicate RunAt(rest: string, s: string, k: int, bad: char, lines: bool) {
    0 <= k <= |s| && bad !in s[..k] && GlobMatch(rest, s[k..], lines)
  }

  lemma RunShifts(rest: string, s: string, k: int, bad: char, lines: bool)
    requires s != "" && 0 < k
    ensures RunAt(rest, s, k, bad, lines) <==> s[0] != bad && RunAt(rest, s[1..], k - 1, bad, lines)
  {
    if k <= |s| {
      assert s[..k] == [s[0]] + s[1..][..k - 1];
      assert s[1..][k - 1..] == s[k..];
    }
  }

  /** One "*" is a run without slashes. */
  lemma {:induction false} ManySplits(g: string, s: string, lines: bool)
    requires g != "" && g[0] == '*' && !Deep(g)
    ensures GlobMatch(g, s, lines) <==> exists k :: RunAt(g[1..], s, k, '/', lines)
    decreases |s|
  {
    assert s[0..] == s;
    assert RunAt(g[1..], s, 0, '/', lines) <==> GlobMatch(g[1..], s, lines);
    if s != "" {
      ManySplits(g, s[1..], lines);
      if k :| RunAt(g[1..], s, k, '/', lines) && k > 0 {
        RunShifts(g[1..], s, k, '/', lines);
      } else if k :| s[0] != '/' && RunAt(g[1..], s[1..], k, '/', lines) {
        RunShifts(g[1..], s, k + 1, '/', lines);
      }
    }
  }

  /** "**" is any run; in the text of one line, a run without newlines. */
  lemma {:induction false} DeepSplits(g: string, s: string)
    requires Deep(g) && !DeepDir(g)
    ensures GlobMatch(g, s, true) <==> exists k :: RunAt(g[2..], s, k, '\n', true)
    decreases |s|
  {
    assert s[0..] == s;
    assert RunAt(g[2..], s, 0, '\n', true) <==> GlobMatch(g[2..], s, true);
    if s != "" {
      DeepSplits(g, s[1..]);
      if k :| RunAt(g[2..], s, k, '\n', true) && k > 0 {
        RunShifts(g[2..], s, k, '\n', true);
      } else if k :| s[0] != '\n' && RunAt(g[2..], s[1..], k, '\n', true) {
        RunShifts(g[2..], s, k + 1, '\n', true);
      }
    }
  }

  /** Leading segments are a run that ends in a slash, or nothing. */
  ghost predicate Segments(s: string, k: int, lines: bool) {
    0 <= k <= |s| && (k > 0 ==> s[k - 1] == '/' && (lines ==> '\n' !in s[..k]))
  }

  lemma SegmentsAfter(s: string, k: int, lines: bool)
    requires Segments(s, k, lines) && k > 0
    ensures '/' in s && (lines ==> '\n' !in s[..FirstSlash(s)])
    ensures FirstSlash(s) < k && Segments(s[FirstSlash(s) + 1..], k - FirstSlash(s) - 1, lines)
  {
    var f := FirstSlash(s);
    assert forall x | 0 <= x < f :: s[x] == s[..f][x];
    assert s[..k] == s[..f] + [s[f]] + s[f + 1..][..k - f - 1];
  }

  lemma SegmentsBefore(s: string, k: int, lines: bool)
    requires '/' in s && (lines ==> '\n' !in s[..FirstSlash(s)])
    requires Segments(s[FirstSlash(s) + 1..], k, lines)
    ensures Segments(s, FirstSlash(s) + 1 + k, lines)
  {
    var f := FirstSlash(s);
    assert s[..f + 1 + k] == s[..f] + [s[f]] + s[f + 1..][..k];
  }

  ghost predicate SplitsAt(g: string, s: string, k: int, lines: bool)
    requires DeepDir(g)
  {
    Segments(s, k, lines) && GlobMatch(g[3..], s[k..], lines)
  }

  lemma {:induction false} DeepDirSplits(g: string, s: string, lines: bool)
    requires DeepDir(g)
    ensures GlobMatch(g, s, lines) <==> exists k :: SplitsAt(g, s, k, lines)
    decreases |s|
  {
    assert s[0..] == s;
    assert SplitsAt(g, s, 0, lines) <==> GlobMatch(g[3..], s, lines);
    if k :| SplitsAt(g, s, k, lines) && k > 0 {
      SegmentsAfter(s, k, lines);
      var t := s[FirstSlash(s) + 1..];
      DeepDirSplits(g, t, lines);
      assert t[k - FirstSlash(s) - 1..] == s[k..];
      assert SplitsAt(g, t, k - FirstSlash(s) - 1, lines);
    } else if GlobMatch(g, s, lines) && !GlobMatch(g[3..], s, lines) {
      var t := s[FirstSlash(s) + 1..];
      DeepDirSplits(g, t, lines);
      var k :| SplitsAt(g, t, k, lines);
      SegmentsBefore(s, k, lines);
      assert s[FirstSlash(s) + 1 + k..] == t[k..];
      assert SplitsAt(g, s, FirstSlash(s) + 1 + k, lines);
    }
  }

  lemma {:induction false} AnythingSplits(g: string, s: string)
    requires Deep(g) && !DeepDir(g)
    ensures GlobMatch(g, s, false) <==> exists k :: 0 <= k <= |s| && GlobMatch(g[2..], s[k..], false)
    decreases |s|
  {
    assert s[0..] == s;
    if s != "" {
      AnythingSplits(g, s[1..]);
      assert forall k | 0 < k <= |s| :: s[1..][k - 1..] == s[k..];
    }
  }

  /** A glob read from the left: "**" with a slash behind it takes nothing, or anything that ends in a
      slash; any other "**" takes anything; "*" takes anything without slashes; "?" takes one character
      that is no slash; and every other character takes itself. */
  lemma PathsRead(rest: string, s: string)
    ensures GlobMatch("**/" + rest, s, false)
            <==> exists k :: 0 <= k <= |s| && (k > 0 ==> s[k - 1] == '/') && GlobMatch(rest, s[k..], false)
  {
    var g := "**/" + rest;
    assert g[3..] == rest;
    DeepDirSplits(g, s, false);
    forall k ensures SplitsAt(g, s, k, false)
                     <==> 0 <= k <= |s| && (k > 0 ==> s[k - 1] == '/') && GlobMatch(rest, s[k..], false) {}
  }

  lemma AnythingRead(rest: string, s: string)
    requires rest == "" || rest[0] != '/'
    ensures GlobMatch("**" + rest, s, false) <==> exists k :: 0 <= k <= |s| && GlobMatch(rest, s[k..], false)
  {
    assert ("**" + rest)[2..] == rest;
    AnythingSplits("**" + rest, s);
  }

  lemma ManyRead(rest: string, s: string)
    requires rest == "" || rest[0] != '*'
    ensures GlobMatch("*" + rest, s, false)
            <==> exists k :: 0 <= k <= |s| && '/' !in s[..k] && GlobMatch(rest, s[k..], false)
  {
    var g := "*" + rest;
    assert g[1..] == rest;
    ManySplits(g, s, false);
    forall k ensures RunAt(rest, s, k, '/', false)
                     <==> 0 <= k <= |s| && '/' !in s[..k] && GlobMatch(rest, s[k..], false) {}
  }

  lemma OneRead(c: char, rest: string, s: string)
    ensures GlobMatch("", s, false) <==> s == ""
    ensures GlobMatch("?" + rest, s, false) <==> s != "" && s[0] != '/' && GlobMatch(rest, s[1..], false)
    ensures c != '*' && c != '?' ==>
              (GlobMatch([c] + rest, s, false) <==> s != "" && s[0] == c && GlobMatch(rest, s[1..], false))
  {
    assert ("?" + rest)[1..] == rest && ([c] + rest)[1..] == rest;
  }

  lemma DeepDirPiece(s: string, i: nat, k: nat)
    requires i <= k <= |s|
    ensures Matches(Optional(Cat(Star(AnyInLine), Cat(Literal('/'), Empty))), s, i, k)
            <==> Segments(s[i..], k - i, true)
  {
    var slash := Cat(Literal('/'), Empty);
    forall m | i <= m <= k ensures Matches(slash, s, m, k) <==> k == m + 1 && s[m] == '/' {
      assert Matches(slash, s, m, k)
             <==> exists n :: m <= n <= k && Matches(Literal('/'), s, m, n) && Matches(Empty, s, n, k);
      assert k == m + 1 && s[m] == '/' ==> Matches(Literal('/'), s, m, k) && Matches(Empty, s, k, k);
    }
    if i < k {
      StarOfAnyInLine(s, i, k - 1);
      assert s[i..][..k - i] == s[i..k - 1] + [s[k - 1]];
      assert Matches(Cat(Star(AnyInLine), slash), s, i, k)
        <==> exists m :: i <= m <= k && Matches(Star(AnyInLine), s, i, m) && Matches(slash, s, m, k);
    }
  }

  /** Where the first token may end if it starts at i. */
  ghost predicate Takes(g: string, s: string, i: nat, k: nat)
    requires g != "" && i <= k <= |s|
  {
    if DeepDir(g) then Segments(s[i..], k - i, true)
    else if Deep(g) then '\n' !in s[i..k]
    else if g[0] == '*' then '/' !in s[i..k]
    else k == i + 1 && if g[0] == '?' then s[i] != '/' else s[i] == g[0]
  }

  lemma PieceTakes(g: string, s: string, i: nat, k: nat)
    requires g != "" && i <= k <= |s|
    ensures Matches(Piece(g), s, i, k) <==> Takes(g, s, i, k)
  {
    if DeepDir(g) {
      DeepDirPiece(s, i, k);
    } else if Deep(g) {
      StarOfAnyInLine(s, i, k);
    } else if g[0] == '*' {
      StarOfNotSlash(s, i, k);
    }
  }

  /** The first token takes s[i..k], and the rest of the glob matches what follows. */
  ghost predicate TakesThen(g: string, s: string, i: nat, k: int)
    requires g != "" && i <= |s|
  {
    i <= k <= |s| && Takes(g, s, i, k) && GlobMatch(g[Width(g)..], s[k..], true)
  }

  lemma DeepDirTakes(g: string, s: string, i: nat)
    requires DeepDir(g) && i <= |s|
    ensures GlobMatch(g, s[i..], true) <==> exists k :: TakesThen(g, s, i, k)
  {
    var t := s[i..];
    DeepDirSplits(g, t, true);
    if k :| SplitsAt(g, t, k, true) {
      assert t[k..] == s[i + k..];
      assert TakesThen(g, s, i, i + k);
    }
    if k :| TakesThen(g, s, i, k) {
      assert t[k - i..] == s[k..];
      assert SplitsAt(g, t, k - i, true);
    }
  }

  lemma RunTakes(g: string, s: string, i: nat, k: int, bad: char)
    requires g != "" && !DeepDir(g) && i <= |s|
    requires bad == if Deep(g) then '\n' else '/'
    requires Deep(g) || g[0] == '*'
    ensures TakesThen(g, s, i, k) <==> RunAt(g[Width(g)..], s[i..], k - i, bad, true)
  {
    if i <= k <= |s| {
      assert s[i..][k - i..] == s[k..] && s[i..][..k - i] == s[i..k];
    }
  }

  lemma StarTakes(g: string, s: string, i: nat)
    requires g != "" && g[0] == '*' && !DeepDir(g) && i <= |s|
    ensures GlobMatch(g, s[i..], true) <==> exists k :: TakesThen(g, s, i, k)
  {
    var bad := if Deep(g) then '\n' else '/';
    if Deep(g) {
      DeepSplits(g, s[i..]);
    } else {
      ManySplits(g, s[i..], true);
    }
    if k :| TakesThen(g, s, i, k) {
      RunTakes(g, s, i, k, bad);
    }
    if k :| RunAt(g[Width(g)..], s[i..], k, bad, true) {
      RunTakes(g, s, i, i + k, bad);
    }
  }

  lemma GlobTakes(g: string, s: string, i: nat)
    requires g != "" && i <= |s|
    ensures GlobMatch(g, s[i..], true) <==> exists k :: TakesThen(g, s, i, k)
  {
    if DeepDir(g) {
      DeepDirTakes(g, s, i);
    } else if g[0] == '*' {
      StarTakes(g, s, i);
    } else {
      var t := s[i..];
      if t != "" {
        assert t[1..] == s[i + 1..];
        assert GlobMatch(g, t, true) <==> TakesThen(g, s, i, i + 1);
      }
    }
  }

  lemma {:induction false} PiecesMean(g: string, s: string, i: nat, j: nat)
    requires i <= j <= |s|
    ensures Matches(Pieces(g), s, i, j) <==> j == |s| && GlobMatch(g, s[i..], true)
    decreases |g|
  {
    if g == "" {
      assert Matches(Pieces(g), s, i, j)
             <==> exists k :: i <= k <= j && Matches(End, s, i, k) && Matches(Empty, s, k, j);
      assert i == j == |s| ==> Matches(End, s, i, i) && Matches(Empty, s, i, j);
    } else {
      var rest := g[Width(g)..];
      forall k | i <= k <= j
        ensures Matches(Piece(g), s, i, k) <==> Takes(g, s, i, k)
        ensures Matches(Pieces(rest), s, k, j) <==> j == |s| && GlobMatch(rest, s[k..], true)
      {
        PieceTakes(g, s, i, k);
        PiecesMean(rest, s, k, j);
      }
      GlobTakes(g, s, i);
      if j == |s| {
        assert forall k :: i <= k <= j ==>
                 (TakesThen(g, s, i, k) <==> Matches(Piece(g), s, i, k) && Matches(Pieces(rest), s, k, j));
      }
      assert Matches(Pieces(g), s, i, j)
        <==> exists k :: i <= k <= j && Matches(Piece(g), s, i, k) && Matches(Pieces(rest), s, k, j);
    }
  }

  lemma CatSplits(a: Regex, b: Regex, s: string, i: nat, j: nat)
    requires i <= j <= |s| && Matches(Cat(a, b), s, i, j)
    ensures exists k :: i <= k <= j && Matches(a, s, i, k) && Matches(b, s, k, j)
  {
  }

  /** The compiled expression finds a match exactly in the texts the glob matches, if "**" is
      taken to stop at newlines. */
  lemma CompiledMeans(g: string, s: string)
    ensures Search(Compiled(g), s) <==> GlobMatch(g, s, true)
  {
    assert s[0..] == s;
    PiecesMean(g, s, 0, |s|);
    if GlobMatch(g, s, true) {
      assert Matches(Begin, s, 0, 0) && Matches(Pieces(g), s, 0, |s|);
      assert Matches(Compiled(g), s, 0, |s|);
    }
    if i, j :| 0 <= i <= j <= |s| && Matches(Compiled(g), s, i, j) {
      CatSplits(Begin, Pieces(g), s, i, j);
      PiecesMean(g, s, i, j);
    }
  }

  // --- Newlines ----------------------------------------------------------------------

  predicate HasDoubleStar(g: string) {
    exists i :: 0 <= i < |g| - 1 && g[i] == '*' && g[i + 1] == '*'
  }

  lemma DoubleStarTail(g: string)
    requires g != "" && !Deep(g)
    ensures HasDoubleStar(g) <==> HasDoubleStar(g[1..])
  {
    if i :| 0 <= i < |g| - 1 && g[i] == '*' && g[i + 1] == '*' {
      assert i > 0 ==> g[1..][i - 1] == '*' && g[1..][i] == '*';
    }
    if i :| 0 <= i < |g[1..]| - 1 && g[1..][i] == '*' && g[1..][i + 1] == '*' {
      assert g[i + 1] == '*' && g[i + 2] == '*';
    }
  }

  lemma DeepIsDoubleStar(g: string)
    requires Deep(g)
    ensures HasDoubleStar(g)
  {
    assert g[0] == '*' && g[0 + 1] == '*';
  }

  lemma {:induction false} LinesMatchLess(g: string, s: string)
    requires GlobMatch(g, s, true)
    ensures GlobMatch(g, s, false)
    decreases |g| + |s|
  {
    if g != "" {
      if GlobMatch(g[Width(g)..], s, true) {
        LinesMatchLess(g[Width(g)..], s);
      }
      if DeepDir(g) {
        if '/' in s && GlobMatch(g, s[FirstSlash(s) + 1..], true) { LinesMatchLess(g, s[FirstSlash(s) + 1..]); }
      } else if s != "" {
        if GlobMatch(g, s[1..], true) { LinesMatchLess(g, s[1..]); }
        if GlobMatch(g[1..], s[1..], true) { LinesMatchLess(g[1..], s[1..]); }
      }
    }
  }

  /** Where no newline is involved, or no "**", it makes no difference. */
  lemma {:induction false} LinesMatchSame(g: string, s: string)
    requires '\n' !in s || !HasDoubleStar(g)
    ensures GlobMatch(g, s, true) <==> GlobMatch(g, s, false)
    decreases |g| + |s|
  {
    if g != "" {
      if Deep(g) {
        DeepIsDoubleStar(g);
      } else {
        DoubleStarTail(g);
      }
      LinesMatchSame(g[Width(g)..], s);
      if DeepDir(g) {
        if '/' in s { LinesMatchSame(g, s[FirstSlash(s) + 1..]); }
      } else if s != "" {
        LinesMatchSame(g, s[1..]);
        if !Deep(g) { LinesMatchSame(g[1..], s[1..]); }
      }
    }
  }

  /** Newlines that directly follow a slash; `after` says whether a slash precedes the text. */
  function LineStarts(after: bool, s: string): nat
    decreases |s|
  {
    if s == "" then 0 else (if after && s[0] == '\n' then 1 else 0) + LineStarts(s[0] == '/', s[1..])
  }

  lemma {:induction false} LineStartsIn(after: bool, p: string, s: string)
    requires '\n' !in p
    ensures LineStarts(after, p + s) == LineStarts(if p == "" then after else p[|p| - 1] == '/', s)
    decreases |p|
  {
    if p == "" {
      assert p + s == s;
    } else {
      assert (p + s)[1..] == p[1..] + s;
      LineStartsIn(p[0] == '/', p[1..], s);
    }
  }

  function Allowance(g: string, after: bool): nat {
    if g == "" then 0 else if after && !Deep(g) then |g| else |g| - 1
  }

  /** A token that cannot cross both a slash and a newline takes at most one of these newlines. */
  lemma {:induction false} FewLineStarts(g: string, s: string, after: bool)
    requires GlobMatch(g, s, true)
    ensures LineStarts(after, s) <= Allowance(g, after)
    decreases |g| + |s|
  {
    if g == "" {
    } else if GlobMatch(g[Width(g)..], s, true) && g[0] == '*' {
      FewLineStarts(g[Width(g)..], s, after);
    } else if DeepDir(g) {
      var f := FirstSlash(s);
      FewLineStarts(g, s[f + 1..], true);
      LineStartsIn(after, s[..f + 1], s[f + 1..]);
      assert s == s[..f + 1] + s[f + 1..];
    } else if g[0] == '*' {
      FewLineStarts(g, s[1..], s[0] == '/');
    } else {
      FewLineStarts(g[1..], s[1..], s[0] == '/');
    }
  }

  function Pile(n: nat): string {
    if n == 0 then "/" else "/\n" + Pile(n - 1)
  }

  lemma {:induction false} PileOfLineStarts(n: nat, s: string, after: bool)
    ensures LineStarts(after, Pile(n) + s) >= n
  {
    if n > 0 {
      var t := Pile(n - 1) + s;
      PileOfLineStarts(n - 1, s, false);
      assert (Pile(n) + s)[1..] == "\n" + t && ("\n" + t)[1..] == t;
    }
  }

  /** A text that the glob matches, with n line starts for every "**". */
  function Sample(g: string, n: nat): string {
    if g == "" then ""
    else
      var rest := Sample(g[Width(g)..], n);
      if Deep(g) then Pile(n) + rest
      else if g[0] == '*' then rest
      else if g[0] == '?' then "x" + rest
      else [g[0]] + rest
  }

  lemma {:induction false} DeepEats(g: string, p: string, s: string)
    requires Deep(g) && !DeepDir(g) && GlobMatch(g[2..], s, false)
    ensures GlobMatch(g, p + s, false)
    decreases |p|
  {
    if p == "" {
      assert p + s == s;
    } else {
      assert (p + s)[1..] == p[1..] + s;
      DeepEats(g, p[1..], s);
    }
  }

  lemma {:induction false} PileEndsInSlash(n: nat)
    ensures Pile(n)[|Pile(n)| - 1] == '/'
  {
    if n > 0 { PileEndsInSlash(n - 1); }
  }

  lemma DeepDirEats(g: string, n: nat, s: string)
    requires DeepDir(g) && GlobMatch(g[3..], s, false)
    ensures GlobMatch(g, Pile(n) + s, false)
  {
    PileEndsInSlash(n);
    DeepDirSplits(g, Pile(n) + s, false);
    assert (Pile(n) + s)[|Pile(n)|..] == s;
    assert SplitsAt(g, Pile(n) + s, |Pile(n)|, false);
  }

  lemma {:induction false} SampleMatches(g: string, n: nat)
    ensures GlobMatch(g, Sample(g, n), false)
    decreases |g|
  {
    if g != "" {
      var rest := Sample(g[Width(g)..], n);
      SampleMatches(g[Width(g)..], n);
      if DeepDir(g) {
        DeepDirEats(g, n, rest);
      } else if Deep(g) {
        DeepEats(g, Pile(n), rest);
      } else if g[0] != '*' {
        assert Sample(g, n)[1..] == rest;
      }
    }
  }

  lemma SampleStep(g: string, n: nat)
    requires g != "" && g[0] != '*'
    ensures Sample(g, n) != "" && Sample(g, n)[1..] == Sample(g[1..], n)
  {
    var rest := Sample(g[1..], n);
    assert ("x" + rest)[1..] == rest && ([g[0]] + rest)[1..] == rest;
  }

  lemma {:induction false} SampleLineStarts(g: string, n: nat, after: bool)
    requires HasDoubleStar(g)
    ensures LineStarts(after, Sample(g, n)) >= n
    decreases |g|
  {
    if Deep(g) {
      PileOfLineStarts(n, Sample(g[Width(g)..], n), after);
    } else {
      DoubleStarTail(g);
      if g[0] == '*' {
        SampleLineStarts(g[1..], n, after);
      } else {
        SampleStep(g, n);
        SampleLineStarts(g[1..], n, Sample(g, n)[0] == '/');
      }
    }
  }

  /** The dot of the expression stops at a newline, which "**" is not meant to: the compiled
      glob is right about every text exactly when the glob has no "**". */
  lemma NewlinesMatter(g: string)
    ensures (forall s :: Search(Compiled(g), s) <==> GlobMatch(g, s, false)) <==> !HasDoubleStar(g)
  {
    forall s ensures Search(Compiled(g), s) <==> GlobMatch(g, s, true) {
      CompiledMeans(g, s);
    }
    if HasDoubleStar(g) {
      var s := Sample(g, |g| + 1);
      SampleMatches(g, |g| + 1);
      SampleLineStarts(g, |g| + 1, true);
      if GlobMatch(g, s, true) {
        FewLineStarts(g, s, true);
      }
      assert !GlobMatch(g, s, true);
    } else {
      forall s ensures GlobMatch(g, s, true) <==> GlobMatch(g, s, false) {
        LinesMatchSame(g, s);
      }
    }
  }

  lemma DoubleStarMissesNewline(g: string, s: string)
    requires g == "**" && s == "\n"
    ensures GlobMatch(g, s, false) && !Search(Compiled(g), s)
  {
    CompiledMeans(g, s);
    assert g[2..] == "" && s[1..] == "";
  }

  /** In texts without newlines the compiled glob means what the glob means. */
  lemma MeansTheSame(g: string, s: string)
    requires '\n' !in s
    ensures Search(Compiled(g), s) <==> GlobMatch(g, s, false)
  {
    CompiledMeans(g, s);
    LinesMatchSame(g, s);
  }

  lemma Translates(g: string)
    ensures Parse("^" + Body(g) + "$") == Some(Compiled(g))
    ensures forall s :: '\n' !in s ==> (Search(Compiled(g), s) <==> GlobMatch(g, s, false))
    ensures (forall s :: Search(Compiled(g), s) <==> GlobMatch(g, s, false)) <==> !HasDoubleStar(g)
  {
    CompilesToSyntax(g);
    NewlinesMatter(g);
    forall s | '\n' !in s ensures Search(Compiled(g), s) <==> GlobMatch(g, s, false) {
      MeansTheSame(g, s);
    }
  }

  lemma TokenAt(g: string, i: nat)
    requires i < |g|
    ensures var stars := i + 1 < |g| && g[i] == '*' && g[i + 1] == '*';
            && (Deep(g[i..]) <==> stars)
            && (DeepDir(g[i..]) <==> stars && i + 2 < |g| && g[i + 2] == '/')
            && g[i..][Width(g[i..])..] == g[i + Width(g[i..])..]
  {
  }

  lemma Append(a: string, b: string, c: string)
    ensures a + (b + c) == (a + b) + c
  {
  }

  /** The loop over the glob. Its output is always well formed, always right about texts without
      newlines, and right about all texts exactly when the glob has no "**". */
  method GlobToRegex(glob: string) returns (r: string)
    ensures Parse(r) == Some(Compiled(glob))
    ensures forall s :: '\n' !in s ==> (Search(Parse(r).value, s) <==> GlobMatch(glob, s, false))
    ensures (forall s :: Search(Parse(r).value, s) <==> GlobMatch(glob, s, false)) <==> !HasDoubleStar(glob)
  {
    r := "^";
    var i := 0;
    while i < |glob|
      invariant i <= |glob|
      invariant r + Body(glob[i..]) == "^" + Body(glob)
    {
      TokenAt(glob, i);
      ghost var left := glob[i..];
      ghost var done, at := r, i;
      var c := glob[i];
      match c {
        case '*' =>
          if i + 1 < |glob| && glob[i + 1] == '*' {
            if i + 2 < |glob| && glob[i + 2] == '/' {
              r := r + "(?:.*/)?";
              i := i + 3;
            } else {
              r := r + ".*";
              i := i + 2;
            }
          } else {
            r := r + "[^/]*";
            i := i + 1;
          }
        case '?' =>
          r := r + "[^/]";
          i := i + 1;
        case '/' =>
          r := r + "/";
          i := i + 1;
        case _ =>
          if c in SPECIAL {
            r := r + "\\";
          }
          r := r + [c];
          i := i + 1;
      }
      assert r == done + Fragment(left) && i == at + Width(left);
      Append(done, Fragment(left), Body(glob[i..]));
    }
    assert Body(glob[i..]) == "" && r == "^" + Body(glob);
    r := r + "$";
    Translates(glob);
  }

  // --- Base names --------------------------------------------------------------------

  function TrimSlashes(p: string): string {
    if p != "" && p[|p| - 1] == '/' then TrimSlashes(p[..|p| - 1]) else p
  }

  function AfterLastSlash(p: string): string {
    if '/' in p then AfterLastSlash(p[FirstSlash(p) + 1..]) else p
  }

  /** The library's path.Base. */
  function BaseName(p: string): string {
    if p == "" then "."
    else if TrimSlashes(p) == "" then "/"
    else AfterLastSlash(TrimSlashes(p))
  }

  lemma {:induction false} StaysInSegment(g: string, s: string)
    requires GlobMatch(g, s, false) && '/' !in g && !HasDoubleStar(g)
    ensures '/' !in s
    decreases |g| + |s|
  {
    if g != "" {
      if Deep(g) { DeepIsDoubleStar(g); }
      DoubleStarTail(g);
      if g[0] == '*' && GlobMatch(g[1..], s, false) {
        StaysInSegment(g[1..], s);
      } else {
        StaysInSegment(if g[0] == '*' then g else g[1..], s[1..]);
        assert s == [s[0]] + s[1..];
      }
    }
  }

  lemma {:induction false} LastSegment(g: string, s: string)
    requires '/' !in g && !HasDoubleStar(g)
    ensures GlobMatch(g, AfterLastSlash(s), false) <==> GlobMatch("**/" + g, s, false)
    decreases |s|
  {
    assert ("**/" + g)[3..] == g;
    if '/' in s {
      LastSegment(g, s[FirstSlash(s) + 1..]);
      if GlobMatch(g, s, false) { StaysInSegment(g, s); }
    }
  }

  /** For a pattern without a slash and without "**", testing the base name of a path is the same
      as testing the whole path with "**" and a slash in front of the pattern. */
  lemma BaseNameSuffices(g: string, s: string)
    requires '/' !in g && !HasDoubleStar(g)
    requires s != "" && s[|s| - 1] != '/' && '\n' !in s
    ensures Search(Compiled(g), BaseName(s)) <==> Search(Compiled("**/" + g), s)
  {
    LastSegment(g, s);
    NewlinesMatter(g);
    MeansTheSame("**/" + g, s);
  }
}
