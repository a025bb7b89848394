/** The part of Go's regular expression language that the glob compiler writes: its syntax,
    a parser for it, and what an expression matches. Text is a sequence of characters. */
module Regexp {
  import opened Text

  datatype Regex =
    | Empty
    | Literal(c: char)
    | AnyInLine        // a dot, which in Go stops at a newline
    | NotSlash         // the class of everything but a slash, newlines included
    | Begin
    | End
    | Star(body: Regex)
    | Optional(body: Regex)
    | Cat(first: Regex, second: Regex)

  /** The expression matches s from position i to position j. */
  predicate Matches(r: Regex, s: string, i: nat, j: nat)
    requires i <= j <= |s|
    decreases r, j - i
  {
    match r
    case Empty => i == j
    case Literal(c) => j == i + 1 && s[i] == c
    case AnyInLine => j == i + 1 && s[i] != '\n'
    case NotSlash => j == i + 1 && s[i] != '/'
    case Begin => i == j == 0
    case End => i == j == |s|
    case Star(body) =>
      i == j || exists k :: i < k <= j && Matches(body, s, i, k) && Matches(r, s, k, j)
    case Optional(body) => i == j || Matches(body, s, i, j)
    case Cat(first, second) =>
      exists k :: i <= k <= j && Matches(first, s, i, k) && Matches(second, s, k, j)
  }

  /** What MatchString reports: a match anywhere in the text. */
  predicate Search(r: Regex, s: string) {
    exists i, j :: 0 <= i <= j <= |s| && Matches(r, s, i, j)
  }

  // --- Syntax ------------------------------------------------------------------------

  const SPECIAL := ".+()|^$[]{}\\"

  datatype Parsed = Parsed(re: Regex, rest: string)

  /** One atom at the start of the text. Everything outside the subset is refused. */
  function ParseAtom(s: string): (r: Option<Parsed>)
    ensures r.Some? ==> |r.value.rest| < |s|
    decreases |s|, 0
  {
    if s == "" then None
    else if s[0] == '.' then Some(Parsed(AnyInLine, s[1..]))
    else if s[0] == '^' then Some(Parsed(Begin, s[1..]))
    else if s[0] == '$' then Some(Parsed(End, s[1..]))
    else if s[0] == '[' then
      if IsPrefix("[^/]", s) then Some(Parsed(NotSlash, s[4..])) else None
    else if s[0] == '(' then
      if !IsPrefix("(?:", s) then None
      else
        match ParseSequence(s[3..])
        case None => None
        case Some(Parsed(body, rest)) =>
          if rest != "" && rest[0] == ')' then Some(Parsed(body, rest[1..])) else None
    else if s[0] == '\\' then
      if |s| > 1 && s[1] in SPECIAL then Some(Parsed(Literal(s[1]), s[2..])) else None
    else if s[0] in SPECIAL || s[0] == '*' || s[0] == '?' then None
    else Some(Parsed(Literal(s[0]), s[1..]))
  }

  /** An atom and the repetition operator behind it. */
  function ParsePiece(s: string): (r: Option<Parsed>)
    ensures r.Some? ==> |r.value.rest| < |s|
    decreases |s|, 1
  {
    match ParseAtom(s)
    case None => None
    case Some(Parsed(atom, rest)) => Some(Repeated(atom, rest))
  }

  function Repeated(atom: Regex, rest: string): (p: Parsed)
    ensures |p.rest| <= |rest|
  {
    if rest != "" && rest[0] == '*' then Parsed(Star(atom), rest[1..])
    else if rest != "" && rest[0] == '?' then Parsed(Optional(atom), rest[1..])
    else Parsed(atom, rest)
  }

  /** Pieces up to the end of the text or of the group. */
  function ParseSequence(s: string): (r: Option<Parsed>)
    ensures r.Some? ==> |r.value.rest| <= |s|
    decreases |s|, 2
  {
    if s == "" || s[0] == ')' then Some(Parsed(Empty, s))
    else
      match ParsePiece(s)
      case None => None
      case Some(Parsed(piece, rest)) =>
        match ParseSequence(rest)
        case None => None
        case Some(Parsed(tail, end)) => Some(Parsed(Cat(piece, tail), end))
  }

  function Parse(s: string): Option<Regex> {
    match ParseSequence(s)
    case None => None
    case Some(Parsed(re, rest)) => if rest == "" then Some(re) else None
  }

  // --- What repetition matches -------------------------------------------------------

  lemma {:induction false} StarOfAnyInLine(s: string, i: nat, j: nat)
    requires i <= j <= |s|
    ensures Matches(Star(AnyInLine), s, i, j) <==> '\n' !in s[i..j]
    decreases j - i
  {
    if i < j {
      StarOfAnyInLine(s, i + 1, j);
      assert s[i..j] == [s[i]] + s[i + 1..j];
      assert Matches(Star(AnyInLine), s, i, j)
        <==> exists k :: i < k <= j && Matches(AnyInLine, s, i, k) && Matches(Star(AnyInLine), s, k, j);
      assert Matches(AnyInLine, s, i, i + 1) <==> s[i] != '\n';
    }
  }

  lemma {:induction false} StarOfNotSlash(s: string, i: nat, j: nat)
    requires i <= j <= |s|
    ensures Matches(Star(NotSlash), s, i, j) <==> '/' !in s[i..j]
    decreases j - i
  {
    if i < j {
      StarOfNotSlash(s, i + 1, j);
      assert s[i..j] == [s[i]] + s[i + 1..j];
      assert Matches(Star(NotSlash), s, i, j)
        <==> exists k :: i < k <= j && Matches(NotSlash, s, i, k) && Matches(Star(NotSlash), s, k, j);
      assert Matches(NotSlash, s, i, i + 1) <==> s[i] != '/';
    }
  }
}
