/** Discovery name filters of src/tools.rs: user terms compiled to LIKE patterns and printed as
    escape-string literals, against a reader of such literals (section 4.1.2.2 of the PostgreSQL
    documentation) and a LIKE matcher (section 9.7.1). */
module NameFilter {
  import opened Text

  // ---- LIKE patterns ----

  datatype Element = Literal(c: char) | AnyOne | AnyRun

  /** A pattern as the matcher reads it, with backslash as escape; none if it ends in an escape. */
  function ParseLike(pattern: string): Option<seq<Element>> {
    if pattern == "" then Some([])
    else if pattern[0] == '\\' then
      if |pattern| == 1 then None else Cons(Literal(pattern[1]), ParseLike(pattern[2..]))
    else if pattern[0] == '%' then Cons(AnyRun, ParseLike(pattern[1..]))
    else if pattern[0] == '_' then Cons(AnyOne, ParseLike(pattern[1..]))
    else Cons(Literal(pattern[0]), ParseLike(pattern[1..]))
  }

  function Cons(first: Element, rest: Option<seq<Element>>): Option<seq<Element>> {
    match rest
    case None => None
    case Some(elements) => Some([first] + elements)
  }

  predicate Matches(elements: seq<Element>, name: string)
    decreases |elements| + |name|
  {
    if elements == [] then name == ""
    else
      match elements[0]
      case Literal(c) => name != "" && name[0] == c && Matches(elements[1..], name[1..])
      case AnyOne => name != "" && Matches(elements[1..], name[1..])
      case AnyRun => Matches(elements[1..], name) || (name != "" && Matches(elements, name[1..]))
  }

  function Fold(fold: char -> char, s: string): (r: string)
    ensures |r| == |s| && forall i :: 0 <= i < |s| ==> r[i] == fold(s[i])
  {
    seq(|s|, i requires 0 <= i < |s| => fold(s[i]))
  }

  predicate IsSpecial(c: char) {
    c == '\\' || c == '%' || c == '_'
  }

  /** Case folding leaves the special characters of a pattern alone and produces no new ones. */
  ghost predicate KeepsSpecials(fold: char -> char) {
    forall c :: (IsSpecial(c) <==> IsSpecial(fold(c))) && (IsSpecial(c) ==> fold(c) == c)
  }

  /** ILIKE: pattern and name are folded, then matched; an unreadable pattern matches nothing. */
  predicate Ilike(fold: char -> char, pattern: string, name: string) {
    match ParseLike(Fold(fold, pattern))
    case None => false
    case Some(elements) => Matches(elements, Fold(fold, name))
  }

  function Literals(s: string): (r: seq<Element>)
    ensures |r| == |s| && forall i :: 0 <= i < |s| ==> r[i] == Literal(s[i])
  {
    seq(|s|, i requires 0 <= i < |s| => Literal(s[i]))
  }

  function EscapedChar(c: char): string {
    if IsSpecial(c) then ['\\', c] else [c]
  }

  function Escaped(term: string): string {
    if term == "" then "" else EscapedChar(term[0]) + Escaped(term[1..])
  }

  lemma EscapedFrom(term: string, i: nat, done: string)
    requires i < |term|
    ensures done + Escaped(term[i..]) == done + EscapedChar(term[i]) + Escaped(term[i + 1..])
  {
    hide EscapedChar;
    assert term[i..][1..] == term[i + 1..];
  }

  method EscapeLikePattern(term: string) returns (escaped: string)
    ensures escaped == Escaped(term)
    ensures ParseLike(escaped) == Some(Literals(term))
  {
    hide ParseLike, Literals, Escaped;
    escaped := "";
    assert term[0..] == term && escaped + Escaped(term) == Escaped(term);
    for i := 0 to |term|
      invariant escaped + Escaped(term[i..]) == Escaped(term)
    {
      EscapedFrom(term, i, escaped);
      match term[i]
      case '\\' => escaped := escaped + "\\\\";
      case '%' => escaped := escaped + "\\%";
      case '_' => escaped := escaped + "\\_";
      case c => escaped := escaped + [c];
    }
    NothingToEscape(term, escaped);
    ParseOfEscaped(term);
  }

  lemma NothingToEscape(term: string, escaped: string)
    ensures escaped + Escaped(term[|term|..]) == escaped
  {
  }

  lemma {:induction false} ParseEscapedThen(term: string, rest: string)
    ensures ParseLike(Escaped(term) + rest)
         == match ParseLike(rest) case None => None case Some(e) => Some(Literals(term) + e)
  {
    hide ParseLike;
    if term == "" {
      assert Escaped(term) + rest == rest;
      if ParseLike(rest).Some? {
        assert Literals(term) + ParseLike(rest).value == ParseLike(rest).value;
      }
    } else {
      var tail := Escaped(term[1..]) + rest;
      assert Escaped(term) + rest == EscapedChar(term[0]) + tail;
      ParseCharThen(term[0], tail);
      ParseEscapedThen(term[1..], rest);
      assert Literals(term) == [Literal(term[0])] + Literals(term[1..]);
      if ParseLike(rest).Some? {
        var e := ParseLike(rest).value;
        assert [Literal(term[0])] + (Literals(term[1..]) + e) == Literals(term) + e;
      }
    }
  }

  lemma ParseCharThen(c: char, rest: string)
    ensures ParseLike(EscapedChar(c) + rest) == Cons(Literal(c), ParseLike(rest))
  {
  }

  /** An escaped term reads as exactly its own characters. */
  lemma ParseOfEscaped(term: string)
    ensures ParseLike(Escaped(term)) == Some(Literals(term))
  {
    ParseEscapedThen(term, "");
    assert Escaped(term) + "" == Escaped(term);
    assert Literals(term) + [] == Literals(term);
  }

  predicate IsWildcard(e: Element) {
    e.AnyOne? || e.AnyRun?
  }

  method EnsureNoDanglingLikeEscape(value: string) returns (ok: bool)
    ensures ok <==> ParseLike(value).Some?
  {
    var i := 0;
    assert value[0..] == value;
    while i < |value|
      invariant 0 <= i <= |value|
      invariant ParseLike(value[i..]).Some? <==> ParseLike(value).Some?
    {
      var ch := value[i];
      i := i + 1;
      assert value[i..] == value[i - 1..][1..];
      if ch == '\\' {
        if i == |value| {
          return false;
        }
        i := i + 1;
        assert value[i..] == value[i - 2..][2..];
      }
    }
    return true;
  }

  /** None for the error of an unfinished escape. */
  function UnescapedWildcard(value: string): Option<bool> {
    match ParseLike(value)
    case None => None
    case Some(elements) => Some(exists e :: e in elements && IsWildcard(e))
  }

  method ContainsUnescapedWildcard(value: string) returns (r: Option<bool>)
    ensures r == UnescapedWildcard(value)
  {
    var hasWildcard, i := false, 0;
    ghost var read: seq<Element> := [];
    assert value[0..] == value;
    if ParseLike(value).Some? {
      assert read + ParseLike(value).value == ParseLike(value).value;
    }
    while i < |value|
      invariant 0 <= i <= |value|
      invariant hasWildcard <==> exists e :: e in read && IsWildcard(e)
      invariant match ParseLike(value[i..])
                case None => ParseLike(value) == None
                case Some(rest) => ParseLike(value) == Some(read + rest)
    {
      var ch := value[i];
      ghost var element := if ch == '%' then AnyRun else if ch == '_' then AnyOne else Literal(ch);
      i := i + 1;
      assert value[i..] == value[i - 1..][1..];
      if ch == '\\' {
        if i == |value| {
          return None;
        }
        element := Literal(value[i]);
        i := i + 1;
        assert value[i..] == value[i - 2..][2..];
      } else if ch == '%' || ch == '_' {
        hasWildcard := true;
      }
      ReadOneMore(read, element, ParseLike(value[i..]));
      read := read + [element];
    }
    assert value[i..] == "" && read + [] == read;
    return Some(hasWildcard);
  }

  lemma ReadOneMore(read: seq<Element>, element: Element, rest: Option<seq<Element>>)
    ensures rest.Some? ==>
              Cons(element, rest).Some? && read + Cons(element, rest).value == (read + [element]) + rest.value
    ensures (exists e :: e in read + [element] && IsWildcard(e)) <==>
        (exists e :: e in read && IsWildcard(e)) || IsWildcard(element)
  {
  }

  // ---- Escape-string literals ----

  function EQuotedChar(c: char): string {
    if c == '\\' then "\\\\" else if c == '\'' then "\\'" else [c]
  }

  function EQuotedBody(value: string): string {
    if value == "" then "" else EQuotedChar(value[0]) + EQuotedBody(value[1..])
  }

  function EQuoted(value: string): string {
    "E'" + EQuotedBody(value) + "'"
  }

  method SqlQuoteELiteral(value: string) returns (r: string)
    ensures r == EQuoted(value)
    ensures ReadEscapeString(r) == Some(value)
  {
    var escaped := "";
    assert value[0..] == value;
    for i := 0 to |value|
      invariant escaped + EQuotedBody(value[i..]) == EQuotedBody(value)
    {
      assert value[i..][1..] == value[i + 1..];
      assert escaped + (EQuotedChar(value[i]) + EQuotedBody(value[i + 1..]))
          == escaped + EQuotedChar(value[i]) + EQuotedBody(value[i + 1..]);
      match value[i]
      case '\\' => escaped := escaped + "\\\\";
      case '\'' => escaped := escaped + "\\'";
      case c => escaped := escaped + [c];
    }
    assert value[|value|..] == "" && escaped + "" == escaped;
    EQuotedReadsBack(value);
    r := "E'" + escaped + "'";
  }

  /** The value of an escape-string literal. Octal, hexadecimal and Unicode escapes are not part of
      this model; the reader gives up on them. */
  function ReadEscapeString(text: string): Option<string> {
    if |text| >= 2 && text[0] == 'E' && text[1] == '\'' then ReadEscapeBody(text[2..]) else None
  }

  function EscapeValue(c: char): Option<char> {
    if c == 'b' then Some('\U{0008}')
    else if c == 'f' then Some('\U{000C}')
    else if c == 'n' then Some('\n')
    else if c == 'r' then Some('\r')
    else if c == 't' then Some('\t')
    else if IsDigit(c) || c == 'x' || c == 'u' || c == 'U' then None
    else Some(c)
  }

  function ReadEscapeBody(s: string): Option<string> {
    if s == "" then None
    else if s[0] == '\\' then
      if |s| == 1 || EscapeValue(s[1]).None? then None else Push(EscapeValue(s[1]).value, ReadEscapeBody(s[2..]))
    else if s[0] == '\'' then
      if |s| == 1 then Some("")
      else if s[1] == '\'' then Push('\'', ReadEscapeBody(s[2..]))
      else None
    else Push(s[0], ReadEscapeBody(s[1..]))
  }

  function Push(c: char, rest: Option<string>): Option<string> {
    match rest
    case None => None
    case Some(s) => Some([c] + s)
  }

  lemma {:induction false} EQuotedBodyReadsBack(value: string)
    ensures ReadEscapeBody(EQuotedBody(value) + "'") == Some(value)
  {
    var s := EQuotedBody(value) + "'";
    if value == "" {
      assert s == "'";
    } else {
      EQuotedBodyReadsBack(value[1..]);
      var tail := EQuotedBody(value[1..]) + "'";
      assert s == EQuotedChar(value[0]) + tail && s[|EQuotedChar(value[0])|..] == tail;
      assert [value[0]] + value[1..] == value;
    }
  }

  /** The server reads the printed literal as the very pattern that was compiled. */
  lemma EQuotedReadsBack(value: string)
    ensures ReadEscapeString(EQuoted(value)) == Some(value)
  {
    EQuotedBodyReadsBack(value);
    assert EQuoted(value)[2..] == EQuotedBody(value) + "'";
  }

  // ---- The compiler ----

  datatype FilterMode = Exact | Prefix | Contains | Pattern

  datatype Argument = NameLike | NamePrefix | NameContains | NameExact | NamePattern

  datatype NameFilter = NameFilter(mode: FilterMode, source: Argument, pattern: string)

  datatype FilterError = OnlyOneFilter | UnfinishedEscape(argument: Argument)

  datatype Request = Request(
    like: Option<string>, prefix: Option<string>, contains: Option<string>, exact: Option<string>,
    pattern: Option<string>)

  /** Blank arguments count as absent, the others are trimmed. */
  function Normalize(value: Option<string>): Option<string> {
    if value.Some? && Trim(value.value) != "" then Some(Trim(value.value)) else None
  }

  function Given(value: Option<string>): nat {
    if Normalize(value).Some? then 1 else 0
  }

  function GivenCount(r: Request): nat {
    Given(r.like) + Given(r.prefix) + Given(r.contains) + Given(r.exact) + Given(r.pattern)
  }

  function Compile(r: Request): Result<Option<NameFilter>, FilterError> {
    if GivenCount(r) > 1 then Err(OnlyOneFilter)
    else if Given(r.exact) == 1 then
      Ok(Some(NameFilter(Exact, NameExact, Escaped(Normalize(r.exact).value))))
    else if Given(r.prefix) == 1 then
      Ok(Some(NameFilter(Prefix, NamePrefix, Escaped(Normalize(r.prefix).value) + "%")))
    else if Given(r.contains) == 1 then
      Ok(Some(NameFilter(Contains, NameContains, "%" + Escaped(Normalize(r.contains).value) + "%")))
    else if Given(r.pattern) == 1 then
      var value := Normalize(r.pattern).value;
      if ParseLike(value).None? then Err(UnfinishedEscape(NamePattern))
      else Ok(Some(NameFilter(Pattern, NamePattern, value)))
    else if Given(r.like) == 1 then
      var value := Normalize(r.like).value;
      match UnescapedWildcard(value)
      case None => Err(UnfinishedEscape(NameLike))
      case Some(true) => Ok(Some(NameFilter(Pattern, NameLike, value)))
      case Some(false) => Ok(Some(NameFilter(Contains, NameLike, "%" + Escaped(value) + "%")))
    else Ok(None)
  }

  /** The names the database returns for a compiled filter. */
  predicate Accepts(fold: char -> char, filter: NameFilter, name: string) {
    var value := ReadEscapeString(EQuoted(filter.pattern));
    value.Some? && Ilike(fold, value.value, name)
  }

  // ---- What a compiled filter means ----

  lemma {:induction false} MatchesLiterals(term: string, tail: seq<Element>, name: string)
    ensures Matches(Literals(term) + tail, name) <==> term <= name && Matches(tail, name[|term|..])
  {
    if term == "" {
      assert Literals(term) + tail == tail && name[0..] == name;
    } else {
      var all := Literals(term) + tail;
      assert all[1..] == Literals(term[1..]) + tail;
      if name != "" {
        MatchesLiterals(term[1..], tail, name[1..]);
        if name[0] == term[0] {
          assert term <= name <==> term[1..] <= name[1..];
          if term <= name {
            assert name[1..][|term| - 1..] == name[|term|..];
          }
        }
      }
    }
  }

  lemma {:induction false} AnyRunMatchesAll(name: string)
    ensures Matches([AnyRun], name)
  {
    if name != "" {
      AnyRunMatchesAll(name[1..]);
    }
  }

  predicate ContainsAt(name: string, term: string, i: nat) {
    i <= |name| && term <= name[i..]
  }

  ghost predicate ContainsText(name: string, term: string) {
    exists i: nat :: ContainsAt(name, term, i)
  }

  lemma {:induction false} MatchesContained(term: string, name: string)
    ensures Matches([AnyRun] + Literals(term) + [AnyRun], name) <==> ContainsText(name, term)
    decreases |name|
  {
    var all := [AnyRun] + Literals(term) + [AnyRun];
    assert all[1..] == Literals(term) + [AnyRun];
    MatchesLiterals(term, [AnyRun], name);
    assert name[0..] == name;
    if term <= name {
      AnyRunMatchesAll(name[|term|..]);
      assert ContainsAt(name, term, 0);
    }
    if name != "" {
      MatchesContained(term, name[1..]);
      if ContainsText(name[1..], term) {
        var i: nat :| ContainsAt(name[1..], term, i);
        assert name[1..][i..] == name[i + 1..];
        assert ContainsAt(name, term, i + 1);
      }
      if ContainsText(name, term) && !(term <= name) {
        var i: nat :| ContainsAt(name, term, i);
        assert name[1..][i - 1..] == name[i..];
        assert ContainsAt(name[1..], term, i - 1);
      }
    }
  }

  lemma FoldConcat(fold: char -> char, a: string, b: string)
    ensures Fold(fold, a + b) == Fold(fold, a) + Fold(fold, b)
  {
  }

  lemma FoldOfEscapedChar(fold: char -> char, c: char)
    requires KeepsSpecials(fold)
    ensures Fold(fold, EscapedChar(c)) == EscapedChar(fold(c))
  {
  }

  lemma {:induction false} FoldOfEscaped(fold: char -> char, term: string)
    requires KeepsSpecials(fold)
    ensures Fold(fold, Escaped(term)) == Escaped(Fold(fold, term))
  {
    if term != "" {
      FoldOfEscaped(fold, term[1..]);
      assert Fold(fold, term)[1..] == Fold(fold, term[1..]);
      FoldOfEscapedChar(fold, term[0]);
      FoldConcat(fold, EscapedChar(term[0]), Escaped(term[1..]));
    }
  }

  /** Exact, prefix and contains filters accept exactly the names that equal, begin with or contain
      the term, up to case folding. */
  lemma EscapedTermMeaning(fold: char -> char, term: string, name: string)
    requires KeepsSpecials(fold)
    ensures Ilike(fold, Escaped(term), name) <==> Fold(fold, name) == Fold(fold, term)
    ensures Ilike(fold, Escaped(term) + "%", name) <==> Fold(fold, term) <= Fold(fold, name)
    ensures Ilike(fold, "%" + Escaped(term) + "%", name) <==> ContainsText(Fold(fold, name), Fold(fold, term))
  {
    hide Matches, ParseLike, Escaped;
    var t, n := Fold(fold, term), Fold(fold, name);
    FoldOfEscaped(fold, term);
    ParseOfEscaped(t);
    MatchesLiterals(t, [], n);
    MatchesNothing(n[if t <= n then |t| else 0..]);
    assert Literals(t) + [] == Literals(t);

    FoldOfPercent(fold);
    FoldConcat(fold, Escaped(term), "%");
    ParseOfPercent();
    ParseEscapedThen(t, "%");
    MatchesLiterals(t, [AnyRun], n);
    if t <= n {
      AnyRunMatchesAll(n[|t|..]);
    }

    FoldConcat(fold, "%", Escaped(term) + "%");
    assert "%" + Escaped(term) + "%" == "%" + (Escaped(term) + "%");
    ParsePercentThen(Escaped(t) + "%");
    assert [AnyRun] + (Literals(t) + [AnyRun]) == [AnyRun] + Literals(t) + [AnyRun];
    MatchesContained(t, n);
  }

  lemma MatchesNothing(name: string)
    ensures Matches([], name) <==> name == ""
  {
  }

  lemma FoldOfPercent(fold: char -> char)
    requires KeepsSpecials(fold)
    ensures Fold(fold, "%") == "%"
  {
  }

  lemma ParsePercentThen(rest: string)
    ensures ParseLike("%" + rest) == Cons(AnyRun, ParseLike(rest))
  {
  }

  lemma ParseOfPercent()
    ensures ParseLike("%") == Some([AnyRun])
  {
    ParsePercentThen("");
    assert "%" + "" == "%" && [AnyRun] + [] == [AnyRun];
  }

  function TrailingBackslashes(s: string): nat {
    if s != "" && s[|s| - 1] == '\\' then TrailingBackslashes(s[..|s| - 1]) + 1 else 0
  }

  lemma {:induction false} TrailingIsAll(s: string)
    ensures TrailingBackslashes(s) <= |s|
    ensures forall i :: |s| - TrailingBackslashes(s) <= i < |s| ==> s[i] == '\\'
    ensures TrailingBackslashes(s) < |s| ==> s[|s| - TrailingBackslashes(s) - 1] != '\\'
  {
    if s != "" && s[|s| - 1] == '\\' {
      TrailingIsAll(s[..|s| - 1]);
    }
  }

  lemma {:induction false} TrailingIs(s: string, n: nat)
    requires n <= |s| && (forall i :: |s| - n <= i < |s| ==> s[i] == '\\') && (n < |s| ==> s[|s| - n - 1] != '\\')
    ensures TrailingBackslashes(s) == n
  {
    if n > 0 {
      TrailingIs(s[..|s| - 1], n - 1);
    }
  }

  /** A pattern can be read exactly if it does not end in an odd number of backslashes. */
  lemma {:induction false} ReadableExactly(s: string)
    ensures ParseLike(s).Some? <==> TrailingBackslashes(s) % 2 == 0
    decreases |s|
  {
    if s != "" {
      var n := TrailingBackslashes(s);
      TrailingIsAll(s);
      if s[0] != '\\' {
        TrailingIs(s[1..], n);
        ReadableExactly(s[1..]);
      } else if |s| > 1 {
        TrailingIs(s[2..], if n >= |s| - 1 then |s| - 2 else n);
        ReadableExactly(s[2..]);
      }
    }
  }

  predicate EndsInAnEscape(argument: Option<string>) {
    argument.Some? && TrailingBackslashes(Trim(argument.value)) % 2 == 1
  }

  /** The arguments are refused exactly if two of them are given, or the only one is a pattern that
      ends in an odd number of backslashes; without any there is no filter. */
  lemma CompileRefusal(r: Request)
    ensures Compile(r) == Err(OnlyOneFilter) <==> GivenCount(r) >= 2
    ensures Compile(r) == Err(UnfinishedEscape(NamePattern))
       <==> GivenCount(r) == 1 && Given(r.pattern) == 1 && EndsInAnEscape(r.pattern)
    ensures Compile(r) == Err(UnfinishedEscape(NameLike))
       <==> GivenCount(r) == 1 && Given(r.like) == 1 && EndsInAnEscape(r.like)
    ensures Compile(r) == Ok(None) <==> GivenCount(r) == 0
  {
    if Given(r.pattern) == 1 {
      ReadableExactly(Trim(r.pattern.value));
    }
    if Given(r.like) == 1 {
      ReadableExactly(Trim(r.like.value));
    }
    hide ParseLike, TrailingBackslashes;
  }

  /** A compiled filter accepts exactly the names its one argument asks for. A `name_like` without
      unescaped wildcard means its text as it stands, backslashes included. */
  lemma CompiledFilterMeaning(r: Request, fold: char -> char, name: string)
    requires KeepsSpecials(fold)
    requires Compile(r).Ok? && Compile(r).value.Some?
    ensures var filter, n := Compile(r).value.value, Fold(fold, name);
            match filter.source
            case NameExact => r.exact.Some? && (Accepts(fold, filter, name) <==> n == Fold(fold, Trim(r.exact.value)))
            case NamePrefix => r.prefix.Some?
                && (Accepts(fold, filter, name) <==> Fold(fold, Trim(r.prefix.value)) <= n)
            case NameContains =>
              r.contains.Some? && (Accepts(fold, filter, name) <==> ContainsText(n, Fold(fold, Trim(r.contains.value))))
            case NamePattern => r.pattern.Some?
                && (Accepts(fold, filter, name) <==> Ilike(fold, Trim(r.pattern.value), name))
            case NameLike =>
              && r.like.Some? && ParseLike(Trim(r.like.value)).Some?
              && (Accepts(fold, filter, name) <==>
                    if exists e :: e in ParseLike(Trim(r.like.value)).value && IsWildcard(e)
                    then Ilike(fold, Trim(r.like.value), name)
                    else ContainsText(n, Fold(fold, Trim(r.like.value))))
  {
    var filter := Compile(r).value.value;
    EQuotedReadsBack(filter.pattern);
    match filter.source
    case NameExact => EscapedTermMeaning(fold, Trim(r.exact.value), name);
    case NamePrefix => EscapedTermMeaning(fold, Trim(r.prefix.value), name);
    case NameContains => EscapedTermMeaning(fold, Trim(r.contains.value), name);
    case NamePattern =>
    case NameLike => EscapedTermMeaning(fold, Trim(r.like.value), name);
  }

  lemma {:induction false} FoldKeepsReadable(fold: char -> char, pattern: string)
    requires KeepsSpecials(fold)
    ensures ParseLike(Fold(fold, pattern)).Some? <==> ParseLike(pattern).Some?
    decreases |pattern|
  {
    if pattern != "" {
      var folded := Fold(fold, pattern);
      assert IsSpecial(pattern[0]) <==> IsSpecial(fold(pattern[0]));
      assert folded[1..] == Fold(fold, pattern[1..]);
      FoldKeepsReadable(fold, pattern[1..]);
      if pattern[0] == '\\' && |pattern| > 1 {
        assert folded[2..] == Fold(fold, pattern[2..]);
        FoldKeepsReadable(fold, pattern[2..]);
      }
    }
  }

  /** The matcher never fails on a compiled pattern, not on the folded one either. */
  lemma CompiledPatternIsReadable(r: Request, fold: char -> char)
    requires KeepsSpecials(fold)
    requires Compile(r).Ok? && Compile(r).value.Some?
    ensures ParseLike(Fold(fold, Compile(r).value.value.pattern)).Some?
  {
    var filter := Compile(r).value.value;
    var term :=
      match filter.source
      case NameExact => Trim(r.exact.value)
      case NamePrefix => Trim(r.prefix.value)
      case NameContains => Trim(r.contains.value)
      case NamePattern => Trim(r.pattern.value)
      case NameLike => Trim(r.like.value);
    hide ParseLike, Escaped, Trim, Fold;
    FoldKeepsReadable(fold, filter.pattern);
    ParseOfPercent();
    ParseOfEscaped(term);
    ParseEscapedThen(term, "%");
    ParsePercentThen(Escaped(term) + "%");
    assert "%" + Escaped(term) + "%" == "%" + (Escaped(term) + "%");
  }

  /** Which argument a filter comes from, and in which mode: the one that is given, and for `name_like`
      as a pattern exactly if it holds an unescaped wildcard. */
  lemma ModeOfFilter(r: Request)
    requires Compile(r).Ok? && Compile(r).value.Some?
    ensures var f := Compile(r).value.value;
            && (Given(r.exact) == 1 <==> f.source == NameExact) && (f.source == NameExact ==> f.mode == Exact)
            && (Given(r.prefix) == 1 <==> f.source == NamePrefix) && (f.source == NamePrefix ==> f.mode == Prefix)
            && (Given(r.contains) == 1 <==> f.source == NameContains)
                && (f.source == NameContains ==> f.mode == Contains)
            && (Given(r.pattern) == 1 <==> f.source == NamePattern) && (f.source == NamePattern ==> f.mode == Pattern)
            && (Given(r.like) == 1 <==> f.source == NameLike)
            && (f.source == NameLike ==> f.mode == if UnescapedWildcard(Trim(r.like.value)) == Some(true) then Pattern
                                                   else Contains)
  {
    hide Escaped, ParseLike, Trim;
  }
}
