/** The statement splitter of src/db.rs, the quoting functions whose output it has to step over,
    and the budget prefix that is put in front of a query before it is split again.

    The source scans UTF-8 bytes, but every byte it compares with is ASCII, so scanning scalar
    values takes the same branches. */
module SqlScanner {
  import opened Text

  datatype Mode = Normal | DollarQuote(tag: string) | LineComment | BlockComment | SingleQuote | DoubleQuote

  /** The effect of one turn of the scanning loop: how far it moves, the mode it leaves,
      the change of parenthesis depth, and whether it ends a statement. */
  datatype Move = Move(len: nat, mode: Mode, delta: int, cut: bool)

  /** A scan in progress: the finished pieces, the text of the current one, mode and depth. */
  datatype Scan = Scan(pieces: seq<string>, current: string, mode: Mode, depth: int)

  const START := Scan([], "", Normal, 0)

  predicate IsTagChar(c: char) {
    IsAsciiAlphanumeric(c) || c == '_'
  }

  /** The characters of a dollar-quote tag, its dollar signs included. */
  predicate InTag(c: char) {
    IsTagChar(c) || c == '$'
  }

  ghost predicate ValidMode(mode: Mode) {
    mode.DollarQuote? ==> |mode.tag| >= 2 && forall i :: 0 <= i < |mode.tag| ==> InTag(mode.tag[i])
  }

  function TagRun(s: string): (n: nat)
    ensures n <= |s|
    ensures forall i :: 0 <= i < n ==> IsTagChar(s[i])
    ensures n < |s| ==> !IsTagChar(s[n])
  {
    if s != "" && IsTagChar(s[0]) then
      var m := TagRun(s[1..]);
      assert forall i :: 0 < i <= m ==> s[i] == s[1..][i - 1];
      m + 1
    else 0
  }

  /** The opening tag of a dollar-quoted string at the front of `rest`, if there is one. */
  function DollarTag(rest: string): (r: Option<string>)
    ensures r.Some? ==> 2 <= |r.value| <= |rest| && r.value == rest[..|r.value|] && ValidMode(DollarQuote(r.value))
  {
    if rest == "" || rest[0] != '$' then None
    else
      var n := TagRun(rest[1..]);
      if 1 + n < |rest| && rest[1 + n] == '$' then
        assert forall i :: 0 < i <= n ==> rest[i] == rest[1..][i - 1];
        Some(rest[..n + 2])
      else None
  }

  predicate StartsWith(s: string, prefix: string) {
    |prefix| <= |s| && s[..|prefix|] == prefix
  }

  predicate Follows(rest: string, first: char, second: char)
    requires rest != ""
  {
    rest[0] == first && 1 < |rest| && rest[1] == second
  }

  function NextMove(rest: string, mode: Mode, depth: int): (m: Move)
    requires rest != "" && ValidMode(mode)
    ensures 1 <= m.len <= |rest| && ValidMode(m.mode)
    ensures m.cut ==> m.len == 1 && rest[0] == ';' && mode == m.mode == Normal && depth == m.delta == 0
  {
    match mode
    case DollarQuote(tag) =>
      if StartsWith(rest, tag) then Move(|tag|, Normal, 0, false) else Move(1, mode, 0, false)
    case LineComment =>
      Move(1, if rest[0] == '\n' then Normal else LineComment, 0, false)
    case BlockComment =>
      if Follows(rest, '*', '/') then Move(2, Normal, 0, false) else Move(1, mode, 0, false)
    case SingleQuote =>
      if Follows(rest, '\'', '\'') then Move(2, mode, 0, false)
      else Move(1, if rest[0] == '\'' then Normal else mode, 0, false)
    case DoubleQuote =>
      if Follows(rest, '"', '"') then Move(2, mode, 0, false)
      else Move(1, if rest[0] == '"' then Normal else mode, 0, false)
    case Normal =>
      match DollarTag(rest)
      case Some(tag) => Move(|tag|, DollarQuote(tag), 0, false)
      case None =>
        if rest[0] == '\'' then Move(1, SingleQuote, 0, false)
        else if rest[0] == '"' then Move(1, DoubleQuote, 0, false)
        else if Follows(rest, '-', '-') then Move(2, LineComment, 0, false)
        else if Follows(rest, '/', '*') then Move(2, BlockComment, 0, false)
        else if rest[0] == ';' && depth == 0 then Move(1, Normal, 0, true)
        else Move(1, Normal, if rest[0] == '(' then 1 else if rest[0] == ')' then -1 else 0, false)
  }

  function Advance(sc: Scan, text: string, m: Move): Scan {
    if m.cut then Scan(sc.pieces + [sc.current], "", m.mode, sc.depth)
    else Scan(sc.pieces, sc.current + text, m.mode, sc.depth + m.delta)
  }

  /** Scanning `rest` from the state `sc`. */
  function Run(rest: string, sc: Scan): (r: Scan)
    requires ValidMode(sc.mode)
    ensures ValidMode(r.mode)
    decreases |rest|
  {
    if rest == "" then sc
    else
      var m := NextMove(rest, sc.mode, sc.depth);
      Run(rest[m.len..], Advance(sc, rest[..m.len], m))
  }

  /** The text between the statement-ending semicolons, untrimmed. */
  function Pieces(sql: string): (r: seq<string>)
    ensures r != []
  {
    var sc := Run(sql, START);
    sc.pieces + [sc.current]
  }

  function NonBlank(pieces: seq<string>): seq<string> {
    if pieces == [] then []
    else
      var last := Trim(pieces[|pieces| - 1]);
      NonBlank(pieces[..|pieces| - 1]) + if last == "" then [] else [last]
  }

  /** What splitting returns: the pieces, trimmed, without the empty ones. */
  function Statements(sql: string): seq<string> {
    NonBlank(Pieces(sql))
  }

  /** Scanning `s` ends outside quotes and comments at depth 0, so a semicolon after it is a cut. */
  ghost predicate Closed(s: string) {
    Run(s, START).mode == Normal && Run(s, START).depth == 0
  }

  // ---- The loops of the source ----

  method ReadDollarQuoteStart(sql: string, start: nat) returns (tag: Option<string>)
    requires start <= |sql|
    ensures tag == DollarTag(sql[start..])
  {
    if start >= |sql| || sql[start] != '$' {
      return None;
    }
    ghost var rest := sql[start..];
    var end := start + 1;
    while end < |sql| && IsTagChar(sql[end])
      invariant start < end <= |sql|
      invariant forall i :: start < i < end ==> IsTagChar(sql[i])
    {
      end := end + 1;
    }
    TagRunIs(rest[1..], end - start - 1);
    if end < |sql| && sql[end] == '$' {
      assert sql[start..end + 1] == rest[..end + 1 - start];
      return Some(sql[start..end + 1]);
    }
    return None;
  }

  lemma TagRunIs(s: string, n: nat)
    requires n <= |s| && (n < |s| ==> !IsTagChar(s[n]))
    requires forall i :: 0 <= i < n ==> IsTagChar(s[i])
    ensures TagRun(s) == n
  {
  }

  function ModeOf(dollar: Option<string>, line: bool, block: bool, single: bool, double: bool): Mode {
    if dollar.Some? then DollarQuote(dollar.value)
    else if line then LineComment
    else if block then BlockComment
    else if single then SingleQuote
    else if double then DoubleQuote
    else Normal
  }

  ghost predicate Scanned(sql: string, start: nat, i: nat, sc: Scan) {
    && start <= i <= |sql|
    && ValidMode(sc.mode)
    && sc.current == sql[start..i]
    && Run(sql[i..], sc) == Run(sql, START)
  }

  lemma ScannedAtStart(sql: string)
    ensures Scanned(sql, 0, 0, START) && NonBlank([]) == []
  {
  }

  lemma ScannedAtEnd(sql: string, start: nat, i: nat, sc: Scan)
    requires Scanned(sql, start, i, sc) && i == |sql|
    ensures Run(sql, START) == sc && sc.current == sql[start..]
  {
  }

  lemma OneMove(sql: string, start: nat, i: nat, sc: Scan) returns (m: Move, next: Scan)
    requires i < |sql| && Scanned(sql, start, i, sc)
    ensures m == NextMove(sql[i..], sc.mode, sc.depth) && i + m.len <= |sql|
    ensures sc.current == sql[start..i]
    ensures next == Advance(sc, sql[i..i + m.len], m)
    ensures Scanned(sql, if m.cut then i + 1 else start, i + m.len, next)
  {
    var rest := sql[i..];
    m := NextMove(rest, sc.mode, sc.depth);
    assert rest[m.len..] == sql[i + m.len..] && rest[..m.len] == sql[i..i + m.len];
    assert sql[start..i] + sql[i..i + m.len] == sql[start..i + m.len];
    next := Advance(sc, rest[..m.len], m);
  }

  lemma NonBlankAppend(pieces: seq<string>, last: string)
    ensures NonBlank(pieces + [last]) == NonBlank(pieces) + if Trim(last) == "" then [] else [Trim(last)]
  {
  }

  method SplitSqlStatements(sql: string) returns (statements: seq<string>)
    ensures statements == Statements(sql)
  {
    hide Run, NonBlank, DollarTag, Scanned;
    ScannedAtStart(sql);
    statements := [];
    var currentStart, i, parenDepth := 0, 0, 0;
    var inDollarQuote: Option<string> := None;
    var inLineComment, inBlockComment, inSingleQuote, inDoubleQuote := false, false, false, false;
    ghost var sc := START;

    while i < |sql|
      invariant currentStart <= i <= |sql|
      invariant Scanned(sql, currentStart, i, sc)
      invariant sc.mode == ModeOf(inDollarQuote, inLineComment, inBlockComment, inSingleQuote, inDoubleQuote)
      invariant sc.depth == parenDepth
      invariant inDollarQuote.Some? ==> !inLineComment && !inBlockComment && !inSingleQuote && !inDoubleQuote
      invariant inLineComment ==> !inBlockComment && !inSingleQuote && !inDoubleQuote
      invariant inBlockComment ==> !inSingleQuote && !inDoubleQuote
      invariant inSingleQuote ==> !inDoubleQuote
      invariant statements == NonBlank(sc.pieces)
    {
      ghost var m, next := OneMove(sql, currentStart, i, sc);
      NonBlankAppend(sc.pieces, sc.current);
      if inDollarQuote.Some? {
        var tag := inDollarQuote.value;
        if StartsWith(sql[i..], tag) {
          i := i + |tag|;
          inDollarQuote := None;
        } else {
          i := i + 1;
        }
      } else if inLineComment {
        if sql[i] == '\n' {
          inLineComment := false;
        }
        i := i + 1;
      } else if inBlockComment {
        if sql[i] == '*' && i + 1 < |sql| && sql[i + 1] == '/' {
          inBlockComment := false;
          i := i + 2;
        } else {
          i := i + 1;
        }
      } else if inSingleQuote {
        if sql[i] == '\'' {
          if i + 1 < |sql| && sql[i + 1] == '\'' {
            i := i + 2;
          } else {
            inSingleQuote := false;
            i := i + 1;
          }
        } else {
          i := i + 1;
        }
      } else if inDoubleQuote {
        if sql[i] == '"' {
          if i + 1 < |sql| && sql[i + 1] == '"' {
            i := i + 2;
          } else {
            inDoubleQuote := false;
            i := i + 1;
          }
        } else {
          i := i + 1;
        }
      } else {
        var tag := ReadDollarQuoteStart(sql, i);
        if tag.Some? {
          inDollarQuote := tag;
          i := i + |tag.value|;
        } else if sql[i] == '\'' {
          inSingleQuote := true;
          i := i + 1;
        } else if sql[i] == '"' {
          inDoubleQuote := true;
          i := i + 1;
        } else if sql[i] == '-' && i + 1 < |sql| && sql[i + 1] == '-' {
          inLineComment := true;
          i := i + 2;
        } else if sql[i] == '/' && i + 1 < |sql| && sql[i + 1] == '*' {
          inBlockComment := true;
          i := i + 2;
        } else if sql[i] == ';' && parenDepth == 0 {
          var statement := Trim(sql[currentStart..i]);
          if statement != "" {
            statements := statements + [statement];
          }
          currentStart := i + 1;
          i := i + 1;
        } else {
          if sql[i] == '(' {
            parenDepth := parenDepth + 1;
          } else if sql[i] == ')' {
            parenDepth := parenDepth - 1;
          }
          i := i + 1;
        }
      }
      sc := next;
    }

    ScannedAtEnd(sql, currentStart, i, sc);
    NonBlankAppend(sc.pieces, sc.current);
    var tail := Trim(sql[currentStart..]);
    if tail != "" {
      statements := statements + [tail];
    }
  }
}
