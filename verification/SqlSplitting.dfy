/** Laws of the statement splitter: it loses nothing, it is compositional at a closed boundary,
    quoted values cannot influence it, and a budget prefix does not change the last statement. */
module SqlSplitting {
  import opened Text
  import opened SqlScanner

  /** No token that the scanner looks ahead for can begin in `a` and end in `tail`. A quote is
      always inert: closing and reopening a string is the same to the scanner as a doubled quote. */
  ghost predicate Inert(a: string, tail: string) {
    a == "" || tail == "" ||
    (var p, c := a[|a| - 1], tail[0];
     !(InTag(p) && InTag(c)) && !(p == c == '-') && !(p == '/' && c == '*') && !(p == '*' && c == '/'))
  }

  ghost predicate Straddles(a: string, tail: string, mode: Mode) {
    && |a| == 1 && tail != "" && tail[0] == a[0]
    && ((mode == SingleQuote && a[0] == '\'') || (mode == DoubleQuote && a[0] == '"'))
  }

  lemma DollarTagStable(a: string, tail: string)
    requires a != "" && tail != "" && !(InTag(a[|a| - 1]) && InTag(tail[0]))
    ensures DollarTag(a + tail) == DollarTag(a)
  {
    assert (a + tail)[1..] == a[1..] + tail;
    if a[0] == '$' {
      TagRunIs(a[1..] + tail, TagRun(a[1..]));
    }
    if DollarTag(a).Some? {
      assert (a + tail)[..|DollarTag(a).value|] == a[..|DollarTag(a).value|];
    }
  }

  lemma ClosingTagStable(a: string, tail: string, tag: string)
    requires a != "" && tail != "" && !(InTag(a[|a| - 1]) && InTag(tail[0])) && ValidMode(DollarQuote(tag))
    ensures StartsWith(a + tail, tag) == StartsWith(a, tag)
  {
    if |tag| <= |a| {
      assert (a + tail)[..|tag|] == a[..|tag|];
    } else if |tag| <= |a + tail| {
      assert (a + tail)[..|tag|][|a| - 1] == a[|a| - 1] && (a + tail)[..|tag|][|a|] == tail[0];
    }
  }

  lemma MoveStable(a: string, tail: string, mode: Mode, depth: int)
    requires a != "" && ValidMode(mode) && Inert(a, tail) && !Straddles(a, tail, mode)
    ensures NextMove(a + tail, mode, depth) == NextMove(a, mode, depth)
  {
    if tail == "" {
      assert a + tail == a;
    } else {
      DollarTagStable(a, tail);
      if mode.DollarQuote? {
        ClosingTagStable(a, tail, mode.tag);
      }
    }
  }

  /** One turn of the loop. */
  lemma RunStep(rest: string, sc: Scan) returns (m: Move)
    requires rest != "" && ValidMode(sc.mode)
    ensures m == NextMove(rest, sc.mode, sc.depth)
    ensures Run(rest, sc) == Run(rest[m.len..], Advance(sc, rest[..m.len], m))
  {
    m := NextMove(rest, sc.mode, sc.depth);
  }

  lemma RunOfEmpty(sc: Scan)
    requires ValidMode(sc.mode)
    ensures Run("", sc) == sc
  {
  }

  /** Scanning a concatenation is scanning its parts one after the other. */
  lemma {:induction false} RunSplits(a: string, tail: string, sc: Scan)
    requires ValidMode(sc.mode) && Inert(a, tail)
    ensures Run(a + tail, sc) == Run(tail, Run(a, sc))
    decreases |a|
  {
    if a == "" {
      assert a + tail == tail;
    } else if Straddles(a, tail, sc.mode) {
      RunStraddling(a, tail, sc);
    } else {
      MoveStable(a, tail, sc.mode, sc.depth);
      var m := NextMove(a, sc.mode, sc.depth);
      assert (a + tail)[m.len..] == a[m.len..] + tail && (a + tail)[..m.len] == a[..m.len];
      RunSplits(a[m.len..], tail, Advance(sc, a[..m.len], m));
    }
  }

  lemma StraddlingMoves(a: string, tail: string, mode: Mode, depth: int)
    requires Straddles(a, tail, mode)
    ensures NextMove(a + tail, mode, depth) == Move(2, mode, 0, false)
    ensures NextMove(a, mode, depth) == Move(1, Normal, 0, false)
    ensures NextMove(tail, Normal, depth) == Move(1, mode, 0, false)
  {
    assert (a + tail)[0] == a[0] && (a + tail)[1] == tail[0];
  }

  /** A doubled quote seen as an escape, and seen as a closing and an opening quote. */
  lemma RunStraddling(a: string, tail: string, sc: Scan)
    requires Straddles(a, tail, sc.mode)
    ensures Run(a + tail, sc) == Run(tail, Run(a, sc))
  {
    hide Run, NextMove;
    var both, closed := a + tail, Scan(sc.pieces, sc.current + a, Normal, sc.depth);
    StraddlingMoves(a, tail, sc.mode, sc.depth);
    var _ := RunStep(both, sc);
    var _ := RunStep(a, sc);
    var _ := RunStep(tail, closed);
    hide Straddles;
    assert both[2..] == tail[1..] && a[1..] == "" && a[..1] == a;
    assert sc.current + both[..2] == (sc.current + a) + tail[..1];
    RunOfEmpty(closed);
  }

  /** What was scanned before only stands in front of what is scanned now. */
  function Prepend(before: Scan, sc: Scan): Scan {
    if sc.pieces == [] then Scan(before.pieces, before.current + sc.current, sc.mode, sc.depth)
    else Scan(before.pieces + [before.current + sc.pieces[0]] + sc.pieces[1..], sc.current, sc.mode, sc.depth)
  }

  function AllPieces(sc: Scan): (r: seq<string>)
    ensures r != []
  {
    sc.pieces + [sc.current]
  }

  lemma PrependAll(before: Scan, sc: Scan)
    ensures AllPieces(Prepend(before, sc))
         == before.pieces + [before.current + AllPieces(sc)[0]] + AllPieces(sc)[1..]
    ensures before.current == "" ==> AllPieces(Prepend(before, sc)) == before.pieces + AllPieces(sc)
  {
    if before.current == "" {
      assert before.current + AllPieces(sc)[0] == AllPieces(sc)[0];
    }
  }

  lemma {:induction false} RunFrame(rest: string, before: Scan, sc: Scan)
    requires ValidMode(sc.mode)
    ensures Run(rest, Prepend(before, sc)) == Prepend(before, Run(rest, sc))
    decreases |rest|
  {
    hide Run;
    if rest == "" {
      RunOfEmpty(sc);
      RunOfEmpty(Prepend(before, sc));
    } else {
      var m := RunStep(rest, sc);
      var _ := RunStep(rest, Prepend(before, sc));
      var text := rest[..m.len];
      assert before.current + sc.current + text == before.current + (sc.current + text);
      if m.cut {
        if sc.pieces == [] {
          assert Advance(Prepend(before, sc), text, m).pieces == Prepend(before, Advance(sc, text, m)).pieces;
        } else {
          assert (sc.pieces + [sc.current])[1..] == sc.pieces[1..] + [sc.current];
          assert Advance(Prepend(before, sc), text, m).pieces == Prepend(before, Advance(sc, text, m)).pieces;
        }
      }
      RunFrame(rest[m.len..], before, Advance(sc, text, m));
    }
  }

  lemma RunFromState(rest: string, sc: Scan)
    requires ValidMode(sc.mode)
    ensures Run(rest, sc) == Prepend(sc, Run(rest, Scan([], "", sc.mode, sc.depth)))
  {
    assert sc.current + "" == sc.current;
    RunFrame(rest, sc, Scan([], "", sc.mode, sc.depth));
  }

  // ---- Nothing is lost ----

  function TextOf(sc: Scan): string {
    Join(sc.pieces + [sc.current], ";")
  }

  lemma JoinLastGrows(pieces: seq<string>, last: string, more: string)
    ensures Join(pieces + [last + more], ";") == Join(pieces + [last], ";") + more
  {
    if pieces != [] {
      JoinAppend(pieces, ";", last);
      JoinAppend(pieces, ";", last + more);
      assert Join(pieces, ";") + ";" + (last + more) == Join(pieces, ";") + ";" + last + more;
    }
  }

  lemma {:induction false} RunKeepsText(rest: string, sc: Scan)
    requires ValidMode(sc.mode)
    ensures TextOf(Run(rest, sc)) == TextOf(sc) + rest
    decreases |rest|
  {
    hide Run, Join;
    if rest == "" {
      RunOfEmpty(sc);
      assert TextOf(sc) + rest == TextOf(sc);
    } else {
      var m := RunStep(rest, sc);
      var next := Advance(sc, rest[..m.len], m);
      if m.cut {
        JoinAppend(sc.pieces + [sc.current], ";", "");
        assert rest[..1] == ";";
        assert TextOf(next) == TextOf(sc) + rest[..1];
      } else {
        JoinLastGrows(sc.pieces, sc.current, rest[..m.len]);
      }
      RunKeepsText(rest[m.len..], next);
      assert rest == rest[..m.len] + rest[m.len..];
      assert TextOf(sc) + rest[..m.len] + rest[m.len..] == TextOf(sc) + rest;
    }
  }

  /** Joining the pieces with semicolons gives the input back: cuts drop one `;` each, and the
      statements are the pieces without the whitespace around them. */
  lemma SplittingLosesNothing(sql: string)
    ensures Join(Pieces(sql), ";") == sql
  {
    RunKeepsText(sql, START);
    assert TextOf(START) == "";
  }

  // ---- Compositionality ----

  lemma {:induction false} NonBlankConcat(a: seq<string>, b: seq<string>)
    ensures NonBlank(a + b) == NonBlank(a) + NonBlank(b)
  {
    if b == [] {
      assert a + b == a;
    } else {
      var last := b[|b| - 1];
      assert a + b == (a + b[..|b| - 1]) + [last] && b == b[..|b| - 1] + [last];
      NonBlankAppend(a + b[..|b| - 1], last);
      NonBlankConcat(a, b[..|b| - 1]);
    }
  }

  lemma PiecesAtCut(a: string, b: string)
    requires Closed(a)
    ensures Pieces(a + ";" + b) == Pieces(a) + Pieces(b)
  {
    hide Run;
    var sa := Run(a, START);
    assert a + ";" + b == a + (";" + b);
    RunSplits(a, ";" + b, START);
    assert (";" + b)[1..] == b;
    var cut := Scan(sa.pieces + [sa.current], "", Normal, 0);
    var _ := RunStep(";" + b, sa);
    RunFromState(b, cut);
    PrependAll(cut, Run(b, START));
  }

  /** Splitting is compositional exactly at the points where a semicolon ends a statement. */
  lemma SplitIsCompositional(a: string, b: string)
    ensures Closed(a) ==> Statements(a + ";" + b) == Statements(a) + Statements(b)
    ensures Closed(a) <==> forall rest :: Pieces(a + ";" + rest) == Pieces(a) + Pieces(rest)
  {
    if Closed(a) {
      forall rest {
        PiecesAtCut(a, rest);
      }
      NonBlankConcat(Pieces(a), Pieces(b));
    } else {
      assert a + ";" + "" == a + ";";
      RunSplits(a, ";", START);
      var sa := Run(a, START);
      var m := RunStep(";", sa);
      assert ";"[m.len..] == "";
      RunOfEmpty(Advance(sa, ";"[..m.len], m));
      assert |Pieces(a + ";" + "")| < |Pieces(a) + Pieces("")|;
    }
  }

  // ---- Splitting again ----

  lemma {:induction false} JoinIsLong(pieces: seq<string>, k: nat)
    requires k < |pieces|
    ensures |Join(pieces, ";")| >= |pieces[k]| + |pieces| - 1
  {
    if |pieces| > 1 {
      JoinIsLong(pieces[1..], if k == 0 then 0 else k - 1);
      if k == 0 {
        assert |Join(pieces[1..], ";")| >= |pieces| - 2;
      }
    }
  }

  /** A prefix of the input that reaches the first cut contains no cut. */
  lemma FirstPieceHasNoCut(p: string, tail: string)
    requires tail == "" || tail[0] == ';'
    requires Pieces(p + tail)[0] == p
    ensures Run(p, START).pieces == []
  {
    RunSplits(p, tail, START);
    var sp := Run(p, START);
    RunFromState(tail, sp);
    SplittingLosesNothing(p);
    JoinIsLong(Pieces(p), 0);
  }

  lemma {:induction false} PiecesHaveNoCut(sql: string, k: nat)
    requires k < |Pieces(sql)|
    ensures Run(Pieces(sql)[k], START).pieces == []
    decreases |sql|
  {
    var pieces := Pieces(sql);
    SplittingLosesNothing(sql);
    if |pieces| == 1 {
      assert sql + "" == sql;
      FirstPieceHasNoCut(sql, "");
    } else {
      var p, rest := pieces[0], Join(pieces[1..], ";");
      assert sql == p + (";" + rest);
      FirstPieceHasNoCut(p, ";" + rest);
      assert p + ";" + rest == sql;
      var sp := Run(p, START);
      assert sp.current == p by {
        RunKeepsText(p, START);
      }
      FirstPieceIsClosed(p, rest);
      PiecesAtCut(p, rest);
      assert Pieces(p) == [p];
      assert pieces[1..] == Pieces(rest);
      if k > 0 {
        PiecesHaveNoCut(rest, k - 1);
      }
    }
  }

  lemma FirstPieceIsClosed(p: string, rest: string)
    requires Pieces(p + (";" + rest))[0] == p
    requires Run(p, START).pieces == [] && Run(p, START).current == p
    ensures Closed(p)
  {
    hide Run, NextMove;
    var sp := Run(p, START);
    var tail := ";" + rest;
    RunSplits(p, tail, START);
    var m := RunStep(tail, sp);
    var next := Advance(sp, tail[..m.len], m);
    var after := Run(tail[m.len..], Scan([], "", next.mode, next.depth));
    RunFromState(tail[m.len..], next);
    PrependAll(next, after);
  }

  lemma {:induction false} LeadingWhitespaceIsSkipped(left: string, rest: string, sc: Scan)
    requires sc.mode == Normal && AllWhitespace(left)
    ensures Run(left + rest, sc) == Run(rest, Scan(sc.pieces, sc.current + left, Normal, sc.depth))
  {
    hide Run;
    if left == "" {
      assert left + rest == rest && sc.current + left == sc.current;
    } else {
      var all := left + rest;
      assert all[1..] == left[1..] + rest && all[..1] == left[..1];
      assert sc.current + left[..1] + left[1..] == sc.current + left;
      var _ := RunStep(all, sc);
      LeadingWhitespaceIsSkipped(left[1..], rest, Scan(sc.pieces, sc.current + left[..1], Normal, sc.depth));
    }
  }

  lemma TrimmedPieceHasNoCut(p: string)
    requires Run(p, START).pieces == []
    ensures Run(Trim(p), START).pieces == []
  {
    hide Run;
    var left, right := TrimSplits(p);
    var t := Trim(p);
    assert p == left + (t + right);
    LeadingWhitespaceIsSkipped(left, t + right, START);
    assert "" + left == left;
    RunFromState(t + right, Scan([], left, Normal, 0));
    assert Run(t + right, START).pieces == [];
    RunSplits(t, right, START);
    RunFromState(right, Run(t, START));
  }

  lemma {:induction false} NonBlankMember(pieces: seq<string>, s: string)
    requires s in NonBlank(pieces)
    ensures s != "" && exists k :: 0 <= k < |pieces| && s == Trim(pieces[k])
  {
    var n := |pieces| - 1;
    if s in NonBlank(pieces[..n]) {
      NonBlankMember(pieces[..n], s);
      var k :| 0 <= k < n && s == Trim(pieces[..n][k]);
      assert s == Trim(pieces[k]);
    }
  }

  function CountNonBlank(pieces: seq<string>): nat {
    if pieces == [] then 0
    else CountNonBlank(pieces[..|pieces| - 1]) + if Trim(pieces[|pieces| - 1]) == "" then 0 else 1
  }

  /** The statements are the pieces that are not blank, each trimmed, in order and none twice. */
  lemma {:induction false} StatementsAreThePieces(pieces: seq<string>)
    ensures |NonBlank(pieces)| == CountNonBlank(pieces)
    ensures forall k :: 0 <= k < |pieces| && Trim(pieces[k]) != "" ==>
              CountNonBlank(pieces[..k]) < |NonBlank(pieces)|
              && NonBlank(pieces)[CountNonBlank(pieces[..k])] == Trim(pieces[k])
  {
    if pieces != [] {
      var n := |pieces| - 1;
      StatementsAreThePieces(pieces[..n]);
      NonBlankAppend(pieces[..n], pieces[n]);
      assert pieces == pieces[..n] + [pieces[n]];
      hide Trim, NonBlank;
      forall k | 0 <= k < |pieces| && Trim(pieces[k]) != ""
        ensures CountNonBlank(pieces[..k]) < |NonBlank(pieces)|
            && NonBlank(pieces)[CountNonBlank(pieces[..k])] == Trim(pieces[k])
      {
        if k < n {
          assert pieces[..n][..k] == pieces[..k] && pieces[..n][k] == pieces[k];
        }
      }
    }
  }

  /** Every statement that splitting returns is one statement when it is split again. */
  lemma StatementsAreAtomic(sql: string, statement: string)
    requires statement in Statements(sql)
    ensures Statements(statement) == [statement]
    ensures statement != "" && Trim(statement) == statement
  {
    NonBlankMember(Pieces(sql), statement);
    var k :| 0 <= k < |Pieces(sql)| && statement == Trim(Pieces(sql)[k]);
    PiecesHaveNoCut(sql, k);
    TrimmedPieceHasNoCut(Pieces(sql)[k]);
    SplittingLosesNothing(statement);
    assert Pieces(statement) == [statement];
    var _, _ := TrimSplits(Pieces(sql)[k]);
    TrimOfTrimmed(statement);
    assert NonBlank([statement]) == [statement] by {
      NonBlankAppend([], statement);
      assert [] + [statement] == [statement];
    }
  }

  // ---- Quoting ----

  function Doubled(value: string, quote: char): string {
    if value == "" then ""
    else (if value[0] == quote then [quote, quote] else [value[0]]) + Doubled(value[1..], quote)
  }

  function Quoted(value: string, quote: char): string {
    [quote] + Doubled(value, quote) + [quote]
  }

  function SqlQuoteLiteral(value: string): (r: string)
    ensures Unquote(r, '\'') == Some(value)
  {
    UnquoteOfQuoted(value, '\'');
    Quoted(value, '\'')
  }

  function SqlQuoteIdent(value: string): (r: string)
    ensures Unquote(r, '"') == Some(value)
  {
    UnquoteOfQuoted(value, '"');
    Quoted(value, '"')
  }

  /** The reader of a quoted token: a doubled quote is one quote, a single one ends the token and
      must be the last character. */
  function Unquote(s: string, quote: char): Option<string> {
    if s != "" && s[0] == quote then UnquoteBody(s[1..], quote) else None
  }

  function UnquoteBody(s: string, quote: char): Option<string> {
    if s == "" then None
    else if s[0] != quote then
      match UnquoteBody(s[1..], quote)
      case None => None
      case Some(rest) => Some([s[0]] + rest)
    else if s == [quote] then Some("")
    else if s[1] == quote then
      match UnquoteBody(s[2..], quote)
      case None => None
      case Some(rest) => Some([quote] + rest)
    else None
  }

  lemma {:induction false} UnquoteBodyOfDoubled(value: string, quote: char)
    ensures UnquoteBody(Doubled(value, quote) + [quote], quote) == Some(value)
  {
    if value == "" {
      assert Doubled(value, quote) + [quote] == [quote];
    } else {
      UnquoteBodyOfDoubled(value[1..], quote);
      var s := Doubled(value, quote) + [quote];
      var rest := Doubled(value[1..], quote) + [quote];
      if value[0] == quote {
        assert s == [quote, quote] + rest && s[2..] == rest && s != [quote];
        assert [quote] + value[1..] == value;
      } else {
        assert s == [value[0]] + rest && s[1..] == rest && [value[0]] + value[1..] == value;
      }
    }
  }

  lemma UnquoteOfQuoted(value: string, quote: char)
    ensures Unquote(Quoted(value, quote), quote) == Some(value)
  {
    UnquoteBodyOfDoubled(value, quote);
    assert Quoted(value, quote)[1..] == Doubled(value, quote) + [quote];
  }

  lemma {:induction false} UnquoteBodyOnlyOfDoubled(s: string, quote: char)
    requires UnquoteBody(s, quote).Some?
    ensures s == Doubled(UnquoteBody(s, quote).value, quote) + [quote]
    decreases |s|
  {
    if s[0] != quote {
      UnquoteBodyOnlyOfDoubled(s[1..], quote);
    } else if s != [quote] {
      UnquoteBodyOnlyOfDoubled(s[2..], quote);
    }
  }

  /** Quoting and reading are inverse to each other: a text reads as `value` exactly if it is the
      quoted form of `value`. */
  lemma QuotingIsInvertible(s: string, value: string, quote: char)
    ensures Unquote(s, quote) == Some(value) <==> s == Quoted(value, quote)
  {
    UnquoteOfQuoted(value, quote);
    if Unquote(s, quote) == Some(value) {
      UnquoteBodyOnlyOfDoubled(s[1..], quote);
    }
  }

  function QuoteMode(quote: char): Mode
    requires quote == '\'' || quote == '"'
  {
    if quote == '\'' then SingleQuote else DoubleQuote
  }

  lemma {:induction false} DoubledStaysInside(value: string, quote: char, sc: Scan)
    requires quote == '\'' || quote == '"'
    requires sc.mode == QuoteMode(quote)
    ensures Run(Doubled(value, quote), sc) == sc.(current := sc.current + Doubled(value, quote))
  {
    var body := Doubled(value, quote);
    if value == "" {
      assert sc.current + "" == sc.current;
    } else {
      var m := NextMove(body, sc.mode, sc.depth);
      var n := if value[0] == quote then 2 else 1;
      assert body[n..] == Doubled(value[1..], quote);
      assert m == Move(n, sc.mode, 0, false);
      assert sc.current + body[..n] + body[n..] == sc.current + body;
      DoubledStaysInside(value[1..], quote, sc.(current := sc.current + body[..n]));
    }
  }

  /** Scanning a quoted value from normal mode only adds it to the current statement, whatever the
      value is. */
  lemma QuotedIsOneToken(value: string, quote: char, sc: Scan)
    requires (quote == '\'' || quote == '"') && sc.mode == Normal
    ensures Run(Quoted(value, quote), sc) == sc.(current := sc.current + Quoted(value, quote))
  {
    hide Run, Doubled;
    var body, all := Doubled(value, quote), Quoted(value, quote);
    assert all[1..] == body + [quote] && all[..1] == [quote];
    var inside := sc.(current := sc.current + [quote], mode := QuoteMode(quote));
    var _ := RunStep(all, sc);
    RunSplits(body, [quote], inside);
    DoubledStaysInside(value, quote, inside);
    var closing := inside.(current := inside.current + body);
    var _ := RunStep([quote], closing);
    assert [quote][1..] == "" && [quote][..1] == [quote];
    assert closing.current + [quote] == sc.current + all;
    RunOfEmpty(sc.(current := sc.current + all));
  }

  /** Scanning over a quoted value ends exactly where the value ends, in the mode and at the depth
      before it, whatever stands on either side, adjacent quotes included. */
  lemma QuotingIsOpaque(before: string, value: string, quote: char, after: string)
    requires quote == '\'' || quote == '"'
    requires Run(before, START).mode == Normal
    ensures var sc := Run(before, START);
            Run(before + Quoted(value, quote) + after, START)
            == Run(after, sc.(current := sc.current + Quoted(value, quote)))
  {
    var all := Quoted(value, quote);
    RunSplits(before + all, after, START);
    RunSplits(before, all, START);
    QuotedIsOneToken(value, quote, Run(before, START));
  }

  /** A quoted value stands inside one piece, whose other parts and neighbours do not depend on it. */
  lemma QuotedPieces(before: string, value: string, quote: char, after: string)
    requires quote == '\'' || quote == '"'
    requires Run(before, START).mode == Normal
    ensures var sc := Run(before, START);
            var rest := AllPieces(Run(after, Scan([], "", Normal, sc.depth)));
            Pieces(before + Quoted(value, quote) + after)
            == sc.pieces + [sc.current + Quoted(value, quote) + rest[0]] + rest[1..]
  {
    hide Run, Quoted;
    var sc := Run(before, START);
    QuotingIsOpaque(before, value, quote, after);
    var with := sc.(current := sc.current + Quoted(value, quote));
    RunFromState(after, with);
    PrependAll(with, Run(after, Scan([], "", Normal, sc.depth)));
  }

  lemma ReplaceOne<T>(front: seq<T>, x: T, y: T, back: seq<T>)
    ensures front + [y] + back == (front + [x] + back)[|front| := y]
    ensures (front + [x] + back)[|front|] == x
  {
  }

  /** Replacing one quoted value by another changes exactly one piece, and in it only the value. */
  lemma QuotedValueNeverMovesACut(before: string, v: string, w: string, quote: char, after: string)
    requires quote == '\'' || quote == '"'
    requires Run(before, START).mode == Normal
    ensures exists k: nat, left, right ::
              var withV := Pieces(before + Quoted(v, quote) + after);
              var withW := Pieces(before + Quoted(w, quote) + after);
              && k < |withV| && withV[k] == left + Quoted(v, quote) + right
              && withW == withV[k := left + Quoted(w, quote) + right]
  {
    hide Run, Quoted, Pieces, AllPieces;
    var sc := Run(before, START);
    var rest := AllPieces(Run(after, Scan([], "", Normal, sc.depth)));
    QuotedPieces(before, v, quote, after);
    QuotedPieces(before, w, quote, after);
    var left, right := sc.current, rest[0];
    ReplaceOne(sc.pieces, left + Quoted(v, quote) + right, left + Quoted(w, quote) + right, rest[1..]);
    var withV := Pieces(before + Quoted(v, quote) + after);
    assert withV[|sc.pieces|] == left + Quoted(v, quote) + right;
  }

  // ---- The budget prefix ----

  const MAX_TIMEOUT_MS: nat := 0x7FFF_FFFF

  /** Timeouts in milliseconds. */
  datatype QueryBudget = QueryBudget(statementTimeout: Option<nat>, lockTimeout: Option<nat>)

  function TimeoutMsLiteral(ms: nat): nat {
    if ms <= MAX_TIMEOUT_MS then ms else MAX_TIMEOUT_MS
  }

  function Setting(text: string, timeout: Option<nat>): seq<string> {
    match timeout
    case None => []
    case Some(ms) => [text + Decimal(TimeoutMsLiteral(ms))]
  }

  function BudgetParts(forceReadOnly: bool, budget: QueryBudget): seq<string> {
    if forceReadOnly then
      ["BEGIN TRANSACTION READ ONLY"]
      + Setting("SET LOCAL statement_timeout = ", budget.statementTimeout)
      + Setting("SET LOCAL lock_timeout = ", budget.lockTimeout)
    else
      Setting("SET statement_timeout = ", budget.statementTimeout)
      + Setting("SET lock_timeout = ", budget.lockTimeout)
  }

  method BudgetedSql(sql: string, forceReadOnly: bool, budget: QueryBudget) returns (r: string)
    ensures r == Join(BudgetParts(forceReadOnly, budget) + [sql], "; ")
    ensures var set_ := if forceReadOnly then "SET LOCAL " else "SET ";
            r == (if forceReadOnly then "BEGIN TRANSACTION READ ONLY; " else "")
                 + SettingText(set_ + "statement_timeout = ", budget.statementTimeout)
                 + SettingText(set_ + "lock_timeout = ", budget.lockTimeout)
                 + sql
  {
    var parts: seq<string> := [];
    if forceReadOnly {
      parts := parts + ["BEGIN TRANSACTION READ ONLY"];
      if budget.statementTimeout.Some? {
        parts := parts + ["SET LOCAL statement_timeout = " + Decimal(TimeoutMsLiteral(budget.statementTimeout.value))];
      }
      if budget.lockTimeout.Some? {
        parts := parts + ["SET LOCAL lock_timeout = " + Decimal(TimeoutMsLiteral(budget.lockTimeout.value))];
      }
    } else {
      if budget.statementTimeout.Some? {
        parts := parts + ["SET statement_timeout = " + Decimal(TimeoutMsLiteral(budget.statementTimeout.value))];
      }
      if budget.lockTimeout.Some? {
        parts := parts + ["SET lock_timeout = " + Decimal(TimeoutMsLiteral(budget.lockTimeout.value))];
      }
    }
    assert parts == BudgetParts(forceReadOnly, budget);
    BudgetText(forceReadOnly, budget, sql);
    parts := parts + [sql];
    r := Join(parts, "; ");
  }

  /** A setting as it stands in front of the rest; timeouts above the largest signed 32-bit number
      are cut down to it. */
  function SettingText(text: string, timeout: Option<nat>): string {
    if timeout.None? then ""
    else text + Decimal(if timeout.value > 2_147_483_647 then 2_147_483_647 else timeout.value) + "; "
  }

  /** The parts, each followed by the separator. */
  function Separated(parts: seq<string>): string {
    if parts == [] then "" else parts[0] + "; " + Separated(parts[1..])
  }

  lemma {:induction false} JoinIsSeparated(parts: seq<string>, last: string)
    ensures Join(parts + [last], "; ") == Separated(parts) + last
  {
    if parts != [] {
      assert (parts + [last])[1..] == parts[1..] + [last];
      JoinIsSeparated(parts[1..], last);
      Associative(parts[0] + "; ", Separated(parts[1..]), last);
    }
  }

  lemma {:induction false} SeparatedConcat(a: seq<string>, b: seq<string>)
    ensures Separated(a + b) == Separated(a) + Separated(b)
  {
    if a == [] {
      assert a + b == b;
    } else {
      assert (a + b)[1..] == a[1..] + b;
      SeparatedConcat(a[1..], b);
      Associative(a[0] + "; ", Separated(a[1..]), Separated(b));
    }
  }

  lemma SeparatedOne(part: string)
    ensures Separated([part]) == part + "; "
  {
    assert [part][1..] == [];
  }

  lemma SeparatedSetting(text: string, timeout: Option<nat>)
    ensures Separated(Setting(text, timeout)) == SettingText(text, timeout)
  {
    if timeout.Some? {
      hide Decimal, Separated;
      SeparatedOne(text + Decimal(TimeoutMsLiteral(timeout.value)));
    }
  }

  lemma BudgetText(forceReadOnly: bool, budget: QueryBudget, sql: string)
    ensures var set_ := if forceReadOnly then "SET LOCAL " else "SET ";
            Join(BudgetParts(forceReadOnly, budget) + [sql], "; ")
            == (if forceReadOnly then "BEGIN TRANSACTION READ ONLY; " else "")
               + SettingText(set_ + "statement_timeout = ", budget.statementTimeout)
               + SettingText(set_ + "lock_timeout = ", budget.lockTimeout)
               + sql
  {
    hide Decimal, Join, Separated, Setting, SettingText;
    var set_ := if forceReadOnly then "SET LOCAL " else "SET ";
    var begin := if forceReadOnly then ["BEGIN TRANSACTION READ ONLY"] else [];
    var statement := Setting(set_ + "statement_timeout = ", budget.statementTimeout);
    var lock := Setting(set_ + "lock_timeout = ", budget.lockTimeout);
    BudgetPartsAre(forceReadOnly, budget);
    JoinIsSeparated(begin + statement + lock, sql);
    SeparatedConcat(begin + statement, lock);
    SeparatedConcat(begin, statement);
    SeparatedBegin(forceReadOnly);
    SeparatedSetting(set_ + "statement_timeout = ", budget.statementTimeout);
    SeparatedSetting(set_ + "lock_timeout = ", budget.lockTimeout);
  }

  lemma SeparatedBegin(forceReadOnly: bool)
    ensures Separated(if forceReadOnly then ["BEGIN TRANSACTION READ ONLY"] else [])
         == if forceReadOnly then "BEGIN TRANSACTION READ ONLY; " else ""
  {
    SeparatedOne("BEGIN TRANSACTION READ ONLY");
    assert "BEGIN TRANSACTION READ ONLY" + "; " == "BEGIN TRANSACTION READ ONLY; ";
  }

  lemma BudgetPartsAre(forceReadOnly: bool, budget: QueryBudget)
    ensures var set_ := if forceReadOnly then "SET LOCAL " else "SET ";
            BudgetParts(forceReadOnly, budget)
            == (if forceReadOnly then ["BEGIN TRANSACTION READ ONLY"] else [])
               + Setting(set_ + "statement_timeout = ", budget.statementTimeout)
               + Setting(set_ + "lock_timeout = ", budget.lockTimeout)
  {
    hide Setting;
    assert "SET LOCAL " + "statement_timeout = " == "SET LOCAL statement_timeout = ";
    assert "SET LOCAL " + "lock_timeout = " == "SET LOCAL lock_timeout = ";
    assert "SET " + "statement_timeout = " == "SET statement_timeout = ";
    assert "SET " + "lock_timeout = " == "SET lock_timeout = ";
    SettingsConcat(Setting("SET statement_timeout = ", budget.statementTimeout),
                   Setting("SET lock_timeout = ", budget.lockTimeout));
  }

  lemma SettingsConcat(a: seq<string>, b: seq<string>)
    ensures [] + a + b == a + b
  {
  }

  /** Neither a quote, a comment, a parenthesis nor a semicolon can begin at such a character. */
  predicate IsPlain(c: char) {
    IsTagChar(c) || c == ' ' || c == '='
  }

  ghost predicate Plain(s: string) {
    forall i :: 0 <= i < |s| ==> IsPlain(s[i])
  }

  lemma {:induction false} PlainTextStaysNormal(s: string, sc: Scan)
    requires Plain(s) && sc.mode == Normal
    ensures Run(s, sc) == sc.(current := sc.current + s)
  {
    hide Run;
    if s == "" {
      RunOfEmpty(sc);
      assert sc.current + s == sc.current;
    } else {
      var _ := RunStep(s, sc);
      assert sc.current + s[..1] + s[1..] == sc.current + s;
      PlainTextStaysNormal(s[1..], sc.(current := sc.current + s[..1]));
    }
  }

  /** A plain text that does not begin or end with a blank is one statement, and closed. */
  ghost predicate OneStatement(s: string) {
    Closed(s) && Statements(s) == [s]
  }

  lemma PlainTextIsOneStatement(s: string)
    requires Plain(s) && s != "" && IsTrimmed(s)
    ensures OneStatement(s)
  {
    PlainTextStaysNormal(s, START);
    assert "" + s == s;
    assert Pieces(s) == [] + [s];
    NonBlankAppend([], s);
    TrimOfTrimmed(s);
  }

  lemma SettingIsOneStatement(text: string, timeout: Option<nat>)
    requires Plain(text) && text != "" && !IsWhitespace(text[0])
    ensures forall i :: 0 <= i < |Setting(text, timeout)| ==> OneStatement(Setting(text, timeout)[i])
  {
    if timeout.Some? {
      var n := Decimal(TimeoutMsLiteral(timeout.value));
      assert (text + n)[|text + n| - 1] == n[|n| - 1];
      PlainTextIsOneStatement(text + n);
    }
  }

  lemma PlainLiterals()
    ensures Plain("BEGIN TRANSACTION READ ONLY")
    ensures Plain("SET LOCAL statement_timeout = ") && Plain("SET LOCAL lock_timeout = ")
    ensures Plain("SET statement_timeout = ") && Plain("SET lock_timeout = ")
  {
  }

  lemma BudgetPartsAreStatements(forceReadOnly: bool, budget: QueryBudget)
    ensures forall i :: 0 <= i < |BudgetParts(forceReadOnly, budget)| ==>
        OneStatement(BudgetParts(forceReadOnly, budget)[i])
  {
    hide Run, Plain, Statements, Closed;
    PlainLiterals();
    PlainTextIsOneStatement("BEGIN TRANSACTION READ ONLY");
    SettingIsOneStatement("SET LOCAL statement_timeout = ", budget.statementTimeout);
    SettingIsOneStatement("SET LOCAL lock_timeout = ", budget.lockTimeout);
    SettingIsOneStatement("SET statement_timeout = ", budget.statementTimeout);
    SettingIsOneStatement("SET lock_timeout = ", budget.lockTimeout);
  }

  lemma LeadingBlankIsTrimmed(s: string)
    ensures Trim(" " + s) == Trim(s)
  {
  }

  lemma LeadingBlankIsIgnored(sql: string)
    ensures Statements(" " + sql) == Statements(sql)
  {
    hide Run, NonBlank, Trim;
    LeadingWhitespaceIsSkipped(" ", sql, START);
    var sc := Scan([], " ", Normal, 0);
    assert "" + " " == " ";
    RunFromState(sql, sc);
    PrependAll(sc, Run(sql, START));
    var first, rest := Pieces(sql)[0], Pieces(sql)[1..];
    assert Pieces(sql) == [first] + rest && Pieces(" " + sql) == [" " + first] + rest;
    NonBlankConcat([first], rest);
    NonBlankConcat([" " + first], rest);
    LeadingBlankIsTrimmed(first);
    NonBlankAppend([], first);
    NonBlankAppend([], " " + first);
    assert [] + [first] == [first] && [] + [" " + first] == [" " + first];
  }

  lemma {:induction false} StatementsOfJoin(parts: seq<string>, sql: string)
    requires forall i :: 0 <= i < |parts| ==> OneStatement(parts[i])
    ensures Statements(Join(parts + [sql], "; ")) == parts + Statements(sql)
  {
    hide Run, NonBlank, Pieces, Statements, Closed;
    if parts == [] {
      assert parts + [sql] == [sql] && [] + Statements(sql) == Statements(sql);
    } else {
      var rest := Join(parts[1..] + [sql], "; ");
      assert (parts + [sql])[1..] == parts[1..] + [sql];
      assert "; " == ";" + " ";
      assert Join(parts + [sql], "; ") == parts[0] + ";" + (" " + rest);
      SplitIsCompositional(parts[0], " " + rest);
      LeadingBlankIsIgnored(rest);
      StatementsOfJoin(parts[1..], sql);
      assert [parts[0]] + (parts[1..] + Statements(sql)) == parts + Statements(sql);
    }
  }

  /** The last non-blank statement. */
  function LastStatement(sql: string): Option<string> {
    if Statements(sql) == [] then None else Some(Statements(sql)[|Statements(sql)| - 1])
  }

  method ExtractLastStatement(sql: string) returns (r: Option<string>)
    ensures r == LastStatement(sql)
    ensures r.Some? ==> r.value != "" && Statements(r.value) == [r.value]
  {
    hide Run, NonBlank, Pieces, Trim;
    var statements := SplitSqlStatements(sql);
    var i := |statements|;
    while i > 0
      invariant 0 <= i <= |statements|
      invariant forall j :: i <= j < |statements| ==> Trim(statements[j]) == ""
    {
      i := i - 1;
      if Trim(statements[i]) != "" {
        StatementsAreAtomic(sql, statements[|statements| - 1]);
        return Some(statements[i]);
      }
    }
    if statements != [] {
      StatementsAreAtomic(sql, statements[0]);
    }
    return None;
  }

  /** The budget prefix goes in front as whole statements, and the statement whose result columns
      are inferred stays that of the query, exactly unless the query has no statement at all. */
  lemma BudgetKeepsLastStatement(sql: string, forceReadOnly: bool, budget: QueryBudget)
    ensures var parts := BudgetParts(forceReadOnly, budget);
            var budgeted := Join(parts + [sql], "; ");
            && Statements(budgeted) == parts + Statements(sql)
            && (LastStatement(budgeted) == LastStatement(sql) <==> Statements(sql) != [] || parts == [])
  {
    BudgetPartsAreStatements(forceReadOnly, budget);
    StatementsOfJoin(BudgetParts(forceReadOnly, budget), sql);
  }
}
