/** How the statement scanner of src/db.rs sees the escape-string literals that src/tools.rs prints. */
module EscapeLiterals {
  import opened Text
  import opened SqlScanner
  import opened SqlSplitting
  import opened NameFilter

  const TICK: char := '\''

  // ---- Printed values ----

  lemma {:induction false} EQuotedBodyOfConcat(a: string, b: string)
    ensures EQuotedBody(a + b) == EQuotedBody(a) + EQuotedBody(b)
  {
    if a == "" {
      Associative(a, a, b);
      Associative(a, a, EQuotedBody(b));
    } else {
      assert (a + b)[1..] == a[1..] + b;
      EQuotedBodyOfConcat(a[1..], b);
      Associative(EQuotedChar(a[0]), EQuotedBody(a[1..]), EQuotedBody(b));
    }
  }

  /** Printing leaves a value without quotes without quotes. */
  lemma {:induction false} EQuotedBodyHasNoTick(value: string)
    requires TICK !in value
    ensures TICK !in EQuotedBody(value)
  {
    if value != "" {
      EQuotedBodyHasNoTick(value[1..]);
    }
  }

  lemma {:induction false} DoubledIsItself(s: string)
    requires TICK !in s
    ensures Doubled(s, TICK) == s
  {
    if s != "" {
      DoubledIsItself(s[1..]);
      assert [s[0]] + s[1..] == s;
    }
  }

  lemma LetterThenQuoted(body: string)
    requires TICK !in body
    ensures "E'" + body + "'" == "E" + Quoted(body, TICK)
  {
    DoubledIsItself(body);
  }

  // ---- Values without a single quote ----

  lemma LetterStaysNormal(rest: string, sc: Scan)
    requires sc.mode == Normal
    ensures Run("E" + Quoted(rest, TICK), sc)
         == Run(Quoted(rest, TICK), sc.(current := sc.current + "E"))
  {
    hide Run, Doubled;
    RunSplits("E", Quoted(rest, TICK), sc);
    PlainTextStaysNormal("E", sc);
  }

  /** The literal of a value without a single quote is opaque: from normal mode the scan only adds it
      to the current statement. */
  lemma EscapeLiteralWithoutTickIsOpaque(value: string, sc: Scan)
    requires TICK !in value && sc.mode == Normal
    ensures Run(EQuoted(value), sc) == sc.(current := sc.current + EQuoted(value))
  {
    var body := EQuotedBody(value);
    EQuotedBodyHasNoTick(value);
    LetterThenQuoted(body);
    LetterStaysNormal(body, sc);
    hide Run, EQuotedBody, Doubled;
    QuotedIsOneToken(body, TICK, sc.(current := sc.current + "E"));
    Associative(sc.current, "E", Quoted(body, TICK));
  }

  // ---- Values with single quotes ----

  /** Outside a single-quoted string, a text without a single quote does not begin one. */
  lemma {:induction false} NoTickNoString(s: string, sc: Scan)
    requires TICK !in s && ValidMode(sc.mode) && sc.mode != SingleQuote
    ensures Run(s, sc).mode != SingleQuote
    decreases |s|
  {
    hide Run;
    if s == "" {
      RunOfEmpty(sc);
    } else {
      var m := RunStep(s, sc);
      assert s[0] != TICK;
      NoTickNoString(s[m.len..], Advance(sc, s[..m.len], m));
    }
  }

  lemma LastTickLeavesNormal(sc: Scan)
    requires ValidMode(sc.mode) && sc.mode != SingleQuote
    ensures Run("'", sc).mode != Normal
  {
    hide Run;
    var m := RunStep("'", sc);
    assert "'"[m.len..] == "";
    RunOfEmpty(Advance(sc, "'"[..m.len], m));
  }

  /** The literal of a value with exactly one single quote never ends in normal mode, wherever the
      quote stands and whatever surrounds it. */
  lemma EscapeLiteralWithOneTickEndsElsewhere(left: string, right: string, sc: Scan)
    requires TICK !in left && TICK !in right && sc.mode == Normal
    ensures Run(EQuoted(left + "'" + right), sc).mode != Normal
  {
    var body, tail := EQuotedBody(left) + "\\", EQuotedBody(right);
    OneTickSplits(left, right);
    EQuotedBodyHasNoTick(left);
    EQuotedBodyHasNoTick(right);
    hide EQuotedBody, Run, Doubled;
    var first := "E" + Quoted(body, TICK);
    assert first != "" && first[|first| - 1] == TICK;
    RunSplits(first, tail + "'", sc);
    LetterStaysNormal(body, sc);
    var letter := sc.(current := sc.current + "E");
    QuotedIsOneToken(body, TICK, letter);
    var inside := letter.(current := letter.current + Quoted(body, TICK));
    RunSplits(tail, "'", inside);
    NoTickNoString(tail, inside);
    LastTickLeavesNormal(Run(tail, inside));
  }

  lemma OneTickSplits(left: string, right: string)
    requires TICK !in left
    ensures EQuoted(left + "'" + right) == "E" + Quoted(EQuotedBody(left) + "\\", TICK) + (EQuotedBody(right) + "'")
  {
    BodyWithOneTick(left, right);
    EQuotedBodyHasNoTick(left);
    LetterThenQuoted(EQuotedBody(left) + "\\");
    hide EQuotedBody, Doubled, Quoted;
    Regrouped("E'", EQuotedBody(left) + "\\", "'", EQuotedBody(right));
  }

  lemma BodyWithOneTick(left: string, right: string)
    ensures EQuotedBody(left + "'" + right) == EQuotedBody(left) + "\\" + "'" + EQuotedBody(right)
  {
    EQuotedBodyOfConcat(left + "'", right);
    EQuotedBodyOfConcat(left, "'");
    assert "'"[1..] == "" && EQuotedBody("'") == "\\" + "'";
    hide EQuotedBody;
    Associative(EQuotedBody(left), "\\", "'");
  }

  lemma Regrouped(open_: string, a: string, quote: string, b: string)
    ensures open_ + (a + quote + b) + quote == (open_ + a + quote) + (b + quote)
  {
    Associative(open_, a + quote, b);
    Associative(open_, a, quote);
    Associative(open_ + a + quote, b, quote);
  }

  lemma StaysInsideWithoutTick(value: string, sc: Scan, k: nat)
    requires sc.mode == SingleQuote && TICK !in value && k <= |EQuotedBody(value)|
    ensures Run(EQuotedBody(value)[..k], sc).mode == SingleQuote
  {
    hide Run, EQuotedBody, Doubled;
    EQuotedBodyHasNoTick(value);
    DoubledIsItself(EQuotedBody(value)[..k]);
    DoubledStaysInside(EQuotedBody(value)[..k], TICK, sc);
  }

  lemma TickEndsIt(value: string, sc: Scan) returns (k: nat)
    requires sc.mode == SingleQuote && TICK in value
    ensures k <= |EQuotedBody(value)| && Run(EQuotedBody(value)[..k], sc).mode == Normal
  {
    hide Run, EQuotedBody, Doubled;
    var left, right := FirstTick(value);
    BodyWithOneTick(left, right);
    EQuotedBodyHasNoTick(left);
    TickCloses(EQuotedBody(left) + "\\", sc);
    k := |EQuotedBody(left)| + 2;
    assert EQuotedBody(value)[..k] == EQuotedBody(left) + "\\" + "'";
  }

  /** The scan stays inside the string up to its closing quote exactly if the value has no single quote. */
  lemma StaysInsideExactlyWithoutTick(value: string, sc: Scan)
    requires sc.mode == SingleQuote
    ensures (forall k :: 0 <= k <= |EQuotedBody(value)| ==> Run(EQuotedBody(value)[..k], sc).mode == SingleQuote)
       <==> TICK !in value
  {
    hide Run, EQuotedBody;
    if TICK !in value {
      forall k: nat | k <= |EQuotedBody(value)| ensures Run(EQuotedBody(value)[..k], sc).mode == SingleQuote {
        StaysInsideWithoutTick(value, sc, k);
      }
    } else {
      var k := TickEndsIt(value, sc);
    }
  }

  lemma {:induction false} FirstTick(value: string) returns (left: string, right: string)
    requires TICK in value
    ensures value == left + "'" + right && TICK !in left
  {
    if value[0] == TICK {
      left, right := "", value[1..];
    } else {
      left, right := FirstTick(value[1..]);
      left := [value[0]] + left;
    }
  }

  lemma TickCloses(s: string, sc: Scan)
    requires sc.mode == SingleQuote && TICK !in s
    ensures Run(s + "'", sc).mode == Normal
  {
    DoubledIsItself(s);
    DoubledStaysInside(s, TICK, sc);
    hide Run, Doubled;
    RunSplits(s, "'", sc);
    var inside := sc.(current := sc.current + s);
    var m := RunStep("'", inside);
    assert "'"[m.len..] == "";
    RunOfEmpty(Advance(inside, "'"[..m.len], m));
  }

  // ---- Exactly which literals are opaque ----

  /** From `sc` the scan only adds the literal to the current statement. */
  predicate IsOpaqueAt(value: string, sc: Scan)
    requires sc.mode == Normal
  {
    Run(EQuoted(value), sc) == sc.(current := sc.current + EQuoted(value))
  }

  /** What a value with a single quote has behind its first one. */
  function AfterFirstTick(value: string): string
    requires TICK in value
  {
    if value[0] == TICK then value[1..] else AfterFirstTick(value[1..])
  }

  /** A text that the scan takes as a whole, in normal mode at some depth. */
  predicate IsWhole(text: string, depth: int) {
    var end := Run(text, Scan([], "", Normal, depth));
    end.pieces == [] && end.mode == Normal && end.depth == depth
  }

  /** The scan of a literal is that of the part up to the first quote, which is one token, and then
      that of the rest in normal mode. */
  lemma ScanBehindTick(left: string, right: string, sc: Scan)
    requires TICK !in left && sc.mode == Normal
    ensures var first, rest := "E" + Quoted(EQuotedBody(left) + "\\", TICK), EQuotedBody(right) + "'";
            && EQuoted(left + "'" + right) == first + rest
            && Run(first + rest, sc)
               == Prepend(sc.(current := sc.current + first), Run(rest, Scan([], "", Normal, sc.depth)))
  {
    var body := EQuotedBody(left) + "\\";
    OneTickSplits(left, right);
    EQuotedBodyHasNoTick(left);
    hide EQuotedBody, Run, Doubled;
    var first, rest := "E" + Quoted(body, TICK), EQuotedBody(right) + "'";
    assert first[|first| - 1] == TICK;
    RunSplits(first, rest, sc);
    LetterStaysNormal(body, sc);
    QuotedIsOneToken(body, TICK, sc.(current := sc.current + "E"));
    Associative(sc.current, "E", Quoted(body, TICK));
    RunFromState(rest, sc.(current := sc.current + first));
  }

  lemma PrependOfWhole(before: Scan, text: string)
    requires before.mode == Normal
    ensures Prepend(before, Run(text, Scan([], "", Normal, before.depth))) == before.(current := before.current + text)
       <==> IsWhole(text, before.depth)
  {
    var blank := Scan([], "", Normal, before.depth);
    RunKeepsText(text, blank);
    hide Run;
    assert TextOf(blank) + text == text;
  }

  /** A literal whose value has a single quote is opaque if and only if the scan takes what is printed
      behind the first one as a whole. */
  lemma OpaqueExactlyIfRestIsWhole(left: string, right: string, sc: Scan)
    requires TICK !in left && sc.mode == Normal
    ensures IsOpaqueAt(left + "'" + right, sc) <==> IsWhole(EQuotedBody(right) + "'", sc.depth)
  {
    ScanBehindTick(left, right, sc);
    hide EQuotedBody, Run, Quoted, IsWhole, Prepend;
    var first, rest := "E" + Quoted(EQuotedBody(left) + "\\", TICK), EQuotedBody(right) + "'";
    PrependOfWhole(sc.(current := sc.current + first), rest);
    Associative(sc.current, first, rest);
  }

  /** The exact condition, for every value. */
  lemma LiteralIsOpaqueExactly(value: string, sc: Scan)
    requires sc.mode == Normal
    ensures IsOpaqueAt(value, sc)
       <==> TICK !in value || IsWhole(EQuotedBody(AfterFirstTick(value)) + "'", sc.depth)
  {
    if TICK in value {
      var left, right := FirstTick(value);
      AfterFirst(left, right);
      hide IsWhole, IsOpaqueAt, EQuotedBody;
      OpaqueExactlyIfRestIsWhole(left, right, sc);
    } else {
      EscapeLiteralWithoutTickIsOpaque(value, sc);
    }
  }

  lemma {:induction false} AfterFirst(left: string, right: string)
    requires TICK !in left
    ensures AfterFirstTick(left + "'" + right) == right
  {
    if left != "" {
      assert (left + "'" + right)[1..] == left[1..] + "'" + right;
      AfterFirst(left[1..], right);
    }
  }

  /** What characters a caller may allow: every value over them is opaque if and only if the single
      quote is not one of them. */
  lemma AlphabetIsOpaqueExactly(allowed: set<char>, sc: Scan)
    requires sc.mode == Normal
    ensures (forall value :: IsOver(value, allowed) ==> IsOpaqueAt(value, sc)) <==> TICK !in allowed
  {
    forall value | IsOver(value, allowed) && TICK !in allowed ensures IsOpaqueAt(value, sc) {
      EscapeLiteralWithoutTickIsOpaque(value, sc);
    }
    if TICK in allowed {
      assert IsOver("'", allowed);
      assert "" + "'" + "" == "'";
      EscapeLiteralWithOneTickEndsElsewhere("", "", sc);
    }
  }

  predicate IsOver(value: string, allowed: set<char>) {
    forall c :: c in value ==> c in allowed
  }

  /** Two single quotes cancel out. */
  lemma TwoTicksAreOpaque(sc: Scan)
    requires sc.mode == Normal
    ensures IsOpaqueAt("''", sc)
  {
    assert "" + "'" + "'" == "''";
    OpaqueExactlyIfRestIsWhole("", "'", sc);
    BodyWithOneTick("", "");
    assert EQuotedBody("'") + "'" == "\\''";
    BackslashAndQuotes(sc.depth);
  }

  lemma BackslashAndQuotes(depth: int)
    ensures Run("\\''", Scan([], "", Normal, depth)) == Scan([], "\\''", Normal, depth)
  {
    hide Run;
    var sc := Scan([], "", Normal, depth);
    var m := RunStep("\\''", sc);
    assert Advance(sc, "\\''"[..m.len], m) == Scan([], "\\", Normal, depth) && "\\''"[m.len..] == "''";
    assert Quoted("", TICK) == "''";
    QuotedIsOneToken("", TICK, Scan([], "\\", Normal, depth));
    assert "\\" + "''" == "\\''";
  }

  /** A semicolon right behind the first single quote of a value cuts the statement. */
  lemma SemicolonBehindTickCuts(left: string, right: string, sc: Scan)
    requires TICK !in left && sc.mode == Normal && sc.depth == 0
    ensures sc.pieces + [sc.current + ("E'" + (EQuotedBody(left) + "\\") + "'")]
         <= Run(EQuoted(left + "'" + (";" + right)), sc).pieces
  {
    ScanBehindTick(left, ";" + right, sc);
    EQuotedBodyHasNoTick(left);
    LetterThenQuoted(EQuotedBody(left) + "\\");
    EQuotedBodyOfConcat(";", right);
    assert EQuotedBody(";") == ";";
    hide EQuotedBody, Run, Quoted;
    Associative(";", EQuotedBody(right), "'");
    CutFirst(EQuotedBody(right) + "'");
    var first := "E" + Quoted(EQuotedBody(left) + "\\", TICK);
    PrependOfCut(sc.(current := sc.current + first), Run(";" + (EQuotedBody(right) + "'"), Scan([], "", Normal, 0)));
  }

  lemma PrependOfCut(before: Scan, end: Scan)
    requires end.pieces != [] && end.pieces[0] == ""
    ensures before.pieces + [before.current] <= Prepend(before, end).pieces
  {
    assert before.current + "" == before.current;
  }

  lemma CutFirst(rest: string)
    ensures var end := Run(";" + rest, Scan([], "", Normal, 0)); end.pieces != [] && end.pieces[0] == ""
  {
    hide Run;
    var sc := Scan([], "", Normal, 0);
    var all := [';'] + rest;
    assert ";" + rest == all && all[1..] == rest;
    var m := RunStep(all, sc);
    assert DollarTag(all).None? && m.cut;
    assert Advance(sc, all[..m.len], m) == Scan([""], "", Normal, 0);
    RunFromState(rest, Scan([""], "", Normal, 0));
  }
}
