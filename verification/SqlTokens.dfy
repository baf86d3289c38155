/** What the statement scanner of src/db.rs takes as one token, besides quoted values: comments,
    dollar-quoted texts and parentheses. From normal mode the scan only adds such a token to the
    current statement and is in the same mode and at the same depth behind it. */
module SqlTokens {
  import opened Text
  import opened SqlScanner
  import opened SqlSplitting

  predicate Holds(text: string, i: nat, part: string) {
    i + |part| <= |text| && text[i..i + |part|] == part
  }

  /** The part stands nowhere in the text before the end. */
  ghost predicate EndsAtFirst(t: string, part: string) {
    forall i :: 0 <= i < |t| ==> !Holds(t + part, i, part)
  }

  lemma EndsAtFirstAfter(t: string, part: string)
    requires EndsAtFirst(t, part) && t != ""
    ensures EndsAtFirst(t[1..], part) && !Holds(t + part, 0, part)
    ensures (t + part)[1..] == t[1..] + part && (t + part)[..1] == t[..1]
  {
    var all := t + part;
    forall i | 0 <= i < |t[1..]| ensures !Holds(t[1..] + part, i, part) {
      assert !Holds(all, i + 1, part);
      assert i + |part| <= |t[1..] + part| ==> (t[1..] + part)[i..i + |part|] == all[i + 1..i + 1 + |part|];
    }
  }

  // ---- Line comments ----

  /** Inside a line comment everything is taken up to the next line feed. */
  lemma {:induction false} InsideLineComment(t: string, tail: string, sc: Scan)
    requires '\n' !in t && sc.mode == LineComment
    ensures Run(t + tail, sc) == Run(tail, sc.(current := sc.current + t))
    decreases |t|
  {
    hide Run;
    if t == "" {
      assert t + tail == tail && sc.current + t == sc.current;
    } else {
      var m := RunStep(t + tail, sc);
      assert (t + tail)[1..] == t[1..] + tail && (t + tail)[..1] == t[..1];
      assert sc.current + t[..1] + t[1..] == sc.current + t;
      InsideLineComment(t[1..], tail, sc.(current := sc.current + t[..1]));
    }
  }

  lemma LineCommentBegins(rest: string, sc: Scan)
    requires sc.mode == Normal
    ensures Run("--" + rest, sc) == Run(rest, sc.(current := sc.current + "--", mode := LineComment))
  {
    hide Run;
    var all := ['-', '-'] + rest;
    assert "--" + rest == all && all[2..] == rest;
    var m := RunStep(all, sc);
    assert all[..m.len] == "--";
  }

  /** A comment that is not ended yet is never cut, whatever it holds. */
  lemma OpenLineComment(t: string, sc: Scan)
    requires '\n' !in t && sc.mode == Normal
    ensures Run("--" + t, sc) == sc.(current := sc.current + ("--" + t), mode := LineComment)
  {
    hide Run;
    LineCommentBegins(t, sc);
    var inside := sc.(current := sc.current + "--", mode := LineComment);
    InsideLineComment(t, "", inside);
    assert t + "" == t;
    Associative(sc.current, "--", t);
    RunOfEmpty(inside.(current := inside.current + t));
  }

  /** A line comment ends at the first line feed and nowhere else. */
  lemma LineCommentIsOpaque(t: string, sc: Scan)
    requires '\n' !in t && sc.mode == Normal
    ensures Run("--" + t + "\n", sc) == sc.(current := sc.current + ("--" + t + "\n"))
  {
    hide Run;
    Associative("--", t, "\n");
    LineCommentBegins(t + "\n", sc);
    var inside := sc.(current := sc.current + "--", mode := LineComment);
    InsideLineComment(t, "\n", inside);
    var last := inside.(current := inside.current + t);
    var m := RunStep("\n", last);
    assert "\n"[m.len..] == "" && "\n"[..m.len] == "\n";
    Associative(sc.current, "--", t);
    Associative(sc.current, "--" + t, "\n");
    RunOfEmpty(sc.(current := sc.current + ("--" + t + "\n")));
  }

  // ---- Block comments ----

  lemma {:induction false} InsideBlockComment(t: string, sc: Scan)
    requires sc.mode == BlockComment
    requires EndsAtFirst(t, "*/")
    ensures Run(t + "*/", sc) == sc.(current := sc.current + (t + "*/"), mode := Normal)
    decreases |t|
  {
    hide Run;
    var all := t + "*/";
    var m := RunStep(all, sc);
    if t == "" {
      assert all == "*/" && m.len == 2 && all[2..] == "" && all[..2] == all;
      RunOfEmpty(Advance(sc, all[..m.len], m));
    } else {
      EndsAtFirstAfter(t, "*/");
      assert all[..2] == [all[0], all[1]];
      hide EndsAtFirst, Holds;
      InsideBlockComment(t[1..], sc.(current := sc.current + t[..1]));
      assert sc.current + t[..1] + (t[1..] + "*/") == sc.current + all;
    }
  }

  /** A block comment ends at the first end mark; block comments do not nest. */
  lemma BlockCommentIsOpaque(t: string, sc: Scan)
    requires sc.mode == Normal
    requires EndsAtFirst(t, "*/")
    ensures Run("/*" + (t + "*/"), sc) == sc.(current := sc.current + ("/*" + (t + "*/")))
  {
    hide Run;
    var all := ['/', '*'] + (t + "*/");
    assert "/*" + (t + "*/") == all && all[2..] == t + "*/";
    var m := RunStep(all, sc);
    assert all[..m.len] == "/*";
    InsideBlockComment(t, sc.(current := sc.current + "/*", mode := BlockComment));
    Associative(sc.current, "/*", t + "*/");
  }

  // ---- Dollar quotes ----

  /** Two dollar signs around a possibly empty name. */
  predicate IsDollarTag(tag: string) {
    && |tag| >= 2 && tag[0] == '$' && tag[|tag| - 1] == '$'
    && forall i :: 0 < i < |tag| - 1 ==>
         '0' <= tag[i] <= '9' || 'a' <= tag[i] <= 'z' || 'A' <= tag[i] <= 'Z' || tag[i] == '_'
  }

  lemma DollarTagIs(tag: string, rest: string)
    requires IsDollarTag(tag)
    ensures DollarTag(tag + rest) == Some(tag) && ValidMode(DollarQuote(tag))
  {
    var all := tag + rest;
    TagRunIs(all[1..], |tag| - 2);
    assert all[..|tag|] == tag;
  }

  lemma {:induction false} InsideDollarQuote(t: string, tag: string, sc: Scan)
    requires IsDollarTag(tag) && sc.mode == DollarQuote(tag)
    requires EndsAtFirst(t, tag)
    ensures Run(t + tag, sc) == sc.(current := sc.current + (t + tag), mode := Normal)
    decreases |t|
  {
    hide Run;
    DollarTagIs(tag, "");
    var all := t + tag;
    var m := RunStep(all, sc);
    if t == "" {
      assert all == tag && all[..|tag|] == tag && all[|tag|..] == "";
      RunOfEmpty(Advance(sc, all[..m.len], m));
    } else {
      EndsAtFirstAfter(t, tag);
      hide EndsAtFirst;
      InsideDollarQuote(t[1..], tag, sc.(current := sc.current + t[..1]));
      assert sc.current + t[..1] + (t[1..] + tag) == sc.current + all;
    }
  }

  /** A dollar-quoted text ends at the next occurrence of its own tag. */
  lemma DollarQuoteIsOpaque(tag: string, t: string, sc: Scan)
    requires IsDollarTag(tag) && sc.mode == Normal
    requires EndsAtFirst(t, tag)
    ensures Run(tag + (t + tag), sc) == sc.(current := sc.current + (tag + (t + tag)))
  {
    hide Run, DollarTag;
    var all := tag + (t + tag);
    DollarTagIs(tag, t + tag);
    var m := RunStep(all, sc);
    assert all[..|tag|] == tag && all[|tag|..] == t + tag;
    InsideDollarQuote(t, tag, sc.(current := sc.current + tag, mode := DollarQuote(tag)));
    Associative(sc.current, tag, t + tag);
  }

  // ---- Everything else ----

  /** A text in which no quote, comment, dollar quote or parenthesis begins. */
  predicate IsBland(t: string) {
    forall i :: 0 <= i < |t| ==> t[i] !in {'\'', '"', '$', '(', ')'} && !Holds(t, i, "--") && !Holds(t, i, "/*")
  }

  lemma BlandTail(t: string)
    requires IsBland(t) && t != ""
    ensures IsBland(t[1..])
  {
    forall i | 0 <= i < |t[1..]|
      ensures t[1..][i] !in {'\'', '"', '$', '(', ')'} && !Holds(t[1..], i, "--") && !Holds(t[1..], i, "/*")
    {
      assert !Holds(t, i + 1, "--") && !Holds(t, i + 1, "/*");
      assert i + 2 <= |t[1..]| ==> t[1..][i..i + 2] == t[i + 1..i + 3];
    }
  }

  lemma BlandMove(t: string, sc: Scan)
    requires IsBland(t) && t != "" && sc.mode == Normal
    ensures IsBland(t[1..])
    ensures Run(t, sc) == Run(t[1..], if t[0] == ';' && sc.depth == 0 then Scan(sc.pieces + [sc.current], "", Normal, 0)
                                      else sc.(current := sc.current + t[..1]))
  {
    BlandTail(t);
    BlandHead(t);
    MoveOfBland(t, sc.depth);
    hide Run, IsBland, NextMove;
    var m := RunStep(t, sc);
  }

  lemma BlandHead(t: string)
    requires IsBland(t) && t != ""
    ensures t[0] != '\'' && t[0] != '"' && t[0] != '$' && t[0] != '(' && t[0] != ')'
    ensures !Follows(t, '-', '-') && !Follows(t, '/', '*')
  {
    assert !Holds(t, 0, "--") && !Holds(t, 0, "/*");
    assert |t| > 1 ==> t[..2] == [t[0], t[1]];
  }

  lemma MoveOfBland(t: string, depth: int)
    requires t != "" && t[0] != '\'' && t[0] != '"' && t[0] != '$' && t[0] != '(' && t[0] != ')'
    requires !Follows(t, '-', '-') && !Follows(t, '/', '*')
    ensures NextMove(t, Normal, depth) == Move(1, Normal, 0, t[0] == ';' && depth == 0)
  {
  }

  /** The scan cuts such a text at its semicolons, at depth 0 and at no other. */
  lemma {:induction false} BlandTextIsCutAtDepthZero(t: string, sc: Scan)
    requires IsBland(t) && sc.mode == Normal
    ensures Run(t, sc) == sc.(current := sc.current + t) <==> ';' !in t || sc.depth != 0
    ensures ';' in t && sc.depth == 0 ==> |Run(t, sc).pieces| > |sc.pieces|
    ensures |Run(t, sc).pieces| >= |sc.pieces|
    decreases |t|
  {
    hide Run, IsBland, Holds;
    if t == "" {
      RunOfEmpty(sc);
      assert sc.current + t == sc.current;
    } else {
      BlandMove(t, sc);
      if t[0] == ';' && sc.depth == 0 {
        BlandTextIsCutAtDepthZero(t[1..], Scan(sc.pieces + [sc.current], "", Normal, 0));
      } else {
        BlandTextIsCutAtDepthZero(t[1..], sc.(current := sc.current + t[..1]));
        assert sc.current + t[..1] + t[1..] == sc.current + t;
      }
    }
  }

  lemma OneCharacter(c: char, sc: Scan)
    requires sc.mode == Normal && (c == '(' || c == ')')
    ensures Run([c], sc) == sc.(current := sc.current + [c], depth := sc.depth + if c == '(' then 1 else -1)
  {
    hide Run;
    var m := RunStep([c], sc);
    assert [c][..1] == [c] && [c][1..] == "";
    RunOfEmpty(Advance(sc, [c], m));
  }

  /** Parentheses keep such a text in one piece, semicolons included, unless they open at depth -1,
      behind a closing parenthesis too many. */
  lemma ParenthesesAreOpaque(t: string, sc: Scan)
    requires IsBland(t) && sc.mode == Normal
    ensures Run("(" + t + ")", sc) == sc.(current := sc.current + ("(" + t + ")")) <==> ';' !in t || sc.depth != -1
  {
    hide Run, IsBland;
    var inside := sc.(current := sc.current + "(", depth := sc.depth + 1);
    RunSplits("(" + t, ")", sc);
    RunSplits("(", t, sc);
    OneCharacter('(', sc);
    assert "(" == ['('] && ")" == [')'];
    BlandTextIsCutAtDepthZero(t, inside);
    BlandStaysNormal(t, inside);
    OneCharacter(')', Run(t, inside));
    Associative(sc.current, "(", t);
    Associative(sc.current, "(" + t, ")");
  }

  lemma {:induction false} BlandStaysNormal(t: string, sc: Scan)
    requires IsBland(t) && sc.mode == Normal
    ensures Run(t, sc).mode == Normal && Run(t, sc).depth == sc.depth
    decreases |t|
  {
    hide Run, IsBland, Holds;
    if t == "" {
      RunOfEmpty(sc);
    } else {
      BlandMove(t, sc);
      BlandStaysNormal(t[1..], if t[0] == ';' && sc.depth == 0 then Scan(sc.pieces + [sc.current], "", Normal, 0)
                               else sc.(current := sc.current + t[..1]));
    }
  }
}
