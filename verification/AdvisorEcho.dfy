/** The recommendations collected so far are sent along with every request. This module says when an
    advisor that sends one of them back unchanged has it recognized. */
module AdvisorEcho {
  import opened Text
  import opened Advisor
  import opened AdvisorResults

  /** What the advisor reads of a recommendation, sent back as it is. */
  function Echo(r: Recommendation): RawRecommendation {
    RawRecommendation(r.table, r.columns, Some(r.method_), Some(r.reason))
  }

  // ---- Lengths ----

  lemma {:induction false} ByteLenOfConcat(a: string, b: string)
    ensures ByteLen(a + b) == ByteLen(a) + ByteLen(b)
  {
    if b == "" {
      assert a + b == a;
    } else {
      var n := |b| - 1;
      assert (a + b)[..|a + b| - 1] == a + b[..n];
      ByteLenOfConcat(a, b[..n]);
    }
  }

  lemma {:induction false} ByteLenOfAscii(s: string)
    requires forall i :: 0 <= i < |s| ==> s[i] as int < 0x80
    ensures ByteLen(s) == |s|
  {
    if s != "" {
      ByteLenOfAscii(s[..|s| - 1]);
    }
  }

  lemma TrimIsShorter(s: string)
    ensures ByteLen(Trim(s)) <= ByteLen(s)
  {
    hide Trim, ByteLen;
    var left, right := TrimSplits(s);
    ByteLenOfConcat(left + Trim(s), right);
    ByteLenOfConcat(left, Trim(s));
  }

  // ---- Tables ----

  lemma {:induction false} SplitDotsHasNoDots(s: string)
    ensures Join(SplitDots(s), ".") == s
    ensures forall i :: 0 <= i < |SplitDots(s)| ==> '.' !in SplitDots(s)[i]
  {
    if s != "" {
      SplitDotsHasNoDots(s[1..]);
      var rest, parts := SplitDots(s[1..]), SplitDots(s);
      assert s == [s[0]] + s[1..];
      if s[0] == '.' {
        assert parts[1..] == rest;
      } else {
        assert parts[1..] == rest[1..];
        JoinPush(s[0], rest);
      }
    }
  }

  lemma JoinPush(c: char, parts: seq<string>)
    requires parts != []
    ensures Join([[c] + parts[0]] + parts[1..], ".") == [c] + Join(parts, ".")
  {
    var pushed := [[c] + parts[0]] + parts[1..];
    assert pushed[1..] == parts[1..];
    if |parts| > 1 {
      var first, rest := parts[0], Join(parts[1..], ".");
      assert Join(pushed, ".") == ([c] + first) + "." + rest && Join(parts, ".") == first + "." + rest;
      Associative([c], first, ".");
      Associative([c], first + ".", rest);
    }
  }

  lemma {:induction false} SplitDotsOfPart(part: string, rest: string)
    requires '.' !in part
    ensures SplitDots(part) == [part]
    ensures SplitDots(part + "." + rest) == [part] + SplitDots(rest)
  {
    if part == "" {
      assert part + "." + rest == "." + rest && ("." + rest)[1..] == rest;
    } else {
      var s := part + "." + rest;
      assert s[1..] == part[1..] + "." + rest && s[0] == part[0] != '.';
      SplitDotsOfPart(part[1..], rest);
      assert [part[0]] + part[1..] == part;
      assert ([part[1..]] + SplitDots(rest))[1..] == SplitDots(rest);
    }
  }

  ghost predicate TableParts(parts: seq<string>) {
    && parts != []
    && forall i :: 0 <= i < |parts| ==>
        parts[i] != "" && '.' !in parts[i] && IsTrimmed(parts[i]) && !HasControl(parts[i])
  }

  lemma FirstPart(parts: seq<string>)
    requires TableParts(parts)
    ensures parts[0] != "" && '.' !in parts[0] && (|parts| > 1 ==> TableParts(parts[1..]))
  {
    hide HasControl, IsTrimmed;
  }

  lemma JoinFirst(parts: seq<string>)
    requires |parts| > 1
    ensures Join(parts, ".") == parts[0] + "." + Join(parts[1..], ".")
  {
  }

  lemma {:induction false} SplitOfJoin(parts: seq<string>)
    requires TableParts(parts)
    ensures SplitDots(Join(parts, ".")) == parts
  {
    FirstPart(parts);
    hide TableParts;
    SplitDotsOfPart(parts[0], Join(parts[1..], "."));
    if |parts| == 1 {
      assert parts == [parts[0]];
    } else {
      SplitOfJoin(parts[1..]);
      JoinFirst(parts);
      hide Join, SplitDots;
      assert parts == [parts[0]] + parts[1..];
    }
  }

  lemma TrimmedConcat(a: string, b: string)
    requires a != "" && IsTrimmed(a) && b != "" && IsTrimmed(b)
    ensures a + "." + b != "" && IsTrimmed(a + "." + b)
  {
    var s := a + "." + b;
    assert s[0] == a[0] && s[|s| - 1] == b[|b| - 1];
  }

  lemma {:induction false} JoinIsTrimmed(parts: seq<string>)
    requires TableParts(parts)
    ensures Join(parts, ".") != "" && IsTrimmed(Join(parts, "."))
  {
    FirstPart(parts);
    assert IsTrimmed(parts[0]);
    hide TableParts, IsTrimmed;
    if |parts| > 1 {
      JoinIsTrimmed(parts[1..]);
      JoinFirst(parts);
      hide Join;
      TrimmedConcat(parts[0], Join(parts[1..], "."));
    }
  }

  lemma {:induction false} TrimmedJoinIsShorter(parts: seq<string>)
    ensures ByteLen(Join(TrimAll(parts), ".")) <= ByteLen(Join(parts, "."))
  {
    hide Trim, ByteLen;
    if parts != [] {
      var trimmed := TrimAll(parts);
      TrimIsShorter(parts[0]);
      if |parts| > 1 {
        assert trimmed[1..] == TrimAll(parts[1..]);
        TrimmedJoinIsShorter(parts[1..]);
        ByteLenOfConcat(parts[0] + ".", Join(parts[1..], "."));
        ByteLenOfConcat(parts[0], ".");
        ByteLenOfConcat(trimmed[0] + ".", Join(trimmed[1..], "."));
        ByteLenOfConcat(trimmed[0], ".");
      }
    }
  }

  lemma PartsOfTable(raw: string)
    requires NormalTable(raw).Some?
    ensures TableParts(TrimAll(SplitDots(Trim(raw))))
    ensures ByteLen(NormalTable(raw).value) <= MAX_TABLE_NAME_BYTES
  {
    hide ByteLen, HasControl, SplitDots, Trim;
    var table := Trim(raw);
    SplitDotsHasNoDots(table);
    TrimmedJoinIsShorter(SplitDots(table));
    var parts := TrimAll(SplitDots(table));
    forall i | 0 <= i < |parts| ensures IsTrimmed(parts[i]) && '.' !in parts[i] {
      var left, right := TrimSplits(SplitDots(table)[i]);
    }
  }

  lemma PartsStayTrimmed(parts: seq<string>)
    requires TableParts(parts)
    ensures TrimAll(parts) == parts && Trim(Join(parts, ".")) == Join(parts, ".") != ""
  {
    JoinIsTrimmed(parts);
    hide Join, SplitDots, HasControl;
    TrimOfTrimmed(Join(parts, "."));
    forall i | 0 <= i < |parts| ensures Trim(parts[i]) == parts[i] {
      TrimOfTrimmed(parts[i]);
    }
  }

  lemma NormalTableIsStable(raw: string)
    requires NormalTable(raw).Some?
    ensures NormalTable(NormalTable(raw).value) == NormalTable(raw)
  {
    PartsOfTable(raw);
    var parts := TrimAll(SplitDots(Trim(raw)));
    SplitOfJoin(parts);
    PartsStayTrimmed(parts);
    hide ByteLen, HasControl, SplitDots, Join, Trim, TrimAll;
  }

  // ---- Columns ----

  lemma {:induction false} TrimQuotesIsStable(s: string)
    ensures TrimQuotes(TrimQuotes(s)) == TrimQuotes(s) && |TrimQuotes(s)| <= |s|
    decreases |s|
  {
    if s != "" && s[0] == '"' {
      TrimQuotesIsStable(s[1..]);
    } else if s != "" && s[|s| - 1] == '"' {
      TrimQuotesIsStable(s[..|s| - 1]);
    }
  }

  /** Cleaning a cleaned column changes it exactly if whitespace stood inside its quotes. */
  lemma CleanColumnIsStable(raw: string)
    ensures CleanColumn(CleanColumn(raw)) == CleanColumn(raw) <==> IsTrimmed(CleanColumn(raw))
  {
    var column := CleanColumn(raw);
    TrimQuotesIsStable(Trim(raw));
    if IsTrimmed(column) {
      TrimOfTrimmed(column);
    } else {
      TrimQuotesIsStable(Trim(column));
      var left, right := TrimSplits(column);
      hide TrimQuotes, Trim;
      assert |Trim(column)| == |column| ==> left == "" == right && Trim(column) == column;
    }
  }

  lemma {:induction false} KeepFirstIsShorter(columns: seq<string>)
    ensures |KeepFirst(columns)| <= |columns|
    ensures columns != [] ==> KeepFirst(columns) != []
    ensures forall c :: c in KeepFirst(columns) ==> c in columns
  {
    if columns != [] {
      var n := |columns| - 1;
      KeepFirstIsShorter(columns[..n]);
      KeepFirstAt(columns, n);
      assert columns[..n + 1] == columns;
    }
  }

  lemma KeptExtends(kept: seq<string>, column: string)
    requires KeepFirst(kept) == kept && ToAsciiLowercase(column) !in LowerCased(kept)
    ensures KeepFirst(kept + [column]) == kept + [column]
    ensures LowerCased(kept + [column]) == LowerCased(kept) + {ToAsciiLowercase(column)}
  {
    hide ToAsciiLowercase, KeepFirst, LowerCased;
    var all := kept + [column];
    KeepFirstAt(all, |kept|);
    assert all[..|kept|] == kept && all[..|kept| + 1] == all;
  }

  /** Columns that are distinct up to case are all kept. */
  lemma {:induction false} KeepFirstOfKept(columns: seq<string>)
    ensures KeepFirst(KeepFirst(columns)) == KeepFirst(columns)
    ensures LowerCased(KeepFirst(columns)) == LowerCased(columns)
  {
    if columns == [] {
    } else {
      hide ToAsciiLowercase, KeepFirst, LowerCased;
      var n := |columns| - 1;
      KeepFirstOfKept(columns[..n]);
      KeepFirstAt(columns, n);
      assert columns[..n + 1] == columns;
      if ToAsciiLowercase(columns[n]) !in LowerCased(columns[..n]) {
        KeptExtends(KeepFirst(columns[..n]), columns[n]);
      } else {
        assert KeepFirst(columns) == KeepFirst(columns[..n]);
      }
    }
  }

  lemma NormalColumnsAgain(raws: seq<string>)
    requires NormalColumns(raws).Some?
    ensures NormalColumns(NormalColumns(raws).value) == NormalColumns(raws)
       <==> forall i :: 0 <= i < |NormalColumns(raws).value| ==> IsTrimmed(NormalColumns(raws).value[i])
  {
    hide CleanColumn, HasControl, KeepFirst, IsTrimmed;
    var cleaned := Cleaned(raws);
    var columns := KeepFirst(cleaned);
    KeepFirstIsShorter(cleaned);
    KeepFirstOfKept(cleaned);
    forall i | 0 <= i < |columns|
      ensures columns[i] != "" && !HasControl(columns[i])
          && (CleanColumn(columns[i]) == columns[i] <==> IsTrimmed(columns[i]))
    {
      assert columns[i] in cleaned;
      var k :| 0 <= k < |cleaned| && cleaned[k] == columns[i];
      CleanColumnIsStable(raws[k]);
      assert IsValidColumn(raws[k]);
    }
    if forall i :: 0 <= i < |columns| ==> IsTrimmed(columns[i]) {
      assert Cleaned(columns) == columns;
    }
    KeepFirstOfWhole(Cleaned(columns));
  }

  /** If as many columns are kept as were given, they are the given ones. */
  lemma {:induction false} KeepFirstOfWhole(columns: seq<string>)
    ensures |KeepFirst(columns)| == |columns| ==> KeepFirst(columns) == columns
  {
    if columns != [] {
      var n := |columns| - 1;
      KeepFirstOfWhole(columns[..n]);
      KeepFirstIsShorter(columns[..n]);
      KeepFirstAt(columns, n);
      assert columns[..n + 1] == columns;
    }
  }

  // ---- Methods and reasons ----

  lemma NormalMethodIsStable(raw: Option<string>)
    requires NormalMethod(raw).Some?
    ensures NormalMethod(Some(NormalMethod(raw).value)) == NormalMethod(raw)
  {
    hide ByteLen;
    var method_ := NormalMethod(raw).value;
    assert IsTrimmed(method_);
    TrimOfTrimmed(method_);
    assert ToAsciiLowercase(method_) == method_;
  }

  lemma DefaultReasonIsShort()
    ensures ByteLen(DEFAULT_REASON) <= MAX_REASON_BYTES
  {
    hide ByteLen;
    ByteLenOfAscii(DEFAULT_REASON);
  }

  lemma BoundedReasonIsAccepted(reason: string)
    requires ByteLen(reason) <= MAX_REASON_BYTES
    ensures NormalReason(Some(reason)).Some?
  {
    hide ByteLen, Trim;
    TrimIsShorter(reason);
    DefaultReasonIsShort();
  }

  // ---- What normalization produces ----

  ghost predicate NormalColumn(column: string) {
    column != "" && !HasControl(column) && TrimQuotes(column) == column
  }

  /** Every part of the table is a trimmed name, the columns are distinct up to ASCII case and carry no
      quotes around them, the method is a lower-case name, and everything is within its limits. */
  ghost predicate IsNormal(r: Recommendation) {
    && TableParts(SplitDots(r.table)) && ByteLen(r.table) <= MAX_TABLE_NAME_BYTES
    && 1 <= |r.columns| <= MAX_INDEX_COLUMNS && Distinct(Lowered(r.columns))
    && (forall i :: 0 <= i < |r.columns| ==> NormalColumn(r.columns[i]))
    && IsValidIndexMethod(r.method_) && ByteLen(r.method_) <= MAX_METHOD_BYTES
    && r.reason != "" && IsTrimmed(r.reason) && ByteLen(r.reason) <= MAX_REASON_BYTES
  }

  lemma NormalTableParts(raw: string)
    requires NormalTable(raw).Some?
    ensures TableParts(SplitDots(NormalTable(raw).value)) && ByteLen(NormalTable(raw).value) <= MAX_TABLE_NAME_BYTES
  {
    hide ByteLen, Trim;
    PartsOfTable(raw);
    SplitOfJoin(TrimAll(SplitDots(Trim(raw))));
  }

  lemma KeptAreDistinct(columns: seq<string>)
    ensures Distinct(Lowered(KeepFirst(columns)))
  {
    hide KeepFirst;
    KeptColumns(columns);
    FirstSeenIsDistinct(Lowered(columns));
  }

  lemma FirstSeenIsDistinct<T>(items: seq<T>)
    ensures Distinct(FirstSeen(items))
  {
    FirstSeenIsFirstOccurrences(items);
    FirstSeenKeepsAll(items);
    hide FirstSeen, FirstAt;
  }

  lemma NormalColumnsAre(raws: seq<string>)
    requires NormalColumns(raws).Some?
    ensures var columns := NormalColumns(raws).value;
            && 1 <= |columns| <= MAX_INDEX_COLUMNS && Distinct(Lowered(columns))
            && forall i :: 0 <= i < |columns| ==> NormalColumn(columns[i])
  {
    hide HasControl, KeepFirst, Lowered, TrimQuotes;
    var cleaned := Cleaned(raws);
    var columns := KeepFirst(cleaned);
    KeepFirstIsShorter(cleaned);
    KeptAreDistinct(cleaned);
    forall i | 0 <= i < |columns| ensures NormalColumn(columns[i]) {
      assert columns[i] in cleaned;
      var k :| 0 <= k < |cleaned| && cleaned[k] == columns[i];
      assert IsValidColumn(raws[k]);
      TrimQuotesIsStable(Trim(raws[k]));
    }
  }

  lemma NormalReasonIs(raw: Option<string>)
    requires NormalReason(raw).Some?
    ensures var reason := NormalReason(raw).value;
            reason != "" && IsTrimmed(reason) && ByteLen(reason) <= MAX_REASON_BYTES
  {
    hide ByteLen;
    if raw.Some? {
      var left, right := TrimSplits(raw.value);
    }
  }

  /** What is accepted comes out normal. */
  lemma NormalIsNormal(raw: RawRecommendation)
    requires Normal(raw).Some?
    ensures IsNormal(Normal(raw).value)
  {
    hide NormalTable, NormalColumns, NormalReason, ByteLen, TableParts, Lowered;
    NormalTableParts(raw.table);
    NormalColumnsAre(raw.columns);
    NormalReasonIs(raw.reason);
  }

  lemma LastOfDistinct<T>(items: seq<T>, n: nat)
    requires Distinct(items) && n == |items| - 1
    ensures items[n] !in items[..n] && Distinct(items[..n]) && items == items[..n] + [items[n]]
  {
  }

  lemma FirstSeenStep<T>(items: seq<T>, n: nat)
    requires n == |items| - 1 && items[n] !in items[..n]
    ensures FirstSeen(items) == FirstSeen(items[..n]) + [items[n]]
  {
  }

  lemma {:induction false} FirstSeenOfDistinct<T>(items: seq<T>)
    requires Distinct(items)
    ensures FirstSeen(items) == items
  {
    if items != [] {
      var n := |items| - 1;
      LastOfDistinct(items, n);
      FirstSeenStep(items, n);
      hide FirstSeen, Distinct;
      FirstSeenOfDistinct(items[..n]);
    }
  }

  lemma KeepFirstOfDistinct(columns: seq<string>)
    requires Distinct(Lowered(columns))
    ensures KeepFirst(columns) == columns
  {
    hide KeepFirst, Lowered, FirstSeen, Distinct;
    KeptColumns(columns);
    FirstSeenOfDistinct(Lowered(columns));
    KeepFirstOfWhole(columns);
  }

  lemma TableOfItsParts(table: string)
    requires TableParts(SplitDots(table)) && ByteLen(table) <= MAX_TABLE_NAME_BYTES
    ensures NormalTable(table) == Some(table)
  {
    SplitDotsHasNoDots(table);
    PartsStayTrimmed(SplitDots(table));
    hide ByteLen, SplitDots, Trim, HasControl, Join, TrimAll;
  }

  lemma ColumnsOfThemselves(columns: seq<string>)
    requires 1 <= |columns| <= MAX_INDEX_COLUMNS && Distinct(Lowered(columns))
    requires forall i :: 0 <= i < |columns| ==> NormalColumn(columns[i]) && IsTrimmed(columns[i])
    ensures NormalColumns(columns) == Some(columns)
  {
    hide HasControl, KeepFirst, Lowered, TrimQuotes;
    KeepFirstOfDistinct(columns);
    forall i | 0 <= i < |columns| ensures CleanColumn(columns[i]) == columns[i] {
      TrimOfTrimmed(columns[i]);
    }
    assert Cleaned(columns) == columns;
  }

  /** The normal recommendations without whitespace around a column are exactly those that come out of
      normalization as they went in. */
  lemma FixedPointsAreNormal(r: Recommendation)
    ensures Normal(Echo(r)) == Some(r)
       <==> IsNormal(r) && forall i :: 0 <= i < |r.columns| ==> IsTrimmed(r.columns[i])
  {
    hide NormalTable, NormalColumns, ByteLen, TableParts, Lowered, IsTrimmed;
    if Normal(Echo(r)) == Some(r) {
      NormalIsNormal(Echo(r));
      NormalColumnsAgain(r.columns);
    }
    if IsNormal(r) && forall i :: 0 <= i < |r.columns| ==> IsTrimmed(r.columns[i]) {
      TableOfItsParts(r.table);
      ColumnsOfThemselves(r.columns);
      MethodOfItself(r.method_);
      TrimOfTrimmed(r.reason);
    }
  }

  lemma MethodOfItself(method_: string)
    requires IsValidIndexMethod(method_) && ByteLen(method_) <= MAX_METHOD_BYTES
    ensures NormalMethod(Some(method_)) == Some(method_)
  {
    hide ByteLen;
    assert IsTrimmed(method_);
    TrimOfTrimmed(method_);
    assert ToAsciiLowercase(method_) == method_;
  }

  /** A recommendation that was accepted, with whatever reasons have been merged into it, is accepted
      again under the same key when it is sent back unchanged, exactly if none of its columns begins
      or ends with whitespace. Such a column comes from whitespace inside quotes. */
  lemma EchoIsRecognized(raw: RawRecommendation, reason: string)
    requires Normal(raw).Some? && ByteLen(reason) <= MAX_REASON_BYTES
    ensures var r := Normal(raw).value.(reason := reason);
            (Normal(Echo(r)).Some? && KeyOf(Normal(Echo(r)).value) == KeyOf(r))
            <==> forall i :: 0 <= i < |r.columns| ==> IsTrimmed(r.columns[i])
  {
    hide NormalTable, NormalColumns, NormalMethod, NormalReason, ByteLen, IsTrimmed;
    NormalTableIsStable(raw.table);
    NormalColumnsAgain(raw.columns);
    NormalMethodIsStable(raw.method_);
    BoundedReasonIsAccepted(reason);
  }

  // ---- What normalization makes of the fields ----

  /** Method and reason are the trimmed ones, the method in lower case, or the defaults where they are
      missing or blank. */
  lemma NormalFields(raw: RawRecommendation)
    requires Normal(raw).Some?
    ensures var r := Normal(raw).value;
            && r.method_ == (if raw.method_.Some? && Trim(raw.method_.value) != ""
                             then ToAsciiLowercase(Trim(raw.method_.value)) else "btree")
            && r.reason == (if raw.reason.Some? && Trim(raw.reason.value) != "" then Trim(raw.reason.value)
                            else "external advisor recommendation")
  {
    hide NormalTable, NormalColumns, Trim, ByteLen;
  }

  predicate IsControlCode(c: char) {
    c as int <= 0x1F || 0x7F <= c as int <= 0x9F
  }

  /** A column loses the blanks around it and then every double quote at either end, and nothing else. */
  lemma CleanColumnSplits(raw: string) returns (left: string, right: string)
    ensures Trim(raw) == left + CleanColumn(raw) + right
    ensures (forall c :: c in left ==> c == '"') && (forall c :: c in right ==> c == '"')
    ensures CleanColumn(raw) == "" || (CleanColumn(raw)[0] != '"' && CleanColumn(raw)[|CleanColumn(raw)| - 1] != '"')
  {
    left, right := TrimQuotesSplits(Trim(raw));
  }

  lemma {:induction false} TrimQuotesSplits(s: string) returns (left: string, right: string)
    ensures s == left + TrimQuotes(s) + right
    ensures (forall c :: c in left ==> c == '"') && (forall c :: c in right ==> c == '"')
    ensures TrimQuotes(s) == "" || (TrimQuotes(s)[0] != '"' && TrimQuotes(s)[|TrimQuotes(s)| - 1] != '"')
  {
    if s != "" && s[0] == '"' {
      left, right := TrimQuotesSplits(s[1..]);
      assert s == [s[0]] + s[1..];
      left := [s[0]] + left;
    } else if s != "" && s[|s| - 1] == '"' {
      var n := |s| - 1;
      left, right := TrimQuotesSplits(s[..n]);
      assert s == s[..n] + [s[n]];
      right := right + [s[n]];
    } else {
      left, right := "", "";
    }
  }

  ghost predicate TableIsAccepted(raw: string) {
    && Trim(raw) != "" && ByteLen(Trim(raw)) <= 256
    && forall part :: part in SplitDots(Trim(raw)) ==>
         Trim(part) != "" && forall c :: c in Trim(part) ==> !IsControlCode(c)
  }

  ghost predicate ColumnsAreAccepted(raws: seq<string>) {
    && 1 <= |raws| <= 16
    && forall raw :: raw in raws ==> CleanColumn(raw) != "" && forall c :: c in CleanColumn(raw) ==> !IsControlCode(c)
  }

  ghost predicate MethodIsAccepted(raw: Option<string>) {
    raw.Some? && Trim(raw.value) != "" ==>
      var name := ToAsciiLowercase(Trim(raw.value));
      && ByteLen(name) <= 64 && ('a' <= name[0] <= 'z' || name[0] == '_')
      && forall c :: c in name ==> 'a' <= c <= 'z' || '0' <= c <= '9' || c == '_'
  }

  lemma TableExactly(raw: string)
    ensures NormalTable(raw).Some? <==> TableIsAccepted(raw)
  {
    hide Trim, ByteLen;
    var split := SplitDots(Trim(raw));
    var parts := TrimAll(split);
    if i: nat :| i < |parts| && (parts[i] == "" || HasControl(parts[i])) {
      assert split[i] in split && parts[i] == Trim(split[i]);
      if HasControl(parts[i]) {
        var k :| 0 <= k < |parts[i]| && IsControl(parts[i][k]);
        assert parts[i][k] in Trim(split[i]);
      }
    } else {
      forall part | part in split
        ensures Trim(part) != "" && forall c :: c in Trim(part) ==> !IsControlCode(c)
      {
        var i :| 0 <= i < |split| && split[i] == part;
        assert parts[i] == Trim(part);
        assert parts[i] != "" && !HasControl(parts[i]);
      }
    }
  }

  lemma ColumnsExactly(raws: seq<string>)
    ensures NormalColumns(raws).Some? <==> ColumnsAreAccepted(raws)
  {
    hide CleanColumn, KeepFirst, Cleaned;
    forall i | 0 <= i < |raws|
      ensures IsValidColumn(raws[i]) <==>
                CleanColumn(raws[i]) != "" && forall c :: c in CleanColumn(raws[i]) ==> !IsControlCode(c)
    {
      var column := CleanColumn(raws[i]);
      assert forall k :: 0 <= k < |column| ==> column[k] in column;
    }
  }

  lemma DefaultMethodIsValid()
    ensures IsValidIndexMethod("btree") && ByteLen("btree") <= 64 && ToAsciiLowercase("btree") == "btree"
  {
    assert forall i :: 0 <= i < |"btree"| ==> 'a' <= "btree"[i] <= 'z';
    ByteLenOfLower("btree");
  }

  lemma {:induction false} ByteLenOfLower(s: string)
    requires forall i :: 0 <= i < |s| ==> s[i] as int < 0x80
    ensures ByteLen(s) == |s|
  {
    if s != "" {
      ByteLenOfLower(s[..|s| - 1]);
    }
  }

  lemma MethodExactly(raw: Option<string>)
    ensures NormalMethod(raw).Some? <==> MethodIsAccepted(raw)
  {
    DefaultMethodIsValid();
    hide Trim, ByteLen, ToAsciiLowercase;
    if raw.Some? && Trim(raw.value) != "" {
      var name := ToAsciiLowercase(Trim(raw.value));
      assert forall k :: 0 <= k < |name| ==> name[k] in name;
    }
  }

  lemma DefaultReasonFits()
    ensures ByteLen("external advisor recommendation") <= 1024
  {
    ByteLenOfLower("external advisor recommendation");
  }

  /** A recommendation is accepted exactly if table, columns, method and reason are, each by itself. */
  lemma AcceptedExactly(raw: RawRecommendation)
    ensures Normal(raw).Some? <==>
              && TableIsAccepted(raw.table) && ColumnsAreAccepted(raw.columns) && MethodIsAccepted(raw.method_)
              && (raw.reason.Some? && Trim(raw.reason.value) != "" ==> ByteLen(Trim(raw.reason.value)) <= 1024)
  {
    TableExactly(raw.table);
    ColumnsExactly(raw.columns);
    MethodExactly(raw.method_);
    DefaultReasonFits();
    hide NormalTable, NormalColumns, NormalMethod, TableIsAccepted, ColumnsAreAccepted, MethodIsAccepted, Trim, ByteLen;
  }
}
