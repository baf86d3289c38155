/** Output column names of src/db.rs, and the cells that travel through name-keyed row maps to the
    tuples of src/tools.rs and src/tools/query_surface.rs. */
module OutputNames {
  import opened Text

  const MARKER: string := "__dup"

  function Alias(raw: string, n: nat): string {
    raw + MARKER + Decimal(n)
  }

  lemma AliasText(raw: string)
    ensures Alias(raw, 2) == raw + "__dup2" && Alias(raw, 13) == raw + "__dup13"
  {
  }

  lemma AliasInjective(raw: string, m: nat, n: nat)
    requires Alias(raw, m) == Alias(raw, n)
    ensures m == n
  {
    assert Decimal(m) == Alias(raw, m)[|raw + MARKER|..] == Alias(raw, n)[|raw + MARKER|..] == Decimal(n);
    DecimalInjective(m, n);
  }

  lemma AliasIsLonger(raw: string, n: nat)
    ensures |Alias(raw, n)| > |raw|
  {
  }

  ghost predicate FirstFreeAlias(raw: string, used: seq<string>, out: string, k: nat) {
    && k >= 2 && out == Alias(raw, k) && out !in used
    && forall j: nat :: 2 <= j < k ==> Alias(raw, j) in used
  }

  /** The name a column gets after the names in `used`: its own if that is free, otherwise the alias
      with the least free number from 2 on. */
  ghost predicate NameFor(raw: string, used: seq<string>, out: string) {
    if raw !in used then out == raw else exists k: nat :: FirstFreeAlias(raw, used, out, k)
  }

  ghost predicate Deduped(names: seq<string>, out: seq<string>) {
    |out| == |names| && forall i :: 0 <= i < |names| ==> NameFor(names[i], out[..i], out[i])
  }

  /** The number that was given out last for a raw name: all smaller aliases are in use. */
  ghost predicate CountsUpTo(raw: string, out: seq<string>, count: nat) {
    count >= 1 && raw in out && forall j: nat :: 2 <= j <= count ==> Alias(raw, j) in out
  }

  /** The counters only save the search from the beginning. */
  method DedupeOutputNames(names: seq<string>) returns (out: seq<string>)
    ensures Deduped(names, out)
  {
    hide Alias, Deduped, NameFor;
    var used: set<string> := {};
    var duplicateCounts: map<string, nat> := map[];
    out := [];
    NothingDeduped(names);
    for i := 0 to |names|
      invariant |out| == i && Deduped(names[..i], out)
      invariant forall s :: s in used <==> s in out
      invariant forall raw :: raw in duplicateCounts ==> CountsUpTo(raw, out, duplicateCounts[raw])
    {
      var raw := names[i];
      var seen := if raw in duplicateCounts then duplicateCounts[raw] + 1 else 1;
      var candidate := if seen == 1 then raw else Alias(raw, seen);
      ghost var rest := used;
      while candidate in used
        invariant seen >= 1 && candidate == if seen == 1 then raw else Alias(raw, seen)
        invariant seen > 1 ==> raw in out
        invariant forall j: nat :: 2 <= j < seen ==> Alias(raw, j) in out
        invariant candidate in used ==> candidate in rest
        invariant forall j: nat :: j > seen && Alias(raw, j) in used ==> Alias(raw, j) in rest
        decreases rest
      {
        AliasesDiffer(raw, seen, candidate);
        rest := rest - {candidate};
        seen := seen + 1;
        candidate := Alias(raw, seen);
      }
      used := used + {candidate};
      ChosenName(raw, out, seen, candidate);
      DedupedExtends(names, out, candidate);
      CountsGrow(duplicateCounts, raw, seen, out, candidate);
      out := out + [candidate];
      duplicateCounts := duplicateCounts[raw := seen];
    }
    assert names[..|names|] == names;
  }

  lemma NothingDeduped(names: seq<string>)
    ensures Deduped(names[..0], [])
  {
  }

  lemma DedupedExtends(names: seq<string>, out: seq<string>, candidate: string)
    requires |out| < |names| && Deduped(names[..|out|], out) && NameFor(names[|out|], out, candidate)
    ensures Deduped(names[..|out| + 1], out + [candidate])
  {
    hide NameFor;
    var all := out + [candidate];
    forall i | 0 <= i < |all|
      ensures NameFor(names[i], all[..i], all[i])
    {
      assert all[..i] == out[..i];
      assert i < |out| ==> names[..|out|][i] == names[i];
      assert out[..|out|] == out;
    }
  }

  lemma AliasesDiffer(raw: string, seen: nat, candidate: string)
    requires candidate == if seen == 1 then raw else Alias(raw, seen)
    ensures forall j: nat :: j > seen ==> Alias(raw, j) != candidate
  {
    forall j: nat | j > seen
      ensures Alias(raw, j) != candidate
    {
      AliasIsLonger(raw, j);
      if seen != 1 && Alias(raw, j) == candidate {
        AliasInjective(raw, j, seen);
      }
    }
  }

  lemma ChosenName(raw: string, out: seq<string>, seen: nat, candidate: string)
    requires seen >= 1 && candidate == (if seen == 1 then raw else Alias(raw, seen)) && candidate !in out
    requires seen > 1 ==> raw in out
    requires forall j: nat :: 2 <= j < seen ==> Alias(raw, j) in out
    ensures NameFor(raw, out, candidate)
    ensures CountsUpTo(raw, out + [candidate], seen)
  {
    if seen > 1 {
      assert FirstFreeAlias(raw, out, candidate, seen);
    }
  }

  lemma CountsGrow(counts: map<string, nat>, raw: string, seen: nat, out: seq<string>, candidate: string)
    requires forall r :: r in counts ==> CountsUpTo(r, out, counts[r])
    requires CountsUpTo(raw, out + [candidate], seen)
    ensures var grown := counts[raw := seen]; forall r :: r in grown ==> CountsUpTo(r, out + [candidate], grown[r])
  {
  }

  lemma NameForIsFresh(raw: string, used: seq<string>, out: string)
    requires NameFor(raw, used, out)
    ensures out !in used && (raw !in used ==> out == raw)
  {
  }

  lemma NameForIsUnique(raw: string, used: seq<string>, a: string, b: string)
    requires NameFor(raw, used, a) && NameFor(raw, used, b)
    ensures a == b
  {
  }

  /** Every column gets a name of its own, the names are determined, and they are the given ones
      exactly if those were distinct already. */
  lemma DedupedNames(names: seq<string>, out: seq<string>)
    requires Deduped(names, out)
    ensures Distinct(out)
    ensures forall other :: Deduped(names, other) ==> other == out
    ensures out == names <==> Distinct(names)
  {
    hide NameFor;
    forall i, j | 0 <= i < j < |out|
      ensures out[i] != out[j]
    {
      NameForIsFresh(names[j], out[..j], out[j]);
      assert out[..j][i] == out[i];
    }
    forall other | Deduped(names, other)
      ensures other == out
    {
      DedupedIsUnique(names, out, other, |names|);
      assert out[..|names|] == out && other[..|names|] == other;
    }
    if Distinct(names) {
      DistinctNamesStay(names, out, |names|);
      assert out[..|names|] == out && names[..|names|] == names;
    }
  }

  lemma {:induction false} DedupedIsUnique(names: seq<string>, out: seq<string>, other: seq<string>, n: nat)
    requires Deduped(names, out) && Deduped(names, other) && n <= |names|
    ensures out[..n] == other[..n]
  {
    hide NameFor;
    if n > 0 {
      DedupedIsUnique(names, out, other, n - 1);
      NameForIsUnique(names[n - 1], out[..n - 1], out[n - 1], other[n - 1]);
      assert out[..n] == out[..n - 1] + [out[n - 1]] && other[..n] == other[..n - 1] + [other[n - 1]];
    }
  }

  lemma {:induction false} DistinctNamesStay(names: seq<string>, out: seq<string>, n: nat)
    requires Deduped(names, out) && Distinct(names) && n <= |names|
    ensures out[..n] == names[..n]
  {
    hide NameFor;
    if n > 0 {
      DistinctNamesStay(names, out, n - 1);
      assert names[n - 1] !in names[..n - 1];
      NameForIsFresh(names[n - 1], out[..n - 1], out[n - 1]);
      assert out[..n] == out[..n - 1] + [out[n - 1]] && names[..n] == names[..n - 1] + [names[n - 1]];
    }
  }

  // ---- Rows ----

  /** The JSON value of cell `i`: the parsed text, or null for a missing or NULL cell. */
  function CellValue<V>(cells: seq<Option<string>>, i: nat, parse: string -> V, null_: V): V {
    if i < |cells| && cells[i].Some? then parse(cells[i].value) else null_
  }

  function CellValues<V>(cells: seq<Option<string>>, n: nat, parse: string -> V, null_: V): (r: seq<V>)
    ensures |r| == n
  {
    seq(n, i requires 0 <= i < n => CellValue(cells, i, parse, null_))
  }

  /** Values keyed by name; for a repeated name the last one stays. */
  function RowMap<V>(values: seq<V>, columns: seq<string>): map<string, V>
    requires |values| == |columns|
  {
    if columns == [] then map[]
    else
      var n := |columns| - 1;
      RowMap(values[..n], columns[..n])[columns[n] := values[n]]
  }

  method RowToJsonMap<V>(cells: seq<Option<string>>, columns: seq<string>, parse: string -> V, null_: V)
    returns (row: map<string, V>)
    ensures row == RowMap(CellValues(cells, |columns|, parse, null_), columns)
    ensures forall name :: name in row <==> name in columns
    ensures forall i :: 0 <= i < |columns| && columns[i] !in columns[i + 1..] ==>
              row[columns[i]] == if i < |cells| && cells[i].Some? then parse(cells[i].value) else null_
  {
    row := map[];
    ghost var values := CellValues(cells, |columns|, parse, null_);
    for i := 0 to |columns|
      invariant row == RowMap(values[..i], columns[..i])
    {
      assert values[..i + 1][..i] == values[..i] && columns[..i + 1][..i] == columns[..i];
      row := row[columns[i] := CellValue(cells, i, parse, null_)];
    }
    assert values[..|columns|] == values && columns[..|columns|] == columns;
    hide RowMap;
    LastValueStays(values, columns);
  }

  /** The map holds exactly the names, and for each the value at its last position. */
  lemma {:induction false} LastValueStays<V>(values: seq<V>, columns: seq<string>)
    requires |values| == |columns|
    ensures forall name :: name in RowMap(values, columns) <==> name in columns
    ensures forall i :: 0 <= i < |columns| && columns[i] !in columns[i + 1..] ==>
        RowMap(values, columns)[columns[i]] == values[i]
  {
    if columns != [] {
      var n := |columns| - 1;
      var front := columns[..n];
      LastValueStays(values[..n], front);
      assert columns == front + [columns[n]];
      forall i | 0 <= i < |columns| && columns[i] !in columns[i + 1..]
        ensures RowMap(values, columns)[columns[i]] == values[i]
      {
        if i < n {
          assert columns[i + 1..] == front[i + 1..] + [columns[n]];
          assert front[i] == columns[i];
        }
      }
    }
  }

  function ReadTuple<V>(row: map<string, V>, columns: seq<string>, null_: V): (r: seq<V>)
    ensures |r| == |columns|
  {
    seq(|columns|, i requires 0 <= i < |columns| => if columns[i] in row then row[columns[i]] else null_)
  }

  function RowsToTupleRows<V>(rows: seq<map<string, V>>, columns: seq<string>, null_: V): seq<seq<V>> {
    seq(|rows|, i requires 0 <= i < |rows| => ReadTuple(rows[i], columns, null_))
  }

  /** Reading while removing: a name that is read twice yields null the second time. */
  function TakeTuple<V>(row: map<string, V>, columns: seq<string>, null_: V): (r: seq<V>)
    ensures |r| == |columns|
  {
    if columns == [] then []
    else [if columns[0] in row then row[columns[0]] else null_] + TakeTuple(row - {columns[0]}, columns[1..], null_)
  }

  method TuplePayload<V>(rows: seq<map<string, V>>, columns: seq<string>, null_: V) returns (tuples: seq<seq<V>>)
    ensures |tuples| == |rows|
    ensures forall i :: 0 <= i < |rows| ==> tuples[i] == TakeTuple(rows[i], columns, null_)
  {
    tuples := [];
    for i := 0 to |rows|
      invariant |tuples| == i
      invariant forall k :: 0 <= k < i ==> tuples[k] == TakeTuple(rows[k], columns, null_)
    {
      var row := rows[i];
      var tuple := [];
      assert columns[0..] == columns;
      for j := 0 to |columns|
        invariant tuple + TakeTuple(row, columns[j..], null_) == TakeTuple(rows[i], columns, null_)
      {
        var column := columns[j];
        var value := if column in row then row[column] else null_;
        assert columns[j..][1..] == columns[j + 1..];
        assert tuple + ([value] + TakeTuple(row - {column}, columns[j + 1..], null_))
            == tuple + [value] + TakeTuple(row - {column}, columns[j + 1..], null_);
        tuple := tuple + [value];
        row := row - {column};
      }
      assert columns[|columns|..] == [] && tuple + [] == tuple;
      tuples := tuples + [tuple];
    }
  }

  lemma {:induction false} RowMapAt<V>(values: seq<V>, columns: seq<string>, i: nat)
    requires |values| == |columns| && Distinct(columns) && i < |columns|
    ensures columns[i] in RowMap(values, columns) && RowMap(values, columns)[columns[i]] == values[i]
  {
    var n := |columns| - 1;
    if i < n {
      RowMapAt(values[..n], columns[..n], i);
    }
  }

  lemma {:induction false} TakingIsReading<V>(row: map<string, V>, columns: seq<string>, null_: V)
    requires Distinct(columns)
    ensures TakeTuple(row, columns, null_) == ReadTuple(row, columns, null_)
  {
    if columns != [] {
      var rest := columns[1..];
      TakingIsReading(row - {columns[0]}, rest, null_);
      forall i | 0 <= i < |rest|
        ensures rest[i] in row - {columns[0]} <==> rest[i] in row
      {
        assert columns[0] != columns[i + 1];
      }
    }
  }

  /** The cells of a row come back in order from its map. */
  lemma RowRoundTrip<V>(values: seq<V>, columns: seq<string>, null_: V)
    requires |values| == |columns| && Distinct(columns)
    ensures ReadTuple(RowMap(values, columns), columns, null_) == values
    ensures TakeTuple(RowMap(values, columns), columns, null_) == values
  {
    forall i | 0 <= i < |columns|
      ensures ReadTuple(RowMap(values, columns), columns, null_)[i] == values[i]
    {
      RowMapAt(values, columns, i);
    }
    TakingIsReading(RowMap(values, columns), columns, null_);
  }

  /** With two different values at hand, distinct names are exactly what makes rows survive. */
  lemma RowsSurviveExactlyIfDistinct<V>(columns: seq<string>, null_: V, a: V, b: V)
    requires a != b
    ensures Distinct(columns) <==>
              forall values: seq<V> :: |values| == |columns| ==>
                  ReadTuple(RowMap(values, columns), columns, null_) == values
  {
    if Distinct(columns) {
      forall values: seq<V> | |values| == |columns|
        ensures ReadTuple(RowMap(values, columns), columns, null_) == values
      {
        RowRoundTrip(values, columns, null_);
      }
    } else {
      var i, j :| 0 <= i < j < |columns| && columns[i] == columns[j];
      var values := seq(|columns|, k => if k == i then a else b);
      var row := RowMap(values, columns);
      assert ReadTuple(row, columns, null_)[i] == ReadTuple(row, columns, null_)[j];
      assert values[i] != values[j];
    }
  }

  /** The rows as JSON maps, from the driver's cells. */
  function JsonRows<V>(table: seq<seq<Option<string>>>, columns: seq<string>, parse: string -> V, null_: V)
    : (rows: seq<map<string, V>>)
    ensures |rows| == |table|
    ensures forall r :: 0 <= r < |table| ==>
        rows[r] == RowMap(CellValues(table[r], |columns|, parse, null_), columns)
  {
    seq(|table|, r requires 0 <= r < |table| => RowMap(CellValues(table[r], |columns|, parse, null_), columns))
  }

  /** Whatever the driver called the columns, by both readers position `i` of tuple `r` is what cell `i`
      of row `r` says, or null where that is missing or NULL. */
  lemma DedupedRowsRoundTrip<V>(names: seq<string>, columns: seq<string>, table: seq<seq<Option<string>>>,
                                parse: string -> V, null_: V)
    requires Deduped(names, columns)
    ensures var rows := JsonRows(table, columns, parse, null_);
            var tuples := RowsToTupleRows(rows, columns, null_);
            && |columns| == |names| && |tuples| == |table|
            && forall r, i :: 0 <= r < |table| && 0 <= i < |columns| ==>
                 var cells := table[r];
                 && |tuples[r]| == |columns|
                 && tuples[r][i] == TakeTuple(rows[r], columns, null_)[i]
                 && tuples[r][i] == if i < |cells| && cells[i].Some? then parse(cells[i].value) else null_
  {
    DedupedNames(names, columns);
    var rows := JsonRows(table, columns, parse, null_);
    forall r, i | 0 <= r < |table| && 0 <= i < |columns|
      ensures var tuple := ReadTuple(rows[r], columns, null_);
              && tuple[i] == TakeTuple(rows[r], columns, null_)[i]
              && tuple[i] == CellValue(table[r], i, parse, null_)
    {
      RowRoundTrip(CellValues(table[r], |columns|, parse, null_), columns, null_);
    }
  }

  // ---- Reporting the aliases ----

  predicate MarkerAt(s: string, i: nat) {
    i + |MARKER| <= |s| && s[i..i + |MARKER|] == MARKER
  }

  /** The last position of the marker at or below `i`. */
  function LastMarker(s: string, i: nat): (r: Option<nat>)
    ensures r.Some? ==> r.value <= i && MarkerAt(s, r.value)
    ensures forall j: nat :: j <= i && MarkerAt(s, j) ==> r.Some? && j <= r.value
  {
    if MarkerAt(s, i) then Some(i) else if i == 0 then None else LastMarker(s, i - 1)
  }

  /** `rsplit_once("__dup")` followed by parsing the number behind the marker. */
  function ParseAlias(name: string): Option<(string, nat)> {
    match LastMarker(name, |name|)
    case None => None
    case Some(i) =>
      match ParseU64(name[i + |MARKER|..])
      case None => None
      case Some(n) => Some((name[..i], n))
  }

  predicate IsReported(name: string, columns: seq<string>) {
    var alias := ParseAlias(name);
    alias.Some? && alias.value.1 >= 2 && alias.value.0 != "" && alias.value.0 in columns
  }

  function DuplicateColumnAliases(columns: seq<string>): seq<string> {
    Reported(columns, columns)
  }

  function Reported(names: seq<string>, columns: seq<string>): seq<string> {
    if names == [] then []
    else (if IsReported(names[0], columns) then [names[0]] else []) + Reported(names[1..], columns)
  }

  lemma {:induction false} ReportedMembers(names: seq<string>, columns: seq<string>, name: string)
    ensures name in Reported(names, columns) <==> name in names && IsReported(name, columns)
  {
    if names != [] {
      ReportedMembers(names[1..], columns, name);
      assert name in names <==> name == names[0] || name in names[1..];
    }
  }

  lemma ParseOfAlias(raw: string, k: nat)
    requires k < U64_BOUND
    ensures ParseAlias(Alias(raw, k)) == Some((raw, k))
  {
    var s, digits := Alias(raw, k), Decimal(k);
    assert s[|raw|..|raw| + |MARKER|] == MARKER;
    assert MarkerAt(s, |raw|);
    forall j: nat | j > |raw| && j + |MARKER| <= |s|
      ensures !MarkerAt(s, j)
    {
      assert s[j..j + 5][4] == digits[j - |raw| - 1];
    }
    assert s[|raw| + |MARKER|..] == digits && s[..|raw|] == raw;
    ParseOfDecimal(k);
  }

  function AliasesBelow(raw: string, k: nat): set<string> {
    if k <= 2 then {raw} else AliasesBelow(raw, k - 1) + {Alias(raw, k - 1)}
  }

  lemma {:induction false} AliasesBelowCount(raw: string, k: nat)
    requires k >= 2
    ensures |AliasesBelow(raw, k)| == k - 1
    ensures forall s :: s in AliasesBelow(raw, k) ==> s == raw || exists j: nat :: 2 <= j < k && s == Alias(raw, j)
  {
    if k > 2 {
      AliasesBelowCount(raw, k - 1);
      AliasIsLonger(raw, k - 1);
      if Alias(raw, k - 1) in AliasesBelow(raw, k - 1) {
        var j: nat :| 2 <= j < k - 1 && Alias(raw, k - 1) == Alias(raw, j);
        AliasInjective(raw, k - 1, j);
      }
    }
  }

  lemma {:induction false} ElementsCount(s: seq<string>)
    ensures |set x | x in s| <= |s|
  {
    if s != [] {
      ElementsCount(s[1..]);
      assert (set x | x in s) == (set x | x in s[1..]) + {s[0]};
    }
  }

  /** The pigeonhole: among `n` used names, one of the first `n` aliases is free. */
  lemma AliasNumberIsSmall(raw: string, used: seq<string>, out: string, k: nat)
    requires raw in used && FirstFreeAlias(raw, used, out, k)
    ensures k <= |used| + 1
  {
    AliasesBelowCount(raw, k);
    var names := set x | x in used;
    assert AliasesBelow(raw, k) <= names;
    SubsetIsSmaller(AliasesBelow(raw, k), names);
    ElementsCount(used);
  }

  /** A renamed column is reported exactly if its raw name is not empty, and splitting at the last
      marker recovers the raw name, which is among the columns, and the number. */
  lemma RenamedColumnsAreReported(names: seq<string>, columns: seq<string>, i: nat)
    requires Deduped(names, columns) && i < |names| && columns[i] != names[i]
    requires |names| < U64_BOUND
    ensures columns[i] in DuplicateColumnAliases(columns) <==> names[i] != ""
    ensures names[i] in columns
    ensures exists k: nat ::
              2 <= k <= i + 1 && columns[i] == Alias(names[i], k) && ParseAlias(columns[i]) == Some((names[i], k))
  {
    assert NameFor(names[i], columns[..i], columns[i]);
    var k: nat :| FirstFreeAlias(names[i], columns[..i], columns[i], k);
    AliasNumberIsSmall(names[i], columns[..i], columns[i], k);
    ParseOfAlias(names[i], k);
    ReportedMembers(columns, columns, columns[i]);
  }

  /** The name is an alias that some column was given. */
  ghost predicate IsGivenOut(names: seq<string>, columns: seq<string>, name: string) {
    exists j: nat, k: nat :: j < |names| && j < |columns| && k >= 2 && name == Alias(names[j], k) && columns[j] == name
  }

  /** The columns are the raw names and the aliases that were given out. */
  lemma ColumnsAreNamesAndAliases(names: seq<string>, columns: seq<string>, name: string)
    requires Deduped(names, columns)
    ensures name in columns <==> name in names || IsGivenOut(names, columns, name)
  {
    if name in names {
      var i :| 0 <= i < |names| && names[i] == name;
      assert NameFor(names[i], columns[..i], columns[i]);
    }
    if name in columns && name !in names {
      var j: nat :| j < |columns| && columns[j] == name;
      assert NameFor(names[j], columns[..j], columns[j]);
      var k: nat :| FirstFreeAlias(names[j], columns[..j], columns[j], k);
    }
  }

  /** Exactly these columns are reported: a renamed one with a non-empty raw name, and one that was
      not renamed whose raw name splits into a number from 2 on and a non-empty base that is itself
      a raw name or an alias that was given out. */
  lemma ReportedExactly(names: seq<string>, columns: seq<string>, i: nat)
    requires Deduped(names, columns) && i < |names| && |names| < U64_BOUND
    ensures columns[i] in DuplicateColumnAliases(columns)
       <==> if columns[i] != names[i] then names[i] != ""
            else
              match ParseAlias(names[i])
              case None => false
              case Some((base, number)) =>
                number >= 2 && base != "" && (base in names || IsGivenOut(names, columns, base))
  {
    ReportedMembers(columns, columns, columns[i]);
    if columns[i] != names[i] {
      RenamedColumnsAreReported(names, columns, i);
    } else if ParseAlias(names[i]).Some? {
      ColumnsAreNamesAndAliases(names, columns, ParseAlias(names[i]).value.0);
    }
  }

  /** For a base that does not look like an alias in turn, being a column is being a raw name. */
  lemma BaseIsARawName(names: seq<string>, columns: seq<string>, base: string)
    requires Deduped(names, columns) && |names| < U64_BOUND && ParseAlias(base).None?
    ensures base in columns <==> base in names
  {
    ColumnsAreNamesAndAliases(names, columns, base);
    if base in columns && base !in names {
      var j: nat :| j < |columns| && columns[j] == base;
      assert columns[j] != names[j];
      RenamedColumnsAreReported(names, columns, j);
    }
  }

  /** A column that the query itself calls like an alias is reported without having been renamed. */
  lemma GivenAliasIsReported(raw: string)
    requires raw != ""
    ensures Deduped([raw, Alias(raw, 2)], [raw, Alias(raw, 2)])
    ensures Alias(raw, 2) in DuplicateColumnAliases([raw, Alias(raw, 2)])
  {
    var names := [raw, Alias(raw, 2)];
    AliasIsLonger(raw, 2);
    assert names[..0] == [] && names[..1] == [raw];
    ParseOfAlias(raw, 2);
    ReportedMembers(names, names, Alias(raw, 2));
  }
}
