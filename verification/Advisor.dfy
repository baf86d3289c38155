/** The external advisor loop of src/advisor_extension.rs. The process that is asked is a function
    of the attempt and of the recommendations collected so far; its JSON is parsed outside the
    model. */
module Advisor {
  import opened Text

  const MAX_TABLE_NAME_BYTES: nat := 256
  const MAX_INDEX_COLUMNS: nat := 16
  const MAX_METHOD_BYTES: nat := 64
  const MAX_REASON_BYTES: nat := 1024
  const MAX_STOP_REASON_BYTES: nat := 128
  const MAX_RECOMMENDATIONS_PER_ATTEMPT: nat := 256
  const MAX_TOTAL_RECOMMENDATIONS: nat := 1024
  const MAX_ERRORS_PER_ATTEMPT: nat := 128
  const MAX_TOTAL_ERRORS: nat := 512
  const DEFAULT_INDEX_METHOD: string := "btree"
  const DEFAULT_REASON: string := "external advisor recommendation"

  /** The length of a string in UTF-8. */
  function ByteLen(s: string): (n: nat)
    ensures n >= |s|
  {
    if s == "" then 0
    else
      var c := s[|s| - 1] as int;
      ByteLen(s[..|s| - 1]) + if c < 0x80 then 1 else if c < 0x800 then 2 else if c < 0x10000 then 3 else 4
  }

  /** Text by text the lengths add up, and a character takes one to four bytes. */
  lemma {:induction false} ByteLenIs(s: string, c: char)
    ensures ByteLen(s + [c]) == ByteLen(s) + if c as int <= 0x7F then 1 else if c as int <= 0x7FF then 2
                                             else if c as int <= 0xFFFF then 3 else 4
    ensures ByteLen("") == 0
  {
    assert (s + [c])[..|s|] == s;
  }

  /** `char::is_control`: the Unicode category Cc. */
  predicate IsControl(c: char) {
    c as int < 0x20 || 0x7F <= c as int <= 0x9F
  }

  predicate HasControl(s: string) {
    exists i :: 0 <= i < |s| && IsControl(s[i])
  }

  // ---- Recommendations ----

  datatype RawRecommendation = RawRecommendation(table: string, columns: seq<string>, method_: Option<string>,
      reason: Option<string>)

  datatype Recommendation = Recommendation(table: string, columns: seq<string>, method_: string, reason: string)

  datatype Key = Key(table: string, columns: seq<string>, method_: string)

  function KeyOf(r: Recommendation): Key {
    Key(r.table, r.columns, r.method_)
  }

  function TrimQuotes(s: string): string {
    if s != "" && s[0] == '"' then TrimQuotes(s[1..])
    else if s != "" && s[|s| - 1] == '"' then TrimQuotes(s[..|s| - 1])
    else s
  }

  /** `raw.trim().trim_matches('"')`. */
  function CleanColumn(raw: string): string {
    TrimQuotes(Trim(raw))
  }

  predicate IsValidColumn(raw: string) {
    CleanColumn(raw) != "" && !HasControl(CleanColumn(raw))
  }

  /** The columns without those that repeat an earlier one up to ASCII case. */
  function KeepFirst(columns: seq<string>): seq<string> {
    if columns == [] then []
    else
      var n := |columns| - 1;
      KeepFirst(columns[..n]) + if ToAsciiLowercase(columns[n]) in LowerCased(columns[..n]) then [] else [columns[n]]
  }

  function LowerCased(columns: seq<string>): set<string> {
    set c | c in columns :: ToAsciiLowercase(c)
  }

  function Cleaned(raws: seq<string>): (r: seq<string>)
    ensures |r| == |raws| && forall i :: 0 <= i < |raws| ==> r[i] == CleanColumn(raws[i])
  {
    seq(|raws|, i requires 0 <= i < |raws| => CleanColumn(raws[i]))
  }

  function NormalColumns(raws: seq<string>): Option<seq<string>> {
    if 1 <= |raws| <= MAX_INDEX_COLUMNS && forall i :: 0 <= i < |raws| ==> IsValidColumn(raws[i])
    then Some(KeepFirst(Cleaned(raws))) else None
  }

  lemma KeepFirstOfNone()
    ensures KeepFirst([]) == [] && LowerCased([]) == {}
  {
  }

  lemma KeepFirstAt(columns: seq<string>, i: nat)
    requires i < |columns|
    ensures LowerCased(columns[..i + 1]) == LowerCased(columns[..i]) + {ToAsciiLowercase(columns[i])}
    ensures KeepFirst(columns[..i + 1])
         == KeepFirst(columns[..i]) + if ToAsciiLowercase(columns[i]) in LowerCased(columns[..i]) then []
             else [columns[i]]
    ensures LowerCased(columns[..i]) == {} <==> i == 0
  {
    hide ToAsciiLowercase;
    assert columns[..i + 1] == columns[..i] + [columns[i]];
    assert columns[..i + 1][..i] == columns[..i];
    if i > 0 {
      assert columns[..i][0] in columns[..i];
      assert ToAsciiLowercase(columns[..i][0]) in LowerCased(columns[..i]);
    }
  }

  method NormalizeColumns(raws: seq<string>) returns (r: Option<seq<string>>)
    ensures r == NormalColumns(raws)
    ensures r.Some? ==> r.value != []
  {
    hide CleanColumn, HasControl, ToAsciiLowercase, KeepFirst, LowerCased, Cleaned;
    if raws == [] || |raws| > MAX_INDEX_COLUMNS {
      return None;
    }
    var dedupe: set<string> := {};
    var columns := [];
    ghost var cleaned := Cleaned(raws);
    KeepFirstOfNone();
    assert cleaned[..0] == [];
    for i := 0 to |raws|
      invariant forall j :: 0 <= j < i ==> IsValidColumn(raws[j])
      invariant dedupe == LowerCased(cleaned[..i]) && columns == KeepFirst(cleaned[..i])
      invariant i > 0 ==> columns != []
    {
      var column := CleanColumn(raws[i]);
      if column == "" || HasControl(column) {
        return None;
      }
      KeepFirstAt(cleaned, i);
      if ToAsciiLowercase(column) !in dedupe {
        dedupe := dedupe + {ToAsciiLowercase(column)};
        columns := columns + [column];
      }
    }
    assert cleaned[..|raws|] == cleaned;
    return Some(columns);
  }

  function SplitDots(s: string): (parts: seq<string>)
    ensures parts != []
  {
    if s == "" then [""]
    else
      var rest := SplitDots(s[1..]);
      if s[0] == '.' then [""] + rest else [[s[0]] + rest[0]] + rest[1..]
  }

  function TrimAll(parts: seq<string>): (r: seq<string>)
    ensures |r| == |parts| && forall i :: 0 <= i < |parts| ==> r[i] == Trim(parts[i])
  {
    seq(|parts|, i requires 0 <= i < |parts| => Trim(parts[i]))
  }

  function NormalTable(raw: string): Option<string> {
    var table := Trim(raw);
    var parts := TrimAll(SplitDots(table));
    if table == "" || ByteLen(table) > MAX_TABLE_NAME_BYTES then None
    else if exists i :: 0 <= i < |parts| && (parts[i] == "" || HasControl(parts[i])) then None
    else Some(Join(parts, "."))
  }

  predicate IsLowerOrUnderscore(c: char) {
    'a' <= c <= 'z' || c == '_'
  }

  predicate IsValidIndexMethod(value: string) {
    value != "" && IsLowerOrUnderscore(value[0]) && forall i :: 0 <= i < |value| ==>
        IsLowerOrUnderscore(value[i]) || IsDigit(value[i])
  }

  function NonBlankOr(value: Option<string>, default_: string): string {
    if value.Some? && Trim(value.value) != "" then Trim(value.value) else default_
  }

  function NormalMethod(raw: Option<string>): Option<string> {
    var method_ := ToAsciiLowercase(NonBlankOr(raw, DEFAULT_INDEX_METHOD));
    if ByteLen(method_) > MAX_METHOD_BYTES || !IsValidIndexMethod(method_) then None else Some(method_)
  }

  function NormalReason(raw: Option<string>): Option<string> {
    var reason := NonBlankOr(raw, DEFAULT_REASON);
    if ByteLen(reason) > MAX_REASON_BYTES then None else Some(reason)
  }

  /** None for a recommendation that is refused. */
  function Normal(raw: RawRecommendation): (r: Option<Recommendation>)
    ensures r.Some? ==> ByteLen(r.value.reason) <= MAX_REASON_BYTES && IsValidIndexMethod(r.value.method_)
  {
    match (NormalTable(raw.table), NormalColumns(raw.columns), NormalMethod(raw.method_), NormalReason(raw.reason))
    case (Some(table), Some(columns), Some(method_), Some(reason)) =>
      Some(Recommendation(table, columns, method_, reason))
    case _ => None
  }

  method NormalizeExternalRecommendation(raw: RawRecommendation) returns (r: Option<Recommendation>)
    ensures r == Normal(raw)
  {
    var table := NormalTable(raw.table);
    if table.None? {
      return None;
    }
    var columns := NormalizeColumns(raw.columns);
    if columns.None? {
      return None;
    }
    var method_ := NormalMethod(raw.method_);
    if method_.None? {
      return None;
    }
    var reason := NormalReason(raw.reason);
    if reason.None? {
      return None;
    }
    return Some(Recommendation(table.value, columns.value, method_.value, reason.value));
  }

  // ---- Reasons ----

  const BAR: string := " | "

  /** The least position from `i` on where the separator stands. */
  function BarFrom(s: string, i: nat): (r: Option<nat>)
    ensures r.Some? ==> i <= r.value && r.value + 3 <= |s| && s[r.value..r.value + 3] == BAR
    decreases |s| - i
  {
    if i + 3 > |s| then None else if s[i..i + 3] == BAR then Some(i) else BarFrom(s, i + 1)
  }

  function ReasonParts(s: string): seq<string>
    decreases |s|
  {
    match BarFrom(s, 0)
    case None => [s]
    case Some(i) => [s[..i]] + ReasonParts(s[i + 3..])
  }

  predicate Mentions(current: string, incoming: string) {
    exists i :: 0 <= i < |ReasonParts(current)| && Trim(ReasonParts(current)[i]) == incoming
  }

  function MergeReason(current: string, incoming: string): string {
    var reason := Trim(incoming);
    if reason == "" || current == reason || Mentions(current, reason) then current
    else if ByteLen(current + BAR + reason) > MAX_REASON_BYTES then current
    else current + BAR + reason
  }

  // ---- Collecting ----

  /** The position of a key. */
  function Find(ordered: seq<Recommendation>, key: Key): (r: Option<nat>)
    ensures r.Some? ==> r.value < |ordered| && KeyOf(ordered[r.value]) == key
    ensures r.None? ==> forall i :: 0 <= i < |ordered| ==> KeyOf(ordered[i]) != key
  {
    if ordered == [] then None
    else
      var n := |ordered| - 1;
      if KeyOf(ordered[n]) == key then Some(n) else Find(ordered[..n], key)
  }

  /** A new key goes to the end, a known one only adds to the reason of its entry. */
  function Add(ordered: seq<Recommendation>, r: Recommendation): (next: seq<Recommendation>)
    ensures |ordered| <= |next| <= |ordered| + 1
  {
    match Find(ordered, KeyOf(r))
    case Some(i) => ordered[i := ordered[i].(reason := MergeReason(ordered[i].reason, r.reason))]
    case None => ordered + [r]
  }

  function Collect(ordered: seq<Recommendation>, batch: seq<Recommendation>): (r: seq<Recommendation>)
    ensures |r| >= |ordered|
  {
    if batch == [] then ordered else Add(Collect(ordered, batch[..|batch| - 1]), batch[|batch| - 1])
  }

  /** `recommendation_index` and the list agree: each key stands at its position. */
  ghost predicate IndexAgrees(index: map<Key, nat>, ordered: seq<Recommendation>) {
    && (forall k :: k in index ==> index[k] < |ordered| && KeyOf(ordered[index[k]]) == k)
    && (forall i :: 0 <= i < |ordered| ==> KeyOf(ordered[i]) in index && index[KeyOf(ordered[i])] == i)
  }

  // ---- The loop ----

  datatype InvokeErrorKind = Timeout | Spawn | Io | NonZeroExit | InvalidUtf8 | OutputTooLarge

  datatype FailureReason =
    | Disabled | NotConfigured | TimedOut | SpawnFailed | IoFailed | ExitedNonZero | TooMuchOutput | InvalidResponse
    | UnreachableState

  datatype Response<E> = Response(recommendations: seq<RawRecommendation>, errors: seq<E>, stopReason: Option<string>)

  datatype Invocation<E> = InvokeFailed(kind: InvokeErrorKind) | NotJson | Answered(response: Response<E>)

  datatype StopReason = Stated(text: string) | Converged | MaxAttempts

  datatype Outcome<E> = Outcome(recommendations: seq<Recommendation>, errors: seq<E>, attempts: nat, stop: StopReason)

  datatype Failure = Failure(reason: FailureReason, attempts: nat)

  function MapInvokeError(kind: InvokeErrorKind): FailureReason {
    match kind
    case Timeout => TimedOut
    case Spawn => SpawnFailed
    case Io => IoFailed
    case NonZeroExit => ExitedNonZero
    case InvalidUtf8 => InvalidResponse
    case OutputTooLarge => TooMuchOutput
  }

  function Normals(raws: seq<RawRecommendation>): Option<seq<Recommendation>> {
    if raws == [] then Some([])
    else
      match (Normals(raws[..|raws| - 1]), Normal(raws[|raws| - 1]))
      case (Some(front), Some(last)) => Some(front + [last])
      case _ => None
  }

  function StatedStop(stop: Option<string>): Option<string> {
    if stop.Some? && Trim(stop.value) != "" then Some(Trim(stop.value)) else None
  }

  /** An answer within the limits, after `ordered` and `errors` have been collected. */
  predicate Acceptable<E>(ordered: seq<Recommendation>, errors: seq<E>, response: Response<E>) {
    && |response.recommendations| <= MAX_RECOMMENDATIONS_PER_ATTEMPT
    && |response.errors| <= MAX_ERRORS_PER_ATTEMPT
    && Normals(response.recommendations).Some?
    && |Collect(ordered, Normals(response.recommendations).value)| <= MAX_TOTAL_RECOMMENDATIONS
    && |errors| + |response.errors| <= MAX_TOTAL_ERRORS
  }

  predicate StopIsTooLong(stop: Option<string>) {
    StatedStop(stop).Some? && ByteLen(StatedStop(stop).value) > MAX_STOP_REASON_BYTES
  }

  /** What is wrong with an answer. */
  function Fault<E>(ordered: seq<Recommendation>, errors: seq<E>, answer: Invocation<E>): Option<FailureReason> {
    match answer
    case InvokeFailed(kind) => Some(MapInvokeError(kind))
    case NotJson => Some(InvalidResponse)
    case Answered(response) =>
      if Acceptable(ordered, errors, response) && !StopIsTooLong(response.stopReason) then None
          else Some(InvalidResponse)
  }

  /** Why the loop ends after an answer, if it does. */
  function StopAfter<E>(before: seq<Recommendation>, response: Response<E>, after: seq<Recommendation>,
                        last: bool): Option<StopReason> {
    match StatedStop(response.stopReason)
    case Some(text) => Some(Stated(text))
    case None => if |after| == |before| then Some(Converged) else if last then Some(MaxAttempts) else None
  }

  function Flatten<T>(batches: seq<seq<T>>): seq<T> {
    if batches == [] then [] else Flatten(batches[..|batches| - 1]) + batches[|batches| - 1]
  }

  function AllErrors<E>(answers: seq<Response<E>>, clip: E -> E): seq<E> {
    if answers == [] then []
    else AllErrors(answers[..|answers| - 1], clip) + Mapped(answers[|answers| - 1].errors, clip)
  }

  /** What was collected from the first `k` attempts. */
  function Collected(batches: seq<seq<Recommendation>>): seq<Recommendation> {
    Collect([], Flatten(batches))
  }

  /** Attempt `k + 1` was asked with what the attempts before it had collected, was not at fault,
      and `batches[k]` are the normalized recommendations it returned. */
  ghost predicate AttemptDone<E>(runner: (nat, seq<Recommendation>) -> Invocation<E>, clip: E -> E,
                                 answers: seq<Response<E>>, batches: seq<seq<Recommendation>>, k: nat)
    requires k < |answers| == |batches|
  {
    && runner(k + 1, Collected(batches[..k])) == Answered(answers[k])
    && Fault(Collected(batches[..k]), AllErrors(answers[..k], clip), Answered(answers[k])).None?
    && Normals(answers[k].recommendations) == Some(batches[k])
  }

  ghost predicate History<E>(runner: (nat, seq<Recommendation>) -> Invocation<E>, clip: E -> E,
                             answers: seq<Response<E>>, batches: seq<seq<Recommendation>>)
  {
    && |answers| == |batches|
    && forall k :: 0 <= k < |answers| ==> AttemptDone(runner, clip, answers, batches, k)
  }

  ghost predicate StopsAt<E>(answers: seq<Response<E>>, batches: seq<seq<Recommendation>>, k: nat)
    requires k < |answers| == |batches|
  {
    StopAfter(Collected(batches[..k]), answers[k], Collected(batches[..k + 1]), false).Some?
  }

  /** None of the first `n` attempts gave a reason to stop. */
  ghost predicate NotStoppedBefore<E>(answers: seq<Response<E>>, batches: seq<seq<Recommendation>>, n: int)
    requires |answers| == |batches|
  {
    forall k :: 0 <= k < n && k < |answers| ==> !StopsAt(answers, batches, k)
  }

  method AddRecommendation(ordered: seq<Recommendation>, index: map<Key, nat>, r: Recommendation)
    returns (next: seq<Recommendation>, nextIndex: map<Key, nat>)
    requires IndexAgrees(index, ordered)
    ensures next == Add(ordered, r) && IndexAgrees(nextIndex, next)
  {
    var key := KeyOf(r);
    if key in index {
      var i := index[key];
      FindIs(ordered, index, key);
      next := ordered[i := ordered[i].(reason := MergeReason(ordered[i].reason, r.reason))];
      nextIndex := index;
    } else {
      FindIs(ordered, index, key);
      nextIndex := index[key := |ordered|];
      next := ordered + [r];
    }
  }

  lemma FindIs(ordered: seq<Recommendation>, index: map<Key, nat>, key: Key)
    requires IndexAgrees(index, ordered)
    ensures Find(ordered, key) == if key in index then Some(index[key]) else None
  {
  }

  lemma {:induction false} CollectConcat(ordered: seq<Recommendation>, a: seq<Recommendation>, b: seq<Recommendation>)
    ensures Collect(ordered, a + b) == Collect(Collect(ordered, a), b)
  {
    if b == [] {
      assert a + b == a;
    } else {
      var n := |b| - 1;
      assert (a + b)[..|a + b| - 1] == a + b[..n];
      CollectConcat(ordered, a, b[..n]);
    }
  }

  lemma NormalsAt(raws: seq<RawRecommendation>, i: nat)
    requires i < |raws|
    ensures Normals(raws[..i + 1]) == match (Normals(raws[..i]), Normal(raws[i]))
                                      case (Some(front), Some(last)) => Some(front + [last])
                                      case _ => None
  {
    assert raws[..i + 1][..i] == raws[..i];
  }

  lemma {:induction false} NormalsPrefix(raws: seq<RawRecommendation>, i: nat)
    requires i <= |raws| && Normals(raws).Some?
    ensures Normals(raws[..i]).Some? && Normals(raws[..i]).value <= Normals(raws).value
    decreases |raws| - i
  {
    if i == |raws| {
      assert raws[..i] == raws;
    } else {
      NormalsPrefix(raws, i + 1);
      NormalsAt(raws, i);
    }
  }

  lemma CollectPrefix(ordered: seq<Recommendation>, a: seq<Recommendation>, whole: seq<Recommendation>)
    requires a <= whole
    ensures |Collect(ordered, a)| <= |Collect(ordered, whole)|
  {
    assert whole == a + whole[|a|..];
    CollectConcat(ordered, a, whole[|a|..]);
  }

  /** The recommendations of one answer. */
  method TakeRecommendations(ordered: seq<Recommendation>, index: map<Key, nat>, raws: seq<RawRecommendation>)
    returns (ok: bool, next: seq<Recommendation>, nextIndex: map<Key, nat>, newItems: nat)
    requires IndexAgrees(index, ordered) && |ordered| <= MAX_TOTAL_RECOMMENDATIONS
    ensures ok <==> Normals(raws).Some? && |Collect(ordered, Normals(raws).value)| <= MAX_TOTAL_RECOMMENDATIONS
    ensures ok ==> next == Collect(ordered, Normals(raws).value) && newItems == |next| - |ordered|
    ensures ok ==> IndexAgrees(nextIndex, next)
  {
    hide Normal, KeyOf, MergeReason;
    next, nextIndex, newItems := ordered, index, 0;
    ghost var batch: seq<Recommendation> := [];
    assert raws[..0] == [];
    for i := 0 to |raws|
      invariant Normals(raws[..i]) == Some(batch)
      invariant next == Collect(ordered, batch) && newItems == |next| - |ordered|
      invariant |next| <= MAX_TOTAL_RECOMMENDATIONS && IndexAgrees(nextIndex, next)
    {
      var r := NormalizeExternalRecommendation(raws[i]);
      NormalsAt(raws, i);
      if Normals(raws).Some? {
        NormalsPrefix(raws, i + 1);
      }
      if r.None? {
        return false, next, nextIndex, newItems;
      }
      assert (batch + [r.value])[..|batch|] == batch;
      batch := batch + [r.value];
      if Normals(raws).Some? {
        CollectPrefix(ordered, batch, Normals(raws).value);
      }
      FindIs(next, nextIndex, KeyOf(r.value));
      if KeyOf(r.value) !in nextIndex {
        newItems := newItems + 1;
        if |next| >= MAX_TOTAL_RECOMMENDATIONS {
          return false, next, nextIndex, newItems;
        }
      }
      next, nextIndex := AddRecommendation(next, nextIndex, r.value);
    }
    assert raws[..|raws|] == raws;
    ok := true;
  }

  method TakeErrors<E>(errors: seq<E>, more: seq<E>, clip: E -> E) returns (ok: bool, next: seq<E>)
    requires |errors| <= MAX_TOTAL_ERRORS
    ensures ok <==> |errors| + |more| <= MAX_TOTAL_ERRORS
    ensures ok ==> next == errors + Mapped(more, clip)
  {
    next := errors;
    for i := 0 to |more|
      invariant next == errors + Mapped(more, clip)[..i] && |next| <= MAX_TOTAL_ERRORS
    {
      if |next| >= MAX_TOTAL_ERRORS {
        return false, next;
      }
      next := next + [clip(more[i])];
    }
    ok := true;
  }

  method RunExternalAdvisorLoop<E>(enabled: bool, configured: bool, maxAttempts: nat,
                                         runner: (nat, seq<Recommendation>) -> Invocation<E>, clip: E -> E)
    returns (r: Result<Outcome<E>, Failure>, ghost answers: seq<Response<E>>, ghost batches: seq<seq<Recommendation>>)
    ensures !enabled ==> r == Err(Failure(Disabled, 0))
    ensures enabled && !configured ==> r == Err(Failure(NotConfigured, 0))
    ensures enabled && configured && maxAttempts == 0 ==> r == Err(Failure(UnreachableState, 0))
    ensures enabled && configured && maxAttempts >= 1 ==>
              && History(runner, clip, answers, batches)
              && var n := |answers|;
                 match r
                 case Ok(outcome) =>
                   && 1 <= n <= maxAttempts && outcome.attempts == n && NotStoppedBefore(answers, batches, n - 1)
                   && outcome.recommendations == Collected(batches)
                   && outcome.errors == AllErrors(answers, clip)
                   && StopAfter(Collected(batches[..n - 1]), answers[n - 1], Collected(batches), n == maxAttempts)
                       == Some(outcome.stop)
                 case Err(failure) =>
                   && failure.attempts == n + 1 <= maxAttempts && NotStoppedBefore(answers, batches, n)
                   && Fault(Collected(batches), AllErrors(answers, clip), runner(n + 1, Collected(batches)))
                       == Some(failure.reason)
  {
    hide Normals, Collect, AllErrors, Flatten, KeyOf, Collected, History, NotStoppedBefore, ByteLen, Trim;
    answers, batches := [], [];
    if !enabled {
      return Err(Failure(Disabled, 0)), answers, batches;
    }
    if !configured {
      return Err(Failure(NotConfigured, 0)), answers, batches;
    }
    var recommendationIndex: map<Key, nat> := map[];
    var ordered: seq<Recommendation> := [];
    var externalErrors: seq<E> := [];
    NothingCollected(runner, clip);

    for attempt := 1 to maxAttempts + 1
      invariant |answers| == |batches| == attempt - 1
      invariant History(runner, clip, answers, batches) && NotStoppedBefore(answers, batches, |answers|)
      invariant ordered == Collected(batches) && externalErrors == AllErrors(answers, clip)
      invariant IndexAgrees(recommendationIndex, ordered)
      invariant |ordered| <= MAX_TOTAL_RECOMMENDATIONS && |externalErrors| <= MAX_TOTAL_ERRORS
      invariant attempt == maxAttempts + 1 ==> maxAttempts == 0
    {
      var answer := runner(attempt, ordered);
      if answer.InvokeFailed? {
        return Err(Failure(MapInvokeError(answer.kind), attempt)), answers, batches;
      }
      if answer.NotJson? {
        return Err(Failure(InvalidResponse, attempt)), answers, batches;
      }
      var response := answer.response;
      if |response.recommendations| > MAX_RECOMMENDATIONS_PER_ATTEMPT || |response.errors| > MAX_ERRORS_PER_ATTEMPT {
        return Err(Failure(InvalidResponse, attempt)), answers, batches;
      }
      var ok, next, nextIndex, newItems := TakeRecommendations(ordered, recommendationIndex, response.recommendations);
      if !ok {
        return Err(Failure(InvalidResponse, attempt)), answers, batches;
      }
      var errorsOk, nextErrors := TakeErrors(externalErrors, response.errors, clip);
      if !errorsOk {
        return Err(Failure(InvalidResponse, attempt)), answers, batches;
      }
      assert Acceptable(ordered, externalErrors, response);
      var stop := StatedStop(response.stopReason);
      if stop.Some? && ByteLen(stop.value) > MAX_STOP_REASON_BYTES {
        return Err(Failure(InvalidResponse, attempt)), answers, batches;
      }
      ghost var batch := Normals(response.recommendations).value;
      HistoryExtends(runner, clip, answers, batches, response, batch);
      CollectedGrows(batches, batch);
      ErrorsGrow(answers, response, clip);
      answers, batches := answers + [response], batches + [batch];
      assert batches[..attempt - 1] + [batch] == batches;
      if stop.Some? {
        return Ok(Outcome(next, nextErrors, attempt, Stated(stop.value))), answers, batches;
      }
      if newItems == 0 {
        return Ok(Outcome(next, nextErrors, attempt, Converged)), answers, batches;
      }
      if attempt == maxAttempts {
        return Ok(Outcome(next, nextErrors, attempt, MaxAttempts)), answers, batches;
      }
      NotStoppedYet(answers, batches);
      ordered, recommendationIndex, externalErrors := next, nextIndex, nextErrors;
    }
    return Err(Failure(UnreachableState, maxAttempts)), answers, batches;
  }

  lemma NothingCollected<E>(runner: (nat, seq<Recommendation>) -> Invocation<E>, clip: E -> E)
    ensures Collected([]) == [] && AllErrors<E>([], clip) == []
    ensures History(runner, clip, [], []) && NotStoppedBefore<E>([], [], 0)
  {
  }

  lemma CollectedGrows(batches: seq<seq<Recommendation>>, batch: seq<Recommendation>)
    ensures Collected(batches + [batch]) == Collect(Collected(batches), batch)
  {
    hide Collect;
    assert (batches + [batch])[..|batches|] == batches;
    CollectConcat([], Flatten(batches), batch);
  }

  lemma ErrorsGrow<E>(answers: seq<Response<E>>, response: Response<E>, clip: E -> E)
    ensures AllErrors(answers + [response], clip) == AllErrors(answers, clip) + Mapped(response.errors, clip)
  {
  }

  lemma HistoryExtends<E>(runner: (nat, seq<Recommendation>) -> Invocation<E>, clip: E -> E,
                                answers: seq<Response<E>>, batches: seq<seq<Recommendation>>,
                                response: Response<E>, batch: seq<Recommendation>)
    requires History(runner, clip, answers, batches)
    requires NotStoppedBefore(answers, batches, |answers|)
    requires runner(|answers| + 1, Collected(batches)) == Answered(response)
    requires Fault(Collected(batches), AllErrors(answers, clip), Answered(response)).None?
    requires Normals(response.recommendations) == Some(batch)
    ensures History(runner, clip, answers + [response], batches + [batch])
    ensures NotStoppedBefore(answers + [response], batches + [batch], |answers|)
  {
    hide AttemptDone, StopsAt, Fault, Normals, Collected, AllErrors;
    var answers', batches' := answers + [response], batches + [batch];
    var n := |answers|;
    assert answers'[..n] == answers && batches'[..n] == batches;
    LastAttemptDone(runner, clip, answers', batches', n);
    forall k | 0 <= k < n
      ensures AttemptDone(runner, clip, answers', batches', k) && !StopsAt(answers', batches', k)
    {
      EarlierAttempt(runner, clip, answers, batches, response, batch, k);
    }
  }

  lemma NotStoppedYet<E>(answers: seq<Response<E>>, batches: seq<seq<Recommendation>>)
    requires 0 < |answers| == |batches| && NotStoppedBefore(answers, batches, |answers| - 1)
    requires var n := |answers| - 1; StopAfter(Collected(batches[..n]), answers[n], Collected(batches), false).None?
    ensures NotStoppedBefore(answers, batches, |answers|)
  {
    hide Collected, StopAfter;
    assert batches[..|batches|] == batches;
  }

  lemma LastAttemptDone<E>(runner: (nat, seq<Recommendation>) -> Invocation<E>, clip: E -> E,
                           answers: seq<Response<E>>, batches: seq<seq<Recommendation>>, n: nat)
    requires n < |answers| == |batches|
    requires runner(n + 1, Collected(batches[..n])) == Answered(answers[n])
    requires Fault(Collected(batches[..n]), AllErrors(answers[..n], clip), Answered(answers[n])).None?
    requires Normals(answers[n].recommendations) == Some(batches[n])
    ensures AttemptDone(runner, clip, answers, batches, n)
  {
  }

  lemma EarlierAttempt<E>(runner: (nat, seq<Recommendation>) -> Invocation<E>, clip: E -> E,
                          answers: seq<Response<E>>, batches: seq<seq<Recommendation>>,
                          response: Response<E>, batch: seq<Recommendation>, k: nat)
    requires k < |answers| == |batches|
    ensures AttemptDone(runner, clip, answers + [response], batches + [batch], k)
        == AttemptDone(runner, clip, answers, batches, k)
    ensures StopsAt(answers + [response], batches + [batch], k) == StopsAt(answers, batches, k)
  {
    hide Fault, Normals, StopAfter;
    assert (answers + [response])[..k] == answers[..k];
    assert (batches + [batch])[..k] == batches[..k] && (batches + [batch])[..k + 1] == batches[..k + 1];
  }
}
