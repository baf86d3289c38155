/** What the external advisor loop returns, said without the loop: the distinct keys in the order in
    which they were first recommended, each with its reasons merged. */
module AdvisorResults {
  import opened Text
  import opened Advisor

  // ---- First occurrences ----

  /** The items without those that repeat an earlier one. */
  function FirstSeen<T(==)>(items: seq<T>): seq<T> {
    if items == [] then []
    else
      var n := |items| - 1;
      FirstSeen(items[..n]) + if items[n] in items[..n] then [] else [items[n]]
  }

  function FirstAt<T(==)>(items: seq<T>, item: T): (i: nat)
    requires item in items
    ensures i < |items| && items[i] == item && item !in items[..i]
  {
    if items[0] == item then 0 else
      assert items == [items[0]] + items[1..];
      var rest := FirstAt(items[1..], item);
      assert items[..rest + 1] == [items[0]] + items[1..][..rest];
      rest + 1
  }

  lemma FirstAtIs<T>(items: seq<T>, item: T, i: nat)
    requires i < |items| && items[i] == item && item !in items[..i]
    ensures FirstAt(items, item) == i
  {
  }

  lemma FirstAtOfFront<T>(items: seq<T>, n: nat, item: T)
    requires n <= |items| && item in items[..n]
    ensures FirstAt(items, item) == FirstAt(items[..n], item)
  {
    var i := FirstAt(items[..n], item);
    assert items[..n][..i] == items[..i];
    FirstAtIs(items, item, i);
  }

  lemma {:induction false} FirstSeenKeepsAll<T>(items: seq<T>)
    ensures forall item :: item in FirstSeen(items) <==> item in items
    ensures forall i :: 0 <= i < |FirstSeen(items)| ==> FirstSeen(items)[i] in items
  {
    if items != [] {
      var n := |items| - 1;
      FirstSeenKeepsAll(items[..n]);
      assert items == items[..n] + [items[n]];
    }
  }

  /** `FirstSeen` keeps every item, once, and orders them by where they first occur. */
  lemma {:induction false} FirstSeenIsFirstOccurrences<T>(items: seq<T>)
    ensures forall item :: item in FirstSeen(items) <==> item in items
    ensures forall i, j :: 0 <= i < j < |FirstSeen(items)| ==>
              FirstAt(items, FirstSeen(items)[i]) < FirstAt(items, FirstSeen(items)[j])
  {
    FirstSeenKeepsAll(items);
    if items != [] {
      var n := |items| - 1;
      var front := items[..n];
      var kept, all := FirstSeen(front), FirstSeen(items);
      FirstSeenIsFirstOccurrences(front);
      assert all == kept + if items[n] in front then [] else [items[n]];
      FirstSeenKeepsAll(front);
      forall i, j | 0 <= i < j < |all|
        ensures FirstAt(items, all[i]) < FirstAt(items, all[j])
      {
        hide FirstSeen, FirstAt;
        assert all[i] == kept[i];
        FirstAtOfFront(items, n, all[i]);
        if j < |kept| {
          assert all[j] == kept[j];
          FirstAtOfFront(items, n, all[j]);
        } else {
          FirstAtIs(items, items[n], n);
        }
      }
    }
  }

  // ---- Columns ----

  function Lowered(columns: seq<string>): (r: seq<string>)
    ensures |r| == |columns| && forall i :: 0 <= i < |columns| ==> r[i] == ToAsciiLowercase(columns[i])
  {
    seq(|columns|, i requires 0 <= i < |columns| => ToAsciiLowercase(columns[i]))
  }

  /** Up to ASCII case, the columns of a recommendation are the distinct cleaned columns in the
      order in which they were given. */
  lemma {:induction false} KeptColumns(columns: seq<string>)
    ensures Lowered(KeepFirst(columns)) == FirstSeen(Lowered(columns))
  {
    hide ToAsciiLowercase;
    if columns != [] {
      var n := |columns| - 1;
      KeptColumns(columns[..n]);
      assert Lowered(columns)[..n] == Lowered(columns[..n]);
      assert ToAsciiLowercase(columns[n]) in LowerCased(columns[..n]) <==>
          Lowered(columns)[n] in Lowered(columns[..n]) by {
        if ToAsciiLowercase(columns[n]) in LowerCased(columns[..n]) {
          var c :| c in columns[..n] && ToAsciiLowercase(c) == ToAsciiLowercase(columns[n]);
          var i :| 0 <= i < n && columns[i] == c;
          assert Lowered(columns[..n])[i] == ToAsciiLowercase(c);
        }
        if Lowered(columns)[n] in Lowered(columns[..n]) {
          var i :| 0 <= i < n && Lowered(columns[..n])[i] == Lowered(columns)[n];
          assert columns[..n][i] in columns[..n];
        }
      }
    }
  }

  // ---- Keys ----

  function Keys(rs: seq<Recommendation>): (keys: seq<Key>)
    ensures |keys| == |rs| && forall i :: 0 <= i < |rs| ==> keys[i] == KeyOf(rs[i])
  {
    seq(|rs|, i requires 0 <= i < |rs| => KeyOf(rs[i]))
  }

  lemma AddKeys(ordered: seq<Recommendation>, r: Recommendation)
    ensures Keys(Add(ordered, r)) == Keys(ordered) + if KeyOf(r) in Keys(ordered) then [] else [KeyOf(r)]
  {
  }

  lemma {:induction false} CollectKeys(ordered: seq<Recommendation>, batch: seq<Recommendation>)
    ensures Keys(ordered) <= Keys(Collect(ordered, batch))
    ensures |Collect(ordered, batch)| == |ordered| <==> forall i :: 0 <= i < |batch| ==>
        KeyOf(batch[i]) in Keys(ordered)
  {
    hide KeyOf, Add;
    if batch != [] {
      var n := |batch| - 1;
      CollectKeys(ordered, batch[..n]);
      AddKeys(Collect(ordered, batch[..n]), batch[n]);
      if |Collect(ordered, batch[..n])| == |ordered| {
        assert Keys(Collect(ordered, batch[..n])) == Keys(ordered);
      } else {
        var i :| 0 <= i < n && KeyOf(batch[..n][i]) !in Keys(ordered);
        assert KeyOf(batch[i]) !in Keys(ordered);
      }
    }
  }

  /** The collected keys are the distinct ones of everything recommended, in first-seen order. */
  lemma {:induction false} CollectedKeys(rs: seq<Recommendation>)
    ensures Keys(Collect([], rs)) == FirstSeen(Keys(rs))
  {
    hide KeyOf;
    if rs != [] {
      var n := |rs| - 1;
      CollectedKeys(rs[..n]);
      AddKeys(Collect([], rs[..n]), rs[n]);
      assert Keys(rs)[..n] == Keys(rs[..n]);
      FirstSeenIsFirstOccurrences(Keys(rs[..n]));
    }
  }

  // ---- Reasons ----

  /** The reasons given for one key, merged in the order in which they came. */
  function MergedReason(rs: seq<Recommendation>, key: Key): string
    requires key in Keys(rs)
  {
    var n := |rs| - 1;
    assert Keys(rs)[..n] == Keys(rs[..n]);
    if KeyOf(rs[n]) != key then
      assert key in Keys(rs)[..n];
      MergedReason(rs[..n], key)
    else if key in Keys(rs[..n]) then MergeReason(MergedReason(rs[..n], key), rs[n].reason)
    else rs[n].reason
  }

  lemma CollectedKeyIsGiven(rs: seq<Recommendation>, i: nat)
    requires i < |Collect([], rs)|
    ensures KeyOf(Collect([], rs)[i]) in Keys(rs)
  {
  }

  lemma {:induction false} CollectedReasons(rs: seq<Recommendation>, i: nat)
    requires i < |Collect([], rs)|
    ensures KeyOf(Collect([], rs)[i]) in Keys(rs)
    ensures Collect([], rs)[i].reason == MergedReason(rs, KeyOf(Collect([], rs)[i]))
  {
    hide MergeReason, KeyOf;
    var n := |rs| - 1;
    var front := rs[..n];
    var before, after := Collect([], front), Collect([], rs);
    CollectedKeyIsGiven(rs, i);
    assert Keys(rs)[..n] == Keys(front);
    if i < |before| {
      CollectedReasons(front, i);
      OnlyOneHasTheKey(front, rs[n], i);
    } else {
      NewKeyIsNew(front, rs[n]);
    }
  }

  lemma NewKeyIsNew(rs: seq<Recommendation>, r: Recommendation)
    requires |Add(Collect([], rs), r)| > |Collect([], rs)|
    ensures KeyOf(r) !in Keys(rs) && Add(Collect([], rs), r) == Collect([], rs) + [r]
  {
    hide Collect, KeyOf, FirstSeen, MergeReason;
    var before := Collect([], rs);
    CollectedKeys(rs);
    FirstSeenKeepsAll(Keys(rs));
    assert Find(before, KeyOf(r)).None?;
    forall i | 0 <= i < |Keys(before)| ensures Keys(before)[i] != KeyOf(r) {
    }
  }

  /** Adding a recommendation touches the entry with its key and no other. */
  lemma OnlyOneHasTheKey(rs: seq<Recommendation>, r: Recommendation, i: nat)
    requires i < |Collect([], rs)|
    ensures KeyOf(Add(Collect([], rs), r)[i]) == KeyOf(Collect([], rs)[i])
    ensures Add(Collect([], rs), r)[i].reason
         == if KeyOf(r) == KeyOf(Collect([], rs)[i]) then MergeReason(Collect([], rs)[i].reason, r.reason)
            else Collect([], rs)[i].reason
  {
    hide MergeReason;
    var before := Collect([], rs);
    var at := Find(before, KeyOf(r));
    CollectedKeys(rs);
    FirstSeenIsFirstOccurrences(Keys(rs));
    assert at.Some? ==> Keys(before)[at.value] == KeyOf(r);
    assert Keys(before)[i] == KeyOf(before[i]);
  }

  lemma MergedReasonIsBounded(current: string, incoming: string)
    requires ByteLen(current) <= MAX_REASON_BYTES
    ensures ByteLen(MergeReason(current, incoming)) <= MAX_REASON_BYTES
  {
  }

  ghost predicate ReasonsFit(rs: seq<Recommendation>) {
    forall i :: 0 <= i < |rs| ==> ByteLen(rs[i].reason) <= MAX_REASON_BYTES
  }

  lemma {:induction false} CollectedReasonsFit(rs: seq<Recommendation>)
    requires ReasonsFit(rs)
    ensures ReasonsFit(Collect([], rs))
  {
    hide MergeReason, ByteLen;
    if rs != [] {
      var n := |rs| - 1;
      CollectedReasonsFit(rs[..n]);
      match Find(Collect([], rs[..n]), KeyOf(rs[n])) {
        case Some(i) => MergedReasonIsBounded(Collect([], rs[..n])[i].reason, rs[n].reason);
        case None =>
      }
    }
  }

  // ---- The loop ----

  lemma {:induction false} NormalsReasonsFit(raws: seq<RawRecommendation>)
    requires Normals(raws).Some?
    ensures ReasonsFit(Normals(raws).value)
  {
    hide Normal, ByteLen;
    if raws != [] {
      NormalsReasonsFit(raws[..|raws| - 1]);
    }
  }

  lemma {:induction false} HistoryReasonsFit<E>(runner: (nat, seq<Recommendation>) -> Invocation<E>, clip: E -> E,
                                                answers: seq<Response<E>>, batches: seq<seq<Recommendation>>)
    requires History(runner, clip, answers, batches)
    ensures ReasonsFit(Flatten(batches))
  {
    hide Fault, Collected, Normals, ByteLen;
    var n := |batches| - 1;
    if batches != [] {
      forall k | 0 <= k < n ensures AttemptDone(runner, clip, answers[..n], batches[..n], k) {
        assert AttemptDone(runner, clip, answers, batches, k);
        assert answers[..n][..k] == answers[..k] && batches[..n][..k] == batches[..k];
      }
      HistoryReasonsFit(runner, clip, answers[..n], batches[..n]);
      assert AttemptDone(runner, clip, answers, batches, n);
      NormalsReasonsFit(answers[n].recommendations);
    }
  }

  /** What the attempts of a run have collected: the distinct keys in first-seen order, the reasons
      given for each of them merged, and everything within its limits. */
  lemma CollectedResult<E>(runner: (nat, seq<Recommendation>) -> Invocation<E>, clip: E -> E,
                           answers: seq<Response<E>>, batches: seq<seq<Recommendation>>)
    requires History(runner, clip, answers, batches)
    ensures Keys(Collected(batches)) == FirstSeen(Keys(Flatten(batches)))
    ensures forall i :: 0 <= i < |Collected(batches)| ==>
              var r := Collected(batches)[i];
              KeyOf(r) in Keys(Flatten(batches)) && r.reason == MergedReason(Flatten(batches), KeyOf(r))
              && ByteLen(r.reason) <= MAX_REASON_BYTES
    ensures |Collected(batches)| <= MAX_TOTAL_RECOMMENDATIONS && |AllErrors(answers, clip)| <= MAX_TOTAL_ERRORS
  {
    hide KeyOf, MergeReason, Collect, Flatten, ByteLen, MergedReason;
    var rs := Flatten(batches);
    CollectedKeys(rs);
    HistoryReasonsFit(runner, clip, answers, batches);
    CollectedReasonsFit(rs);
    forall i | 0 <= i < |Collected(batches)|
      ensures var r := Collected(batches)[i]; KeyOf(r) in Keys(rs) && r.reason == MergedReason(rs, KeyOf(r))
    {
      CollectedReasons(rs, i);
    }
    TotalsFit(runner, clip, answers, batches);
  }

  lemma TotalsFit<E>(runner: (nat, seq<Recommendation>) -> Invocation<E>, clip: E -> E,
                     answers: seq<Response<E>>, batches: seq<seq<Recommendation>>)
    requires History(runner, clip, answers, batches)
    ensures |Collected(batches)| <= MAX_TOTAL_RECOMMENDATIONS && |AllErrors(answers, clip)| <= MAX_TOTAL_ERRORS
  {
    hide Collect, Flatten, AllErrors, Normals, ByteLen, Trim;
    if answers == [] {
      NothingCollected(runner, clip);
    } else {
      var n := |answers| - 1;
      assert AttemptDone(runner, clip, answers, batches, n);
      CollectedGrows(batches[..n], batches[n]);
      ErrorsGrow(answers[..n], answers[n], clip);
      assert batches[..n] + [batches[n]] == batches && answers[..n] + [answers[n]] == answers;
    }
  }

  /** What an attempt is shown of the earlier ones only grows at its end, and an attempt leaves it
      as it was exactly if every key it returned had been returned before. */
  lemma PreviousKeysGrow(batches: seq<seq<Recommendation>>, k: nat)
    requires k < |batches|
    ensures Keys(Collected(batches[..k])) <= Keys(Collected(batches[..k + 1]))
    ensures |Collected(batches[..k + 1])| == |Collected(batches[..k])|
       <==> forall i :: 0 <= i < |batches[k]| ==> KeyOf(batches[k][i]) in Keys(Flatten(batches[..k]))
  {
    hide KeyOf, Collect;
    var rs := Flatten(batches[..k]);
    assert batches[..k + 1] == batches[..k] + [batches[k]];
    CollectedGrows(batches[..k], batches[k]);
    CollectKeys(Collected(batches[..k]), batches[k]);
    CollectedKeys(rs);
    FirstSeenIsFirstOccurrences(Keys(rs));
  }

  // ---- What ends the loop ----

  /** Two recommendations are the same one exactly if table, columns and method are. */
  lemma KeysAgree(a: Recommendation, b: Recommendation)
    ensures KeyOf(a) == KeyOf(b) <==> a.table == b.table && a.columns == b.columns && a.method_ == b.method_
  {
  }

  /** Why an attempt ends the loop, if it does: it states a reason; or it states none and brought no
      key that an earlier attempt had not; or it states none, brought one, and is the last allowed. */
  lemma StopsExactly<E>(answers: seq<Response<E>>, batches: seq<seq<Recommendation>>, k: nat, last: bool)
    requires k < |answers| == |batches|
    ensures var stated := answers[k].stopReason.Some? && Trim(answers[k].stopReason.value) != "";
            var nothingNew := forall i :: 0 <= i < |batches[k]| ==> KeyOf(batches[k][i]) in Keys(Flatten(batches[..k]));
            var stop := StopAfter(Collected(batches[..k]), answers[k], Collected(batches[..k + 1]), last);
            && (stated ==> stop == Some(Stated(Trim(answers[k].stopReason.value))))
            && (!stated && nothingNew ==> stop == Some(Converged))
            && (!stated && !nothingNew ==> stop == if last then Some(MaxAttempts) else None)
  {
    PreviousKeysGrow(batches, k);
    hide Collect, KeyOf, Trim, Flatten;
  }

  /** What is wrong with an answer, if anything. */
  lemma FaultExactly<E>(ordered: seq<Recommendation>, errors: seq<E>, answer: Invocation<E>)
    ensures answer.InvokeFailed? ==>
              Fault(ordered, errors, answer)
              == Some(match answer.kind
                      case Timeout => TimedOut
                      case Spawn => SpawnFailed
                      case Io => IoFailed
                      case NonZeroExit => ExitedNonZero
                      case InvalidUtf8 => InvalidResponse
                      case OutputTooLarge => TooMuchOutput)
    ensures answer.NotJson? ==> Fault(ordered, errors, answer) == Some(InvalidResponse)
    ensures answer.Answered? ==>
              var r := answer.response;
              var normals := Normals(r.recommendations);
              Fault(ordered, errors, answer)
              == if |r.recommendations| <= 256 && |r.errors| <= 128 && normals.Some?
                    && |Collect(ordered, normals.value)| <= 1024 && |errors| + |r.errors| <= 512
                    && (r.stopReason.Some? ==> ByteLen(Trim(r.stopReason.value)) <= 128)
                 then None else Some(InvalidResponse)
  {
    hide Normals, Collect, Trim;
  }
}
