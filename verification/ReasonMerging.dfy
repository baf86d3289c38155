/** How the reasons of a recommendation are merged in src/advisor_extension.rs: what the text says
    as a list, when a repeated reason is recognized, and when it is appended again. */
module ReasonMerging {
  import opened Text
  import opened Advisor

  // ---- Where a separator stands ----

  ghost predicate BarAt(s: string, j: nat) {
    j + 3 <= |s| && s[j] == ' ' && s[j + 1] == '|' && s[j + 2] == ' '
  }

  ghost predicate HasBar(s: string) {
    exists j: nat :: BarAt(s, j)
  }

  /** `BarFrom` finds the first separator. */
  lemma {:induction false} BarFromIs(s: string, i: nat)
    ensures BarFrom(s, i).None? ==> forall j: nat :: j >= i ==> !BarAt(s, j)
    ensures BarFrom(s, i).Some? ==> BarAt(s, BarFrom(s, i).value) && forall j: nat :: i <= j < BarFrom(s, i).value ==>
        !BarAt(s, j)
    decreases |s| - i
  {
    if i + 3 <= |s| {
      assert s[i..i + 3] == BAR <==> BarAt(s, i);
      if s[i..i + 3] != BAR {
        BarFromIs(s, i + 1);
      }
    }
  }

  lemma FirstBar(s: string, k: nat)
    requires BarAt(s, k) && forall j: nat :: j < k ==> !BarAt(s, j)
    ensures BarFrom(s, 0) == Some(k)
  {
    BarFromIs(s, 0);
  }

  lemma NoBar(s: string)
    ensures BarFrom(s, 0).None? <==> !HasBar(s)
  {
    BarFromIs(s, 0);
  }

  // ---- The parts of a text ----

  /** No part holds a separator, and one of several parts is shorter than the text. */
  lemma {:induction false} PartsHaveNoBar(s: string, i: nat)
    requires i < |ReasonParts(s)|
    ensures !HasBar(ReasonParts(s)[i])
    ensures ReasonParts(s)[i] == s || |ReasonParts(s)[i]| + 3 <= |s|
  {
    BarFromIs(s, 0);
    match BarFrom(s, 0) {
      case None =>
      case Some(k) =>
        if i > 0 {
          PartsHaveNoBar(s[k + 3..], i - 1);
        } else {
          forall j: nat ensures !BarAt(s[..k], j) {
            assert BarAt(s[..k], j) ==> BarAt(s, j);
          }
        }
    }
  }

  lemma HasParts(s: string)
    ensures ReasonParts(s) != []
  {
  }

  function LastPart(s: string): string {
    HasParts(s);
    ReasonParts(s)[|ReasonParts(s)| - 1]
  }

  predicate EndsInBar(s: string) {
    |s| >= 2 && s[|s| - 2] == ' ' && s[|s| - 1] == '|'
  }

  /** The last reason of the text ends in a blank and a bar. */
  predicate EndsOpen(s: string) {
    EndsInBar(LastPart(s))
  }

  /** That reason without the blank and the bar. */
  function Stem(s: string): string
    requires EndsOpen(s)
  {
    LastPart(s)[..|LastPart(s)| - 2]
  }

  /** Appending to an open text turns its bar into a separator, to any other text adds the parts. */
  function PartsOfMerge(s: string, t: string): seq<string> {
    var parts := ReasonParts(s);
    if EndsOpen(s) then parts[..|parts| - 1] + [Stem(s)] + ReasonParts("| " + t) else parts + ReasonParts(t)
  }

  lemma {:induction false} PartsAfterMerge(s: string, t: string)
    ensures ReasonParts(s + BAR + t) == PartsOfMerge(s, t)
    decreases |s|
  {
    match BarFrom(s, 0) {
      case None => PartsAfterOne(s, t);
      case Some(k) =>
        var rest := s[k + 3..];
        PartsAfterFirst(s, t, k);
        PartsAfterMerge(rest, t);
        hide *;
        PartsOfMergeStep([s[..k]], s, rest, t);
    }
  }

  /** A first separator of the text stays the first one. */
  lemma PartsAfterFirst(s: string, t: string, k: nat)
    requires BarFrom(s, 0) == Some(k)
    ensures ReasonParts(s) == [s[..k]] + ReasonParts(s[k + 3..])
    ensures ReasonParts(s + BAR + t) == [s[..k]] + ReasonParts(s[k + 3..] + BAR + t)
  {
    FirstPart(s, k);
    FirstBarStays(s, t, k);
    hide ReasonParts, BarFrom;
    FirstPart(s + BAR + t, k);
  }

  lemma FirstPart(s: string, k: nat)
    requires BarFrom(s, 0) == Some(k)
    ensures k + 3 <= |s| && ReasonParts(s) == [s[..k]] + ReasonParts(s[k + 3..])
  {
  }

  lemma FirstBarStays(s: string, t: string, k: nat)
    requires BarFrom(s, 0) == Some(k)
    ensures var all := s + BAR + t;
            BarFrom(all, 0) == Some(k) && all[..k] == s[..k] && all[k + 3..] == s[k + 3..] + BAR + t
  {
    var all := s + BAR + t;
    BarFromIs(s, 0);
    forall j: nat | j <= k ensures BarAt(all, j) == BarAt(s, j) {
    }
    FirstBar(all, k);
  }

  lemma PartsOfMergeStep(first: seq<string>, s: string, rest: string, t: string)
    requires ReasonParts(s) == first + ReasonParts(rest)
    ensures PartsOfMerge(s, t) == first + PartsOfMerge(rest, t)
  {
    hide ReasonParts, EndsInBar;
    HasParts(rest);
    var a, b := ReasonParts(s), ReasonParts(rest);
    assert LastPart(s) == LastPart(rest);
    if EndsOpen(s) {
      assert a[..|a| - 1] == first + b[..|b| - 1];
      Associative(first, b[..|b| - 1] + [Stem(s)], ReasonParts("| " + t));
      Associative(first, b[..|b| - 1], [Stem(s)]);
    } else {
      Associative(first, b, ReasonParts(t));
    }
  }

  /** Appending to a text of one part. */
  lemma PartsAfterOne(s: string, t: string)
    requires BarFrom(s, 0).None?
    ensures ReasonParts(s + BAR + t) == PartsOfMerge(s, t)
  {
    var all := s + BAR + t;
    var k := if EndsInBar(s) then |s| - 2 else |s|;
    BarFromIs(s, 0);
    forall j: nat | j < k ensures !BarAt(all, j) {
      assert !BarAt(s, j);
    }
    assert BarAt(all, k);
    FirstBar(all, k);
    assert all[..k] == s[..k] && all[k + 3..] == if EndsInBar(s) then "| " + t else t;
    assert ReasonParts(s) == [s];
    assert LastPart(s) == s;
    hide ReasonParts, BarFrom;
    assert s[..|s|] == s;
    assert ReasonParts(s)[..0] == [];
  }

  // ---- When a reason is recognized ----

  lemma TrimIsShorter(s: string)
    ensures |Trim(s)| <= |s|
  {
    var left, right := TrimSplits(s);
    assert |s| == |left| + |Trim(s)| + |right|;
  }

  /** A part that trims to a text with a separator would hold one itself. */
  lemma TrimHasNoBar(part: string)
    requires !HasBar(part)
    ensures !HasBar(Trim(part))
  {
    var left, right := TrimSplits(part);
    hide Trim;
    forall j: nat ensures !BarAt(Trim(part), j) {
      assert BarAt(Trim(part), j) ==> BarAt(part, |left| + j);
    }
  }

  /** A text that holds a separator is never recognized: whatever the current text is, it is
      appended unless it is all of it or does not fit. */
  lemma TextWithBarIsAppended(current: string, incoming: string)
    requires HasBar(Trim(incoming))
    ensures !Mentions(current, Trim(incoming))
    ensures MergeReason(current, incoming)
         == if current == Trim(incoming) || ByteLen(current + BAR + Trim(incoming)) > MAX_REASON_BYTES then current
            else current + BAR + Trim(incoming)
  {
    hide Trim, ByteLen;
    forall i | 0 <= i < |ReasonParts(current)| ensures Trim(ReasonParts(current)[i]) != Trim(incoming) {
      PartsHaveNoBar(current, i);
      TrimHasNoBar(ReasonParts(current)[i]);
    }
  }

  ghost predicate AnyTrimsTo(parts: seq<string>, t: string) {
    exists i :: 0 <= i < |parts| && Trim(parts[i]) == t
  }

  lemma AnyOfConcat(a: seq<string>, b: seq<string>, t: string)
    ensures AnyTrimsTo(a + b, t) <==> AnyTrimsTo(a, t) || AnyTrimsTo(b, t)
  {
    hide Trim;
    if i: nat :| i < |a| && Trim(a[i]) == t {
      assert Trim((a + b)[i]) == t;
    }
    if i: nat :| i < |b| && Trim(b[i]) == t {
      assert Trim((a + b)[|a| + i]) == t;
    }
    if i: nat :| i < |a + b| && Trim((a + b)[i]) == t {
      assert if i < |a| then Trim(a[i]) == t else Trim(b[i - |a|]) == t;
    }
  }

  lemma MentionsIs(s: string, t: string)
    ensures Mentions(s, t) <==> AnyTrimsTo(ReasonParts(s), t)
  {
  }

  /** A text is among its own parts exactly if it holds no separator. */
  lemma OwnPart(t: string)
    requires IsTrimmed(t)
    ensures AnyTrimsTo(ReasonParts(t), t) <==> !HasBar(t)
  {
    NoBar(t);
    hide BarFrom;
    if !HasBar(t) {
      TrimOfTrimmed(t);
      assert ReasonParts(t)[0] == t;
    } else {
      hide Trim, ReasonParts;
      forall i | 0 <= i < |ReasonParts(t)| ensures Trim(ReasonParts(t)[i]) != t {
        PartsHaveNoBar(t, i);
        TrimIsShorter(ReasonParts(t)[i]);
      }
    }
  }

  /** Behind a bar a text is not among the parts. */
  lemma PartBehindBar(t: string)
    requires IsTrimmed(t) && t != ""
    ensures !AnyTrimsTo(ReasonParts("| " + t), t)
  {
    var s := "| " + t;
    assert IsTrimmed(s);
    TrimOfTrimmed(s);
    hide Trim, ReasonParts;
    forall i | 0 <= i < |ReasonParts(s)| ensures Trim(ReasonParts(s)[i]) != t {
      PartsHaveNoBar(s, i);
      TrimIsShorter(ReasonParts(s)[i]);
    }
  }

  /** After a text was appended it is found again exactly if it is one reason, or, where the text
      before was open, the stem of the reason that was cut. */
  ghost predicate IsFoundAgain(current: string, t: string) {
    if EndsOpen(current) then Trim(Stem(current)) == t else !HasBar(t)
  }

  lemma MentionsAfterMerge(current: string, t: string)
    requires IsTrimmed(t) && t != "" && !Mentions(current, t)
    ensures Mentions(current + BAR + t, t) <==> IsFoundAgain(current, t)
  {
    PartsAfterMerge(current, t);
    hide Trim, ReasonParts, HasBar, IsTrimmed, EndsInBar;
    var parts, n := ReasonParts(current), |ReasonParts(current)| - 1;
    HasParts(current);
    MentionsIs(current, t);
    MentionsIs(current + BAR + t, t);
    if EndsOpen(current) {
      PartBehindBar(t);
      assert parts == parts[..n] + [parts[n]];
      AnyOfConcat(parts[..n], [parts[n]], t);
      AnyOfConcat(parts[..n] + [Stem(current)], ReasonParts("| " + t), t);
      AnyOfConcat(parts[..n], [Stem(current)], t);
      assert AnyTrimsTo([Stem(current)], t) <==> Trim([Stem(current)][0]) == t;
    } else {
      OwnPart(t);
      AnyOfConcat(parts, ReasonParts(t), t);
    }
  }

  /** The exact condition, for every current and every incoming text: once it was appended, merging
      the same text again changes nothing if and only if it is found again or does not fit. */
  lemma MergingAgain(current: string, incoming: string)
    requires MergeReason(current, incoming) != current
    ensures var t, merged := Trim(incoming), MergeReason(current, incoming);
            && (MergeReason(merged, incoming) == merged
                <==> IsFoundAgain(current, t) || ByteLen(merged + BAR + t) > MAX_REASON_BYTES)
            && (MergeReason(merged, incoming) != merged ==> MergeReason(merged, incoming) == merged + BAR + t)
  {
    hide Trim, ByteLen, Mentions, IsFoundAgain;
    var left, right := TrimSplits(incoming);
    MentionsAfterMerge(current, Trim(incoming));
  }

  // ---- Reasons that stay ----

  lemma MentionedStaysOnce(current: string, t: string, incoming: string)
    requires Mentions(current, t) && (t == "" || t[|t| - 1] != '|')
    ensures Mentions(MergeReason(current, incoming), t)
  {
    hide ByteLen;
    var u := Trim(incoming);
    if MergeReason(current, incoming) != current {
      PartsAfterMerge(current, u);
      HasParts(current);
      hide Trim, ReasonParts, MergeReason;
      var parts, n := ReasonParts(current), |ReasonParts(current)| - 1;
      MentionsIs(current, t);
      MentionsIs(current + BAR + u, t);
      if EndsOpen(current) {
        TrimKeepsBar(parts[n]);
        hide *;
        OtherPartsStay(parts, Stem(current), ReasonParts("| " + u), t);
      } else {
        hide *;
        AnyOfConcat(parts, ReasonParts(u), t);
      }
    }
  }

  lemma OtherPartsStay(parts: seq<string>, stem: string, rest: seq<string>, t: string)
    requires parts != [] && AnyTrimsTo(parts, t) && Trim(parts[|parts| - 1]) != t
    ensures AnyTrimsTo(parts[..|parts| - 1] + [stem] + rest, t)
  {
    hide Trim;
    var i: nat :| i < |parts| && Trim(parts[i]) == t;
    assert Trim((parts[..|parts| - 1] + [stem] + rest)[i]) == t;
  }

  lemma TrimKeepsBar(s: string)
    requires EndsInBar(s)
    ensures Trim(s) != "" && Trim(s)[|Trim(s)| - 1] == '|'
  {
    var left, right := TrimSplits(s);
    hide Trim;
    LastOfConcat(left + Trim(s), right);
    LastOfConcat(left, Trim(s));
  }

  lemma LastOfConcat(a: string, b: string)
    ensures b == "" ==> a + b == a
    ensures b != "" ==> (a + b)[|a + b| - 1] == b[|b| - 1]
  {
  }

  function MergeAll(current: string, incoming: seq<string>): string {
    if incoming == [] then current
    else MergeReason(MergeAll(current, incoming[..|incoming| - 1]), incoming[|incoming| - 1])
  }

  /** A reason that the text mentions is recognized after any merges, unless it ends in a bar. */
  lemma {:induction false} MentionedStays(current: string, incoming: string, later: seq<string>)
    requires var t := Trim(incoming); Mentions(current, t) && (t == "" || t[|t| - 1] != '|')
    ensures Mentions(MergeAll(current, later), Trim(incoming))
    ensures MergeReason(MergeAll(current, later), incoming) == MergeAll(current, later)
  {
    hide Trim, Mentions, ByteLen;
    if later != [] {
      var n := |later| - 1;
      MentionedStays(current, incoming, later[..n]);
      MentionedStaysOnce(MergeAll(current, later[..n]), Trim(incoming), later[n]);
    }
  }

  // ---- Reasons as lists ----

  /** A reason that holds no part of a separator. */
  ghost predicate Plain(reason: string) {
    reason != "" && IsTrimmed(reason) && '|' !in reason
  }

  ghost predicate AllPlain(reasons: seq<string>) {
    forall i :: 0 <= i < |reasons| ==> Plain(reasons[i])
  }

  lemma PlainHasNoBar(reason: string)
    requires '|' !in reason
    ensures ReasonParts(reason) == [reason] && !EndsOpen(reason)
  {
    NoBar(reason);
    assert LastPart(reason) == reason;
  }

  /** Splitting a merged reason gives back the reasons it was merged from. */
  lemma {:induction false} ReasonPartsOfJoin(reasons: seq<string>)
    requires reasons != [] && AllPlain(reasons)
    ensures ReasonParts(Join(reasons, BAR)) == reasons
  {
    var part := reasons[0];
    PlainHasNoBar(part);
    if |reasons| > 1 {
      PartsAfterMerge(part, Join(reasons[1..], BAR));
      ReasonPartsOfJoin(reasons[1..]);
    }
  }

  lemma {:induction false} JoinConcat(a: seq<string>, b: seq<string>)
    requires a != [] && b != []
    ensures Join(a + b, BAR) == Join(a, BAR) + BAR + Join(b, BAR)
  {
    assert (a + b)[1..] == a[1..] + b;
    if |a| == 1 {
      assert a[1..] + b == b;
    } else {
      JoinConcat(a[1..], b);
    }
  }

  lemma JoinOfPlain(parts: seq<string>)
    requires parts != [] && AllPlain(parts)
    ensures Join(parts, BAR) != "" && ('|' in Join(parts, BAR) <==> |parts| > 1)
  {
  }

  lemma MentionsInList(reasons: seq<string>, reason: string)
    requires reasons != [] && AllPlain(reasons)
    ensures Mentions(Join(reasons, BAR), reason) <==> reason in reasons
  {
    hide Trim, Join, ReasonParts;
    ReasonPartsOfJoin(reasons);
    forall i | 0 <= i < |reasons| ensures Trim(reasons[i]) == reasons[i] {
      TrimOfTrimmed(reasons[i]);
    }
  }

  /** What merging does to a list of plain reasons when the incoming text is such a list too: the
      parts are put at the end, unless the text does not fit, is the whole current text, or is a
      single reason that is in the list already. */
  lemma MergeOfPlain(reasons: seq<string>, parts: seq<string>, incoming: string)
    requires reasons != [] && parts != [] && AllPlain(reasons) && AllPlain(parts)
    requires Trim(incoming) == Join(parts, BAR)
    ensures MergeReason(Join(reasons, BAR), incoming)
         == if reasons == parts || (|parts| == 1 && parts[0] in reasons)
               || ByteLen(Join(reasons + parts, BAR)) > MAX_REASON_BYTES
            then Join(reasons, BAR) else Join(reasons + parts, BAR)
  {
    hide ByteLen, Trim, Mentions, ReasonParts, AllPlain;
    JoinConcat(reasons, parts);
    JoinOfPlain(parts);
    MentionsInList(reasons, Join(parts, BAR));
    ReasonPartsOfJoin(reasons);
    ReasonPartsOfJoin(parts);
    if |parts| > 1 {
      NoneHoldsABar(reasons);
    }
  }

  lemma NoneHoldsABar(reasons: seq<string>)
    requires AllPlain(reasons)
    ensures forall reason :: '|' in reason ==> reason !in reasons
  {
  }

  lemma OnePartWithOpenEnd(stem: string)
    requires Plain(stem)
    ensures ReasonParts(stem + " |") == [stem + " |"] && LastPart(stem + " |") == stem + " |"
    ensures EndsOpen(stem + " |") && Stem(stem + " |") == stem
  {
    var s := stem + " |";
    assert forall k :: 0 <= k < |stem| ==> s[k] == stem[k];
    NoBar(s);
    assert s[..|s| - 2] == stem;
  }

  /** A reason that ends in a bar hides the next one: whatever plain reason is merged after it is
      appended a second time when it comes again, unless it is the same up to the bar. */
  lemma OpenReasonHidesTheNext(stem: string, t: string)
    requires Plain(stem) && Plain(t) && ByteLen(stem + " |" + BAR + t + BAR + t) <= MAX_REASON_BYTES
    ensures MergeReason(stem + " |", t) == stem + " |" + BAR + t
    ensures MergeReason(stem + " |" + BAR + t, t) == stem + " |" + BAR + t + if stem == t then "" else BAR + t
  {
    var current := stem + " |";
    OnePartWithOpenEnd(stem);
    ByteLenOfConcat(current + BAR + t, BAR + t);
    Associative(current + BAR + t, BAR, t);
    assert current + BAR + t + "" == current + BAR + t;
    TrimOfTrimmed(t);
    TrimOfTrimmed(stem);
    TrimOfTrimmed(current);
    NotMentioned(current, t);
    hide Trim, ByteLen, ReasonParts, Mentions;
    assert MergeReason(current, t) == current + BAR + t;
    MergingAgain(current, t);
  }

  lemma NotMentioned(current: string, t: string)
    requires ReasonParts(current) == [current] && Trim(current) != t
    ensures !Mentions(current, t)
  {
  }

  lemma {:induction false} ByteLenOfConcat(a: string, b: string)
    ensures ByteLen(a) <= ByteLen(a + b)
  {
    if b == "" {
      assert a + b == a;
    } else {
      assert (a + b)[..|a + b| - 1] == a + b[..|b| - 1];
      ByteLenOfConcat(a, b[..|b| - 1]);
    }
  }
}
