/** The registry of export artifacts of src/server.rs: a map of records and a list of their handles,
    oldest first, changed in place. The disk is a set of paths. */
module ExportArtifacts {
  import opened Text

  datatype ExportArtifactRecord = ExportArtifactRecord(
    handle: string, uri: string, format: string, mimeType: string, bytes: nat, rowCount: nat, path: string)

  // ---- What the registry stands for ----

  function WithoutHandle(records: seq<ExportArtifactRecord>, handle: string): (r: seq<ExportArtifactRecord>)
    ensures |r| <= |records|
  {
    if records == [] then []
    else (if records[0].handle == handle then [] else [records[0]]) + WithoutHandle(records[1..], handle)
  }

  /** The last registration of every handle that was ever registered, newest first. */
  function Recent(history: seq<ExportArtifactRecord>): seq<ExportArtifactRecord> {
    if history == [] then []
    else
      var n := |history| - 1;
      [history[n]] + WithoutHandle(Recent(history[..n]), history[n].handle)
  }

  function Clip<T>(items: seq<T>, max: nat): (r: seq<T>)
    ensures |r| <= max && r <= items
  {
    if |items| > max then items[..max] else items
  }

  /** What `list` shows after a history of registrations. */
  function Listed(history: seq<ExportArtifactRecord>, max: nat): seq<ExportArtifactRecord> {
    Clip(Recent(history), max)
  }

  /** One registration, said on what is listed before it. */
  function Registered(listed: seq<ExportArtifactRecord>, record: ExportArtifactRecord,
                      max: nat): seq<ExportArtifactRecord> {
    Clip([record] + WithoutHandle(listed, record.handle), max)
  }

  function Paths(records: seq<ExportArtifactRecord>): (r: set<string>)
    ensures forall record :: record in records ==> record.path in r
  {
    set record | record in records :: record.path
  }

  function PathsOf(records: seq<ExportArtifactRecord>, handle: string): set<string> {
    set record | record in records && record.handle == handle :: record.path
  }

  predicate IsDropped(listed: seq<ExportArtifactRecord>, record: ExportArtifactRecord, max: nat,
                      old_: ExportArtifactRecord) {
    old_ in listed && (old_.handle == record.handle || old_ !in Registered(listed, record, max))
  }

  /** The paths of the records that one registration drops. */
  function DroppedPaths(listed: seq<ExportArtifactRecord>, record: ExportArtifactRecord, max: nat): set<string> {
    set old_ | old_ in listed && IsDropped(listed, record, max, old_) :: old_.path
  }

  // ---- The registry ----

  class Disk {
    var files: set<string>

    /** `std::fs::remove_file`; a missing file is not an error here. */
    method RemoveFile(path: string)
      modifies this
      ensures files == old(files) - {path}
    {
      files := files - {path};
    }
  }

  function Lookup(artifacts: map<string, ExportArtifactRecord>, order: seq<string>): seq<ExportArtifactRecord> {
    if order == [] then []
    else
      var n := |order| - 1;
      (if order[n] in artifacts then [artifacts[order[n]]] else []) + Lookup(artifacts, order[..n])
  }

  /** The map and the list hold the same handles, each once. */
  ghost predicate Agree(artifacts: map<string, ExportArtifactRecord>, order: seq<string>) {
    && Distinct(order)
    && (forall handle :: handle in artifacts <==> handle in order)
    && (forall handle :: handle in artifacts ==> artifacts[handle].handle == handle)
  }

  function Retain(order: seq<string>, handle: string): (r: seq<string>)
    ensures forall h :: h in r <==> h in order && h != handle
  {
    if order == [] then []
    else
      var n := |order| - 1;
      Retain(order[..n], handle) + if order[n] == handle then [] else [order[n]]
  }

  /** `uri.rsplit('/').next()`. */
  function AfterLastSlash(uri: string): string {
    if uri == "" || uri[|uri| - 1] == '/' then "" else AfterLastSlash(uri[..|uri| - 1]) + [uri[|uri| - 1]]
  }

  class ExportArtifactRegistry {
    var artifacts: map<string, ExportArtifactRecord>
    var order: seq<string>
    const maxEntries: nat
    const disk: Disk
    ghost var history: seq<ExportArtifactRecord>

    ghost predicate Valid()
      reads this
    {
      && maxEntries >= 1
      && Agree(artifacts, order)
      && Lookup(artifacts, order) == Listed(history, maxEntries)
    }

    constructor (limit: nat, disk: Disk)
      ensures Valid() && history == [] && this.disk == disk && maxEntries == if limit == 0 then 1 else limit
    {
      artifacts, order, history := map[], [], [];
      maxEntries := if limit == 0 then 1 else limit;
      this.disk := disk;
    }

    /** Takes the record of a handle out, with its file. */
    method Forget(handle: string)
      requires Agree(artifacts, order)
      modifies this`artifacts, this`order, disk
      ensures Agree(artifacts, order) && handle !in artifacts
      ensures Lookup(artifacts, order) == WithoutHandle(old(Lookup(artifacts, order)), handle)
      ensures disk.files == old(disk.files) - PathsOf(old(Lookup(artifacts, order)), handle)
    {
      hide Lookup, Agree, WithoutHandle, Retain, PathsOf;
      RemoveKeepsAgreement(artifacts, order, handle);
      PathsOfHandle(artifacts, order, handle);
      if handle in artifacts {
        var existing := artifacts[handle];
        artifacts := artifacts - {handle};
        disk.RemoveFile(existing.path);
        order := Retain(order, handle);
      } else {
        NothingToRemove(artifacts, order, handle);
      }
    }

    /** Takes the oldest records out, with their files, until no more than the limit are left. */
    method Evict()
      requires Agree(artifacts, order)
      modifies this`artifacts, this`order, disk
      ensures Agree(artifacts, order)
      ensures Lookup(artifacts, order) == Clip(old(Lookup(artifacts, order)), maxEntries)
      ensures disk.files == old(disk.files) - Paths(old(Lookup(artifacts, order))[|Lookup(artifacts, order)|..])
    {
      hide Lookup, Agree, Paths;
      ghost var all, files := Lookup(artifacts, order), disk.files;
      AgreeingSizes(artifacts, order);
      NoPaths(all);
      while |artifacts| > maxEntries
        invariant Agree(artifacts, order) && |artifacts| == |order| <= |all|
        invariant Lookup(artifacts, order) == all[..|order|]
        invariant disk.files == files - Paths(all[|order|..])
        invariant |order| == |all| || maxEntries <= |order|
        decreases |order|
      {
        if order == [] {
          break;
        }
        var oldest := order[0];
        DropOldest(artifacts, order, all);
        FilesOfTail(all, |order| - 1, files);
        order := order[1..];
        if oldest in artifacts {
          var dropped := artifacts[oldest];
          artifacts := artifacts - {oldest};
          disk.RemoveFile(dropped.path);
        }
      }
      AgreeingSizes(artifacts, order);
    }

    method Register(record: ExportArtifactRecord)
      requires Valid()
      modifies this, disk
      ensures Valid() && history == old(history) + [record]
      ensures disk.files == old(disk.files) - DroppedPaths(Listed(old(history), maxEntries), record, maxEntries)
    {
      hide Lookup, Agree, Listed, DroppedPaths, WithoutHandle, DistinctHandles, Paths, PathsOf;
      ghost var before := Lookup(artifacts, order);
      LookupHandles(artifacts, order);
      Forget(record.handle);
      InsertKeepsAgreement(artifacts, order, record);
      order := order + [record.handle];
      artifacts := artifacts[record.handle := record];
      Evict();
      history := history + [record];
      ListedAfter(old(history), record, maxEntries);
      FilesAfter(before, record, maxEntries);
    }

    method List() returns (r: seq<ExportArtifactRecord>)
      requires Valid()
      ensures r == Listed(history, maxEntries)
    {
      r := Lookup(artifacts, order);
    }

    method GetByUri(uri: string) returns (r: Option<ExportArtifactRecord>)
      requires Valid()
      ensures r.Some? ==> r.value in Listed(history, maxEntries) && r.value.handle == AfterLastSlash(uri)
      ensures r.None? ==> forall record :: record in Listed(history, maxEntries) ==>
          record.handle != AfterLastSlash(uri)
    {
      hide Listed;
      var handle := AfterLastSlash(uri);
      LookupHolds(artifacts, order);
      r := if handle in artifacts then Some(artifacts[handle]) else None;
    }
  }

  // ---- The map and the list ----

  lemma {:induction false} LookupHolds(artifacts: map<string, ExportArtifactRecord>, order: seq<string>)
    requires Agree(artifacts, order)
    ensures forall record :: record in Lookup(artifacts, order) ==>
        record.handle in artifacts && artifacts[record.handle] == record
    ensures forall handle :: handle in artifacts ==> artifacts[handle] in Lookup(artifacts, order)
  {
    LookupAt(artifacts, order);
    var looked := Lookup(artifacts, order);
    forall handle | handle in artifacts ensures artifacts[handle] in looked {
      var i :| 0 <= i < |order| && order[i] == handle;
      assert looked[|order| - 1 - i] == artifacts[handle];
    }
  }

  lemma {:induction false} LookupAt(artifacts: map<string, ExportArtifactRecord>, order: seq<string>)
    requires forall i :: 0 <= i < |order| ==> order[i] in artifacts
    ensures |Lookup(artifacts, order)| == |order|
    ensures forall i :: 0 <= i < |order| ==> Lookup(artifacts, order)[i] == artifacts[order[|order| - 1 - i]]
  {
    if order != [] {
      var n := |order| - 1;
      LookupAt(artifacts, order[..n]);
    }
  }

  lemma {:induction false} SizeOfDistinct<T>(items: seq<T>, elements: set<T>)
    requires Distinct(items) && forall item :: item in elements <==> item in items
    ensures |elements| == |items|
  {
    if items == [] {
      assert elements == {};
    } else {
      var n := |items| - 1;
      assert items == items[..n] + [items[n]];
      SizeOfDistinct(items[..n], elements - {items[n]});
    }
  }

  lemma AgreeingSizes(artifacts: map<string, ExportArtifactRecord>, order: seq<string>)
    requires Agree(artifacts, order)
    ensures |artifacts| == |order| == |Lookup(artifacts, order)|
  {
    SizeOfDistinct(order, artifacts.Keys);
    assert |artifacts| == |artifacts.Keys|;
    LookupAt(artifacts, order);
  }

  lemma {:induction false} RetainKeepsDistinct(order: seq<string>, handle: string)
    requires Distinct(order)
    ensures Distinct(Retain(order, handle))
  {
    if order != [] {
      var n := |order| - 1;
      RetainKeepsDistinct(order[..n], handle);
      var front := Retain(order[..n], handle);
      forall i | 0 <= i < |front| ensures front[i] != order[n] {
        assert front[i] in front;
        var j :| 0 <= j < n && order[j] == front[i];
      }
    }
  }

  lemma LookupPush(artifacts: map<string, ExportArtifactRecord>, order: seq<string>, handle: string)
    requires handle in artifacts
    ensures Lookup(artifacts, order + [handle]) == [artifacts[handle]] + Lookup(artifacts, order)
  {
  }

  lemma {:induction false} WithoutHolds(records: seq<ExportArtifactRecord>, handle: string)
    ensures forall record :: record in WithoutHandle(records, handle) <==> record in records && record.handle != handle
  {
    if records != [] {
      WithoutHolds(records[1..], handle);
      assert records == [records[0]] + records[1..];
    }
  }

  lemma WithoutPush(record: ExportArtifactRecord, records: seq<ExportArtifactRecord>, handle: string)
    ensures WithoutHandle([record] + records, handle)
         == (if record.handle == handle then [] else [record]) + WithoutHandle(records, handle)
  {
  }

  lemma {:induction false} LookupOfRetained(artifacts: map<string, ExportArtifactRecord>, order: seq<string>,
                                            handle: string)
    requires forall h :: h in artifacts ==> artifacts[h].handle == h
    requires forall i :: 0 <= i < |order| ==> order[i] in artifacts
    ensures Lookup(artifacts - {handle}, Retain(order, handle)) == WithoutHandle(Lookup(artifacts, order), handle)
  {
    if order != [] {
      var n := |order| - 1;
      var last, front := order[n], order[..n];
      LookupOfRetained(artifacts, front, handle);
      hide Lookup, WithoutHandle;
      assert front + [last] == order;
      LookupPush(artifacts, front, last);
      WithoutPush(artifacts[last], Lookup(artifacts, front), handle);
      assert Retain(order, handle) == Retain(front, handle) + if last == handle then [] else [last];
      if last == handle {
        assert Retain(order, handle) == Retain(front, handle);
      } else {
        LookupPush(artifacts - {handle}, Retain(front, handle), last);
      }
    }
  }

  lemma RemoveKeepsAgreement(artifacts: map<string, ExportArtifactRecord>, order: seq<string>, handle: string)
    requires Agree(artifacts, order)
    ensures Agree(artifacts - {handle}, Retain(order, handle))
    ensures Lookup(artifacts - {handle}, Retain(order, handle)) == WithoutHandle(Lookup(artifacts, order), handle)
  {
    RetainKeepsDistinct(order, handle);
    LookupOfRetained(artifacts, order, handle);
  }

  lemma {:induction false} WithoutAbsentHandle(records: seq<ExportArtifactRecord>, handle: string)
    requires forall record :: record in records ==> record.handle != handle
    ensures WithoutHandle(records, handle) == records
  {
    if records != [] {
      assert records[0] in records;
      WithoutAbsentHandle(records[1..], handle);
    }
  }

  lemma PathsOfHandle(artifacts: map<string, ExportArtifactRecord>, order: seq<string>, handle: string)
    requires Agree(artifacts, order)
    ensures PathsOf(Lookup(artifacts, order), handle) == if handle in artifacts then {artifacts[handle].path} else {}
  {
    LookupHolds(artifacts, order);
  }

  lemma NothingToRemove(artifacts: map<string, ExportArtifactRecord>, order: seq<string>, handle: string)
    requires Agree(artifacts, order) && handle !in artifacts
    ensures WithoutHandle(Lookup(artifacts, order), handle) == Lookup(artifacts, order)
  {
    LookupHolds(artifacts, order);
    WithoutAbsentHandle(Lookup(artifacts, order), handle);
  }

  lemma {:induction false} LookupOfSame(a: map<string, ExportArtifactRecord>, b: map<string, ExportArtifactRecord>,
                                        order: seq<string>)
    requires forall i :: 0 <= i < |order| ==> order[i] in a && order[i] in b && a[order[i]] == b[order[i]]
    ensures Lookup(a, order) == Lookup(b, order)
  {
    if order != [] {
      LookupOfSame(a, b, order[..|order| - 1]);
    }
  }

  lemma InsertKeepsAgreement(artifacts: map<string, ExportArtifactRecord>, order: seq<string>,
                             record: ExportArtifactRecord)
    requires Agree(artifacts, order) && record.handle !in artifacts
    ensures Agree(artifacts[record.handle := record], order + [record.handle])
    ensures Lookup(artifacts[record.handle := record], order + [record.handle]) == [record] + Lookup(artifacts, order)
  {
    hide Lookup;
    var next := artifacts[record.handle := record];
    LookupPush(next, order, record.handle);
    LookupOfSame(artifacts, next, order);
  }

  lemma DropOldestKeepsAgreement(artifacts: map<string, ExportArtifactRecord>, order: seq<string>)
    requires Agree(artifacts, order) && order != []
    ensures order[0] in artifacts && Agree(artifacts - {order[0]}, order[1..])
  {
  }

  lemma LookupWithoutOldest(artifacts: map<string, ExportArtifactRecord>, order: seq<string>)
    requires Agree(artifacts, order) && order != []
    ensures order[0] in artifacts && |Lookup(artifacts, order)| == |order|
    ensures Lookup(artifacts, order)[|order| - 1] == artifacts[order[0]]
    ensures Lookup(artifacts - {order[0]}, order[1..]) == Lookup(artifacts, order)[..|order| - 1]
  {
    LookupAt(artifacts, order);
    LookupAt(artifacts - {order[0]}, order[1..]);
    hide Lookup;
    assert Lookup(artifacts - {order[0]}, order[1..]) == Lookup(artifacts, order)[..|order| - 1];
  }

  lemma DropOldest(artifacts: map<string, ExportArtifactRecord>, order: seq<string>, all: seq<ExportArtifactRecord>)
    requires Agree(artifacts, order) && 0 < |order| <= |all| && Lookup(artifacts, order) == all[..|order|]
    ensures order[0] in artifacts && artifacts[order[0]] == all[|order| - 1]
    ensures Agree(artifacts - {order[0]}, order[1..])
    ensures |artifacts - {order[0]}| == |order| - 1
    ensures Lookup(artifacts - {order[0]}, order[1..]) == all[..|order| - 1]
  {
    hide *;
    DropOldestKeepsAgreement(artifacts, order);
    LookupWithoutOldest(artifacts, order);
    AgreeingSizes(artifacts - {order[0]}, order[1..]);
    assert all[..|order|][..|order| - 1] == all[..|order| - 1];
  }

  lemma PathsOfTail(all: seq<ExportArtifactRecord>, k: nat)
    requires k < |all|
    ensures Paths(all[k..]) == Paths(all[k + 1..]) + {all[k].path}
  {
  }

  lemma FilesOfTail(all: seq<ExportArtifactRecord>, k: nat, files: set<string>)
    requires k < |all|
    ensures files - Paths(all[k + 1..]) - {all[k].path} == files - Paths(all[k..])
  {
    PathsOfTail(all, k);
    hide Paths;
  }

  // ---- Handles in the list ----

  ghost predicate DistinctHandles(records: seq<ExportArtifactRecord>) {
    forall i, j :: 0 <= i < j < |records| ==> records[i].handle != records[j].handle
  }

  lemma LookupHandles(artifacts: map<string, ExportArtifactRecord>, order: seq<string>)
    requires Agree(artifacts, order)
    ensures DistinctHandles(Lookup(artifacts, order))
  {
    LookupAt(artifacts, order);
  }

  lemma {:induction false} WithoutKeepsDistinct(records: seq<ExportArtifactRecord>, handle: string)
    requires DistinctHandles(records)
    ensures DistinctHandles(WithoutHandle(records, handle))
  {
    if records != [] {
      WithoutKeepsDistinct(records[1..], handle);
      WithoutHolds(records[1..], handle);
      var rest := WithoutHandle(records[1..], handle);
      forall i | 0 <= i < |rest| ensures rest[i].handle != records[0].handle {
        assert rest[i] in rest;
        var j :| 0 <= j < |records[1..]| && records[1..][j] == rest[i];
        assert records[j + 1] == rest[i];
      }
    }
  }

  /** Every listed handle is listed once. */
  lemma {:induction false} RecentHandles(history: seq<ExportArtifactRecord>)
    ensures DistinctHandles(Recent(history))
  {
    if history != [] {
      var n := |history| - 1;
      RecentHandles(history[..n]);
      WithoutKeepsDistinct(Recent(history[..n]), history[n].handle);
      var rest := WithoutHandle(Recent(history[..n]), history[n].handle);
      WithoutHolds(Recent(history[..n]), history[n].handle);
      forall i | 0 <= i < |rest| ensures rest[i].handle != history[n].handle {
        assert rest[i] in rest;
      }
    }
  }

  // ---- One registration ----

  lemma {:induction false} WithoutOfConcat(a: seq<ExportArtifactRecord>, b: seq<ExportArtifactRecord>, handle: string)
    ensures WithoutHandle(a + b, handle) == WithoutHandle(a, handle) + WithoutHandle(b, handle)
  {
    if a == [] {
      Associative(a, a, b);
      Associative(a, a, WithoutHandle(b, handle));
    } else {
      var head, rest := a[0], a[1..];
      WithoutOfConcat(rest, b, handle);
      hide WithoutHandle;
      assert a == [head] + rest;
      Associative([head], rest, b);
      WithoutPush(head, rest, handle);
      WithoutPush(head, rest + b, handle);
      Associative(if head.handle == handle then [] else [head], WithoutHandle(rest, handle), WithoutHandle(b, handle));
    }
  }

  /** At most one record goes when the handles are distinct. */
  lemma {:induction false} WithoutOfDistinct(records: seq<ExportArtifactRecord>, handle: string)
    requires DistinctHandles(records)
    ensures |WithoutHandle(records, handle)| >= |records| - 1
  {
    if records != [] {
      var rest := records[1..];
      if records[0].handle == handle {
        forall record | record in rest ensures record.handle != handle {
          var i :| 0 <= i < |rest| && rest[i] == record;
          assert records[i + 1] == record;
        }
        WithoutAbsentHandle(rest, handle);
      } else {
        WithoutOfDistinct(rest, handle);
      }
    }
  }

  lemma NoPaths(all: seq<ExportArtifactRecord>)
    ensures all[..|all|] == all && Paths(all[|all|..]) == {}
  {
  }

  lemma TailIsDropped(all: seq<ExportArtifactRecord>, k: nat, record: ExportArtifactRecord)
    requires DistinctHandles(all) && k <= |all|
    ensures record in all ==> (record !in all[..k] <==> record in all[k..])
  {
  }

  /** The files that go are that of the record replaced and those of the records beyond the limit. */
  lemma FilesAfter(listed: seq<ExportArtifactRecord>, record: ExportArtifactRecord, max: nat)
    requires max >= 1 && DistinctHandles(listed)
    ensures var all := [record] + WithoutHandle(listed, record.handle);
            DroppedPaths(listed, record, max) == PathsOf(listed, record.handle) + Paths(all[|Clip(all, max)|..])
  {
    hide WithoutHandle, DistinctHandles;
    var rest := WithoutHandle(listed, record.handle);
    var all := [record] + rest;
    WithoutKeepsDistinct(listed, record.handle);
    WithoutHolds(listed, record.handle);
    HeadKeepsDistinct(record, rest);
    var k := |Clip(all, max)|;
    assert all[..k] == Registered(listed, record, max);
    forall old_ | old_ in listed && old_.handle != record.handle
      ensures old_ !in all[..k] <==> old_ in all[k..]
    {
      assert old_ in rest;
      TailIsDropped(all, k, old_);
    }
    TailIsListed(record, rest, k);
  }

  lemma TailIsListed(record: ExportArtifactRecord, rest: seq<ExportArtifactRecord>, k: nat)
    requires 1 <= k <= |rest| + 1
    ensures forall other :: other in ([record] + rest)[k..] ==> other in rest
  {
  }

  lemma HeadKeepsDistinct(record: ExportArtifactRecord, rest: seq<ExportArtifactRecord>)
    requires DistinctHandles(rest) && forall other :: other in rest ==> other.handle != record.handle
    ensures DistinctHandles([record] + rest)
  {
  }

  /** What is listed after a registration depends only on what was listed before it: a handle that
      has been dropped never comes back except by being registered again. */
  lemma ListedAfter(history: seq<ExportArtifactRecord>, record: ExportArtifactRecord, max: nat)
    requires max >= 1
    ensures Listed(history + [record], max) == Registered(Listed(history, max), record, max)
  {
    hide WithoutHandle;
    var recent := Recent(history);
    assert (history + [record])[..|history|] == history;
    var all := [record] + WithoutHandle(recent, record.handle);
    assert Recent(history + [record]) == all;
    if |recent| > max {
      RecentHandles(history);
      assert recent == recent[..max] + recent[max..];
      WithoutOfConcat(recent[..max], recent[max..], record.handle);
      WithoutOfDistinct(recent[..max], record.handle);
      assert Clip([record] + WithoutHandle(recent[..max], record.handle), max) == Clip(all, max);
    }
  }

  // ---- Whole histories ----

  /** The position of the last registration of a handle, -1 if there is none. */
  function LatestAt(history: seq<ExportArtifactRecord>, handle: string): (i: int)
    ensures -1 <= i < |history| && (i >= 0 ==> history[i].handle == handle)
    ensures forall j :: i < j < |history| ==> history[j].handle != handle
  {
    if history == [] then -1
    else
      var n := |history| - 1;
      if history[n].handle == handle then n else LatestAt(history[..n], handle)
  }

  lemma LatestAtAfter(history: seq<ExportArtifactRecord>, newest: ExportArtifactRecord, handle: string)
    ensures LatestAt(history + [newest], handle) == if newest.handle == handle then |history|
        else LatestAt(history, handle)
  {
  }

  lemma RecentAfter(history: seq<ExportArtifactRecord>, newest: ExportArtifactRecord)
    ensures Recent(history + [newest]) == [newest] + WithoutHandle(Recent(history), newest.handle)
  {
  }

  lemma RecentIsLatestStep(before: seq<ExportArtifactRecord>, newest: ExportArtifactRecord,
                           record: ExportArtifactRecord)
    requires record in Recent(before) ==>
               LatestAt(before, record.handle) >= 0 && record == before[LatestAt(before, record.handle)]
    requires record in Recent(before + [newest])
    ensures var history := before + [newest];
            LatestAt(history, record.handle) >= 0 && record == history[LatestAt(history, record.handle)]
  {
    RecentAfter(before, newest);
    WithoutHolds(Recent(before), newest.handle);
    LatestAtAfter(before, newest, record.handle);
    hide Recent, LatestAt, WithoutHandle;
  }

  lemma {:induction false} RecentIsLatest(history: seq<ExportArtifactRecord>, record: ExportArtifactRecord)
    requires record in Recent(history)
    ensures LatestAt(history, record.handle) >= 0 && record == history[LatestAt(history, record.handle)]
  {
    var n := |history| - 1;
    assert history == history[..n] + [history[n]];
    if record in Recent(history[..n]) {
      RecentIsLatest(history[..n], record);
    }
    RecentIsLatestStep(history[..n], history[n], record);
  }

  lemma LatestIsRecentStep(before: seq<ExportArtifactRecord>, newest: ExportArtifactRecord, handle: string)
    requires LatestAt(before, handle) >= 0 ==> before[LatestAt(before, handle)] in Recent(before)
    requires LatestAt(before + [newest], handle) >= 0
    ensures (before + [newest])[LatestAt(before + [newest], handle)] in Recent(before + [newest])
  {
    RecentAfter(before, newest);
    WithoutHolds(Recent(before), newest.handle);
    LatestAtAfter(before, newest, handle);
    hide Recent, LatestAt, WithoutHandle;
    if newest.handle != handle {
      assert before[LatestAt(before, handle)] in WithoutHandle(Recent(before), newest.handle);
    }
  }

  lemma {:induction false} LatestIsRecent(history: seq<ExportArtifactRecord>, handle: string)
    requires LatestAt(history, handle) >= 0
    ensures history[LatestAt(history, handle)] in Recent(history)
  {
    var n := |history| - 1;
    assert history == history[..n] + [history[n]];
    if LatestAt(history[..n], handle) >= 0 {
      LatestIsRecent(history[..n], handle);
    }
    LatestIsRecentStep(history[..n], history[n], handle);
  }

  /** The position of the last registration of each record's handle. */
  function Ranks(history: seq<ExportArtifactRecord>, records: seq<ExportArtifactRecord>): (r: seq<int>)
    ensures |r| == |records| && forall i :: 0 <= i < |records| ==> r[i] == LatestAt(history, records[i].handle)
  {
    seq(|records|, i requires 0 <= i < |records| => LatestAt(history, records[i].handle))
  }

  ghost predicate Descending(ranks: seq<int>) {
    forall j, k :: 0 <= j < k < |ranks| ==> ranks[j] > ranks[k]
  }

  lemma RanksPush(history: seq<ExportArtifactRecord>, record: ExportArtifactRecord, records: seq<ExportArtifactRecord>)
    ensures Ranks(history, [record] + records) == [LatestAt(history, record.handle)] + Ranks(history, records)
  {
  }

  lemma RanksHold(history: seq<ExportArtifactRecord>, records: seq<ExportArtifactRecord>)
    ensures forall rank :: rank in Ranks(history, records) <==>
        exists record :: record in records && LatestAt(history, record.handle) == rank
  {
  }

  lemma RanksOfPart(history: seq<ExportArtifactRecord>, records: seq<ExportArtifactRecord>, handle: string)
    ensures forall rank :: rank in Ranks(history, WithoutHandle(records, handle)) ==> rank in Ranks(history, records)
  {
    hide LatestAt, WithoutHandle, Ranks;
    WithoutHolds(records, handle);
    RanksHold(history, records);
    RanksHold(history, WithoutHandle(records, handle));
  }

  lemma DescendingPush(rank: int, ranks: seq<int>)
    ensures Descending([rank] + ranks) <==> Descending(ranks) && forall other :: other in ranks ==> rank > other
  {
    if Descending([rank] + ranks) {
      DescendingTail(rank, ranks);
    }
    if Descending(ranks) && forall other :: other in ranks ==> rank > other {
      DescendingHead(rank, ranks);
    }
  }

  lemma DescendingTail(rank: int, ranks: seq<int>)
    requires Descending([rank] + ranks)
    ensures Descending(ranks) && forall other :: other in ranks ==> rank > other
  {
    var all := [rank] + ranks;
    forall i | 0 <= i < |ranks| ensures all[i + 1] == ranks[i] && rank > ranks[i] {
      assert all[0] > all[i + 1];
    }
    forall j, k | 0 <= j < k < |ranks| ensures ranks[j] > ranks[k] {
      assert all[j + 1] > all[k + 1];
    }
  }

  lemma DescendingHead(rank: int, ranks: seq<int>)
    requires Descending(ranks) && forall other :: other in ranks ==> rank > other
    ensures Descending([rank] + ranks)
  {
    var all := [rank] + ranks;
    forall j, k | 0 <= j < k < |all| ensures all[j] > all[k] {
      assert all[k] == ranks[k - 1] && ranks[k - 1] in ranks;
      assert j > 0 ==> all[j] == ranks[j - 1];
    }
  }

  lemma {:induction false} WithoutKeepsOrder(history: seq<ExportArtifactRecord>, records: seq<ExportArtifactRecord>,
                                             handle: string)
    requires Descending(Ranks(history, records))
    ensures Descending(Ranks(history, WithoutHandle(records, handle)))
  {
    if records != [] {
      var head, tail := records[0], records[1..];
      assert records == [head] + tail;
      WithoutPush(head, tail, handle);
      hide Ranks, LatestAt, Descending, WithoutHandle;
      RanksPush(history, head, tail);
      DescendingPush(LatestAt(history, head.handle), Ranks(history, tail));
      WithoutKeepsOrder(history, tail, handle);
      if head.handle != handle {
        var rest := WithoutHandle(tail, handle);
        RanksPush(history, head, rest);
        RanksOfPart(history, tail, handle);
        DescendingPush(LatestAt(history, head.handle), Ranks(history, rest));
      }
    }
  }

  lemma RanksAfter(history: seq<ExportArtifactRecord>, newest: ExportArtifactRecord, records: seq<ExportArtifactRecord>)
    requires forall record :: record in records ==> record.handle != newest.handle
    ensures Ranks(history + [newest], records) == Ranks(history, records)
  {
  }

  lemma {:induction false} RecentIsNewestFirst(history: seq<ExportArtifactRecord>)
    ensures Descending(Ranks(history, Recent(history)))
  {
    if history != [] {
      var n := |history| - 1;
      var before, newest := history[..n], history[n];
      RecentIsNewestFirst(before);
      assert history == before + [newest];
      RecentAfter(before, newest);
      hide Recent, LatestAt, WithoutHandle, Ranks, Descending;
      var rest := WithoutHandle(Recent(before), newest.handle);
      WithoutKeepsOrder(before, Recent(before), newest.handle);
      WithoutHolds(Recent(before), newest.handle);
      RanksPush(history, newest, rest);
      LatestAtAfter(before, newest, newest.handle);
      RanksAfter(before, newest, rest);
      RanksHold(before, rest);
      DescendingPush(n, Ranks(before, rest));
    }
  }

  /** The handle was registered but is not listed any more. */
  ghost predicate IsMissing(history: seq<ExportArtifactRecord>, handle: string, max: nat) {
    LatestAt(history, handle) >= 0 && history[LatestAt(history, handle)] !in Listed(history, max)
  }

  /** The listing is the `max` most recent of the registered handles, each as it was registered
      last, newest first: what is not listed was registered earlier than everything in a full list. */
  lemma ListingIsTheMostRecent(history: seq<ExportArtifactRecord>, max: nat)
    ensures forall record :: record in Listed(history, max) ==>
              LatestAt(history, record.handle) >= 0 && record == history[LatestAt(history, record.handle)]
    ensures Descending(Ranks(history, Listed(history, max)))
    ensures forall handle :: IsMissing(history, handle, max) ==>
              && |Listed(history, max)| == max
              && forall k :: 0 <= k < max ==> Ranks(history, Listed(history, max))[k] > LatestAt(history, handle)
  {
    RecentIsNewestFirst(history);
    hide Recent, LatestAt;
    var recent, listed := Recent(history), Listed(history, max);
    forall record | record in listed
      ensures LatestAt(history, record.handle) >= 0 && record == history[LatestAt(history, record.handle)]
    {
      assert record in recent;
      RecentIsLatest(history, record);
    }
    var all := Ranks(history, recent);
    assert Ranks(history, listed) == all[..|listed|];
    forall handle | IsMissing(history, handle, max)
      ensures |listed| == max && forall k :: 0 <= k < max ==> Ranks(history, listed)[k] > LatestAt(history, handle)
    {
      LatestIsRecent(history, handle);
      var i :| 0 <= i < |recent| && recent[i] == history[LatestAt(history, handle)];
      assert all[i] == LatestAt(history, handle);
    }
  }

  /** The artifact files after a history in which each record's file is written before it is registered. */
  function FilesOf(history: seq<ExportArtifactRecord>, max: nat): set<string> {
    if history == [] then {}
    else
      var n := |history| - 1;
      FilesOf(history[..n], max) + {history[n].path} - DroppedPaths(Listed(history[..n], max), history[n], max)
  }

  /** The files are those of the listed records, and no two of these share one. */
  ghost predicate Consistent(history: seq<ExportArtifactRecord>, max: nat) {
    && FilesOf(history, max) == Paths(Listed(history, max))
    && forall a, b :: a in Listed(history, max) && b in Listed(history, max) && a.path == b.path ==> a == b
  }

  /** From a consistent state a registration leads to a consistent one exactly if its path is not
      that of a listed record. */
  lemma RegistrationIsConsistent(history: seq<ExportArtifactRecord>, record: ExportArtifactRecord, max: nat)
    requires max >= 1 && Consistent(history, max)
    ensures Consistent(history + [record], max) <==> record.path !in Paths(Listed(history, max))
  {
    hide Recent, WithoutHandle;
    var before, after := Listed(history, max), Listed(history + [record], max);
    assert (history + [record])[..|history|] == history;
    ListedAfter(history, record, max);
    RegisteredHolds(before, record, max);
    var dropped := DroppedPaths(before, record, max);
    hide DroppedPaths, Listed, Registered;
    assert FilesOf(history + [record], max) == Paths(before) + {record.path} - dropped;
    DroppedAre(before, record, max);
    if record.path in Paths(before) {
      var old_ :| old_ in before && old_.path == record.path;
      if old_ in after && old_.handle != record.handle {
        assert !Consistent(history + [record], max);
      } else {
        assert record.path in dropped;
      }
    } else {
      assert Paths(after) == Paths(before) + {record.path} - dropped;
    }
  }

  lemma RegisteredHolds(listed: seq<ExportArtifactRecord>, record: ExportArtifactRecord, max: nat)
    requires max >= 1
    ensures record in Registered(listed, record, max)
    ensures forall other :: other in Registered(listed, record, max) && other != record ==>
        other in listed && other.handle != record.handle
  {
    hide WithoutHandle;
    WithoutHolds(listed, record.handle);
    var all := [record] + WithoutHandle(listed, record.handle);
    assert Registered(listed, record, max)[0] == record;
    forall other | other in Registered(listed, record, max) ensures other in all {
    }
  }

  lemma DroppedAre(listed: seq<ExportArtifactRecord>, record: ExportArtifactRecord, max: nat)
    ensures forall old_ :: IsDropped(listed, record, max, old_) ==> old_.path in DroppedPaths(listed, record, max)
    ensures forall path :: path in DroppedPaths(listed, record, max) ==>
              exists old_ :: IsDropped(listed, record, max, old_) && old_.path == path
  {
  }

  /** At every point of a run the files are those of the listed records. */
  ghost predicate AlwaysConsistent(history: seq<ExportArtifactRecord>, max: nat) {
    forall n :: 0 <= n <= |history| ==> Consistent(history[..n], max)
  }

  /** Every record came with a path that no record listed at that time had. */
  ghost predicate PathsAreUnlisted(history: seq<ExportArtifactRecord>, max: nat) {
    forall n :: 0 <= n < |history| ==> history[n].path !in Paths(Listed(history[..n], max))
  }

  /** Every record came with a path at which there was no file. */
  ghost predicate PathsAreNew(history: seq<ExportArtifactRecord>, max: nat) {
    forall n :: 0 <= n < |history| ==> history[n].path !in FilesOf(history[..n], max)
  }

  lemma AlwaysConsistentAfter(front: seq<ExportArtifactRecord>, last: ExportArtifactRecord, max: nat)
    ensures AlwaysConsistent(front + [last], max) <==>
              AlwaysConsistent(front, max) && Consistent(front, max) && Consistent(front + [last], max)
  {
    hide Consistent;
    var history := front + [last];
    assert forall n :: 0 <= n <= |front| ==> front[..n] == history[..n];
    assert front[..|front|] == front && history[..|history|] == history;
    if AlwaysConsistent(front, max) && Consistent(history, max) {
      assert forall n :: 0 <= n <= |front| ==> Consistent(front[..n], max);
    }
  }

  lemma PathsAreUnlistedAfter(front: seq<ExportArtifactRecord>, last: ExportArtifactRecord, max: nat)
    ensures PathsAreUnlisted(front + [last], max) <==>
              PathsAreUnlisted(front, max) && last.path !in Paths(Listed(front, max))
  {
    hide Paths, Listed;
    var history := front + [last];
    assert forall n :: 0 <= n <= |front| ==> front[..n] == history[..n];
    assert front[..|front|] == front;
  }

  lemma PathsAreNewAfter(front: seq<ExportArtifactRecord>, last: ExportArtifactRecord, max: nat)
    ensures PathsAreNew(front + [last], max) <==> PathsAreNew(front, max) && last.path !in FilesOf(front, max)
  {
    hide FilesOf;
    var history := front + [last];
    assert forall n :: 0 <= n <= |front| ==> front[..n] == history[..n];
    assert front[..|front|] == front;
  }

  /** Along a whole run the files are those of the listed records at every point exactly if every
      record came with a path that no record listed at that time had. */
  lemma {:induction false} RunIsConsistent(history: seq<ExportArtifactRecord>, max: nat)
    requires max >= 1
    ensures AlwaysConsistent(history, max) <==> PathsAreUnlisted(history, max)
  {
    hide *;
    if history == [] {
      NothingRegistered(max);
    } else {
      var n := |history| - 1;
      var front := history[..n];
      RunIsConsistent(front, max);
      assert history == front + [history[n]];
      AlwaysConsistentAfter(front, history[n], max);
      PathsAreUnlistedAfter(front, history[n], max);
      if Consistent(front, max) {
        RegistrationIsConsistent(front, history[n], max);
      }
      if AlwaysConsistent(front, max) {
        AlwaysConsistentNow(front, max);
      }
    }
  }

  lemma AlwaysConsistentNow(history: seq<ExportArtifactRecord>, max: nat)
    requires AlwaysConsistent(history, max)
    ensures Consistent(history, max)
  {
    hide Consistent;
    assert history[..|history|] == history;
  }

  /** In particular, at every point exactly if every file was created at a path where there was none,
      which is how the file of an export is opened. */
  lemma {:induction false} NewFilesAreConsistent(history: seq<ExportArtifactRecord>, max: nat)
    requires max >= 1
    ensures AlwaysConsistent(history, max) <==> PathsAreNew(history, max)
  {
    hide *;
    if history == [] {
      NothingRegistered(max);
    } else {
      var n := |history| - 1;
      var front := history[..n];
      NewFilesAreConsistent(front, max);
      assert history == front + [history[n]];
      AlwaysConsistentAfter(front, history[n], max);
      PathsAreNewAfter(front, history[n], max);
      if AlwaysConsistent(front, max) {
        AlwaysConsistentNow(front, max);
        FilesWhenConsistent(front, max);
        RegistrationIsConsistent(front, history[n], max);
      }
    }
  }

  lemma FilesWhenConsistent(history: seq<ExportArtifactRecord>, max: nat)
    requires Consistent(history, max)
    ensures FilesOf(history, max) == Paths(Listed(history, max))
  {
    hide FilesOf, Paths, Listed;
  }

  lemma NothingRegistered(max: nat)
    ensures Consistent([], max) && AlwaysConsistent([], max) && PathsAreUnlisted([], max) && PathsAreNew([], max)
  {
  }

  /** An artifact is found under any URI that ends with a slash and its handle. */
  lemma {:induction false} HandleOfUri(base: string, handle: string)
    requires '/' !in handle
    ensures AfterLastSlash(base + "/" + handle) == handle
  {
    if handle != "" {
      var n := |handle| - 1;
      assert (base + "/" + handle)[..|base + "/" + handle| - 1] == base + "/" + handle[..n];
      HandleOfUri(base, handle[..n]);
    }
  }
}
