/** scripts/fix_load_driver_ids.js: repairs loads whose `driverId` is not
    a driver document id by matching the load's driver name against the
    drivers' lower-cased names, and commits every repair in one batch. */
module FixIds {
  import opened Store
  import Diagnose

  /** Where the repaired `driverId` is read from. The script builds each
      by-name entry as `{ uid, ...data }`, so a `uid` field stored in the
      driver document overrides the document id (`SpreadData`);
      `DocumentId` always writes the document id. */
  datatype UidSource = SpreadData | DocumentId

  /** The `uid` of a by-name entry. */
  function EntryUid(d: Doc<Driver>, source: UidSource): string
  {
    match source
    case DocumentId => d.id
    case SpreadData => if d.data.uid.Some? then d.data.uid.value else d.id
  }

  predicate NamedAs(d: Doc<Driver>, key: string) {
    d.data.name.Some? && Lower(d.data.name.value) == key
  }

  /** The position `driversByName[key]` refers to: the last driver whose
      lower-cased name is `key`, since later writes to the same key win. */
  function NameLookup(drivers: seq<Doc<Driver>>, key: string): (r: Option<nat>)
    ensures r.Some? ==>
      && r.value < |drivers| && NamedAs(drivers[r.value], key)
      && forall k :: r.value < k < |drivers| ==> !NamedAs(drivers[k], key)
    ensures r.None? ==> forall k :: 0 <= k < |drivers| ==> !NamedAs(drivers[k], key)
  {
    if drivers == [] then None
    else if NamedAs(drivers[|drivers| - 1], key) then Some(|drivers| - 1)
    else NameLookup(drivers[..|drivers| - 1], key)
  }

  /** Every driver has a name; otherwise `data.name.toLowerCase()` throws
      while the maps are built, and the script writes nothing. */
  predicate AllNamed(drivers: seq<Doc<Driver>>) {
    forall i :: 0 <= i < |drivers| ==> drivers[i].data.name.Some?
  }

  /** `driversById` and `driversByName` hold what the first `n` drivers put
      into them. */
  ghost predicate IndexedFirst(byId: map<string, Driver>, byName: map<string, Doc<Driver>>,
                               drivers: seq<Doc<Driver>>, n: nat)
    requires n <= |drivers|
  {
    && byId.Keys == Ids(drivers[..n])
    && AllNamed(drivers[..n])
    && (forall key :: key in byName <==> NameLookup(drivers[..n], key).Some?)
    && (forall key :: key in byName ==> byName[key] == drivers[NameLookup(drivers[..n], key).value])
  }

  lemma IndexOneMore(byId: map<string, Driver>, byName: map<string, Doc<Driver>>,
                     drivers: seq<Doc<Driver>>, n: nat)
    requires n < |drivers| && drivers[n].data.name.Some? && IndexedFirst(byId, byName, drivers, n)
    ensures IndexedFirst(byId[drivers[n].id := drivers[n].data],
                         byName[Lower(drivers[n].data.name.value) := drivers[n]], drivers, n + 1)
  {
    var doc := drivers[n];
    var front, next := drivers[..n], drivers[..n + 1];
    assert next == front + [doc];
    assert next[..n] == front;
    IdsSnoc(front, doc);
    var newKey := Lower(doc.data.name.value);
    var byName' := byName[newKey := doc];
    forall key
      ensures key in byName' <==> NameLookup(next, key).Some?
      ensures key in byName' ==> byName'[key] == drivers[NameLookup(next, key).value]
    {
      assert NameLookup(next, key) == if key == newKey then Some(n) else NameLookup(front, key);
    }
  }

  /** The `forEach` over the driver snapshot; `ok` is false when it throws. */
  method IndexDrivers(drivers: seq<Doc<Driver>>)
    returns (byId: map<string, Driver>, byName: map<string, Doc<Driver>>, ok: bool)
    ensures ok <==> AllNamed(drivers)
    ensures ok ==> byId.Keys == Ids(drivers)
    ensures ok ==> forall key :: key in byName <==> NameLookup(drivers, key).Some?
    ensures ok ==> forall key :: key in byName ==> byName[key] == drivers[NameLookup(drivers, key).value]
  {
    byId, byName := map[], map[];
    for i := 0 to |drivers|
      invariant IndexedFirst(byId, byName, drivers, i)
    {
      var doc := drivers[i];
      if doc.data.name.None? {
        return byId, byName, false;
      }
      IndexOneMore(byId, byName, drivers, i);
      byId := byId[doc.id := doc.data];
      byName := byName[Lower(doc.data.name.value) := doc];
    }
    assert drivers[..|drivers|] == drivers;
    ok := true;
  }

  /** What the loop does with one load. */
  datatype Step = AlreadyValid | Fix(patch: Patch) | Unmatched

  /** The reference definition of one iteration of the repair loop. */
  function FixStep(l: Load, drivers: seq<Doc<Driver>>, source: UidSource): Step {
    if PropertyKey(l.driverId) in Ids(drivers) then AlreadyValid
    else match NameLookup(drivers, MatchKey(l))
      case None => Unmatched
      case Some(j) => Fix(Patch(EntryUid(drivers[j], source), drivers[j].data.name))
  }

  function StepUpdates(d: Doc<Load>, drivers: seq<Doc<Driver>>, source: UidSource): seq<Update> {
    match FixStep(d.data, drivers, source)
    case Fix(p) => [Update(d.id, p)]
    case _ => []
  }

  /** The updates the repair queues, in load order. */
  function FixPlan(loads: seq<Doc<Load>>, drivers: seq<Doc<Driver>>, source: UidSource): seq<Update> {
    if loads == [] then []
    else FixPlan(loads[..|loads| - 1], drivers, source) + StepUpdates(loads[|loads| - 1], drivers, source)
  }

  function CountSkipped(loads: seq<Doc<Load>>, drivers: seq<Doc<Driver>>): nat {
    if loads == [] then 0
    else
      var skipped := if PropertyKey(loads[|loads| - 1].data.driverId) in Ids(drivers) then 1 else 0;
      CountSkipped(loads[..|loads| - 1], drivers) + skipped
  }

  function CountUnmatched(loads: seq<Doc<Load>>, drivers: seq<Doc<Driver>>, source: UidSource): nat {
    if loads == [] then 0
    else
      var unmatched := if FixStep(loads[|loads| - 1].data, drivers, source).Unmatched? then 1 else 0;
      CountUnmatched(loads[..|loads| - 1], drivers, source) + unmatched
  }

  lemma PrefixSnoc<T>(s: seq<T>, n: nat)
    requires n < |s|
    ensures s[..n + 1][..n] == s[..n] && s[..n + 1][n] == s[n]
  {
  }

  /** One more load extends the plan by its update and the skip count by
      its skip. */
  lemma PlanSnoc(loads: seq<Doc<Load>>, drivers: seq<Doc<Driver>>, source: UidSource, n: nat)
    requires n < |loads|
    ensures FixPlan(loads[..n + 1], drivers, source) == FixPlan(loads[..n], drivers, source) + StepUpdates(loads[n], drivers, source)
    ensures CountSkipped(loads[..n + 1], drivers)
      == CountSkipped(loads[..n], drivers) + if PropertyKey(loads[n].data.driverId) in Ids(drivers) then 1 else 0
  {
    PrefixSnoc(loads, n);
  }

  /** The loop's tests on the two maps decide the step `FixStep` defines. */
  lemma StepFromMaps(load: Load, byId: map<string, Driver>, byName: map<string, Doc<Driver>>,
                     drivers: seq<Doc<Driver>>, source: UidSource)
    requires byId.Keys == Ids(drivers)
    requires forall key :: key in byName <==> NameLookup(drivers, key).Some?
    requires forall key :: key in byName ==> byName[key] == drivers[NameLookup(drivers, key).value]
    ensures FixStep(load, drivers, source) ==
      if PropertyKey(load.driverId) in byId then AlreadyValid
      else if MatchKey(load) in byName then
        Fix(Patch(EntryUid(byName[MatchKey(load)], source), byName[MatchKey(load)].data.name))
      else Unmatched
  {
  }

  /** Every load is skipped, fixed (one queued update) or unmatched. */
  lemma {:induction false} StepsCoverLoads(loads: seq<Doc<Load>>, drivers: seq<Doc<Driver>>, source: UidSource)
    ensures |FixPlan(loads, drivers, source)| + CountSkipped(loads, drivers) + CountUnmatched(loads, drivers, source) == |loads|
  {
    if loads != [] {
      StepsCoverLoads(loads[..|loads| - 1], drivers, source);
    }
  }

  /** What a run of the script does: `NameError` when building the driver
      maps throws (the error is caught and nothing is written), otherwise
      its counters, the batch it built, whether it committed it, and the
      `loads` collection afterwards. */
  datatype FixRun =
    | NameError
    | Done(fixedCount: nat, skippedCount: nat, batch: seq<Update>, committed: bool, loadsAfter: seq<Doc<Load>>)

  method FixDriverIds(loads: seq<Doc<Load>>, drivers: seq<Doc<Driver>>, source: UidSource) returns (run: FixRun)
    ensures run.NameError? <==> !AllNamed(drivers)
    ensures run.Done? ==> run.batch == FixPlan(loads, drivers, source) && run.fixedCount == |run.batch|
    ensures run.Done? ==> run.skippedCount == CountSkipped(loads, drivers)
    ensures run.Done? ==> (run.committed <==> run.fixedCount > 0)
    ensures run.Done? ==> run.loadsAfter == if run.committed then Commit(loads, run.batch) else loads
  {
    var driversById, driversByName, ok := IndexDrivers(drivers);
    if !ok {
      return NameError;
    }
    var fixedCount, skippedCount := 0, 0;
    var batch: seq<Update> := [];
    for i := 0 to |loads|
      invariant batch == FixPlan(loads[..i], drivers, source) && fixedCount == |batch|
      invariant skippedCount == CountSkipped(loads[..i], drivers)
    {
      PlanSnoc(loads, drivers, source, i);
      StepFromMaps(loads[i].data, driversById, driversByName, drivers, source);
      var loadDoc := loads[i];
      var load := loadDoc.data;
      if PropertyKey(load.driverId) in driversById {
        skippedCount := skippedCount + 1;
        continue;
      }
      var driverName := MatchKey(load);
      if driverName in driversByName {
        var matchingDriver := driversByName[driverName];
        batch := batch + [Update(loadDoc.id, Patch(EntryUid(matchingDriver, source), matchingDriver.data.name))];
        fixedCount := fixedCount + 1;
      }
    }
    assert loads[..|loads|] == loads;
    var committed := fixedCount > 0;
    run := Done(fixedCount, skippedCount, batch, committed, if committed then Commit(loads, batch) else loads);
  }

  /** One load after the repair: patched when its step is a fix. */
  function RepairedDoc(d: Doc<Load>, drivers: seq<Doc<Driver>>, source: UidSource): Doc<Load> {
    match FixStep(d.data, drivers, source)
    case Fix(p) => Doc(d.id, ApplyPatch(d.data, p))
    case _ => d
  }

  function Repaired(loads: seq<Doc<Load>>, drivers: seq<Doc<Driver>>, source: UidSource): (r: seq<Doc<Load>>)
    ensures |r| == |loads|
  {
    seq(|loads|, i requires 0 <= i < |loads| => RepairedDoc(loads[i], drivers, source))
  }

  /** One load's updates repair that load and leave a document with
      another id as it is. */
  lemma StepReaches(d: Doc<Load>, e: Doc<Load>, drivers: seq<Doc<Driver>>, source: UidSource)
    requires d == e || d.id != e.id
    ensures ApplyBatchTo(d, StepUpdates(e, drivers, source)) == if d == e then RepairedDoc(e, drivers, source) else d
  {
    var tail := StepUpdates(e, drivers, source);
    if tail != [] {
      assert tail[1..] == [];
    }
  }

  /** After the first `n` loads' updates, load `i` is repaired exactly when
      it is one of those `n`. */
  lemma {:induction false} PlanPrefixReaches(loads: seq<Doc<Load>>, drivers: seq<Doc<Driver>>, source: UidSource,
                                             n: nat, i: nat)
    requires DistinctIds(loads) && n <= |loads| && i < |loads|
    ensures ApplyBatchTo(loads[i], FixPlan(loads[..n], drivers, source))
      == if i < n then RepairedDoc(loads[i], drivers, source) else loads[i]
  {
    if n > 0 {
      PrefixSnoc(loads, n - 1);
      var front := FixPlan(loads[..n - 1], drivers, source);
      var tail := StepUpdates(loads[n - 1], drivers, source);
      assert FixPlan(loads[..n], drivers, source) == front + tail;
      BatchSplit(loads[i], front, tail);
      PlanPrefixReaches(loads, drivers, source, n - 1, i);
      if i == n - 1 {
        StepReaches(loads[i], loads[n - 1], drivers, source);
      } else {
        assert loads[i].id != loads[n - 1].id;
        var mid := if i < n - 1 then RepairedDoc(loads[i], drivers, source) else loads[i];
        StepReaches(mid, loads[n - 1], drivers, source);
      }
    }
  }

  /** Committing the batch repairs every load and touches nothing else. */
  lemma CommitIsRepair(loads: seq<Doc<Load>>, drivers: seq<Doc<Driver>>, source: UidSource)
    requires DistinctIds(loads)
    ensures Commit(loads, FixPlan(loads, drivers, source)) == Repaired(loads, drivers, source)
  {
    forall i | 0 <= i < |loads|
      ensures Commit(loads, FixPlan(loads, drivers, source))[i] == Repaired(loads, drivers, source)[i]
    {
      assert loads[..|loads|] == loads;
      PlanPrefixReaches(loads, drivers, source, |loads|, i);
    }
  }

  /** Every driver's stored `uid`, when it has one, is its document id. */
  predicate UidsAgree(drivers: seq<Doc<Driver>>) {
    forall i :: 0 <= i < |drivers| ==> drivers[i].data.uid.None? || drivers[i].data.uid.value == drivers[i].id
  }

  /** A repaired load is skipped by the next run, a valid load stays
      valid and an unmatched load stays unmatched, when the written uid
      is a document id. */
  lemma RepairedStep(d: Doc<Load>, drivers: seq<Doc<Driver>>, source: UidSource)
    requires source == DocumentId || UidsAgree(drivers)
    ensures FixStep(RepairedDoc(d, drivers, source).data, drivers, source)
      == if FixStep(d.data, drivers, source).Unmatched? then Unmatched else AlreadyValid
  {
    var step := FixStep(d.data, drivers, source);
    if step.Fix? {
      var j := NameLookup(drivers, MatchKey(d.data)).value;
      assert step.patch.driverId == drivers[j].id;
      assert drivers[j].id in Ids(drivers);
    }
  }

  lemma {:induction false} NoFixesNoPlan(loads: seq<Doc<Load>>, drivers: seq<Doc<Driver>>, source: UidSource)
    requires forall k :: 0 <= k < |loads| ==> !FixStep(loads[k].data, drivers, source).Fix?
    ensures FixPlan(loads, drivers, source) == []
  {
    if loads != [] {
      NoFixesNoPlan(loads[..|loads| - 1], drivers, source);
    }
  }

  /** Running the repair again on its own result queues zero updates. */
  lemma RerunQueuesNothing(loads: seq<Doc<Load>>, drivers: seq<Doc<Driver>>, source: UidSource)
    requires source == DocumentId || UidsAgree(drivers)
    ensures FixPlan(Repaired(loads, drivers, source), drivers, source) == []
  {
    var after := Repaired(loads, drivers, source);
    forall k | 0 <= k < |after| ensures !FixStep(after[k].data, drivers, source).Fix? {
      RepairedStep(loads[k], drivers, source);
    }
    NoFixesNoPlan(after, drivers, source);
  }

  /** On the second run the fixed loads are counted as skipped, and the
      unmatched ones are unmatched again. */
  lemma {:induction false} RerunCounts(loads: seq<Doc<Load>>, drivers: seq<Doc<Driver>>, source: UidSource)
    requires source == DocumentId || UidsAgree(drivers)
    ensures CountSkipped(Repaired(loads, drivers, source), drivers)
      == CountSkipped(loads, drivers) + |FixPlan(loads, drivers, source)|
    ensures CountUnmatched(Repaired(loads, drivers, source), drivers, source) == CountUnmatched(loads, drivers, source)
  {
    if loads != [] {
      var front := loads[..|loads| - 1];
      var last := loads[|loads| - 1];
      var after := Repaired(loads, drivers, source);
      assert after[..|after| - 1] == Repaired(front, drivers, source);
      RerunCounts(front, drivers, source);
      RepairedStep(last, drivers, source);
    }
  }

  /** With the script's `{ uid, ...data }` entries, a driver whose stored
      `uid` differs from its document id gets written into the load, the
      next run does not recognise it as a driver key, matches the load by
      name again and queues the same update again. */
  lemma SpreadUidDefeatsRerun()
    ensures var drivers := [Doc("u2", Driver(Some("B"), None, Some("legacy-uid"), None, None, None, None))];
      var loads := [Doc("L1", Load(None, None, Some("Bob"), Some("B"), None, None, None, None))];
      && FixPlan(loads, drivers, SpreadData) == [Update("L1", Patch("legacy-uid", Some("B")))]
      && FixPlan(Repaired(loads, drivers, SpreadData), drivers, SpreadData) == FixPlan(loads, drivers, SpreadData)
  {
    var drivers := [Doc("u2", Driver(Some("B"), None, Some("legacy-uid"), None, None, None, None))];
    var loads := [Doc("L1", Load(None, None, Some("Bob"), Some("B"), None, None, None, None))];
    assert Lower("B") == "b" by { assert Lower("B")[0] == 'b'; }
    assert "Bob" !in Ids(drivers) && "legacy-uid" !in Ids(drivers);
    assert NameLookup(drivers, "b") == Some(0);
    assert loads[..0] == [];
    var after := Repaired(loads, drivers, SpreadData);
    assert after == [Doc("L1", Load(None, None, Some("legacy-uid"), Some("B"), None, None, None, None))];
    assert after[..0] == [];
  }

  /** Where two drivers share a lower-cased name, the audit suggests the
      first of them and the repair writes the last one. */
  lemma FirstSuggestedLastApplied(l: Load, drivers: seq<Doc<Driver>>, i: nat, j: nat)
    requires DistinctIds(drivers) && AllNamed(drivers)
    requires i < j < |drivers| && NamedAs(drivers[i], MatchKey(l)) && NamedAs(drivers[j], MatchKey(l))
    requires PropertyKey(l.driverId) !in Ids(drivers)
    ensures Diagnose.Classify(l, drivers).Mismatch? && Diagnose.Classify(l, drivers).suggestion.Some?
    ensures FixStep(l, drivers, DocumentId).Fix?
    ensures Diagnose.Classify(l, drivers).suggestion.value != FixStep(l, drivers, DocumentId).patch.driverId
  {
    var found := Diagnose.FindByName(drivers, MatchKey(l));
    var last := NameLookup(drivers, MatchKey(l));
    assert !found.NotFound?;
    assert !found.NameMissing?;
    assert found.index <= i;
    assert last.value >= j;
  }
}
