/** scripts/diagnose_load_driver_mismatch.js: a read-only audit that
    classifies every load's `driverId` against the driver documents and,
    for a mismatch, suggests a driver whose name matches. */
module Diagnose {
  import opened Store

  /** What the audit keeps of a driver document. */
  datatype DriverSummary = DriverSummary(name: Option<string>, email: Option<string>)

  function Summary(d: Driver): DriverSummary {
    DriverSummary(d.name, d.email)
  }

  /** `driverMap` holds exactly the first `n` driver documents. */
  predicate MapsFirst(driverMap: map<string, DriverSummary>, drivers: seq<Doc<Driver>>, n: nat)
    requires n <= |drivers|
  {
    && driverMap.Keys == Ids(drivers[..n])
    && |driverMap| == n
    && forall k :: 0 <= k < n ==> drivers[k].id in driverMap && driverMap[drivers[k].id] == Summary(drivers[k].data)
  }

  lemma MapsOneMore(driverMap: map<string, DriverSummary>, drivers: seq<Doc<Driver>>, n: nat)
    requires DistinctIds(drivers) && n < |drivers| && MapsFirst(driverMap, drivers, n)
    ensures MapsFirst(driverMap[drivers[n].id := Summary(drivers[n].data)], drivers, n + 1)
  {
    var doc := drivers[n];
    var next := driverMap[doc.id := Summary(doc.data)];
    IdsMember(drivers[..n], doc.id);
    assert doc.id !in driverMap;
    assert drivers[..n + 1] == drivers[..n] + [doc];
    IdsSnoc(drivers[..n], doc);
    assert next.Keys == driverMap.Keys + {doc.id};
    forall k | 0 <= k < n + 1
      ensures drivers[k].id in next && next[drivers[k].id] == Summary(drivers[k].data)
    {
      if k < n {
        assert drivers[k].id != doc.id;
      }
    }
  }

  /** `driverMap`, filled by `forEach` over the driver snapshot. */
  method BuildDriverMap(drivers: seq<Doc<Driver>>) returns (driverMap: map<string, DriverSummary>)
    requires DistinctIds(drivers)
    ensures driverMap.Keys == Ids(drivers)
    ensures |driverMap| == |drivers|
    ensures forall i :: 0 <= i < |drivers| ==> driverMap[drivers[i].id] == Summary(drivers[i].data)
  {
    driverMap := map[];
    for i := 0 to |drivers|
      invariant MapsFirst(driverMap, drivers, i)
    {
      MapsOneMore(driverMap, drivers, i);
      var doc := drivers[i];
      driverMap := driverMap[doc.id := DriverSummary(doc.data.name, doc.data.email)];
    }
    assert drivers[..|drivers|] == drivers;
  }

  /** Every driver before position `upTo` has a name, and none of those
      names lower-cases to `key`. */
  predicate NamedAndDifferent(drivers: seq<Doc<Driver>>, key: string, upTo: int) {
    forall j :: 0 <= j < upTo && j < |drivers| ==>
      drivers[j].data.name.Some? && Lower(drivers[j].data.name.value) != key
  }

  /** Outcome of the name search: the first matching position, no match,
      or the position of a driver without a name, where `toLowerCase`
      throws. */
  datatype NameMatch = Found(index: nat) | NotFound | NameMissing(index: nat)

  function Shift(r: NameMatch): NameMatch {
    match r
    case Found(i) => Found(i + 1)
    case NotFound => NotFound
    case NameMissing(i) => NameMissing(i + 1)
  }

  /** The `find` over the driver map's entries, in order. */
  function FindByName(drivers: seq<Doc<Driver>>, key: string): (r: NameMatch)
    ensures r.Found? ==>
      && r.index < |drivers| && drivers[r.index].data.name.Some?
      && Lower(drivers[r.index].data.name.value) == key
      && NamedAndDifferent(drivers, key, r.index)
    ensures r.NameMissing? ==>
      && r.index < |drivers| && drivers[r.index].data.name.None?
      && NamedAndDifferent(drivers, key, r.index)
    ensures r.NotFound? ==> NamedAndDifferent(drivers, key, |drivers|)
    decreases |drivers|
  {
    if drivers == [] then NotFound
    else match drivers[0].data.name
      case None => NameMissing(0)
      case Some(n) => if Lower(n) == key then Found(0) else Shift(FindByName(drivers[1..], key))
  }

  /** How the audit reports one load. `Crashed` is the load whose name
      search met a driver without a name. */
  datatype Verdict = Valid | Mismatch(suggestion: Option<string>) | Crashed

  /** One iteration of the audit loop, as a reference definition. */
  function Classify(l: Load, drivers: seq<Doc<Driver>>): Verdict {
    if PropertyKey(l.driverId) in Ids(drivers) then Valid
    else match FindByName(drivers, MatchKey(l))
      case Found(i) => Mismatch(Some(drivers[i].id))
      case NotFound => Mismatch(None)
      case NameMissing(_) => Crashed
  }

  /** A load is valid exactly when its `driverId` is a driver document id;
      a suggestion comes only with a mismatch, and it is the first driver
      whose lower-cased name equals the load's match key. */
  lemma ClassifyMeaning(l: Load, drivers: seq<Doc<Driver>>)
    ensures var v := Classify(l, drivers);
      && (v.Valid? <==> PropertyKey(l.driverId) in Ids(drivers))
      && (v.Mismatch? && v.suggestion.Some? ==>
        exists i :: 0 <= i < |drivers| && drivers[i].id == v.suggestion.value
          && drivers[i].data.name.Some? && Lower(drivers[i].data.name.value) == MatchKey(l)
          && NamedAndDifferent(drivers, MatchKey(l), i))
      && (v == Mismatch(None) ==> NamedAndDifferent(drivers, MatchKey(l), |drivers|))
      && (v.Crashed? ==>
        exists i :: 0 <= i < |drivers| && drivers[i].data.name.None? && NamedAndDifferent(drivers, MatchKey(l), i))
  {
    var m := FindByName(drivers, MatchKey(l));
    if m.Found? && PropertyKey(l.driverId) !in Ids(drivers) {
      assert Classify(l, drivers) == Mismatch(Some(drivers[m.index].id));
    }
  }

  /** The body of the audit loop for one load. */
  method Examine(load: Load, driverMap: map<string, DriverSummary>, drivers: seq<Doc<Driver>>)
    returns (verdict: Verdict)
    requires driverMap.Keys == Ids(drivers)
    ensures verdict == Classify(load, drivers)
  {
    var matchesDriver := PropertyKey(load.driverId) in driverMap;
    if matchesDriver {
      return Valid;
    }
    var possibleMatch := FindByName(drivers, MatchKey(load));
    if possibleMatch.NameMissing? {
      return Crashed;
    }
    verdict := Mismatch(if possibleMatch.Found? then Some(drivers[possibleMatch.index].id) else None);
  }

  function CountValid(vs: seq<Verdict>): nat {
    if vs == [] then 0 else CountValid(vs[..|vs| - 1]) + (if vs[|vs| - 1].Valid? then 1 else 0)
  }

  function CountMismatch(vs: seq<Verdict>): nat {
    if vs == [] then 0 else CountMismatch(vs[..|vs| - 1]) + (if vs[|vs| - 1].Mismatch? then 1 else 0)
  }

  lemma CountSnoc(vs: seq<Verdict>, v: Verdict)
    ensures CountValid(vs + [v]) == CountValid(vs) + (if v.Valid? then 1 else 0)
    ensures CountMismatch(vs + [v]) == CountMismatch(vs) + (if v.Mismatch? then 1 else 0)
  {
    assert (vs + [v])[..|vs|] == vs;
  }

  /** Every verdict other than `Crashed` is counted once, as valid or as
      mismatched. */
  lemma {:induction false} CountsCoverVerdicts(vs: seq<Verdict>)
    requires forall v :: v in vs ==> !v.Crashed?
    ensures CountValid(vs) + CountMismatch(vs) == |vs|
  {
    if vs != [] {
      var front := vs[..|vs| - 1];
      assert forall v :: v in front ==> v in vs;
      CountsCoverVerdicts(front);
    }
  }

  /** The audit's result: the verdicts of the loads it reached, its two
      counters, and whether it got to the summary (a thrown `TypeError`
      is caught, printed, and the script exits 0 without a summary). */
  datatype Diagnosis = Diagnosis(verdicts: seq<Verdict>, validCount: nat, mismatchCount: nat, completed: bool)

  /** The audit over a prefix of the loads, as a reference definition: it
      stops at the first load whose name search throws. */
  function Audit(loads: seq<Doc<Load>>, drivers: seq<Doc<Driver>>): Diagnosis {
    if loads == [] then Diagnosis([], 0, 0, true)
    else
      var d := Audit(loads[..|loads| - 1], drivers);
      if !d.completed then d
      else match Classify(loads[|loads| - 1].data, drivers)
        case Crashed => d.(verdicts := d.verdicts + [Crashed], completed := false)
        case Valid => d.(verdicts := d.verdicts + [Valid], validCount := d.validCount + 1)
        case Mismatch(s) => d.(verdicts := d.verdicts + [Mismatch(s)], mismatchCount := d.mismatchCount + 1)
  }

  /** Once the audit has thrown, later loads change nothing. */
  lemma {:induction false} AuditStaysCrashed(loads: seq<Doc<Load>>, drivers: seq<Doc<Driver>>, n: nat)
    requires n <= |loads| && !Audit(loads[..n], drivers).completed
    ensures Audit(loads, drivers) == Audit(loads[..n], drivers)
    decreases |loads| - n
  {
    if n < |loads| {
      assert loads[..n + 1][..n] == loads[..n];
      AuditStaysCrashed(loads, drivers, n + 1);
    } else {
      assert loads[..n] == loads;
    }
  }

  /** The audit reports one verdict per load it reached, in load order;
      a report that stops early ends with the load whose name search
      threw. */
  lemma {:induction false} AuditVerdicts(loads: seq<Doc<Load>>, drivers: seq<Doc<Driver>>)
    ensures var r := Audit(loads, drivers);
      && |r.verdicts| <= |loads|
      && (forall i :: 0 <= i < |r.verdicts| ==> r.verdicts[i] == Classify(loads[i].data, drivers))
      && (r.completed ==> |r.verdicts| == |loads|)
      && (!r.completed ==> r.verdicts != [] && r.verdicts[|r.verdicts| - 1].Crashed?)
  {
    if loads != [] {
      var front := loads[..|loads| - 1];
      AuditVerdicts(front, drivers);
      var d := Audit(front, drivers);
      if d.completed {
        var v := Classify(loads[|loads| - 1].data, drivers);
        var r := Audit(loads, drivers);
        assert r.verdicts == d.verdicts + [v] && r.completed == !v.Crashed?;
      }
      assert forall i :: 0 <= i < |front| ==> front[i] == loads[i];
    }
  }

  /** The audit completes exactly when no load's name search throws. */
  lemma {:induction false} AuditCompletes(loads: seq<Doc<Load>>, drivers: seq<Doc<Driver>>)
    ensures Audit(loads, drivers).completed <==> forall i :: 0 <= i < |loads| ==> !Classify(loads[i].data, drivers).Crashed?
  {
    if loads != [] {
      var front := loads[..|loads| - 1];
      AuditCompletes(front, drivers);
      AuditVerdicts(front, drivers);
      assert forall i :: 0 <= i < |front| ==> front[i] == loads[i];
    }
  }

  /** The counters count the verdicts and, when the audit completes, add
      up to the number of loads. */
  lemma {:induction false} AuditCounts(loads: seq<Doc<Load>>, drivers: seq<Doc<Driver>>)
    ensures var r := Audit(loads, drivers);
      && r.validCount == CountValid(r.verdicts) && r.mismatchCount == CountMismatch(r.verdicts)
      && (r.completed ==> forall v :: v in r.verdicts ==> !v.Crashed?)
      && (r.completed ==> r.validCount + r.mismatchCount == |loads|)
  {
    if loads != [] {
      var front := loads[..|loads| - 1];
      AuditCounts(front, drivers);
      AuditVerdicts(loads, drivers);
      var d := Audit(front, drivers);
      if d.completed {
        var v := Classify(loads[|loads| - 1].data, drivers);
        CountSnoc(d.verdicts, v);
        if !v.Crashed? {
          assert forall x :: x in d.verdicts + [v] ==> x in d.verdicts || x == v;
          CountsCoverVerdicts(d.verdicts + [v]);
        }
      }
    }
  }

  method DiagnoseMismatch(loads: seq<Doc<Load>>, drivers: seq<Doc<Driver>>) returns (r: Diagnosis)
    requires DistinctIds(drivers)
    ensures r == Audit(loads, drivers)
  {
    var driverMap := BuildDriverMap(drivers);
    var verdicts: seq<Verdict> := [];
    var mismatchCount, validCount := 0, 0;
    for i := 0 to |loads|
      invariant Audit(loads[..i], drivers) == Diagnosis(verdicts, validCount, mismatchCount, true)
    {
      assert loads[..i + 1][..i] == loads[..i];
      var verdict := Examine(loads[i].data, driverMap, drivers);
      verdicts := verdicts + [verdict];
      if verdict.Crashed? {
        AuditStaysCrashed(loads, drivers, i + 1);
        return Diagnosis(verdicts, validCount, mismatchCount, false);
      }
      if verdict.Valid? {
        validCount := validCount + 1;
      } else {
        mismatchCount := mismatchCount + 1;
      }
    }
    assert loads[..|loads|] == loads;
    r := Diagnosis(verdicts, validCount, mismatchCount, true);
  }
}
