/** scripts/migrate_legacy_loads.js: finds loads whose `driverId` is
    missing or blank and, in fix mode, assigns them a driver, either one
    default driver for all of them or one chosen per load from a list of
    answers. */
module Migrate {
  import opened Store

  /* ---------- Command-line options ---------- */

  const FixFlag := "--fix"
  const DefaultDriverPrefix := "--default-driver="

  /** The options the script reads from its arguments. */
  datatype Options = Options(dryRun: bool, defaultDriverId: Option<string>)

  predicate HasPrefix(s: string, prefix: string) {
    |prefix| <= |s| && s[..|prefix|] == prefix
  }

  /** `args.find(arg => arg.startsWith(prefix))`. */
  function FindPrefixed(args: seq<string>, prefix: string): (r: Option<string>)
    ensures r.Some? ==> r.value in args && HasPrefix(r.value, prefix)
    ensures r.Some? ==> exists i ::
      && 0 <= i < |args| && args[i] == r.value
      && forall k :: 0 <= k < i ==> !HasPrefix(args[k], prefix)
    ensures r.None? ==> forall a :: a in args ==> !HasPrefix(a, prefix)
  {
    if args == [] then None
    else if HasPrefix(args[0], prefix) then Some(args[0])
    else
      FindPrefixed(args[1..], prefix)
  }

  /** The text before the first `=` (all of it when there is none). */
  function UpToEquals(s: string): (r: string)
    ensures '=' !in r
    ensures HasPrefix(s, r) && (|r| == |s| || s[|r|] == '=')
  {
    if s == [] || s[0] == '=' then [] else [s[0]] + UpToEquals(s[1..])
  }

  /** `arg.split('=')[1]` for an argument that starts with the option's
      prefix, whose only `=` before the value is the prefix's last
      character. */
  function DefaultDriverValue(arg: string): string
    requires HasPrefix(arg, DefaultDriverPrefix)
  {
    UpToEquals(arg[|DefaultDriverPrefix|..])
  }

  function ParseArgs(args: seq<string>): (opts: Options)
    ensures opts.dryRun <==> FixFlag !in args
    ensures opts.defaultDriverId.Some? <==> exists a :: a in args && HasPrefix(a, DefaultDriverPrefix)
  {
    var arg := FindPrefixed(args, DefaultDriverPrefix);
    Options(FixFlag !in args, if arg.Some? then Some(DefaultDriverValue(arg.value)) else None)
  }

  /** A driver id without `=` given as `--default-driver=<id>` after
      `--fix` is read back as it was written. */
  lemma ParseArgsRoundTrip(id: string)
    requires '=' !in id
    ensures ParseArgs([FixFlag, DefaultDriverPrefix + id]) == Options(false, Some(id))
  {
    var arg := DefaultDriverPrefix + id;
    var args := [FixFlag, arg];
    assert arg[..|DefaultDriverPrefix|] == DefaultDriverPrefix;
    assert !HasPrefix(FixFlag, DefaultDriverPrefix);
    assert args[1..] == [arg];
    assert FindPrefixed(args, DefaultDriverPrefix) == Some(arg);
    assert FixFlag in args;
    assert arg[|DefaultDriverPrefix|..] == id;
    UpToEqualsWhole(id);
  }

  lemma {:induction false} UpToEqualsWhole(s: string)
    requires '=' !in s
    ensures UpToEquals(s) == s
  {
    if s != [] {
      assert s == [s[0]] + s[1..];
      UpToEqualsWhole(s[1..]);
    }
  }

  /* ---------- Drivers ---------- */

  /** An entry of the driver list offered to the operator. */
  datatype DriverChoice = DriverChoice(id: string, name: string, truckNumber: string, isActive: bool)

  function ChoiceOf(d: Doc<Driver>): (c: DriverChoice)
    ensures c.id == d.id
    ensures c.name != "" && (Truthy(d.data.name) ==> c.name == d.data.name.value)
    ensures !Truthy(d.data.name) ==> c.name == "Unknown"
    ensures c.truckNumber != "" && (Truthy(d.data.truckNumber) ==> c.truckNumber == d.data.truckNumber.value)
    ensures !Truthy(d.data.truckNumber) ==> c.truckNumber == "N/A"
    ensures c.isActive <==> d.data.isActive != Some(false)
  {
    DriverChoice(d.id, Or(d.data.name, "Unknown"), Or(d.data.truckNumber, "N/A"), d.data.isActive != Some(false))
  }

  function Choices(docs: seq<Doc<Driver>>): (r: seq<DriverChoice>)
    ensures |r| == |docs|
  {
    seq(|docs|, i requires 0 <= i < |docs| => ChoiceOf(docs[i]))
  }

  /** `getDriversList`: one entry per driver document, in snapshot order. */
  method GetDriversList(driverDocs: seq<Doc<Driver>>) returns (drivers: seq<DriverChoice>)
    ensures drivers == Choices(driverDocs)
  {
    drivers := [];
    for i := 0 to |driverDocs|
      invariant drivers == Choices(driverDocs[..i])
    {
      var doc := driverDocs[i];
      var data := doc.data;
      drivers := drivers + [DriverChoice(doc.id, Or(data.name, "Unknown"), Or(data.truckNumber, "N/A"), data.isActive != Some(false))];
    }
    assert driverDocs[..|driverDocs|] == driverDocs;
  }

  /* ---------- Legacy loads ---------- */

  /** The characters `String.prototype.trim` removes: white space and line
      terminators. */
  predicate IsJsWhitespace(c: char) {
    || c == '\t' || c == '\n' || c == '\U{B}' || c == '\U{C}' || c == '\r' || c == ' '
    || c == '\U{A0}' || c == '\U{1680}' || ('\U{2000}' <= c <= '\U{200A}')
    || c == '\U{2028}' || c == '\U{2029}' || c == '\U{202F}' || c == '\U{205F}'
    || c == '\U{3000}' || c == '\U{FEFF}'
  }

  predicate Blank(s: string) {
    forall i :: 0 <= i < |s| ==> IsJsWhitespace(s[i])
  }

  function TrimStart(s: string): (r: string)
    ensures |r| <= |s| && r == s[|s| - |r|..]
    ensures forall k :: 0 <= k < |s| - |r| ==> IsJsWhitespace(s[k])
    ensures r == [] || !IsJsWhitespace(r[0])
  {
    if s != [] && IsJsWhitespace(s[0]) then
      var r := TrimStart(s[1..]);
      assert s[1..][|s| - 1 - |r|..] == s[|s| - |r|..];
      assert forall k :: 1 <= k < |s| - |r| ==> s[k] == s[1..][k - 1];
      r
    else
      assert s[0..] == s;
      s
  }

  function TrimEnd(s: string): (r: string)
    ensures |r| <= |s| && r == s[..|r|]
    ensures forall k :: |r| <= k < |s| ==> IsJsWhitespace(s[k])
    ensures r == [] || !IsJsWhitespace(r[|r| - 1])
  {
    if s != [] && IsJsWhitespace(s[|s| - 1]) then
      var r := TrimEnd(s[..|s| - 1]);
      assert s[..|s| - 1][..|r|] == s[..|r|];
      r
    else
      assert s[..|s|] == s;
      s
  }

  function Trim(s: string): string {
    TrimEnd(TrimStart(s))
  }

  /** `trim()` gives the empty string exactly for strings of white space. */
  lemma TrimEmptyIffBlank(s: string)
    ensures Trim(s) == "" <==> Blank(s)
  {
  }

  /** The check of `findLegacyLoads`. */
  predicate IsLegacy(l: Load) {
    !Truthy(l.driverId) || Trim(l.driverId.value) == ""
  }

  /** A load is legacy exactly when its `driverId` is absent or consists
      of white space only (the empty string included). */
  lemma LegacyMeaning(l: Load)
    ensures IsLegacy(l) <==> l.driverId.None? || Blank(l.driverId.value)
  {
    if l.driverId.Some? {
      TrimEmptyIffBlank(l.driverId.value);
    }
  }

  /** The summary `findLegacyLoads` keeps of a legacy load. */
  datatype LegacyLoad = LegacyLoad(id: string, loadNumber: string, status: string, driverName: Option<string>)

  function LegacyOf(d: Doc<Load>): LegacyLoad {
    LegacyLoad(d.id, Or(d.data.loadNumber, "N/A"), Or(d.data.status, "unknown"),
               if Truthy(d.data.driverName) then d.data.driverName else None)
  }

  function LegacyIds(legacy: seq<LegacyLoad>): set<string> {
    set k | 0 <= k < |legacy| :: legacy[k].id
  }

  /** The legacy loads of a snapshot, in snapshot order. */
  function LegacyLoads(loads: seq<Doc<Load>>): (r: seq<LegacyLoad>)
    ensures |r| <= |loads|
  {
    if loads == [] then []
    else
      var last := loads[|loads| - 1];
      LegacyLoads(loads[..|loads| - 1]) + (if IsLegacy(last.data) then [LegacyOf(last)] else [])
  }

  /** The ids of the legacy loads of a snapshot. */
  ghost function LegacyIdsOf(loads: seq<Doc<Load>>): set<string> {
    set i | 0 <= i < |loads| && IsLegacy(loads[i].data) :: loads[i].id
  }

  lemma LegacyIdsOfSnoc(loads: seq<Doc<Load>>)
    requires loads != []
    ensures LegacyIdsOf(loads) == LegacyIdsOf(loads[..|loads| - 1])
      + (if IsLegacy(loads[|loads| - 1].data) then {loads[|loads| - 1].id} else {})
  {
    var front := loads[..|loads| - 1];
    assert forall i :: 0 <= i < |front| ==> loads[i] == front[i];
  }

  lemma LegacyIdsSnoc(f: seq<LegacyLoad>, x: LegacyLoad)
    ensures LegacyIds(f + [x]) == LegacyIds(f) + {x.id}
  {
    var r := f + [x];
    assert forall k :: 0 <= k < |f| ==> r[k] == f[k];
    assert r[|f|] == x;
  }

  /** The ids of the entries `findLegacyLoads` returns are exactly the ids
      of the legacy loads. */
  lemma {:induction false} LegacyLoadsIds(loads: seq<Doc<Load>>)
    ensures LegacyIds(LegacyLoads(loads)) == LegacyIdsOf(loads)
  {
    if loads != [] {
      var front, last := loads[..|loads| - 1], loads[|loads| - 1];
      LegacyLoadsIds(front);
      LegacyIdsOfSnoc(loads);
      if IsLegacy(last.data) {
        assert LegacyLoads(loads) == LegacyLoads(front) + [LegacyOf(last)];
        LegacyIdsSnoc(LegacyLoads(front), LegacyOf(last));
      } else {
        assert LegacyLoads(loads) == LegacyLoads(front) + [];
        assert LegacyLoads(front) + [] == LegacyLoads(front);
      }
    }
  }

  lemma NoIdsNoEntries(legacy: seq<LegacyLoad>)
    ensures LegacyIds(legacy) == {} ==> legacy == []
  {
    if legacy != [] {
      assert legacy[0].id in LegacyIds(legacy);
    }
  }

  /** Distinct loads give distinct legacy entries. */
  lemma {:induction false} LegacyIdsDistinct(loads: seq<Doc<Load>>)
    requires DistinctIds(loads)
    ensures forall a, b :: 0 <= a < b < |LegacyLoads(loads)| ==> LegacyLoads(loads)[a].id != LegacyLoads(loads)[b].id
  {
    if loads != [] {
      var front, last := loads[..|loads| - 1], loads[|loads| - 1];
      assert forall i :: 0 <= i < |front| ==> front[i] == loads[i];
      LegacyIdsDistinct(front);
      LegacyLoadsIds(front);
      var f, r := LegacyLoads(front), LegacyLoads(loads);
      if IsLegacy(last.data) {
        assert r == f + [LegacyOf(last)];
        assert forall i :: 0 <= i < |front| ==> front[i].id != last.id;
        assert last.id !in LegacyIds(f);
        forall a, b | 0 <= a < b < |r| ensures r[a].id != r[b].id {
          assert r[a] == f[a];
          if b == |f| {
            assert f[a].id in LegacyIds(f);
          } else {
            assert r[b] == f[b];
          }
        }
      } else {
        assert r == f + [] == f;
      }
    }
  }

  /** `findLegacyLoads`: one entry pushed per legacy load. */
  method FindLegacyLoads(loads: seq<Doc<Load>>) returns (legacy: seq<LegacyLoad>)
    ensures legacy == LegacyLoads(loads)
  {
    legacy := [];
    for i := 0 to |loads|
      invariant legacy == LegacyLoads(loads[..i])
    {
      assert loads[..i + 1][..i] == loads[..i];
      var doc := loads[i];
      var data := doc.data;
      if !Truthy(data.driverId) || Trim(data.driverId.value) == "" {
        legacy := legacy + [LegacyLoad(doc.id, Or(data.loadNumber, "N/A"), Or(data.status, "unknown"),
                                       if Truthy(data.driverName) then data.driverName else None)];
      }
    }
    assert loads[..|loads|] == loads;
  }

  /* ---------- Writes ---------- */

  /** The fields `fixLoad` writes: `driverId` always, `driverName` only when
      a non-empty name is given. */
  function FixPatch(driverId: string, driverName: string): (p: Patch)
    ensures p.driverId == driverId
    ensures p.driverName.Some? <==> driverName != ""
    ensures p.driverName.Some? ==> p.driverName.value == driverName
  {
    Patch(driverId, if driverName != "" then Some(driverName) else None)
  }

  /** `fixLoad`: one `update` of one load document. */
  function FixLoad(loads: seq<Doc<Load>>, loadId: string, driverId: string, driverName: string): (r: seq<Doc<Load>>)
    ensures |r| == |loads|
    ensures forall i :: 0 <= i < |loads| && loads[i].id != loadId ==> r[i] == loads[i]
    ensures forall i :: 0 <= i < |loads| && loads[i].id == loadId ==>
      && r[i].id == loadId
      && r[i].data.driverId == Some(driverId)
      && r[i].data.driverName == (if driverName != "" then Some(driverName) else loads[i].data.driverName)
      && r[i].data.(driverId := loads[i].data.driverId, driverName := loads[i].data.driverName) == loads[i].data
  {
    var batch := [Update(loadId, FixPatch(driverId, driverName))];
    assert forall d :: ApplyBatchTo(d, batch) == if d.id == loadId then Doc(d.id, ApplyPatch(d.data, batch[0].patch)) else d by {
      assert batch[1..] == [];
    }
    Commit(loads, batch)
  }

  /* ---------- Interactive mode ---------- */

  /** How one parsed answer is dispatched: -1 exits, 0 skips, `1..n` picks a
      driver, anything else (unparsable input included) is rejected and
      the load is skipped. */
  datatype Choice = Exit | Skip | Assign(index: nat) | Invalid

  function Dispatch(answer: Option<int>, n: nat): (c: Choice)
    ensures c == Exit <==> answer == Some(-1)
    ensures c == Skip <==> answer == Some(0)
    ensures c.Assign? <==> answer.Some? && 1 <= answer.value <= n
    ensures c.Assign? ==> c.index == answer.value - 1 && c.index < n
  {
    match answer
    case None => Invalid
    case Some(choice) =>
      if choice == -1 then Exit
      else if choice == 0 then Skip
      else if choice > 0 && choice <= n then Assign(choice - 1)
      else Invalid
  }

  /** `u` is the update that answer `answer` issues for `load`. */
  predicate AssignedBy(u: Update, load: LegacyLoad, drivers: seq<DriverChoice>, answer: Option<int>) {
    var c := Dispatch(answer, |drivers|);
    c.Assign? && u == Update(load.id, FixPatch(drivers[c.index].id, drivers[c.index].name))
  }

  /** The updates an interactive session issues, in order. It ends at the
      first -1, or when the answers run out. */
  function InteractivePlan(legacy: seq<LegacyLoad>, drivers: seq<DriverChoice>, answers: seq<Option<int>>): (plan: seq<Update>)
    ensures |plan| <= |legacy|
    ensures forall u :: u in plan ==>
      exists k :: 0 <= k < |legacy| && k < |answers| && AssignedBy(u, legacy[k], drivers, answers[k])
  {
    if legacy == [] || answers == [] then []
    else
      var rest := InteractivePlan(legacy[1..], drivers, answers[1..]);
      assert forall u :: u in rest ==>
        exists k :: 1 <= k < |legacy| && k < |answers| && AssignedBy(u, legacy[k], drivers, answers[k]) by {
        forall u | u in rest
          ensures exists k :: 1 <= k < |legacy| && k < |answers| && AssignedBy(u, legacy[k], drivers, answers[k])
        {
          var k :| 0 <= k < |legacy| - 1 && k < |answers| - 1 && AssignedBy(u, legacy[1..][k], drivers, answers[1..][k]);
          assert legacy[1..][k] == legacy[k + 1] && answers[1..][k] == answers[k + 1];
        }
      }
      match Dispatch(answers[0], |drivers|)
      case Exit => []
      case Assign(j) => [Update(legacy[0].id, FixPatch(drivers[j].id, drivers[j].name))] + rest
      case _ => rest
  }

  /** An answer that picks driver `j`, with no -1 before it, issues its
      load's update to driver `j`. */
  lemma {:induction false} ChosenDriverAssigned(legacy: seq<LegacyLoad>, drivers: seq<DriverChoice>,
                                                answers: seq<Option<int>>, k: nat)
    requires k < |legacy| && k < |answers| && Dispatch(answers[k], |drivers|).Assign?
    requires forall m :: 0 <= m < k ==> answers[m] != Some(-1)
    ensures var j := answers[k].value - 1;
      Update(legacy[k].id, FixPatch(drivers[j].id, drivers[j].name)) in InteractivePlan(legacy, drivers, answers)
  {
    if k > 0 {
      assert answers[0] != Some(-1);
      ChosenDriverAssigned(legacy[1..], drivers, answers[1..], k - 1);
    }
  }

  /** No two updates of a plan address the same document. */
  predicate DistinctUpdateIds(plan: seq<Update>) {
    forall a, b :: 0 <= a < b < |plan| ==> plan[a].id != plan[b].id
  }

  /** Loads with distinct ids get distinct updates: no load is updated
      twice. */
  lemma {:induction false} PlanIdsDistinct(legacy: seq<LegacyLoad>, drivers: seq<DriverChoice>, answers: seq<Option<int>>)
    requires forall a, b :: 0 <= a < b < |legacy| ==> legacy[a].id != legacy[b].id
    ensures DistinctUpdateIds(InteractivePlan(legacy, drivers, answers))
  {
    if legacy != [] && answers != [] {
      var rest := InteractivePlan(legacy[1..], drivers, answers[1..]);
      PlanIdsDistinct(legacy[1..], drivers, answers[1..]);
      forall u | u in rest ensures u.id != legacy[0].id {
        var k :| 0 <= k < |legacy| - 1 && k < |answers| - 1 && AssignedBy(u, legacy[1..][k], drivers, answers[1..][k]);
        assert legacy[1..][k] == legacy[k + 1];
      }
      var plan := InteractivePlan(legacy, drivers, answers);
      if Dispatch(answers[0], |drivers|).Assign? {
        assert plan[0].id == legacy[0].id && plan[1..] == rest;
        forall a, b | 0 <= a < b < |plan| ensures plan[a].id != plan[b].id {
          assert plan[b] == rest[b - 1] && plan[b] in rest;
          if a > 0 {
            assert plan[a] == rest[a - 1] && rest[a - 1].id != rest[b - 1].id;
          }
        }
      } else {
        assert plan == rest || plan == [];
      }
    }
  }

  /** An answer of -1 ends the session: the loads from that one on get no
      update. */
  lemma {:induction false} ExitLeavesRestUntouched(legacy: seq<LegacyLoad>, drivers: seq<DriverChoice>,
                                                   answers: seq<Option<int>>, k: nat)
    requires k < |legacy| && k < |answers| && answers[k] == Some(-1)
    ensures InteractivePlan(legacy, drivers, answers) == InteractivePlan(legacy[..k], drivers, answers[..k])
  {
    if k > 0 {
      ExitLeavesRestUntouched(legacy[1..], drivers, answers[1..], k - 1);
      assert legacy[1..][..k - 1] == legacy[..k][1..];
      assert answers[1..][..k - 1] == answers[..k][1..];
    }
  }

  /** A load answered with 0 or with a rejected choice gets no update. */
  lemma SkippedLoadNotUpdated(legacy: seq<LegacyLoad>, drivers: seq<DriverChoice>, answers: seq<Option<int>>, k: nat)
    requires forall a, b :: 0 <= a < b < |legacy| ==> legacy[a].id != legacy[b].id
    requires k < |legacy| && k < |answers| && !Dispatch(answers[k], |drivers|).Assign?
    ensures forall u :: u in InteractivePlan(legacy, drivers, answers) ==> u.id != legacy[k].id
  {
    forall u | u in InteractivePlan(legacy, drivers, answers) ensures u.id != legacy[k].id {
      var k' :| 0 <= k' < |legacy| && k' < |answers| && AssignedBy(u, legacy[k'], drivers, answers[k']);
      assert k' != k;
    }
  }

  /** `interactiveFix`: the loop over the legacy loads, one answer each. */
  method InteractiveFix(loads: seq<Doc<Load>>, legacy: seq<LegacyLoad>, drivers: seq<DriverChoice>,
                        answers: seq<Option<int>>)
    returns (loadsAfter: seq<Doc<Load>>)
    ensures loadsAfter == Commit(loads, InteractivePlan(legacy, drivers, answers))
  {
    loadsAfter := loads;
    var k := 0;
    while k < |legacy|
      invariant k <= |legacy| && k <= |answers|
      invariant Commit(loadsAfter, InteractivePlan(legacy[k..], drivers, answers[k..]))
        == Commit(loads, InteractivePlan(legacy, drivers, answers))
    {
      if k >= |answers| {
        // the input has ended: no further answer arrives
        assert Commit(loadsAfter, []) == loadsAfter;
        break;
      }
      var load := legacy[k];
      var choice := Dispatch(answers[k], |drivers|);
      assert legacy[k..][1..] == legacy[k + 1..] && answers[k..][1..] == answers[k + 1..];
      if choice == Exit {
        assert Commit(loadsAfter, []) == loadsAfter;
        break;
      } else if choice == Skip {
        k := k + 1;
        continue;
      } else if choice.Assign? {
        var selectedDriver := drivers[choice.index];
        var u := Update(load.id, FixPatch(selectedDriver.id, selectedDriver.name));
        CommitSplit(loadsAfter, [u], InteractivePlan(legacy[k + 1..], drivers, answers[k + 1..]));
        loadsAfter := FixLoad(loadsAfter, load.id, selectedDriver.id, selectedDriver.name);
      }
      k := k + 1;
    }
    if k == |legacy| {
      assert Commit(loadsAfter, []) == loadsAfter;
    }
  }

  /* ---------- Default-driver mode ---------- */

  /** One update per legacy load, all to the same driver. */
  function AssignPlan(legacy: seq<LegacyLoad>, driver: DriverChoice): seq<Update>
  {
    seq(|legacy|, k requires 0 <= k < |legacy| => Update(legacy[k].id, FixPatch(driver.id, driver.name)))
  }

  method AssignAll(loads: seq<Doc<Load>>, legacy: seq<LegacyLoad>, defaultDriver: DriverChoice)
    returns (loadsAfter: seq<Doc<Load>>)
    ensures loadsAfter == Commit(loads, AssignPlan(legacy, defaultDriver))
  {
    loadsAfter := loads;
    assert Commit(loads, []) == loads;
    for k := 0 to |legacy|
      invariant loadsAfter == Commit(loads, AssignPlan(legacy[..k], defaultDriver))
    {
      var u := Update(legacy[k].id, FixPatch(defaultDriver.id, defaultDriver.name));
      assert AssignPlan(legacy[..k + 1], defaultDriver) == AssignPlan(legacy[..k], defaultDriver) + [u];
      CommitSplit(loads, AssignPlan(legacy[..k], defaultDriver), [u]);
      loadsAfter := FixLoad(loadsAfter, legacy[k].id, defaultDriver.id, defaultDriver.name);
    }
    assert legacy[..|legacy|] == legacy;
  }

  /** The default-driver plan addresses exactly the legacy entries' ids. */
  lemma AssignPlanAddresses(legacy: seq<LegacyLoad>, driver: DriverChoice, id: string)
    ensures (exists u :: u in AssignPlan(legacy, driver) && u.id == id) <==> id in LegacyIds(legacy)
  {
    var plan := AssignPlan(legacy, driver);
    if id in LegacyIds(legacy) {
      var k :| 0 <= k < |legacy| && legacy[k].id == id;
      assert plan[k] in plan;
    }
  }

  /** With distinct document ids, a load's id is a legacy id exactly when
      that load is legacy. */
  lemma LegacyIdOfLoad(loads: seq<Doc<Load>>, i: nat)
    requires DistinctIds(loads) && i < |loads|
    ensures loads[i].id in LegacyIdsOf(loads) <==> IsLegacy(loads[i].data)
  {
    if loads[i].id in LegacyIdsOf(loads) {
      var j :| 0 <= j < |loads| && IsLegacy(loads[j].data) && loads[j].id == loads[i].id;
      assert j == i;
    }
  }

  /** The default-driver plan reaches one load: it patches a legacy load
      once and passes over any other. */
  lemma AssignPlanReaches(loads: seq<Doc<Load>>, driver: DriverChoice, i: nat)
    requires DistinctIds(loads) && i < |loads|
    ensures ApplyBatchTo(loads[i], AssignPlan(LegacyLoads(loads), driver))
      == if IsLegacy(loads[i].data) then Doc(loads[i].id, ApplyPatch(loads[i].data, FixPatch(driver.id, driver.name)))
         else loads[i]
  {
    var legacy := LegacyLoads(loads);
    SamePatchApplied(loads[i], AssignPlan(legacy, driver), FixPatch(driver.id, driver.name));
    AssignPlanAddresses(legacy, driver, loads[i].id);
    LegacyLoadsIds(loads);
    LegacyIdOfLoad(loads, i);
  }

  /** Committing the default-driver plan gives every legacy load that
      driver's id (and name) and leaves every other load as it was. */
  lemma AssignPlanCommitted(loads: seq<Doc<Load>>, driver: DriverChoice)
    requires DistinctIds(loads)
    ensures var after := Commit(loads, AssignPlan(LegacyLoads(loads), driver));
      forall i :: 0 <= i < |loads| ==>
        after[i] == if IsLegacy(loads[i].data) then Doc(loads[i].id, ApplyPatch(loads[i].data, FixPatch(driver.id, driver.name)))
                    else loads[i]
    ensures var after := Commit(loads, AssignPlan(LegacyLoads(loads), driver));
      driver.name != "" ==> forall i :: 0 <= i < |loads| && IsLegacy(loads[i].data) ==>
        after[i].data == loads[i].data.(driverId := Some(driver.id), driverName := Some(driver.name))
  {
    forall i | 0 <= i < |loads| {
      AssignPlanReaches(loads, driver, i);
    }
  }

  /** After the default driver is assigned, a new scan finds no legacy
      load, provided the driver's id is not blank. */
  lemma DefaultAssignmentClearsLegacy(loads: seq<Doc<Load>>, driver: DriverChoice)
    requires !Blank(driver.id)
    ensures LegacyLoads(Commit(loads, AssignPlan(LegacyLoads(loads), driver))) == []
  {
    var legacy := LegacyLoads(loads);
    var plan := AssignPlan(legacy, driver);
    var after := Commit(loads, plan);
    forall u | u in plan ensures u.patch.driverId == driver.id {
    }
    LegacyLoadsIds(loads);
    forall i | 0 <= i < |after| ensures !IsLegacy(after[i].data) {
      LegacyMeaning(after[i].data);
      if IsLegacy(loads[i].data) {
        assert loads[i].id in LegacyIds(legacy);
        var k :| 0 <= k < |legacy| && legacy[k].id == loads[i].id;
        assert plan[k] in plan;
        LastDriverIdWins(loads[i], plan, driver.id);
      } else if exists u :: u in plan && u.id == loads[i].id {
        LastDriverIdWins(loads[i], plan, driver.id);
      }
    }
    LegacyLoadsIds(after);
    NoIdsNoEntries(LegacyLoads(after));
  }

  /* ---------- The script ---------- */

  /** How a run ends: its exit code and the `loads` collection afterwards. */
  datatype Outcome = Outcome(exitCode: int, loads: seq<Doc<Load>>)

  /** The position `drivers.find(d => d.id === id)` returns. */
  function FindDriver(drivers: seq<DriverChoice>, id: string): (r: Option<nat>)
    ensures r.Some? ==>
      && r.value < |drivers| && drivers[r.value].id == id
      && forall k :: 0 <= k < r.value ==> drivers[k].id != id
    ensures r.None? ==> forall k :: 0 <= k < |drivers| ==> drivers[k].id != id
  {
    if drivers == [] then None
    else if drivers[0].id == id then Some(0)
    else
      var r := FindDriver(drivers[1..], id);
      if r.Some? then Some(r.value + 1) else None
  }

  /** `main`, with the operator's answers as an input. */
  method RunMigration(args: seq<string>, loads: seq<Doc<Load>>, driverDocs: seq<Doc<Driver>>, answers: seq<Option<int>>)
    returns (out: Outcome)
    ensures LegacyLoads(loads) == [] ==> out == Outcome(0, loads)
    ensures ParseArgs(args).dryRun ==> out == Outcome(0, loads)
    ensures LegacyLoads(loads) != [] && !ParseArgs(args).dryRun && driverDocs == [] ==> out == Outcome(1, loads)
    ensures LegacyLoads(loads) != [] && !ParseArgs(args).dryRun && driverDocs != [] ==>
      var legacy, drivers, opts := LegacyLoads(loads), Choices(driverDocs), ParseArgs(args);
      if Truthy(opts.defaultDriverId) then
        match FindDriver(drivers, opts.defaultDriverId.value)
        case None => out == Outcome(1, loads)
        case Some(j) => out == Outcome(0, Commit(loads, AssignPlan(legacy, drivers[j])))
      else
        out == Outcome(0, Commit(loads, InteractivePlan(legacy, drivers, answers)))
  {
    var opts := ParseArgs(args);
    var legacyLoads := FindLegacyLoads(loads);
    if |legacyLoads| == 0 {
      return Outcome(0, loads);
    }
    if opts.dryRun {
      return Outcome(0, loads);
    }
    var drivers := GetDriversList(driverDocs);
    if |drivers| == 0 {
      return Outcome(1, loads);
    }
    if Truthy(opts.defaultDriverId) {
      var found := FindDriver(drivers, opts.defaultDriverId.value);
      if found.None? {
        return Outcome(1, loads);
      }
      var after := AssignAll(loads, legacyLoads, drivers[found.value]);
      return Outcome(0, after);
    }
    var after := InteractiveFix(loads, legacyLoads, drivers, answers);
    out := Outcome(0, after);
  }
}
