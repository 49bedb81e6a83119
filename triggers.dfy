/** The Cloud Functions of functions/index.js: the two load-create
    handlers, the two load-update handlers and the two scheduled jobs.
    Each takes the snapshots it reads as parameters and returns the push
    messages it sends and the records it writes. */
module Triggers {
  import opened Store

  const Delivered := "delivered"
  const LoadNumberRequired := "Load number required"
  const ValidRateRequired := "Valid rate required"

  /** Location history older than this many milliseconds is purged. */
  const RetentionMs := 30 * 24 * 60 * 60 * 1000
  /** The cleanup query's `limit`. */
  const CleanupPage := 500

  /** The structured `data` part of a push message. */
  datatype Payload = Payload(kind: string, loadId: string, status: Option<string>, loadNumber: Option<string>)

  /** A push message: the device token it goes to, its title and its data
      envelope (absent for overdue reminders). */
  datatype Message = Message(token: string, title: string, data: Option<Payload>)

  // ---------------------------------------------------------------------
  // Guards

  /** The status-change handler acts only when `status` differs. */
  predicate StatusChanged(before: Load, after: Load) {
    before.status != after.status
  }

  /** The earnings handler acts only on a transition into `delivered`
      of a load that names a driver. */
  predicate EarningsTriggered(before: Load, after: Load) {
    after.status == Some(Delivered) && before.status != Some(Delivered) && Truthy(after.driverId)
  }

  /** The device token of the user a load's `driverId` names, when that
      user document exists and has a truthy `fcmToken`. */
  function DriverToken(l: Load, users: map<string, User>): Option<string> {
    if Truthy(l.driverId) && l.driverId.value in users && Truthy(users[l.driverId.value].fcmToken) then
      users[l.driverId.value].fcmToken
    else
      None
  }

  // ---------------------------------------------------------------------
  // notifyLoadStatusChange

  method NotifyLoadStatusChange(loadId: string, before: Load, after: Load, users: map<string, User>)
    returns (notifications: seq<Message>)
    ensures !StatusChanged(before, after) ==> notifications == []
    ensures |notifications| <= 1
    ensures |notifications| == 1 <==>
      StatusChanged(before, after) && Truthy(after.driverId)
      && after.driverId.value in users && Truthy(users[after.driverId.value].fcmToken)
    ensures forall m :: m in notifications ==>
      && after.driverId.Some? && after.driverId.value in users
      && users[after.driverId.value].fcmToken == Some(m.token)
      && m.title == "Load Status Updated"
      && m.data == Some(Payload("status_change", loadId, after.status, after.loadNumber))
  {
    if before.status == after.status {
      return [];
    }
    notifications := [];
    if Truthy(after.driverId) {
      var driverData := if after.driverId.value in users then Some(users[after.driverId.value]) else None;
      if driverData.Some? && Truthy(driverData.value.fcmToken) {
        var payload := Payload("status_change", loadId, after.status, after.loadNumber);
        notifications := notifications + [Message(driverData.value.fcmToken.value, "Load Status Updated", Some(payload))];
      }
    }
  }

  // ---------------------------------------------------------------------
  // notifyNewLoad

  predicate IsDriverWithToken(u: User) {
    u.role == Some("driver") && Truthy(u.fcmToken)
  }

  /** Reference count of the users a broadcast must reach. */
  function CountDriversWithToken(users: seq<Doc<User>>): nat {
    if users == [] then 0
    else (if IsDriverWithToken(users[0].data) then 1 else 0) + CountDriversWithToken(users[1..])
  }

  /** The tokens of the driver-role users that have one, in snapshot
      order, one per user (a token shared by two users appears twice). */
  function DriverTokens(users: seq<Doc<User>>): (tokens: seq<string>)
    ensures |tokens| == CountDriversWithToken(users)
  {
    if users == [] then []
    else (if IsDriverWithToken(users[0].data) then [users[0].data.fcmToken.value] else []) + DriverTokens(users[1..])
  }

  /** The `where('role', '==', 'driver')` query, then filter on a token,
      then one message per remaining user. */
  function NotifyNewLoad(loadId: string, l: Load, users: seq<Doc<User>>): (messages: seq<Message>)
    ensures |messages| == CountDriversWithToken(users)
    ensures forall k :: 0 <= k < |messages| ==>
      messages[k] == Message(DriverTokens(users)[k], "New Load Available", Some(Payload("new_load", loadId, None, l.loadNumber)))
  {
    if users == [] then []
    else
      var rest := NotifyNewLoad(loadId, l, users[1..]);
      var u := users[0].data;
      if IsDriverWithToken(u) then
        [Message(u.fcmToken.value, "New Load Available", Some(Payload("new_load", loadId, None, l.loadNumber)))] + rest
      else
        rest
  }

  /** Every broadcast message carries the new-load title and payload and
      goes to a driver-role user with a token, and every such user gets
      one. */
  lemma {:induction false} NewLoadReachesDrivers(loadId: string, l: Load, users: seq<Doc<User>>)
    ensures forall m :: m in NotifyNewLoad(loadId, l, users) ==>
      && m.title == "New Load Available"
      && m.data == Some(Payload("new_load", loadId, None, l.loadNumber))
      && exists u :: u in users && IsDriverWithToken(u.data) && u.data.fcmToken == Some(m.token)
    ensures forall u :: u in users && IsDriverWithToken(u.data) ==>
      exists m :: m in NotifyNewLoad(loadId, l, users) && Some(m.token) == u.data.fcmToken
  {
    if users != [] {
      NewLoadReachesDrivers(loadId, l, users[1..]);
      var u := users[0].data;
      var head := if IsDriverWithToken(u) then [Message(u.fcmToken.value, "New Load Available", Some(Payload("new_load", loadId, None, l.loadNumber)))] else [];
      var all, rest := NotifyNewLoad(loadId, l, users), NotifyNewLoad(loadId, l, users[1..]);
      assert all == head + rest;
      assert forall x :: x in users[1..] ==> x in users;
      forall x | x in users && IsDriverWithToken(x.data)
        ensures exists m :: m in all && Some(m.token) == x.data.fcmToken
      {
        if x == users[0] {
          assert head[0] in all;
        } else {
          assert x in users[1..];
          var m :| m in rest && Some(m.token) == x.data.fcmToken;
          assert m in all;
        }
      }
    }
  }

  // ---------------------------------------------------------------------
  // calculateEarnings

  /** `driverDoc.data()?.totalEarnings || 0`: NaN, zero and absence all read as 0. */
  function EarningsOrZero(d: Driver): int {
    match d.totalEarnings
    case Some(Int(v)) => v
    case _ => 0
  }

  /** `FieldValue.increment(1)` reads an absent counter as 0. */
  function CompletedOrZero(d: Driver): int {
    match d.completedLoads
    case Some(n) => n
    case None => 0
  }

  /** The driver record after one credited delivery. An absent rate
      makes the sum NaN. */
  function Credit(d: Driver, rate: Option<int>): (r: Driver)
    ensures rate.Some? ==> r.totalEarnings == Some(Int(EarningsOrZero(d) + rate.value))
    ensures rate.None? ==> r.totalEarnings == Some(NaN)
    ensures CompletedOrZero(r) == CompletedOrZero(d) + 1
    ensures r.(totalEarnings := d.totalEarnings, completedLoads := d.completedLoads) == d
  {
    var total := if rate.Some? then Int(EarningsOrZero(d) + rate.value) else NaN;
    d.(totalEarnings := Some(total), completedLoads := Some(CompletedOrZero(d) + 1))
  }

  /** Read the driver, add the rate, write both fields back. `failed` is
      the update of a driver document that does not exist. */
  method CalculateEarnings(before: Load, after: Load, drivers: map<string, Driver>)
    returns (driversAfter: map<string, Driver>, failed: bool)
    ensures !EarningsTriggered(before, after) ==> driversAfter == drivers && !failed
    ensures failed <==> EarningsTriggered(before, after) && after.driverId.value !in drivers
    ensures failed ==> driversAfter == drivers
    ensures EarningsTriggered(before, after) && after.driverId.value in drivers ==>
      var id := after.driverId.value;
      && driversAfter.Keys == drivers.Keys
      && driversAfter[id] == Credit(drivers[id], after.rate)
      && forall k :: k in drivers && k != id ==> driversAfter[k] == drivers[k]
  {
    driversAfter, failed := drivers, false;
    if after.status == Some(Delivered) && before.status != Some(Delivered) && Truthy(after.driverId) {
      var id := after.driverId.value;
      if id !in drivers {
        failed := true;
        return;
      }
      var driver := drivers[id];
      var current := EarningsOrZero(driver);
      var total := if after.rate.Some? then Int(current + after.rate.value) else NaN;
      driversAfter := drivers[id := driver.(totalEarnings := Some(total), completedLoads := Some(CompletedOrZero(driver) + 1))];
    }
  }

  /** A redelivered (before, after) event is credited again: nothing in
      the handler records that the load was already counted. */
  lemma ReplayCreditsTwice(before: Load, after: Load, d: Driver, rate: int)
    requires EarningsTriggered(before, after) && after.rate == Some(rate)
    ensures Credit(Credit(d, after.rate), after.rate).totalEarnings == Some(Int(EarningsOrZero(d) + 2 * rate))
    ensures CompletedOrZero(Credit(Credit(d, after.rate), after.rate)) == CompletedOrZero(d) + 2
  {
    var once := Credit(d, after.rate);
    assert EarningsOrZero(once) == EarningsOrZero(d) + rate;
  }

  /** The driver records together with the ids of the loads already
      credited to them. */
  datatype Ledger = Ledger(drivers: map<string, Driver>, settled: set<string>)

  /** Earnings settlement that records each credited load: a delivery of a
      load already recorded is ignored. */
  function SettleOnce(loadId: string, before: Load, after: Load, ledger: Ledger): (r: Ledger)
    ensures loadId in ledger.settled ==> r == ledger
    ensures r.drivers.Keys == ledger.drivers.Keys
    ensures
      var credits := EarningsTriggered(before, after) && loadId !in ledger.settled && after.driverId.value in ledger.drivers;
      && r.settled == ledger.settled + (if credits then {loadId} else {})
      && (credits ==> r.drivers[after.driverId.value] == Credit(ledger.drivers[after.driverId.value], after.rate))
      && forall id :: id in ledger.drivers && (!credits || id != after.driverId.value) ==> r.drivers[id] == ledger.drivers[id]
  {
    if EarningsTriggered(before, after) && loadId !in ledger.settled && after.driverId.value in ledger.drivers then
      var id := after.driverId.value;
      Ledger(ledger.drivers[id := Credit(ledger.drivers[id], after.rate)], ledger.settled + {loadId})
    else
      ledger
  }

  /** A redelivered event leaves the ledger as the first delivery left it. */
  lemma SettleOnceIdempotent(loadId: string, before: Load, after: Load, ledger: Ledger)
    ensures SettleOnce(loadId, before, after, SettleOnce(loadId, before, after, ledger))
      == SettleOnce(loadId, before, after, ledger)
  {
  }

  // ---------------------------------------------------------------------
  // validateLoad

  predicate RateInvalid(l: Load) {
    l.rate.None? || l.rate.value <= 0
  }

  /** Writes `validationStatus` and `validationErrors` onto the created load. */
  method ValidateLoad(l: Load) returns (validated: Load)
    ensures validated.validationErrors.Some?
    ensures LoadNumberRequired in validated.validationErrors.value <==> !Truthy(l.loadNumber)
    ensures ValidRateRequired in validated.validationErrors.value <==> RateInvalid(l)
    ensures |validated.validationErrors.value| <= 2
    ensures forall i, j :: 0 <= i < j < |validated.validationErrors.value| ==>
      validated.validationErrors.value[i] == LoadNumberRequired && validated.validationErrors.value[j] == ValidRateRequired
    ensures forall e :: e in validated.validationErrors.value ==> e == LoadNumberRequired || e == ValidRateRequired
    ensures validated.validationStatus == Some(if validated.validationErrors.value == [] then "passed" else "failed")
    ensures validated.validationStatus == Some("passed") <==> Truthy(l.loadNumber) && !RateInvalid(l)
    ensures validated.(validationStatus := l.validationStatus, validationErrors := l.validationErrors) == l
  {
    var errors: seq<string> := [];
    if !Truthy(l.loadNumber) {
      errors := errors + [LoadNumberRequired];
    }
    if RateInvalid(l) {
      errors := errors + [ValidRateRequired];
    }
    validated := l.(validationStatus := Some(if |errors| > 0 then "failed" else "passed"), validationErrors := Some(errors));
  }

  /** The validation write is itself a load update, and neither update
      handler acts on it. */
  lemma ValidationWriteTriggersNothing(l: Load, status: string, errors: seq<string>)
    ensures var written := l.(validationStatus := Some(status), validationErrors := Some(errors));
      !StatusChanged(l, written) && !EarningsTriggered(l, written)
  {
  }

  /** An update that leaves `status` alone triggers neither update handler. */
  lemma NoOpUpdateHasNoEffects(before: Load, after: Load)
    requires before.status == after.status
    ensures !StatusChanged(before, after) && !EarningsTriggered(before, after)
  {
  }

  // ---------------------------------------------------------------------
  // cleanupOldLocationData

  /** A location-history record; `timestamp` is absent when the field is
      missing or not a timestamp. */
  datatype Location = Location(timestamp: Option<int>)

  predicate Stale(l: Location, cutoff: int) {
    l.timestamp.Some? && l.timestamp.value < cutoff
  }

  function StalePaths(history: map<string, Location>, cutoff: int): set<string> {
    set p | p in history && Stale(history[p], cutoff)
  }

  function Min(a: int, b: int): int {
    if a <= b then a else b
  }

  /** What the `timestamp < cutoff` query with `limit(500)` may return:
      distinct matching records, as many as match up to the limit. Which
      ones is the store's choice. */
  predicate IsCleanupPage(page: seq<string>, history: map<string, Location>, cutoff: int) {
    && |page| == Min(CleanupPage, |StalePaths(history, cutoff)|)
    && (forall i :: 0 <= i < |page| ==> page[i] in StalePaths(history, cutoff))
    && (forall i, j :: 0 <= i < j < |page| ==> page[i] != page[j])
  }

  lemma {:induction false} DistinctCard(page: seq<string>)
    requires forall i, j :: 0 <= i < j < |page| ==> page[i] != page[j]
    ensures |set i | 0 <= i < |page| :: page[i]| == |page|
  {
    if page != [] {
      var last := |page| - 1;
      DistinctCard(page[..last]);
      var front := set i | 0 <= i < last :: page[..last][i];
      assert (set i | 0 <= i < |page| :: page[i]) == front + {page[last]};
      assert page[last] !in front;
    }
  }

  /** One run of the retention sweep: deletes the page the query returned
      and reports how many records it deleted. */
  method CleanupOldLocationData(history: map<string, Location>, now: int, page: seq<string>)
    returns (remaining: map<string, Location>, deleted: nat)
    requires IsCleanupPage(page, history, now - RetentionMs)
    ensures deleted == |page| <= CleanupPage
    ensures forall p :: p in remaining ==> p in history && remaining[p] == history[p]
    ensures forall p :: p in history && p !in remaining ==> Stale(history[p], now - RetentionMs)
    ensures |remaining| == |history| - deleted
    ensures |StalePaths(remaining, now - RetentionMs)| ==
      if |StalePaths(history, now - RetentionMs)| <= CleanupPage then 0
      else |StalePaths(history, now - RetentionMs)| - CleanupPage
  {
    var cutoff := now - RetentionMs;
    var batch: set<string> := {};
    for i := 0 to |page|
      invariant batch == set j | 0 <= j < i :: page[j]
    {
      batch := batch + {page[i]};
    }
    remaining := history - batch;
    deleted := |page|;
    DistinctCard(page);
    assert batch <= history.Keys;
    assert remaining.Keys == history.Keys - batch;
    assert history.Keys * batch == batch;
    assert StalePaths(remaining, cutoff) == StalePaths(history, cutoff) - batch;
    assert StalePaths(history, cutoff) * batch == batch;
  }

  // ---------------------------------------------------------------------
  // sendOverdueLoadReminders

  predicate Overdue(l: Load, startOfToday: int) {
    && (l.status == Some("assigned") || l.status == Some("in_transit"))
    && l.deliveryDate.Some? && l.deliveryDate.value < startOfToday
  }

  /** The query `status in [assigned, in_transit]` and `deliveryDate < today`. */
  function OverdueQuery(loads: seq<Doc<Load>>, startOfToday: int): (r: seq<Doc<Load>>)
    ensures |r| <= |loads|
  {
    if loads == [] then []
    else (if Overdue(loads[0].data, startOfToday) then [loads[0]] else []) + OverdueQuery(loads[1..], startOfToday)
  }

  /** The query returns exactly the overdue loads. */
  lemma {:induction false} OverdueQueryMeaning(loads: seq<Doc<Load>>, startOfToday: int)
    ensures forall d :: d in OverdueQuery(loads, startOfToday) ==> d in loads && Overdue(d.data, startOfToday)
    ensures forall d :: d in loads && Overdue(d.data, startOfToday) ==> d in OverdueQuery(loads, startOfToday)
  {
    if loads != [] {
      OverdueQueryMeaning(loads[1..], startOfToday);
      assert forall d :: d in loads[1..] ==> d in loads;
      assert forall d :: d in loads ==> d == loads[0] || d in loads[1..];
    }
  }

  /** The tokens the reminder loop reaches, one per load, in query order. */
  function ReminderTokens(snapshot: seq<Doc<Load>>, users: map<string, User>): (tokens: seq<string>)
    ensures |tokens| <= |snapshot|
  {
    if snapshot == [] then []
    else
      var t := DriverToken(snapshot[0].data, users);
      (if t.Some? then [t.value] else []) + ReminderTokens(snapshot[1..], users)
  }

  /** Each token reached belongs to a queried load's driver, and every
      queried load whose driver has a token contributes it. */
  lemma {:induction false} ReminderTokensMeaning(snapshot: seq<Doc<Load>>, users: map<string, User>)
    ensures forall t :: t in ReminderTokens(snapshot, users) ==>
      exists d :: d in snapshot && DriverToken(d.data, users) == Some(t)
    ensures forall d :: d in snapshot && DriverToken(d.data, users).Some? ==>
      DriverToken(d.data, users).value in ReminderTokens(snapshot, users)
  {
    if snapshot != [] {
      ReminderTokensMeaning(snapshot[1..], users);
      assert forall d :: d in snapshot[1..] ==> d in snapshot;
      assert forall d :: d in snapshot ==> d == snapshot[0] || d in snapshot[1..];
    }
  }

  /** The body of the reminder loop for one overdue load: a message when
      its driver's user record has a token. */
  method RemindDriver(data: Load, users: map<string, User>) returns (reminder: Option<Message>)
    ensures reminder.Some? <==> DriverToken(data, users).Some?
    ensures reminder.Some? ==> reminder.value == Message(DriverToken(data, users).value, "Overdue Load", None)
  {
    reminder := None;
    if Truthy(data.driverId) {
      var driver := if data.driverId.value in users then Some(users[data.driverId.value]) else None;
      if driver.Some? && Truthy(driver.value.fcmToken) {
        reminder := Some(Message(driver.value.fcmToken.value, "Overdue Load", None));
      }
    }
  }

  /** The `for` loop over the query's snapshot: one reminder per load
      whose driver has a token, in snapshot order. */
  method CollectReminders(snapshot: seq<Doc<Load>>, users: map<string, User>) returns (notifications: seq<Message>)
    ensures |notifications| == |ReminderTokens(snapshot, users)|
    ensures forall k :: 0 <= k < |notifications| ==>
      notifications[k] == Message(ReminderTokens(snapshot, users)[k], "Overdue Load", None)
  {
    notifications := [];
    ghost var tokens: seq<string> := [];
    for i := 0 to |snapshot|
      invariant tokens == ReminderTokens(snapshot[..i], users)
      invariant |notifications| == |tokens|
      invariant forall k :: 0 <= k < |notifications| ==> notifications[k] == Message(tokens[k], "Overdue Load", None)
    {
      ReminderTokensSnoc(snapshot[..i], snapshot[i], users);
      assert snapshot[..i + 1] == snapshot[..i] + [snapshot[i]];
      var reminder := RemindDriver(snapshot[i].data, users);
      if reminder.Some? {
        notifications := notifications + [reminder.value];
        tokens := tokens + [reminder.value.token];
      }
    }
    assert snapshot[..|snapshot|] == snapshot;
  }

  method SendOverdueLoadReminders(loads: seq<Doc<Load>>, users: map<string, User>, startOfToday: int)
    returns (notifications: seq<Message>, sent: nat)
    ensures sent == |notifications|
    ensures forall m :: m in notifications ==>
      && m.title == "Overdue Load" && m.data.None?
      && exists d :: d in loads && Overdue(d.data, startOfToday) && DriverToken(d.data, users) == Some(m.token)
    ensures forall d :: d in loads && Overdue(d.data, startOfToday) && DriverToken(d.data, users).Some? ==>
      exists m :: m in notifications && Some(m.token) == DriverToken(d.data, users)
    ensures |notifications| == |ReminderTokens(OverdueQuery(loads, startOfToday), users)|
    ensures forall k :: 0 <= k < |notifications| ==>
      notifications[k] == Message(ReminderTokens(OverdueQuery(loads, startOfToday), users)[k], "Overdue Load", None)
  {
    var snapshot := OverdueQuery(loads, startOfToday);
    notifications := CollectReminders(snapshot, users);
    RemindersReachOverdueDrivers(loads, users, startOfToday, notifications);
    sent := |notifications|;
  }

  lemma RemindersReachOverdueDrivers(loads: seq<Doc<Load>>, users: map<string, User>, startOfToday: int, notifications: seq<Message>)
    requires var tokens := ReminderTokens(OverdueQuery(loads, startOfToday), users);
      |notifications| == |tokens| &&
      forall k :: 0 <= k < |notifications| ==> notifications[k] == Message(tokens[k], "Overdue Load", None)
    ensures forall m :: m in notifications ==>
      && m.title == "Overdue Load" && m.data.None?
      && exists d :: d in loads && Overdue(d.data, startOfToday) && DriverToken(d.data, users) == Some(m.token)
    ensures forall d :: d in loads && Overdue(d.data, startOfToday) && DriverToken(d.data, users).Some? ==>
      exists m :: m in notifications && Some(m.token) == DriverToken(d.data, users)
  {
    var tokens := ReminderTokens(OverdueQuery(loads, startOfToday), users);
    ReminderTokensMeaning(OverdueQuery(loads, startOfToday), users);
    OverdueQueryMeaning(loads, startOfToday);
    forall m | m in notifications
      ensures exists d :: d in loads && Overdue(d.data, startOfToday) && DriverToken(d.data, users) == Some(m.token)
    {
      var k :| 0 <= k < |notifications| && notifications[k] == m;
      assert tokens[k] in tokens;
    }
    forall d | d in loads && Overdue(d.data, startOfToday) && DriverToken(d.data, users).Some?
      ensures exists m :: m in notifications && Some(m.token) == DriverToken(d.data, users)
    {
      var t := DriverToken(d.data, users).value;
      assert t in tokens;
      var k :| 0 <= k < |tokens| && tokens[k] == t;
      assert notifications[k] in notifications;
    }
  }

  lemma {:induction false} ReminderTokensSnoc(s: seq<Doc<Load>>, d: Doc<Load>, users: map<string, User>)
    ensures ReminderTokens(s + [d], users) ==
      ReminderTokens(s, users) + (if DriverToken(d.data, users).Some? then [DriverToken(d.data, users).value] else [])
  {
    if s == [] {
      assert [d][1..] == [];
    } else {
      assert (s + [d])[1..] == s[1..] + [d];
      ReminderTokensSnoc(s[1..], d, users);
    }
  }
}
