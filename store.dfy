/** Documents of the `loads`, `drivers` and `users` collections, the few
    JavaScript value rules the triggers and scripts depend on, and the
    document-store writes (a field update, a batched commit) they issue. */
module Store {

  datatype Option<T> = None | Some(value: T)

  /** A JavaScript number held in a numeric field: an integer (money in
      cents) or NaN. */
  datatype Num = Int(v: int) | NaN

  /** A document as a query returns it: its id and its data. */
  datatype Doc<T> = Doc(id: string, data: T)

  /** A shipment record. Money is in cents, dates in epoch milliseconds;
      `None` is a field that is absent. */
  datatype Load = Load(
    loadNumber: Option<string>,
    status: Option<string>,
    driverId: Option<string>,
    driverName: Option<string>,
    rate: Option<int>,
    deliveryDate: Option<int>,
    validationStatus: Option<string>,
    validationErrors: Option<seq<string>>)

  /** A driver record. `uid` is a data field some driver documents carry
      beside their document id. */
  datatype Driver = Driver(
    name: Option<string>,
    email: Option<string>,
    uid: Option<string>,
    truckNumber: Option<string>,
    isActive: Option<bool>,
    totalEarnings: Option<Num>,
    completedLoads: Option<int>)

  datatype User = User(role: Option<string>, fcmToken: Option<string>)

  /** JavaScript truthiness of an optional string field. */
  predicate Truthy(s: Option<string>) {
    s.Some? && s.value != ""
  }

  /** The JavaScript expression `s || fallback`. */
  function Or(s: Option<string>, fallback: string): string {
    if Truthy(s) then s.value else fallback
  }

  /** The property name JavaScript looks up for `obj[v]`: an absent field
      reads as `undefined`, which becomes the key "undefined". */
  function PropertyKey(v: Option<string>): string {
    match v
    case None => "undefined"
    case Some(s) => s
  }

  /** `toLowerCase` on one character, for the ASCII and Latin-1 letters. */
  function LowerChar(c: char): char {
    if 'A' <= c <= 'Z' || ('\U{C0}' <= c <= '\U{DE}' && c != '\U{D7}') then
      (c as int + 32) as char
    else
      c
  }

  function Lower(s: string): string {
    seq(|s|, i requires 0 <= i < |s| => LowerChar(s[i]))
  }

  /** The name both audit scripts match a load on:
      `(driverName || driverId || '').toLowerCase()`. */
  function MatchKey(l: Load): string {
    Lower(Or(l.driverName, Or(l.driverId, "")))
  }

  function Ids<T>(docs: seq<Doc<T>>): set<string> {
    set i | 0 <= i < |docs| :: docs[i].id
  }

  lemma IdsSnoc<T>(s: seq<Doc<T>>, d: Doc<T>)
    ensures Ids(s + [d]) == Ids(s) + {d.id}
  {
    var t := s + [d];
    assert forall k :: 0 <= k < |s| ==> t[k] == s[k];
    assert t[|s|] == d;
  }

  lemma IdsMember<T>(s: seq<Doc<T>>, id: string)
    ensures id in Ids(s) <==> exists k :: 0 <= k < |s| && s[k].id == id
  {
  }

  /** Every document of a collection snapshot has its own id. */
  predicate DistinctIds<T>(docs: seq<Doc<T>>) {
    forall i, j :: 0 <= i < j < |docs| ==> docs[i].id != docs[j].id
  }

  /** The fields a repair or migration writes onto a load: `driverId`
      always, `driverName` when present. */
  datatype Patch = Patch(driverId: string, driverName: Option<string>)

  /** One `update` of a batch: the document it addresses and its fields. */
  datatype Update = Update(id: string, patch: Patch)

  /** A field update merges the given fields into the document. */
  function ApplyPatch(l: Load, p: Patch): (r: Load)
    ensures r.driverId == Some(p.driverId)
    ensures r.driverName == if p.driverName.Some? then p.driverName else l.driverName
    ensures r.(driverId := l.driverId, driverName := l.driverName) == l
  {
    l.(driverId := Some(p.driverId),
       driverName := if p.driverName.Some? then p.driverName else l.driverName)
  }

  /** The updates of a batch, in order, as they reach one document. */
  function ApplyBatchTo(d: Doc<Load>, batch: seq<Update>): (r: Doc<Load>)
    ensures r.id == d.id
    ensures (forall u :: u in batch ==> u.id != d.id) ==> r == d
    decreases |batch|
  {
    if batch == [] then d
    else
      var next := if batch[0].id == d.id then Doc(d.id, ApplyPatch(d.data, batch[0].patch)) else d;
      ApplyBatchTo(next, batch[1..])
  }

  /** The `loads` collection after a batch is committed (all of it at once). */
  function Commit(loads: seq<Doc<Load>>, batch: seq<Update>): (r: seq<Doc<Load>>)
    ensures |r| == |loads|
    ensures forall i :: 0 <= i < |r| ==> r[i].id == loads[i].id
  {
    seq(|loads|, i requires 0 <= i < |loads| => ApplyBatchTo(loads[i], batch))
  }

  lemma {:induction false} BatchSplit(d: Doc<Load>, a: seq<Update>, b: seq<Update>)
    ensures ApplyBatchTo(d, a + b) == ApplyBatchTo(ApplyBatchTo(d, a), b)
    decreases |a|
  {
    if a == [] {
      assert a + b == b;
    } else {
      assert (a + b)[1..] == a[1..] + b;
      var next := if a[0].id == d.id then Doc(d.id, ApplyPatch(d.data, a[0].patch)) else d;
      BatchSplit(next, a[1..], b);
    }
  }

  /** Committing two batches one after the other is committing their
      concatenation. */
  lemma CommitSplit(loads: seq<Doc<Load>>, a: seq<Update>, b: seq<Update>)
    ensures Commit(loads, a + b) == Commit(Commit(loads, a), b)
  {
    forall i | 0 <= i < |loads|
      ensures Commit(loads, a + b)[i] == Commit(Commit(loads, a), b)[i]
    {
      BatchSplit(loads[i], a, b);
    }
  }

  /** A batch whose updates all carry the same patch applies it once to
      each document it addresses and leaves the others alone. */
  lemma {:induction false} SamePatchApplied(d: Doc<Load>, batch: seq<Update>, p: Patch)
    requires forall u :: u in batch ==> u.patch == p
    ensures ApplyBatchTo(d, batch)
      == if exists u :: u in batch && u.id == d.id then Doc(d.id, ApplyPatch(d.data, p)) else d
    decreases |batch|
  {
    if batch != [] {
      var next := if batch[0].id == d.id then Doc(d.id, ApplyPatch(d.data, p)) else d;
      assert forall u :: u in batch[1..] ==> u in batch;
      assert forall u :: u in batch ==> u == batch[0] || u in batch[1..];
      SamePatchApplied(next, batch[1..], p);
      assert ApplyPatch(ApplyPatch(d.data, p), p) == ApplyPatch(d.data, p);
    }
  }

  /** When every update of a batch writes the same `driverId` and one of
      them addresses the document, that `driverId` is what it ends with. */
  lemma {:induction false} LastDriverIdWins(d: Doc<Load>, batch: seq<Update>, driverId: string)
    requires forall u :: u in batch ==> u.patch.driverId == driverId
    requires exists u :: u in batch && u.id == d.id
    ensures ApplyBatchTo(d, batch).data.driverId == Some(driverId)
    decreases |batch|
  {
    var next := if batch[0].id == d.id then Doc(d.id, ApplyPatch(d.data, batch[0].patch)) else d;
    assert forall u :: u in batch[1..] ==> u in batch;
    if exists u :: u in batch[1..] && u.id == d.id {
      LastDriverIdWins(next, batch[1..], driverId);
    } else {
      assert batch[0].id == d.id;
    }
  }
}
