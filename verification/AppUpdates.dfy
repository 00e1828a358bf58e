/** The store of auto-update attempts: internal/db/app_updates.go.

    One bucket is keyed by app and reversed start time, the other by attempt id;
    both hold the whole record. JSON encoding is taken to be lossless, so a bucket
    maps keys to records, and a transaction is one atomic change. */
module AppUpdates {
  import opened Bytes
  import opened Collections
  import opened UpdateStages

  const MAX_UINT64: nat := 0xFFFF_FFFF_FFFF_FFFF
  type Micros = t: int | -0x8000_0000_0000_0000 <= t < 0x8000_0000_0000_0000

  datatype Event = Event(at: Micros, stage: Stage, message: string)

  datatype ServiceInfo = ServiceInfo(image: string, previousDigest: string, newDigest: string)

  datatype Record = Record(
    attemptId: Bytes, instanceId: Bytes, app: Bytes, services: map<string, ServiceInfo>,
    stage: Stage, errorCode: string, message: string, triggeredBy: string,
    startedAt: Micros, updatedAt: Micros, completedAt: Micros, events: seq<Event>)

  datatype Buckets = Buckets(byApp: map<Bytes, Record>, byId: map<Bytes, Record>)

  datatype Error = MissingAttemptId | MissingApp | NotFound
  datatype Outcome = Done | Refused(error: Error)
  datatype Listing = Listed(records: seq<Record>) | ListRefused(error: Error)
  datatype Lookup = Found(record: Record) | NoRecord | LookupRefused(error: Error)

  // ---- Keys ----------------------------------------------------------------

  function Prefix(app: Bytes): Bytes { app + [0] }

  /** Times before 1970 are keyed as time zero. */
  function Clamped(micros: Micros): Micros { if micros < 0 then 0 else micros }

  function Key(app: Bytes, micros: Micros): Bytes {
    Prefix(app) + BigEndian(MAX_UINT64 - Clamped(micros), 8)
  }

  function KeyOf(r: Record): Bytes { Key(r.app, r.startedAt) }

  /** The id the worker gives an attempt: "<startedAt>-<app>". */
  function AttemptId(app: Bytes, micros: nat): Bytes {
    Decimal(micros) + [DASH] + app
  }

  predicate ZeroFree(s: Bytes) { 0 !in s }

  lemma WidthOfUint64()
    ensures Pow256(8) == MAX_UINT64 + 1
  {
    assert Pow256(2) == 0x1_0000;
    assert Pow256(4) == 0x1_0000 * 0x1_0000;
    assert Pow256(6) == 0x1_0000 * 0x1_0000 * 0x1_0000;
  }

  /** Within an app, a later start gives a smaller key. */
  lemma KeyReversesTime(app: Bytes, s: Micros, t: Micros)
    ensures Less(Key(app, s), Key(app, t)) <==> Clamped(s) > Clamped(t)
  {
    WidthOfUint64();
    var u, v := MAX_UINT64 - Clamped(s), MAX_UINT64 - Clamped(t);
    LessCommonPrefix(Prefix(app), BigEndian(u, 8), BigEndian(v, 8));
    if u < v {
      BigEndianOrder(u, v, 8);
    } else if v < u {
      BigEndianOrder(v, u, 8);
      LessAsymmetric(BigEndian(v, 8), BigEndian(u, 8));
    } else {
      LessIrreflexive(BigEndian(u, 8));
    }
  }

  /** Two attempts share a key exactly when they share app and start time, where all times
      before 1970 count as time zero. */
  lemma KeyInjective(app: Bytes, s: Micros, app': Bytes, t: Micros)
    ensures Key(app, s) == Key(app', t) <==> app == app' && Clamped(s) == Clamped(t)
  {
    if Key(app, s) == Key(app', t) {
      assert |app| == |app'|;
      assert app == Key(app, s)[..|app|] == app';
      KeyReversesTime(app, s, t);
      KeyReversesTime(app, t, s);
      LessIrreflexive(Key(app, s));
    }
  }

  /** Times before 1970 all collapse onto the key of time zero. */
  lemma NegativeTimesCollide(app: Bytes, s: Micros, t: Micros)
    requires s < 0 && t <= 0
    ensures Key(app, s) == Key(app, t)
  {
  }

  /** The scan prefix of an app picks out its own keys and those of the apps whose names
      begin with that prefix, so it isolates the app from every name without a zero byte. */
  lemma PrefixIsolatesApp(app: Bytes, app': Bytes, t: Micros)
    requires ZeroFree(app)
    ensures HasPrefix(Key(app', t), Prefix(app)) <==> app == app' || HasPrefix(app', Prefix(app))
    ensures HasPrefix(app', Prefix(app)) ==> !ZeroFree(app')
  {
    var k, p := Key(app', t), Prefix(app);
    assert p[|app|] == 0 && k[|app'|] == 0;
    assert k[..|app'|] == app' && p[..|app|] == app;
    if HasPrefix(app', p) {
      assert app'[|app|] == app'[..|p|][|app|] == 0;
      assert k[..|p|] == app'[..|p|];
    }
    if |app'| < |app| && |p| <= |k| {
      assert k[..|p|][|app'|] == 0 && p[|app'|] == app[|app'|];
    }
    if HasPrefix(k, p) && |app'| == |app| {
      assert app == k[..|p|][..|app|] == app';
    }
    if HasPrefix(k, p) && |app'| > |app| {
      assert app'[..|p|] == k[..|p|];
    }
    if app == app' { assert k[..|p|] == p; }
  }

  /** With a zero byte in a name the scan of one app can pick up another. */
  lemma ZeroByteLeaks()
    ensures var app: Bytes := [97]; var other: Bytes := [97, 0];
            app != other && HasPrefix(Key(other, 0), Prefix(app))
  {
    var other: Bytes := [97, 0];
    assert Key(other, 0)[..2] == [97, 0];
  }

  /** The worker's ids name app and start time unambiguously. */
  lemma AttemptIdInjective(app: Bytes, s: nat, app': Bytes, t: nat)
    ensures AttemptId(app, s) == AttemptId(app', t) <==> app == app' && s == t
  {
    if AttemptId(app, s) == AttemptId(app', t) {
      SplitUnique(DASH, Decimal(s), app, Decimal(t), app');
      DecimalInjective(s, t);
    }
  }

  // ---- What the two buckets mean ---------------------------------------------

  ghost predicate Agree(b: Buckets) {
    && (forall k :: k in b.byApp ==>
          && k == KeyOf(b.byApp[k])
          && b.byApp[k].attemptId in b.byId
          && b.byId[b.byApp[k].attemptId] == b.byApp[k])
    && (forall i :: i in b.byId ==>
          && i != []
          && i == b.byId[i].attemptId
          && KeyOf(b.byId[i]) in b.byApp
          && b.byApp[KeyOf(b.byId[i])] == b.byId[i])
  }

  function Records(b: Buckets): set<Record> {
    b.byApp.Values
  }

  /** Names and times as the worker produces them. */
  predicate Ordinary(r: Record) {
    r.app != [] && ZeroFree(r.app) && r.startedAt >= 0
  }

  /** A record with the id the worker builds. */
  predicate WorkerBuilt(r: Record) {
    Ordinary(r) && r.attemptId == AttemptId(r.app, r.startedAt)
  }

  ghost function OfApp(rs: set<Record>, app: Bytes): set<Record> {
    set r | r in rs && r.app == app
  }

  lemma StoredUnderItsKey(b: Buckets, r: Record)
    requires Agree(b)
    ensures r in Records(b) <==> KeyOf(r) in b.byApp && b.byApp[KeyOf(r)] == r
    ensures r in Records(b) <==> r.attemptId in b.byId && b.byId[r.attemptId] == r
  {
  }

  // ---- The three updates, on values --------------------------------------------

  function Bumped(r: Record): Record {
    if r.updatedAt < r.startedAt then r.(updatedAt := r.startedAt) else r
  }

  function SaveSpec(b: Buckets, r: Record): Buckets {
    Buckets(b.byApp[KeyOf(r) := Bumped(r)], b.byId[r.attemptId := Bumped(r)])
  }

  function WithEvent(r: Record, ev: Event, stage: Stage): Record {
    r.(events := r.events + [ev], stage := stage, updatedAt := if ev.at > r.updatedAt then ev.at else r.updatedAt)
  }

  function AppendSpec(b: Buckets, id: Bytes, ev: Event, stage: Stage): Buckets {
    if id !in b.byId then b
    else
      var r := WithEvent(b.byId[id], ev, stage);
      Buckets(b.byApp[KeyOf(r) := r], b.byId[id := r])
  }

  function DeleteSpec(b: Buckets, r: Record): Buckets {
    Buckets(b.byApp - {KeyOf(r)}, if r.attemptId != [] then b.byId - {r.attemptId} else b.byId)
  }

  function RemoveAll(b: Buckets, rs: set<Record>): Buckets {
    Buckets(b.byApp - (set r | r in rs :: KeyOf(r)), b.byId - (set r | r in rs :: r.attemptId))
  }

  /** Nothing stored shares exactly one of the record's key and id. */
  predicate Compatible(b: Buckets, r: Record) {
    && (KeyOf(r) in b.byApp ==> b.byApp[KeyOf(r)].attemptId == r.attemptId)
    && (r.attemptId in b.byId ==> KeyOf(b.byId[r.attemptId]) == KeyOf(r))
  }

  /** Saving keeps the buckets in agreement exactly for compatible records. */
  lemma SaveAgreesIff(b: Buckets, r: Record)
    requires Agree(b) && r.attemptId != []
    ensures Agree(SaveSpec(b, r)) <==> Compatible(b, r)
  {
    if Compatible(b, r) {
      CompatibleSaveAgrees(b, r);
    } else {
      ConflictingSaveDisagrees(b, r);
    }
  }

  lemma CompatibleSaveAgrees(b: Buckets, r: Record)
    requires Agree(b) && r.attemptId != [] && Compatible(b, r)
    ensures Agree(SaveSpec(b, r))
  {
    var c, k, i, v := SaveSpec(b, r), KeyOf(r), r.attemptId, Bumped(r);
    assert KeyOf(v) == k && v.attemptId == i;
    forall j | j in c.byId
      ensures j != [] && j == c.byId[j].attemptId
      ensures KeyOf(c.byId[j]) in c.byApp && c.byApp[KeyOf(c.byId[j])] == c.byId[j]
    {
      if j != i {
        var old' := b.byId[j];
        assert c.byId[j] == old' && b.byApp[KeyOf(old')] == old';
      }
    }
    forall x | x in c.byApp
      ensures x == KeyOf(c.byApp[x])
      ensures c.byApp[x].attemptId in c.byId && c.byId[c.byApp[x].attemptId] == c.byApp[x]
    {
      if x != k {
        var old' := b.byApp[x];
        assert c.byApp[x] == old' && b.byId[old'.attemptId] == old';
      }
    }
  }

  lemma ConflictingSaveDisagrees(b: Buckets, r: Record)
    requires Agree(b) && r.attemptId != [] && !Compatible(b, r)
    ensures !Agree(SaveSpec(b, r))
  {
    var c, k, i, v := SaveSpec(b, r), KeyOf(r), r.attemptId, Bumped(r);
    if k in b.byApp && b.byApp[k].attemptId != i {
      var other := b.byApp[k];
      assert KeyOf(other) == k && c.byId[other.attemptId] == other && c.byApp[k] == v;
    } else {
      var other := b.byId[i];
      assert c.byApp[KeyOf(other)] == other && other.attemptId == i && c.byId[i] == v;
      assert KeyOf(v) == k;
    }
  }

  /** The worker's records are always compatible with one another. */
  lemma WorkerRecordsCompatible(b: Buckets, r: Record)
    requires Agree(b) && WorkerBuilt(r)
    requires forall x :: x in Records(b) ==> WorkerBuilt(x)
    ensures Compatible(b, r)
  {
    if KeyOf(r) in b.byApp {
      var x := b.byApp[KeyOf(r)];
      assert x in Records(b);
      KeyInjective(r.app, r.startedAt, x.app, x.startedAt);
    }
    if r.attemptId in b.byId {
      var x := b.byId[r.attemptId];
      StoredUnderItsKey(b, x);
      AttemptIdInjective(r.app, r.startedAt, x.app, x.startedAt);
    }
  }

  /** A save changes one record: the one with the same key, or a new one. */
  lemma SaveRecords(b: Buckets, r: Record)
    requires Agree(b) && r.attemptId != [] && Compatible(b, r)
    ensures Records(SaveSpec(b, r)) == (set x | x in Records(b) && KeyOf(x) != KeyOf(r)) + {Bumped(r)}
  {
    var c := SaveSpec(b, r);
    CompatibleSaveAgrees(b, r);
    forall x ensures x in Records(c) <==> (x in Records(b) && KeyOf(x) != KeyOf(r)) || x == Bumped(r) {
      AfterSave(b, r, x);
    }
  }

  lemma AfterSave(b: Buckets, r: Record, x: Record)
    requires Agree(b) && Agree(SaveSpec(b, r))
    ensures x in Records(SaveSpec(b, r)) <==> (x in Records(b) && KeyOf(x) != KeyOf(r)) || x == Bumped(r)
  {
    var c := SaveSpec(b, r);
    assert KeyOf(Bumped(r)) == KeyOf(r);
    StoredUnderItsKey(b, x);
    StoredUnderItsKey(c, x);
  }

  lemma AppendAgrees(b: Buckets, id: Bytes, ev: Event, stage: Stage)
    requires Agree(b)
    ensures Agree(AppendSpec(b, id, ev, stage))
    ensures id in b.byId ==>
              Records(AppendSpec(b, id, ev, stage)) == Records(b) - {b.byId[id]} + {WithEvent(b.byId[id], ev, stage)}
  {
    if id in b.byId {
      var c, old', new' := AppendSpec(b, id, ev, stage), b.byId[id], WithEvent(b.byId[id], ev, stage);
      assert KeyOf(new') == KeyOf(old');
      assert Agree(c);
      forall x ensures x in Records(c) <==> (x in Records(b) && x != old') || x == new' {
        StoredUnderItsKey(b, x);
        StoredUnderItsKey(c, x);
        if x in Records(b) && x != old' { assert KeyOf(x) != KeyOf(old'); }
      }
    }
  }

  /** Saved as given, but never with an update time before its start. */
  lemma SavedInFull(b: Buckets, r: Record, id: Bytes)
    ensures var c := SaveSpec(b, r);
            && (id in c.byId <==> id in b.byId || id == r.attemptId)
            && (id in c.byId && id != r.attemptId ==> c.byId[id] == b.byId[id])
            && c.byId[r.attemptId].(updatedAt := r.updatedAt) == r
            && c.byId[r.attemptId].updatedAt >= r.startedAt && c.byId[r.attemptId].updatedAt >= r.updatedAt
            && (r.updatedAt >= r.startedAt ==> c.byId[r.attemptId] == r)
            && (r.updatedAt < r.startedAt ==> c.byId[r.attemptId].updatedAt == r.startedAt)
            && KeyOf(r) in c.byApp && c.byApp[KeyOf(r)] == c.byId[r.attemptId]
  {
  }

  /** The record with the id gets the event as its last, its stage, and the later of the two
      update times; nothing else of it changes, and no other record. */
  lemma AppendedInFull(b: Buckets, id: Bytes, ev: Event, stage: Stage, other: Bytes)
    requires Agree(b) && id in b.byId
    ensures var r, c := b.byId[id], AppendSpec(b, id, ev, stage);
            && c.byId.Keys == b.byId.Keys && c.byApp.Keys == b.byApp.Keys
            && (other in b.byId && other != id ==> c.byId[other] == b.byId[other])
            && var s := c.byId[id];
            && s.events == r.events + [ev] && s.stage == stage
            && s.updatedAt >= r.updatedAt && s.updatedAt >= ev.at && (s.updatedAt == r.updatedAt || s.updatedAt == ev.at)
            && s.(events := r.events, stage := r.stage, updatedAt := r.updatedAt) == r
            && c.byApp[KeyOf(r)] == s
  {
  }

  lemma RemoveAgrees(b: Buckets, rs: set<Record>)
    requires Agree(b) && rs <= Records(b)
    ensures Agree(RemoveAll(b, rs)) && Records(RemoveAll(b, rs)) == Records(b) - rs
  {
    var c := RemoveAll(b, rs);
    forall k | k in b.byApp ensures k in c.byApp <==> b.byApp[k] !in rs {
      if k !in c.byApp {
        var r :| r in rs && KeyOf(r) == k;
        StoredUnderItsKey(b, r);
      }
    }
    forall i | i in b.byId ensures i in c.byId <==> b.byId[i] !in rs {
      if i !in c.byId {
        var r :| r in rs && r.attemptId == i;
        StoredUnderItsKey(b, r);
      }
    }
    assert Agree(c);
    forall x ensures x in Records(c) <==> x in Records(b) && x !in rs {
      StoredUnderItsKey(b, x);
      StoredUnderItsKey(c, x);
    }
  }

  lemma DeleteIsRemove(b: Buckets, rs: set<Record>, r: Record)
    requires r.attemptId != []
    ensures DeleteSpec(RemoveAll(b, rs), r) == RemoveAll(b, rs + {r})
  {
    var ks, ids := (set x | x in rs :: KeyOf(x)), (set x | x in rs :: x.attemptId);
    assert (set x | x in rs + {r} :: KeyOf(x)) == ks + {KeyOf(r)};
    assert (set x | x in rs + {r} :: x.attemptId) == ids + {r.attemptId};
  }

  // ---- Listing -----------------------------------------------------------------

  /** out is the newest records of all, at most limit of them (no bound if limit <= 0). */
  ghost predicate NewestFirst(all: set<Record>, limit: int, out: seq<Record>) {
    && (forall i, j :: 0 <= i < j < |out| ==> out[i].startedAt > out[j].startedAt)
    && (forall r :: r in out ==> r in all)
    && (limit > 0 ==> |out| <= limit)
    && (forall r :: r in all ==>
          || r in out
          || (limit > 0 && |out| == limit && forall x :: x in out ==> x.startedAt > r.startedAt))
  }

  /** When no two records start together there is only one such listing. */
  lemma {:induction false} NewestFirstUnique(all: set<Record>, limit: int, s: seq<Record>, t: seq<Record>)
    requires NewestFirst(all, limit, s) && NewestFirst(all, limit, t)
    requires forall x, y :: x in all && y in all && x.startedAt == y.startedAt ==> x == y
    ensures s == t
  {
    var n := Min(|s|, |t|);
    SamePrefix(all, limit, s, t, n);
    NoExtra(all, limit, s, t, n);
    NoExtra(all, limit, t, s, n);
    assert s == s[..n] && t == t[..n];
  }

  lemma {:induction false} SamePrefix(all: set<Record>, limit: int, s: seq<Record>, t: seq<Record>, n: nat)
    requires NewestFirst(all, limit, s) && NewestFirst(all, limit, t)
    requires forall x, y :: x in all && y in all && x.startedAt == y.startedAt ==> x == y
    requires n <= |s| && n <= |t|
    ensures s[..n] == t[..n]
  {
    if n > 0 {
      SamePrefix(all, limit, s, t, n - 1);
      SameNext(all, limit, s, t, n - 1);
      assert s[..n] == s[..n - 1] + [s[n - 1]] && t[..n] == t[..n - 1] + [t[n - 1]];
    }
  }

  lemma NoExtra(all: set<Record>, limit: int, s: seq<Record>, t: seq<Record>, n: nat)
    requires NewestFirst(all, limit, s) && NewestFirst(all, limit, t)
    requires n <= |s| && n <= |t| && s[..n] == t[..n]
    ensures n == |s| ==> n == |t|
  {
    forall i | 0 <= i < n ensures s[i] == t[i] {
      assert s[..n][i] == t[..n][i];
    }
    if n < |t| {
      assert t[n] in t;
    }
  }

  lemma SameNext(all: set<Record>, limit: int, s: seq<Record>, t: seq<Record>, n: nat)
    requires NewestFirst(all, limit, s) && NewestFirst(all, limit, t)
    requires forall x, y :: x in all && y in all && x.startedAt == y.startedAt ==> x == y
    requires n < |s| && n < |t| && s[..n] == t[..n]
    ensures s[n] == t[n]
  {
    NotOlder(all, limit, s, t, n);
    NotOlder(all, limit, t, s, n);
  }

  lemma NotOlder(all: set<Record>, limit: int, s: seq<Record>, t: seq<Record>, n: nat)
    requires NewestFirst(all, limit, s) && NewestFirst(all, limit, t)
    requires n < |s| && n < |t| && s[..n] == t[..n]
    ensures s[n].startedAt <= t[n].startedAt
  {
    forall i | 0 <= i < n ensures s[i] == t[i] {
      assert s[..n][i] == t[..n][i];
    }
    assert s[n] in s && t[n] in t;
  }

  // ---- Purging -----------------------------------------------------------------

  /** after is what trimming before to limit newest records may leave; ties are open. */
  ghost predicate Trimmed(before: set<Record>, after: set<Record>, limit: int) {
    && after <= before
    && |after| == (if limit > 0 then Min(|before|, limit) else |before|)
    && (forall k, d :: k in after && d in before - after ==> k.startedAt >= d.startedAt)
  }

  ghost predicate PassOne(before: set<Record>, mid: set<Record>, perApp: int) {
    mid <= before && forall app :: Trimmed(OfApp(before, app), OfApp(mid, app), perApp)
  }

  ghost predicate Purged(before: set<Record>, after: set<Record>, perApp: int, total: int) {
    exists mid :: PassOne(before, mid, perApp) && Trimmed(mid, after, total)
  }

  /** Both limits hold afterwards, and within an app nothing kept is older than
      anything dropped. */
  lemma PurgeBounds(before: set<Record>, after: set<Record>, perApp: int, total: int, app: Bytes)
    requires Purged(before, after, perApp, total)
    ensures after <= before
    ensures perApp > 0 ==> |OfApp(after, app)| <= perApp
    ensures total > 0 ==> |after| <= total
    ensures forall k, d :: k in OfApp(after, app) && d in OfApp(before, app) - OfApp(after, app) ==>
              k.startedAt >= d.startedAt
  {
    var mid :| PassOne(before, mid, perApp) && Trimmed(mid, after, total);
    assert Trimmed(OfApp(before, app), OfApp(mid, app), perApp);
    SubsetSize(OfApp(after, app), OfApp(mid, app));
    forall k, d | k in OfApp(after, app) && d in OfApp(before, app) - OfApp(after, app)
      ensures k.startedAt >= d.startedAt
    {
      if d in mid {
        assert d in mid - after;
      } else {
        assert d in OfApp(before, app) - OfApp(mid, app);
        assert k in OfApp(mid, app);
      }
    }
  }

  /** Pass one keeps as many of an app as its limit allows, and pass two, if it deletes at all,
      leaves exactly the total. */
  lemma PurgeKeepsEnough(before: set<Record>, after: set<Record>, perApp: int, total: int, app: Bytes)
    requires Purged(before, after, perApp, total)
    ensures total <= 0 || |after| != total ==>
              |OfApp(after, app)| == if perApp > 0 then Min(|OfApp(before, app)|, perApp) else |OfApp(before, app)|
  {
    var mid :| PassOne(before, mid, perApp) && Trimmed(mid, after, total);
    assert Trimmed(OfApp(before, app), OfApp(mid, app), perApp);
    SubsetSize(after, mid);
  }

  /** A second purge with the same limits finds nothing to do. */
  lemma PurgeIdempotent(before: set<Record>, after: set<Record>, again: set<Record>, perApp: int, total: int)
    requires Purged(before, after, perApp, total)
    requires Purged(after, again, perApp, total)
    ensures again == after
  {
    var mid :| PassOne(after, mid, perApp) && Trimmed(mid, again, total);
    forall r | r in after ensures r in mid {
      PurgeBounds(before, after, perApp, total, r.app);
      assert Trimmed(OfApp(after, r.app), OfApp(mid, r.app), perApp);
      SubsetSize(OfApp(mid, r.app), OfApp(after, r.app));
      assert r in OfApp(after, r.app);
    }
    assert mid == after;
    PurgeBounds(before, after, perApp, total, []);
    SubsetSize(again, after);
  }

  /** Below both limits a purge deletes nothing. */
  lemma PurgeBelowLimits(before: set<Record>, after: set<Record>, perApp: int, total: int)
    requires Purged(before, after, perApp, total)
    requires perApp > 0 ==> forall app :: |OfApp(before, app)| <= perApp
    requires total > 0 ==> |before| <= total
    ensures after == before
  {
    var mid :| PassOne(before, mid, perApp) && Trimmed(mid, after, total);
    forall r | r in before ensures r in mid {
      assert Trimmed(OfApp(before, r.app), OfApp(mid, r.app), perApp);
      SubsetSize(OfApp(mid, r.app), OfApp(before, r.app));
      assert r in OfApp(before, r.app);
    }
    assert mid == before;
    SubsetSize(after, mid);
  }

  // ---- Whole runs ----------------------------------------------------------------

  datatype Op = Save(r: Record) | Append(id: Bytes, ev: Event, stage: Stage) | Purge(perApp: int, total: int)

  ghost predicate Step(b: Buckets, op: Op, c: Buckets) {
    match op
    case Save(r) => c == SaveSpec(b, r)
    case Append(id, ev, stage) => c == AppendSpec(b, id, ev, stage)
    case Purge(perApp, total) => PurgeStep(b, perApp, total, c)
  }

  ghost predicate PurgeStep(b: Buckets, perApp: int, total: int, c: Buckets) {
    exists gone :: gone <= Records(b) && c == RemoveAll(b, gone) && Purged(Records(b), Records(b) - gone, perApp, total)
  }

  /** c can be the pair of buckets after the operations ops on an empty store. */
  ghost predicate Reached(ops: seq<Op>, c: Buckets) {
    if ops == [] then c == Buckets(map[], map[])
    else
      var n := |ops| - 1;
      var before := ops[..n];
      exists b :: Reached(before, b) && Step(b, ops[n], c)
  }

  ghost predicate FromWorker(op: Op) {
    op.Save? ==> WorkerBuilt(op.r)
  }

  ghost predicate WorkerState(b: Buckets) {
    Agree(b) && forall r :: r in Records(b) ==> WorkerBuilt(r)
  }

  /** In every run whose saves come from the worker, the two buckets agree all along. */
  lemma {:induction false} RunsAgree(ops: seq<Op>, c: Buckets)
    requires Reached(ops, c)
    requires forall i :: 0 <= i < |ops| ==> FromWorker(ops[i])
    ensures WorkerState(c)
  {
    if ops != [] {
      var n := |ops| - 1;
      var b :| Reached(ops[..n], b) && Step(b, ops[n], c);
      RunsAgree(ops[..n], b);
      StepAgrees(b, ops[n], c);
    }
  }

  lemma StepAgrees(b: Buckets, op: Op, c: Buckets)
    requires WorkerState(b) && Step(b, op, c) && FromWorker(op)
    ensures WorkerState(c)
  {
    match op
    case Save(r) =>
      WorkerRecordsCompatible(b, r);
      SaveAgreesIff(b, r);
      SaveRecords(b, r);
    case Append(id, ev, stage) =>
      AppendAgrees(b, id, ev, stage);
      if id in b.byId { StoredUnderItsKey(b, b.byId[id]); }
    case Purge(perApp, total) =>
      var gone :| gone <= Records(b) && c == RemoveAll(b, gone) && Purged(Records(b), Records(b) - gone, perApp, total);
      RemoveAgrees(b, gone);
  }

  // ---- Sorting (sort.Slice by StartedAt, newest first) -----------------------------

  ghost predicate Descending(s: seq<Record>) {
    forall i, j :: 0 <= i < j < |s| ==> s[i].startedAt >= s[j].startedAt
  }

  method SortNewestFirst(recs: seq<Record>) returns (out: seq<Record>)
    requires Distinct(recs)
    ensures Descending(out) && Distinct(out) && Elements(out) == Elements(recs) && |out| == |recs|
  {
    out := [];
    for i := 0 to |recs|
      invariant Descending(out) && Distinct(out) && |out| == i
      invariant Elements(out) == Elements(recs[..i])
    {
      assert recs[i] !in recs[..i] && recs[i] !in Elements(recs[..i]);
      assert recs[..i + 1] == recs[..i] + [recs[i]];
      out := InsertNewestFirst(out, recs[i]);
    }
    assert recs[..|recs|] == recs;
  }

  method InsertNewestFirst(s: seq<Record>, x: Record) returns (out: seq<Record>)
    requires Descending(s) && Distinct(s) && x !in s
    ensures Descending(out) && Distinct(out) && Elements(out) == Elements(s) + {x} && |out| == |s| + 1
  {
    var at := 0;
    while at < |s| && s[at].startedAt >= x.startedAt
      invariant at <= |s|
      invariant forall j :: 0 <= j < at ==> s[j].startedAt >= x.startedAt
    {
      at := at + 1;
    }
    out := s[..at] + [x] + s[at..];
    SplicedIn(s, x, at, out);
  }

  lemma SplicedIn(s: seq<Record>, x: Record, at: nat, out: seq<Record>)
    requires Descending(s) && Distinct(s) && x !in s && at <= |s|
    requires forall j :: 0 <= j < at ==> s[j].startedAt >= x.startedAt
    requires at < |s| ==> x.startedAt > s[at].startedAt
    requires out == s[..at] + [x] + s[at..]
    ensures Descending(out) && Distinct(out) && Elements(out) == Elements(s) + {x} && |out| == |s| + 1
  {
    forall i, j | 0 <= i < j < |out| ensures out[i].startedAt >= out[j].startedAt && out[i] != out[j] {
      var i', j' := if i < at then i else i - 1, if j < at then j else j - 1;
      assert out[i] == if i == at then x else s[i'];
      assert out[j] == if j == at then x else s[j'];
      if i == at {
        assert s[at].startedAt >= s[j'].startedAt;
      }
    }
    SpliceElements(s, at, x);
  }

  lemma HeadAndTail(s: seq<Record>, keep: nat)
    requires Descending(s) && Distinct(s) && keep <= |s|
    ensures Elements(s) == Elements(s[..keep]) + Elements(s[keep..])
    ensures Distinct(s[..keep]) && Distinct(s[keep..])
    ensures forall k, d :: k in s[..keep] && d in s[keep..] ==> k != d && k.startedAt >= d.startedAt
  {
    assert s == s[..keep] + s[keep..];
    forall k, d | k in s[..keep] && d in s[keep..] ensures k != d && k.startedAt >= d.startedAt {
      var i :| 0 <= i < keep && s[..keep][i] == k;
      var j :| 0 <= j < |s| - keep && s[keep..][j] == d;
      assert s[i] == k && s[keep + j] == d;
    }
  }

  /** The head of a newest-first enumeration is a trim of the whole. */
  lemma HeadIsTrim(s: seq<Record>, keep: nat, limit: int)
    requires Descending(s) && Distinct(s) && keep <= |s|
    requires keep == if limit > 0 then Min(|s|, limit) else |s|
    ensures Trimmed(Elements(s), Elements(s[..keep]), limit)
    ensures Elements(s) - Elements(s[keep..]) == Elements(s[..keep])
  {
    HeadAndTail(s, keep);
    DistinctCount(s);
    DistinctCount(s[..keep]);
  }
}
