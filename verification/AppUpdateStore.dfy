/** The store as an object: *DB in internal/db/app_updates.go. Every method runs one
    transaction, so it is one step on the pair of buckets. */
module AppUpdateStore {
  import opened Bytes
  import opened Collections
  import opened AppUpdates
  import opened UpdateStages

  // ---- The prefix scan -------------------------------------------------------

  /** ks are the first keys of the bucket that carry prefix p, in key order. */
  ghost predicate PrefixScan(bucket: map<Bytes, Record>, p: Bytes, limit: int, ks: seq<Bytes>) {
    && Ascending(ks)
    && (forall k :: k in ks ==> k in bucket && HasPrefix(k, p))
    && (limit > 0 ==> |ks| <= limit)
    && (forall k :: k in bucket && HasPrefix(k, p) ==>
          k in ks || (limit > 0 && |ks| == limit && forall x :: x in ks ==> Less(x, k)))
  }

  function Values(bucket: map<Bytes, Record>, ks: seq<Bytes>): (out: seq<Record>)
    requires forall k :: k in ks ==> k in bucket
    ensures |out| == |ks| && forall i :: 0 <= i < |ks| ==> out[i] == bucket[ks[i]]
  {
    seq(|ks|, i requires 0 <= i < |ks| => bucket[ks[i]])
  }

  /** The scan lists exactly the newest records of one app, newest first. */
  lemma ScanIsNewestFirst(b: Buckets, app: Bytes, limit: int, ks: seq<Bytes>)
    requires Agree(b) && ZeroFree(app)
    requires forall r :: r in Records(b) ==> Ordinary(r)
    requires PrefixScan(b.byApp, Prefix(app), limit, ks)
    ensures NewestFirst(OfApp(Records(b), app), limit, Values(b.byApp, ks))
  {
    var out, all := Values(b.byApp, ks), OfApp(Records(b), app);
    forall k | k in b.byApp ensures HasPrefix(k, Prefix(app)) <==> b.byApp[k] in all {
      assert b.byApp[k] in Records(b);
      PrefixIsolatesApp(app, b.byApp[k].app, b.byApp[k].startedAt);
    }
    forall i | 0 <= i < |ks| ensures out[i] in all {
      assert ks[i] in ks;
    }
    forall i, j | 0 <= i < j < |out| ensures out[i].startedAt > out[j].startedAt {
      assert ks[i] in ks && ks[j] in ks && out[i] in all && out[j] in all;
      KeyReversesTime(app, out[i].startedAt, out[j].startedAt);
    }
    forall r | r in all && r !in out
      ensures limit > 0 && |out| == limit && forall x :: x in out ==> x.startedAt > r.startedAt
    {
      NotListed(b, app, limit, ks, r);
    }
  }

  lemma NotListed(b: Buckets, app: Bytes, limit: int, ks: seq<Bytes>, r: Record)
    requires Agree(b) && ZeroFree(app)
    requires forall x :: x in Records(b) ==> Ordinary(x)
    requires PrefixScan(b.byApp, Prefix(app), limit, ks)
    requires r in OfApp(Records(b), app) && r !in Values(b.byApp, ks)
    ensures limit > 0 && |ks| == limit
    ensures forall x :: x in Values(b.byApp, ks) ==> x.startedAt > r.startedAt
  {
    var out, k := Values(b.byApp, ks), KeyOf(r);
    StoredUnderItsKey(b, r);
    PrefixIsolatesApp(app, r.app, r.startedAt);
    forall i | 0 <= i < |ks| ensures ks[i] != k {
      assert out[i] == b.byApp[ks[i]] && out[i] in out;
    }
    forall x | x in out ensures x.startedAt > r.startedAt {
      var i :| 0 <= i < |out| && out[i] == x;
      assert ks[i] in ks && x in Records(b);
      PrefixIsolatesApp(app, x.app, x.startedAt);
      KeyReversesTime(app, x.startedAt, r.startedAt);
    }
  }

  /** Cursor.Seek: the first position whose key is not below p. */
  method Seek(ks: seq<Bytes>, p: Bytes) returns (at: nat)
    requires Ascending(ks)
    ensures at <= |ks|
    ensures forall j :: 0 <= j < at ==> Less(ks[j], p)
    ensures forall j :: at <= j < |ks| ==> !Less(ks[j], p)
  {
    at := 0;
    while at < |ks| && Less(ks[at], p)
      invariant at <= |ks|
      invariant forall j :: 0 <= j < at ==> Less(ks[j], p)
    {
      at := at + 1;
    }
    forall j | at <= j < |ks| ensures !Less(ks[j], p) {
      if at < j && Less(ks[j], p) { LessTransitive(ks[at], ks[j], p); }
    }
  }

  /** Walking from the seek position until the prefix ends or the limit is hit
      sees everything that matters. */
  lemma WalkIsScan(bucket: map<Bytes, Record>, ks: seq<Bytes>, p: Bytes, limit: int, start: nat, end: nat)
    requires Ascending(ks) && forall k :: k in ks <==> k in bucket
    requires start <= end <= |ks|
    requires forall j :: 0 <= j < start ==> Less(ks[j], p)
    requires forall j :: start <= j < |ks| ==> !Less(ks[j], p)
    requires forall j :: start <= j < end ==> HasPrefix(ks[j], p)
    requires limit > 0 ==> end - start <= limit
    requires end == |ks| || !HasPrefix(ks[end], p) || (limit > 0 && end - start == limit)
    ensures PrefixScan(bucket, p, limit, ks[start..end])
  {
    var taken := ks[start..end];
    forall i | 0 <= i < |taken| ensures taken[i] in bucket && HasPrefix(taken[i], p) {
      assert ks[start + i] in ks && taken[i] == ks[start + i];
    }
    forall k | k in bucket && HasPrefix(k, p) && k !in taken
      ensures limit > 0 && |taken| == limit && forall x :: x in taken ==> Less(x, k)
    {
      var j :| 0 <= j < |ks| && ks[j] == k;
      PrefixNotAbove(k, p);
      forall m | start <= m < end ensures ks[m] != k {
        assert taken[m - start] == ks[m];
      }
      if end < j && !HasPrefix(ks[end], p) { PrefixesAreContiguous(ks[end], k, p); }
      forall i | 0 <= i < |taken| ensures Less(taken[i], k) {
        assert taken[i] == ks[start + i];
      }
    }
  }

  // ---- Grouping and trimming --------------------------------------------------

  ghost predicate IsGrouping(grouped: map<Bytes, seq<Record>>, rs: set<Record>) {
    && (forall r :: r in rs ==> r.app in grouped)
    && (forall a :: a in grouped ==> Distinct(grouped[a]) && Elements(grouped[a]) == OfApp(rs, a))
  }

  function AddToGroup(grouped: map<Bytes, seq<Record>>, rec: Record): map<Bytes, seq<Record>> {
    grouped[rec.app := (if rec.app in grouped then grouped[rec.app] else []) + [rec]]
  }

  lemma AddToGroupGroups(grouped: map<Bytes, seq<Record>>, rs: set<Record>, rec: Record)
    requires IsGrouping(grouped, rs) && rec !in rs
    ensures IsGrouping(AddToGroup(grouped, rec), rs + {rec})
  {
    var group := if rec.app in grouped then grouped[rec.app] else [];
    assert Elements(group) == OfApp(rs, rec.app);
    assert rec !in Elements(group);
    assert Elements(group + [rec]) == Elements(group) + {rec} == OfApp(rs + {rec}, rec.app);
    forall a | a in grouped && a != rec.app ensures OfApp(rs + {rec}, a) == OfApp(rs, a) {
    }
  }

  /** How far pass one has come: apps outside todo are trimmed, gone is what was
      deleted, survivors what was kept. */
  ghost predicate Passed(all: set<Record>, gone: set<Record>, todo: set<Bytes>, survivors: seq<Record>, limit: int) {
    && gone <= all
    && (forall r :: r in gone ==> r.app !in todo)
    && (forall a :: a !in todo ==> Trimmed(OfApp(all, a), OfApp(all - gone, a), limit))
    && Distinct(survivors)
    && (forall r :: r in survivors <==> r in all && r !in gone && r.app !in todo)
  }

  lemma PassedStart(all: set<Record>, grouped: map<Bytes, seq<Record>>, limit: int)
    requires IsGrouping(grouped, all)
    ensures Passed(all, {}, grouped.Keys, [], limit)
  {
    forall a | a !in grouped ensures Trimmed(OfApp(all, a), OfApp(all - {}, a), limit) {
      assert OfApp(all, a) == {} && OfApp(all - {}, a) == {};
    }
  }

  lemma PassedStep(all: set<Record>, gone: set<Record>, todo: set<Bytes>, survivors: seq<Record>, limit: int,
                   app: Bytes, kept: seq<Record>, dropped: set<Record>)
    requires Passed(all, gone, todo, survivors, limit) && app in todo
    requires Distinct(kept) && dropped <= OfApp(all, app) && Elements(kept) == OfApp(all, app) - dropped
    requires Trimmed(OfApp(all, app), Elements(kept), limit)
    ensures Passed(all, gone + dropped, todo - {app}, survivors + kept, limit)
    ensures gone !! dropped
  {
    forall a | a !in todo - {app}
      ensures Trimmed(OfApp(all, a), OfApp(all - (gone + dropped), a), limit)
    {
      if a == app {
        assert OfApp(all - (gone + dropped), a) == Elements(kept);
      } else {
        OtherAppUntouched(all, gone, dropped, app, a);
      }
    }
    SurvivorsStep(all, gone, todo, survivors, app, kept, dropped);
  }

  lemma OtherAppUntouched(all: set<Record>, gone: set<Record>, dropped: set<Record>, app: Bytes, other: Bytes)
    requires dropped <= OfApp(all, app) && other != app
    ensures OfApp(all - (gone + dropped), other) == OfApp(all - gone, other)
  {
  }

  lemma SurvivorsStep(all: set<Record>, gone: set<Record>, todo: set<Bytes>, survivors: seq<Record>,
                      app: Bytes, kept: seq<Record>, dropped: set<Record>)
    requires forall r :: r in gone ==> r.app !in todo
    requires Distinct(survivors) && app in todo
    requires forall r :: r in survivors <==> r in all && r !in gone && r.app !in todo
    requires Distinct(kept) && dropped <= OfApp(all, app) && Elements(kept) == OfApp(all, app) - dropped
    ensures Distinct(survivors + kept)
    ensures forall r :: r in survivors + kept <==> r in all && r !in gone + dropped && r.app !in todo - {app}
  {
    forall r ensures r in kept <==> r in all && r !in gone + dropped && r.app == app {
      assert r in kept <==> r in Elements(kept);
    }
    DistinctConcat(survivors, kept);
    forall r ensures r in survivors + kept <==> r in survivors || r in kept {
    }
  }

  lemma DistinctConcat(s: seq<Record>, t: seq<Record>)
    requires Distinct(s) && Distinct(t) && forall r :: r in s ==> r !in t
    ensures Distinct(s + t)
  {
    var out := s + t;
    forall i, j | 0 <= i < j < |out| ensures out[i] != out[j] {
      if i < |s| { assert out[i] in s; }
      if j >= |s| { assert out[j] in t; }
    }
  }

  lemma TrimFacts(recs: seq<Record>, sorted: seq<Record>, keep: nat, limit: int)
    requires Descending(sorted) && Distinct(sorted) && Elements(sorted) == Elements(recs) && keep <= |sorted|
    requires keep == if limit > 0 then Min(|sorted|, limit) else |sorted|
    ensures Distinct(sorted[..keep]) && |Elements(sorted[keep..])| == |sorted| - keep
    ensures Elements(sorted[keep..]) <= Elements(recs)
    ensures Elements(sorted[..keep]) == Elements(recs) - Elements(sorted[keep..])
    ensures Trimmed(Elements(recs), Elements(sorted[..keep]), limit)
  {
    HeadAndTail(sorted, keep);
    HeadIsTrim(sorted, keep, limit);
    DistinctCount(sorted[keep..]);
    var all, head, tail := Elements(recs), Elements(sorted[..keep]), Elements(sorted[keep..]);
    assert all == head + tail && all - tail == head;
  }

  lemma SameIds(recs: seq<Record>, sorted: seq<Record>)
    requires Elements(sorted) == Elements(recs) && forall r :: r in recs ==> r.attemptId != []
    ensures forall r :: r in sorted ==> r.attemptId != []
  {
    forall r | r in sorted ensures r.attemptId != [] {
      assert r in Elements(sorted);
    }
  }

  /** The records a ForEach has passed after n keys. */
  ghost function Visited(bucket: map<Bytes, Record>, ks: seq<Bytes>, n: nat): set<Record>
    requires n <= |ks| && forall k :: k in ks ==> k in bucket
  {
    set j | 0 <= j < n :: bucket[ks[j]]
  }

  lemma VisitedStep(b: Buckets, ks: seq<Bytes>, n: nat)
    requires Agree(b) && Ascending(ks) && n < |ks| && forall k :: k in ks ==> k in b.byApp
    ensures b.byApp[ks[n]] !in Visited(b.byApp, ks, n)
    ensures Visited(b.byApp, ks, n + 1) == Visited(b.byApp, ks, n) + {b.byApp[ks[n]]}
  {
    forall j | 0 <= j < n ensures b.byApp[ks[j]] != b.byApp[ks[n]] {
      AscendingDistinct(ks, j, n);
      assert ks[j] in ks && ks[n] in ks;
    }
  }

  lemma AllVisited(bucket: map<Bytes, Record>, ks: seq<Bytes>)
    requires forall k :: k in ks <==> k in bucket
    ensures Visited(bucket, ks, |ks|) == bucket.Values
  {
    forall r | r in bucket.Values ensures r in Visited(bucket, ks, |ks|) {
      var k :| k in bucket && bucket[k] == r;
      var j :| 0 <= j < |ks| && ks[j] == k;
    }
    forall j | 0 <= j < |ks| ensures bucket[ks[j]] in bucket.Values {
      assert ks[j] in ks;
    }
  }

  // ---- The store ---------------------------------------------------------------

  /** One more deletion of a tail. */
  lemma DeleteNext(b: Buckets, recs: seq<Record>, keep: nat, i: nat)
    requires keep <= i < |recs| && forall r :: r in recs ==> r.attemptId != []
    ensures recs[i].attemptId != []
    ensures DeleteSpec(RemoveAll(b, Elements(recs[keep..i])), recs[i]) == RemoveAll(b, Elements(recs[keep..i + 1]))
  {
    assert recs[i] in recs;
    assert recs[keep..i + 1] == recs[keep..i] + [recs[i]];
    assert Elements(recs[keep..i + 1]) == Elements(recs[keep..i]) + {recs[i]};
    DeleteIsRemove(b, Elements(recs[keep..i]), recs[i]);
  }

  class Store {
    var byApp: map<Bytes, Record>
    var byId: map<Bytes, Record>

    function View(): Buckets
      reads this
    {
      Buckets(byApp, byId)
    }

    constructor ()
      ensures View() == Buckets(map[], map[])
    {
      byApp, byId := map[], map[];
    }

    /** Also bumps UpdatedAt of the caller's record, handed back as saved. */
    method SaveAppUpdate(rec: Record) returns (outcome: Outcome, saved: Record)
      modifies this
      ensures rec.attemptId == [] ==> outcome == Refused(MissingAttemptId)
      ensures rec.attemptId != [] && rec.app == [] ==> outcome == Refused(MissingApp)
      ensures rec.attemptId != [] && rec.app != [] ==> outcome == Done
      ensures outcome.Done? ==> View() == SaveSpec(old(View()), rec) && saved == Bumped(rec)
      ensures outcome.Refused? ==> View() == old(View()) && saved == rec
    {
      saved := rec;
      if rec.attemptId == [] { return Refused(MissingAttemptId), saved; }
      if rec.app == [] { return Refused(MissingApp), saved; }
      if saved.updatedAt < saved.startedAt {
        saved := saved.(updatedAt := saved.startedAt);
      }
      byApp := byApp[Key(saved.app, saved.startedAt) := saved];
      byId := byId[saved.attemptId := saved];
      outcome := Done;
    }

    method AppendAppUpdateEvent(attemptId: Bytes, ev: Event, stage: Stage) returns (outcome: Outcome)
      modifies this
      ensures attemptId == [] ==> outcome == Refused(MissingAttemptId)
      ensures attemptId != [] && attemptId !in old(byId) ==> outcome == Refused(NotFound)
      ensures attemptId != [] && attemptId in old(byId) ==> outcome == Done
      ensures View() == if outcome.Done? then AppendSpec(old(View()), attemptId, ev, stage) else old(View())
    {
      if attemptId == [] { return Refused(MissingAttemptId); }
      if attemptId !in byId { return Refused(NotFound); }
      var rec := byId[attemptId];
      rec := rec.(events := rec.events + [ev], stage := stage);
      if ev.at > rec.updatedAt {
        rec := rec.(updatedAt := ev.at);
      }
      byId := byId[attemptId := rec];
      byApp := byApp[Key(rec.app, rec.startedAt) := rec];
      outcome := Done;
    }

    /** Seeks to the app's prefix and walks forward while keys still carry it. */
    method ListAppUpdates(app: Bytes, limit: int) returns (listing: Listing)
      ensures app == [] ==> listing == ListRefused(MissingApp)
      ensures app != [] ==> listing.Listed?
      ensures listing.Listed? ==>
                exists ks :: PrefixScan(byApp, Prefix(app), limit, ks) && listing.records == Values(byApp, ks)
    {
      if app == [] { return ListRefused(MissingApp); }
      var prefix := Prefix(app);
      var ks := CursorOrder(byApp);
      var i := Seek(ks, prefix);
      ghost var start := i;
      var out: seq<Record> := [];
      var full := false;
      while i < |ks| && HasPrefix(ks[i], prefix) && !full
        invariant start <= i <= |ks|
        invariant forall j :: start <= j < i ==> HasPrefix(ks[j], prefix)
        invariant out == Values(byApp, ks[start..i])
        invariant full <==> limit > 0 && i > start && |out| >= limit
        invariant limit > 0 ==> |out| <= limit
      {
        assert ks[start..i + 1] == ks[start..i] + [ks[i]];
        out := out + [byApp[ks[i]]];
        i := i + 1;
        full := limit > 0 && |out| >= limit;
      }
      WalkIsScan(byApp, ks, prefix, limit, start, i);
      listing := Listed(out);
    }

    method GetAppUpdate(attemptId: Bytes) returns (r: Lookup)
      ensures r == if attemptId == [] then LookupRefused(MissingAttemptId)
                   else if attemptId in byId then Found(byId[attemptId]) else NoRecord
    {
      if attemptId == [] { return LookupRefused(MissingAttemptId); }
      if attemptId !in byId { return NoRecord; }
      r := Found(byId[attemptId]);
    }

    method DeleteAppUpdate(rec: Record)
      modifies this
      ensures View() == DeleteSpec(old(View()), rec)
    {
      byApp := byApp - {Key(rec.app, rec.startedAt)};
      if rec.attemptId != [] {
        byId := byId - {rec.attemptId};
      }
    }

    /** Drops everything from index keep on. */
    method DeleteTail(recs: seq<Record>, keep: nat) returns (deleted: nat)
      requires keep <= |recs| && forall r :: r in recs ==> r.attemptId != []
      modifies this
      ensures View() == RemoveAll(old(View()), Elements(recs[keep..]))
      ensures deleted == |recs| - keep
    {
      deleted := 0;
      for i := keep to |recs|
        invariant View() == RemoveAll(old(View()), Elements(recs[keep..i]))
        invariant deleted == i - keep
      {
        DeleteNext(old(View()), recs, keep, i);
        DeleteAppUpdate(recs[i]);
        deleted := deleted + 1;
      }
      assert recs[keep..|recs|] == recs[keep..];
    }

    method GroupByApp() returns (grouped: map<Bytes, seq<Record>>)
      requires Agree(View())
      ensures IsGrouping(grouped, Records(View()))
    {
      grouped := map[];
      var ks := CursorOrder(byApp);
      for i := 0 to |ks|
        invariant IsGrouping(grouped, Visited(byApp, ks, i))
      {
        VisitedStep(View(), ks, i);
        AddToGroupGroups(grouped, Visited(byApp, ks, i), byApp[ks[i]]);
        grouped := AddToGroup(grouped, byApp[ks[i]]);
      }
      AllVisited(byApp, ks);
    }

    /** Sorts recs newest first and deletes all past the limit (none if limit <= 0). */
    method Trim(recs: seq<Record>, limit: int) returns (kept: seq<Record>, deleted: nat, ghost dropped: set<Record>)
      requires Distinct(recs) && forall r :: r in recs ==> r.attemptId != []
      modifies this
      ensures View() == RemoveAll(old(View()), dropped)
      ensures dropped <= Elements(recs) && Elements(kept) == Elements(recs) - dropped && Distinct(kept)
      ensures Trimmed(Elements(recs), Elements(kept), limit)
      ensures deleted == |dropped|
    {
      var sorted := SortNewestFirst(recs);
      var keepCount := |sorted|;
      if limit > 0 && keepCount > limit {
        keepCount := limit;
      }
      TrimFacts(recs, sorted, keepCount, limit);
      SameIds(recs, sorted);
      deleted := DeleteTail(sorted, keepCount);
      kept, dropped := sorted[..keepCount], Elements(sorted[keepCount..]);
    }

    /** Pass one: every app keeps its newest records. */
    method TrimEachApp(retainPerApp: int) returns (survivors: seq<Record>, deleted: nat, ghost gone: set<Record>)
      requires Agree(View())
      modifies this
      ensures View() == RemoveAll(old(View()), gone)
      ensures Passed(Records(old(View())), gone, {}, survivors, retainPerApp)
      ensures deleted == |gone|
    {
      ghost var b0, all := View(), Records(View());
      var grouped := GroupByApp();
      survivors, deleted, gone := [], 0, {};
      var todo := grouped.Keys;
      PassedStart(all, grouped, retainPerApp);
      RemoveNone(b0);
      while todo != {}
        invariant todo <= grouped.Keys && View() == RemoveAll(b0, gone)
        invariant Passed(all, gone, todo, survivors, retainPerApp)
        invariant deleted == |gone|
      {
        var app :| app in todo;
        HaveIds(b0, grouped[app]);
        var kept, n, dropped := Trim(grouped[app], retainPerApp);
        RemoveTwice(b0, gone, dropped);
        PassedStep(all, gone, todo, survivors, retainPerApp, app, kept, dropped);
        deleted := deleted + n;
        gone := gone + dropped;
        survivors := survivors + kept;
        todo := todo - {app};
      }
    }

    /** Per-app trim, then global trim of the survivors. */
    method PurgeOlderThan(retainPerApp: int, retainGlobal: int) returns (deleted: nat)
      requires Agree(View())
      modifies this
      ensures PurgeStep(old(View()), retainPerApp, retainGlobal, View())
      ensures deleted == |Records(old(View()))| - |Records(View())|
    {
      ghost var b0, all := View(), Records(View());
      if retainPerApp <= 0 && retainGlobal <= 0 {
        NothingPurged(b0, retainPerApp, retainGlobal);
        return 0;
      }
      var survivors, n, gone := TrimEachApp(retainPerApp);
      deleted := n;
      PassedEnd(all, gone, survivors, retainPerApp);
      if retainGlobal > 0 && |survivors| > retainGlobal {
        HaveIds(b0, survivors);
        var _, m, dropped := Trim(survivors, retainGlobal);
        PassTwoEnd(b0, gone, dropped, retainPerApp, retainGlobal);
        deleted := deleted + m;
      } else {
        NoPassTwo(b0, gone, retainPerApp, retainGlobal);
      }
    }
  }

  lemma PassTwoEnd(b: Buckets, gone: set<Record>, dropped: set<Record>, perApp: int, total: int)
    requires Agree(b) && gone <= Records(b) && PassOne(Records(b), Records(b) - gone, perApp)
    requires dropped <= Records(b) - gone
    requires Trimmed(Records(b) - gone, Records(b) - gone - dropped, total)
    ensures PurgeStep(b, perApp, total, RemoveAll(RemoveAll(b, gone), dropped))
    ensures |gone| + |dropped| == |Records(b)| - |Records(RemoveAll(RemoveAll(b, gone), dropped))|
  {
    var all, out := Records(b), gone + dropped;
    RemoveTwice(b, gone, dropped);
    RemoveAgrees(b, out);
    SplitCount(all, gone, dropped);
    assert Purged(all, all - out, perApp, total);
  }

  lemma SplitCount(all: set<Record>, gone: set<Record>, dropped: set<Record>)
    requires gone <= all && dropped <= all - gone
    ensures gone + dropped <= all && all - gone - dropped == all - (gone + dropped)
    ensures |gone| + |dropped| == |all| - |all - (gone + dropped)|
  {
    assert all == (all - (gone + dropped)) + (gone + dropped);
  }

  lemma NoPassTwo(b: Buckets, gone: set<Record>, perApp: int, total: int)
    requires Agree(b) && gone <= Records(b) && PassOne(Records(b), Records(b) - gone, perApp)
    requires total <= 0 || |Records(b) - gone| <= total
    ensures PurgeStep(b, perApp, total, RemoveAll(b, gone))
    ensures |gone| == |Records(b)| - |Records(RemoveAll(b, gone))|
  {
    assert Records(b) - gone - {} == Records(b) - gone;
    PassTwoEnd(b, gone, {}, perApp, total);
    RemoveNone(RemoveAll(b, gone));
  }

  lemma PassedEnd(all: set<Record>, gone: set<Record>, survivors: seq<Record>, limit: int)
    requires Passed(all, gone, {}, survivors, limit)
    ensures Elements(survivors) == all - gone && |survivors| == |all - gone|
    ensures PassOne(all, all - gone, limit)
  {
    DistinctCount(survivors);
  }

  lemma HaveIds(b: Buckets, recs: seq<Record>)
    requires Agree(b) && Elements(recs) <= Records(b)
    ensures forall r :: r in recs ==> r.attemptId != []
  {
    forall r | r in recs ensures r.attemptId != [] {
      assert r in Elements(recs);
      StoredUnderItsKey(b, r);
    }
  }

  lemma RemoveNone(b: Buckets)
    ensures RemoveAll(b, {}) == b
  {
    var c := RemoveAll(b, {});
    assert c.byApp == b.byApp && c.byId == b.byId;
  }

  lemma RemoveTwice(b: Buckets, rs: set<Record>, ss: set<Record>)
    ensures RemoveAll(RemoveAll(b, rs), ss) == RemoveAll(b, rs + ss)
  {
    assert (set r | r in rs + ss :: KeyOf(r)) == (set r | r in rs :: KeyOf(r)) + (set r | r in ss :: KeyOf(r));
    assert (set r | r in rs + ss :: r.attemptId) == (set r | r in rs :: r.attemptId) + (set r | r in ss :: r.attemptId);
  }

  lemma NothingPurged(b: Buckets, perApp: int, total: int)
    requires Agree(b) && perApp <= 0 && total <= 0
    ensures PurgeStep(b, perApp, total, b)
  {
    RemoveNone(b);
    assert Records(b) - {} == Records(b);
    assert PassOne(Records(b), Records(b), perApp);
    NoPassTwo(b, {}, perApp, total);
  }
}
