/** One run of the auto-update pipeline: TriggerApp, appendEvent and rollback in
    internal/docker/auto_updater.go, on top of the attempt store.

    Docker, the registry, the monitor cache and the clock answer from outside: their
    answers are the Env argument, and every reading of the clock is any time not before
    the previous one. How triggers of several apps interleave is in UpdateSchedule. */
module AutoUpdater {
  import opened Bytes
  import opened Collections
  import opened AppUpdates
  import opened AppUpdateStore
  import opened UpdateStages
  import CT = ComposeTree
  import IP = ImagePinning
  import IR = ImageRefs

  /** A container of the project; digest is "" when inspecting its image failed. */
  datatype Container = Container(service: string, digest: string)

  datatype PullError = AuthError | OtherError

  datatype Env = Env(
    listFails: bool,
    windowForbids: bool,
    compose: Option<CT.Node>,
    containers: Option<seq<Container>>,
    services: Option<set<string>>,
    hasUpdate: set<string>,
    remoteDigests: map<string, string>,
    pullErrors: map<string, PullError>,
    deployFails: bool,
    probeFails: bool,
    redeployFails: bool)

  datatype Deploy = Deploy(app: Bytes, compose: CT.Node, forcePull: bool)
  datatype FeedEvent = FeedEvent(attemptId: Bytes, stage: Stage, errorCode: string, at: Micros)

  datatype Outcome =
    | EmptyApp | AlreadyRunning | SkippedCooldown | SkippedWindow
    | NoCompose | ListFailed | NoContainers | BadCompose | Attempted

  // ---- Specification of a run -----------------------------------------------------

  /** The digest of the first container that carries the service's label. */
  function FirstDigest(containers: seq<Container>, service: string): string {
    if containers == [] then ""
    else if containers[0].service == service then containers[0].digest
    else FirstDigest(containers[1..], service)
  }

  predicate Mentions(containers: seq<Container>, service: string) {
    exists i :: 0 <= i < |containers| && containers[i].service == service
  }

  function PreviousDigests(containers: seq<Container>, services: set<string>): IP.Digests {
    map s | s in services && s != "" && Mentions(containers, s) :: FirstDigest(containers, s)
  }

  /** What the record says of a service: the image as declared, the digest captured before
      the update, and the remote digest the monitor knows. */
  function ServiceInfoOf(e: Env, digests: IP.Digests, service: string): ServiceInfo
    requires e.compose.Some?
  {
    ServiceInfo(IP.ImageOf(e.compose.value, service), IP.DigestOf(digests, service),
                if service in e.remoteDigests then e.remoteDigests[service] else "")
  }

  function ServiceInfos(e: Env): map<string, ServiceInfo>
    requires e.compose.Some? && e.containers.Some? && e.services.Some?
  {
    var digests := PreviousDigests(e.containers.value, e.services.value);
    map s | s in e.services.value :: ServiceInfoOf(e, digests, s)
  }

  ghost predicate PullFails(e: Env, services: set<string>) {
    exists s :: s in services && s in e.hasUpdate && s in e.pullErrors
  }

  function WantedPins(e: Env): set<string>
    requires e.services.Some? && e.containers.Some?
  {
    IP.Wanted(e.services.value, PreviousDigests(e.containers.value, e.services.value))
  }

  ghost predicate CanRedeploy(e: Env)
    requires e.services.Some? && e.containers.Some? && e.compose.Some?
  {
    && WantedPins(e) != {}
    && IP.AllPinnable(e.compose.value, WantedPins(e), PreviousDigests(e.containers.value, e.services.value))
  }

  /** The compose file rollback deploys. */
  function PinnedCompose(e: Env): CT.Node
    requires e.services.Some? && e.containers.Some? && e.compose.Some?
  {
    IP.PinnedTree(e.compose.value, WantedPins(e), PreviousDigests(e.containers.value, e.services.value))
  }

  ghost predicate Ready(e: Env) {
    e.compose.Some? && e.containers.Some? && e.containers.value != [] && e.services.Some?
  }

  predicate NoAnswer(o: Outcome) { o.NoCompose? || o.ListFailed? || o.NoContainers? || o.BadCompose? }

  /** Which answer from outside an outcome stands for. */
  ghost predicate Explained(o: Outcome, e: Env, bypassWindow: bool) {
    && (o.SkippedWindow? ==> !bypassWindow && e.windowForbids)
    && (NoAnswer(o) || o.Attempted? ==> bypassWindow || !e.windowForbids)
    && (o.NoCompose? ==> e.compose.None?)
    && (o.ListFailed? ==> e.compose.Some? && e.containers.None?)
    && (o.NoContainers? ==> e.compose.Some? && e.containers == Some([]))
    && (o.BadCompose? ==> e.compose.Some? && e.containers.Some? && e.containers.value != [] && e.services.None?)
    && (o.Attempted? ==> Ready(e))
  }

  ghost predicate RollbackWorks(e: Env)
    requires Ready(e)
  {
    CanRedeploy(e) && !e.redeployFails
  }

  ghost function UndoStage(e: Env): Stage
    requires Ready(e)
  {
    if RollbackWorks(e) then RolledBack else Failed
  }

  ghost function VerifyWord(e: Env): seq<Stage> {
    if e.probeFails then [Verifying] else [Verifying, Completed]
  }

  ghost function RecreateWord(e: Env): seq<Stage> {
    if e.deployFails then [Recreating] else [Recreating] + VerifyWord(e)
  }

  /** The stages up to completion or the first failure. */
  ghost function ForwardWord(e: Env): seq<Stage>
    requires Ready(e)
  {
    [Pulling] + (if PullFails(e, e.services.value) then [Failed] else RecreateWord(e))
  }

  ghost predicate NeedsRollback(e: Env)
    requires Ready(e)
  {
    !PullFails(e, e.services.value) && (e.deployFails || e.probeFails)
  }

  /** All stages of a run, in order. */
  ghost function StageWord(e: Env): seq<Stage>
    requires Ready(e)
  {
    ForwardWord(e) + (if NeedsRollback(e) then [UndoStage(e)] else [])
  }

  function PullCode(p: PullError): string { if p == AuthError then "auth_missing" else "pull_error" }

  ghost function UndoCode(e: Env): string { if e.deployFails then "compose_error" else "health_probe_failed" }

  /** The error code an attempt may end with. */
  ghost predicate FinalCode(e: Env, code: string)
    requires Ready(e)
  {
    if PullFails(e, e.services.value) then
      exists s :: s in e.services.value && s in e.hasUpdate && s in e.pullErrors && code == PullCode(e.pullErrors[s])
    else if NeedsRollback(e) then code == if RollbackWorks(e) then UndoCode(e) else "rollback_failed"
    else code == ""
  }

  ghost function ForwardDeploys(app: Bytes, e: Env): seq<Deploy>
    requires Ready(e)
  {
    if PullFails(e, e.services.value) then [] else [Deploy(app, e.compose.value, true)]
  }

  ghost function UndoDeploys(app: Bytes, e: Env): seq<Deploy>
    requires Ready(e)
  {
    if CanRedeploy(e) then [Deploy(app, PinnedCompose(e), false)] else []
  }

  /** All deploys a run issues, in order. */
  ghost function DeployWord(app: Bytes, e: Env): seq<Deploy>
    requires Ready(e)
  {
    ForwardDeploys(app, e) + (if NeedsRollback(e) then UndoDeploys(app, e) else [])
  }

  /** A run is its forward part, and a rollback if there is one. */
  lemma WordsSplit(app: Bytes, e: Env, issued: seq<Deploy>)
    requires Ready(e)
    ensures StageWord(e) == if NeedsRollback(e) then ForwardWord(e) + [UndoStage(e)] else ForwardWord(e)
    ensures issued + DeployWord(app, e) == if NeedsRollback(e) then issued + ForwardDeploys(app, e) + UndoDeploys(app, e)
                                           else issued + ForwardDeploys(app, e)
  {
    Associate(issued, ForwardDeploys(app, e), UndoDeploys(app, e));
  }

  function Stages(events: seq<Event>): (r: seq<Stage>)
    ensures |r| == |events| && forall i :: 0 <= i < |r| ==> r[i] == events[i].stage
  {
    seq(|events|, i requires 0 <= i < |events| => events[i].stage)
  }

  /** A record whose fields are those of its last event. */
  ghost predicate Current(r: Record) {
    && r.events != []
    && r.stage == r.events[|r.events| - 1].stage
    && r.updatedAt == r.events[|r.events| - 1].at
    && (forall i, j :: 0 <= i < j < |r.events| ==> r.events[i].at <= r.events[j].at)
    && r.startedAt <= r.events[0].at
  }

  /** after is before with further events, whose stages spell word. */
  ghost predicate Progress(before: Record, after: Record, word: seq<Stage>) {
    && after.attemptId == before.attemptId && after.app == before.app && after.startedAt == before.startedAt
    && after.instanceId == before.instanceId && after.services == before.services
    && after.triggeredBy == before.triggeredBy
    && before.events <= after.events && Stages(after.events[|before.events|..]) == word
    && Current(after)
  }

  /** The feed events of a record from position n on: only the last carries an error code. */
  function FeedFrom(r: Record, n: nat): (f: seq<FeedEvent>)
    requires n <= |r.events|
    ensures |f| == |r.events| - n
  {
    seq(|r.events| - n, i requires 0 <= i < |r.events| - n =>
      FeedEvent(r.attemptId, r.events[n + i].stage, if n + i == |r.events| - 1 then r.errorCode else "", r.events[n + i].at))
  }

  /** What an attempt changes as it goes on: the record, the feed and the store. */
  datatype Track = Track(rec: Record, feed: seq<FeedEvent>, buckets: Buckets)

  /** From a to b the attempt went through the stages of word: each was published, and the
      store has the record. */
  ghost predicate Ran(a: Track, b: Track, word: seq<Stage>) {
    && Progress(a.rec, b.rec, word)
    && (a.rec.errorCode == "" ==> b.feed == a.feed + FeedFrom(b.rec, |a.rec.events|))
    && b.buckets == SaveSpec(a.buckets, b.rec)
  }

  lemma RanTwice(a: Track, b: Track, c: Track, v: seq<Stage>, w: seq<Stage>)
    requires Ran(a, b, v) && Ran(b, c, w) && w != [] && b.rec.errorCode == ""
    ensures Ran(a, c, v + w)
  {
    ProgressTwice(a.rec, b.rec, c.rec, v, w);
    FeedTwice(a.rec, b.rec, c.rec);
    SavedAgain(a.buckets, b.rec, c.rec);
    Associate(a.feed, FeedFrom(b.rec, |a.rec.events|), FeedFrom(c.rec, |b.rec.events|));
  }

  lemma Pulled(a: Track, t: Track, b: Track, pulled: bool)
    requires Ran(a, t, [Pulling]) && t.rec.errorCode == "" && (if pulled then b == t else Ran(t, b, [Failed]))
    ensures Ran(a, b, if pulled then [Pulling] else [Pulling, Failed])
  {
    if !pulled { RanTwice(a, t, b, [Pulling], [Failed]); }
  }

  lemma Verified(e: Env, a: Track, t: Track, b: Track)
    requires Ran(a, t, [Verifying]) && t.rec.errorCode == "" && (if e.probeFails then b == t else Ran(t, b, [Completed]))
    ensures Ran(a, b, VerifyWord(e))
  {
    if !e.probeFails { RanTwice(a, t, b, [Verifying], [Completed]); }
  }

  lemma ProgressTwice(a: Record, b: Record, c: Record, v: seq<Stage>, w: seq<Stage>)
    requires Progress(a, b, v) && Progress(b, c, w)
    ensures Progress(a, c, v + w)
  {
    var n, m := |a.events|, |b.events|;
    assert c.events[n..] == b.events[n..] + c.events[m..];
  }

  lemma FeedTwice(a: Record, b: Record, c: Record)
    requires a.events <= b.events <= c.events && |b.events| < |c.events|
    requires b.attemptId == c.attemptId && b.errorCode == ""
    ensures FeedFrom(c, |a.events|) == FeedFrom(b, |a.events|) + FeedFrom(c, |b.events|)
  {
    assert forall i :: 0 <= i < |b.events| ==> b.events[i] == c.events[i];
  }

  /** Completion is noted on the record before its event is appended. */
  lemma RanFromCompleted(a: Track, at: Micros, b: Track, word: seq<Stage>)
    requires Ran(a.(rec := a.rec.(completedAt := at)), b, word)
    ensures Ran(a, b, word)
  {
  }

  /** A record after one more event. */
  function Appended(r: Record, now: Micros, stage: Stage, errorCode: string, message: string): Record {
    r.(stage := stage, updatedAt := now, events := r.events + [Event(now, stage, message)],
       errorCode := if errorCode != "" then errorCode else r.errorCode,
       message := if message != "" then message else r.message)
  }

  lemma AppendedProgress(r: Record, before: Micros, now: Micros, stage: Stage, errorCode: string, message: string)
    requires Open(r, before) && before <= now
    ensures var r' := Appended(r, now, stage, errorCode, message);
            Progress(r, r', [stage]) && Open(r', now) && Bumped(r') == r'
  {
    var r' := Appended(r, now, stage, errorCode, message);
    assert r'.events[|r.events|..] == [Event(now, stage, message)];
  }

  lemma AppendedFeed(r: Record, now: Micros, stage: Stage, errorCode: string, message: string)
    ensures r.errorCode == "" ==>
              FeedFrom(Appended(r, now, stage, errorCode, message), |r.events|) == [FeedEvent(r.attemptId, stage, errorCode, now)]
  {
  }

  /** Fit for another event at or after time now. */
  ghost predicate Open(r: Record, now: Micros) {
    r.attemptId != [] && r.app != [] && r.startedAt <= now && (r.events != [] ==> Current(r) && r.updatedAt <= now)
  }

  /** Every run that reaches the pull stage ends in exactly one terminal stage. */
  lemma OneTerminalStage(e: Env)
    requires Ready(e)
    ensures var w := StageWord(e);
            && 2 <= |w| <= 4 && w[0] == Pulling
            && Terminal(w[|w| - 1])
            && (forall i :: 0 <= i < |w| - 1 ==> !Terminal(w[i]))
            && (forall i, j :: 0 <= i < j < |w| ==> w[i] != w[j])
  {
    WordInFull(e);
  }

  /** What a terminal stage says about the deploys that were issued. */
  lemma TerminalMeansDeploys(app: Bytes, e: Env)
    requires Ready(e)
    ensures var last := StageWord(e)[|StageWord(e)| - 1];
            var ds := DeployWord(app, e);
            && (last == Completed <==> ds == [Deploy(app, e.compose.value, true)] && !e.deployFails && !e.probeFails)
            && (last == RolledBack ==>
                  ds == [Deploy(app, e.compose.value, true), Deploy(app, PinnedCompose(e), false)] && !e.redeployFails)
            && (PullFails(e, e.services.value) <==> ds == [])
  {
  }

  /** After a rollback the image of every service with a captured digest reads repo@digest,
      with the repository that its raw text splits into, and no other service was rewritten. */
  lemma RollbackRestoresImages(e: Env, name: string)
    requires Ready(e) && StageWord(e)[|StageWord(e)| - 1] == RolledBack
    requires name in e.services.value && IP.Service(e.compose.value, name).Some?
    ensures var digests := PreviousDigests(e.containers.value, e.services.value);
            var before, after := IP.Service(e.compose.value, name).value, IP.Service(PinnedCompose(e), name);
            && after.Some?
            && (name in WantedPins(e) ==>
                  && CT.Find(before, "image").Some? && CT.Find(before, "image").value.Scalar?
                  && CT.Find(after.value, "image")
                     == Some(CT.Str(IR.Pinned(CT.Find(before, "image").value.text, digests[name]))))
            && (name !in WantedPins(e) ==> after.value == before)
  {
    var digests := PreviousDigests(e.containers.value, e.services.value);
    IP.PinnedService(e.compose.value, WantedPins(e), digests, name);
  }

  /** The completion time is noted exactly by completing. */
  ghost predicate Noted(before: Micros, after: Record) {
    if after.stage == Completed then after.startedAt <= after.completedAt <= after.updatedAt else after.completedAt == before
  }

  /** Who ran the attempt, and for whom. */
  datatype Origin = Origin(instanceId: Bytes, triggeredBy: string)

  /** What others see of the worker: the store, the feed and the deploys it issued. */
  datatype Outside = Outside(buckets: Buckets, feed: seq<FeedEvent>, deploys: seq<Deploy>)

  /** A whole attempt of the app, from before to after: its record went through the stage word
      to its final code, is what the store gained and the feed tells, and its deploys were issued. */
  ghost predicate AttemptDone(e: Env, app: Bytes, origin: Origin, before: Outside, after: Outside, r: Record) {
    && Ready(e) && r.app == app && WorkerBuilt(r) && Current(r) && r.services == ServiceInfos(e)
    && Stages(r.events) == StageWord(e) && FinalCode(e, r.errorCode)
    && r.instanceId == origin.instanceId && r.triggeredBy == origin.triggeredBy && Noted(0, r)
    && after.buckets == SaveSpec(before.buckets, r)
    && after.feed == before.feed + FeedFrom(r, 0)
    && after.deploys == before.deploys + DeployWord(app, e)
  }

  /** No stored attempt of the app is more recent than the cooldown allows. */
  ghost predicate CooledDown(b: Buckets, app: Bytes, cooldown: nat, now: Micros) {
    forall r :: r in OfApp(Records(b), app) ==> r.startedAt + cooldown <= now
  }

  predicate Skipped(o: Outcome) { o.SkippedCooldown? || o.SkippedWindow? }

  /** A trigger that got the app at time now. strict: the cooldown was looked at. */
  ghost predicate Ended(o: Outcome, e: Env, app: Bytes, origin: Origin, strict: bool, bypassWindow: bool, cooldown: nat,
                        now: Micros, before: Outside, after: Outside, r: Option<Record>)
  {
    && Explained(o, e, bypassWindow) && (r.Some? <==> o.Attempted?)
    && (o.SkippedCooldown? <==> strict && !CooledDown(before.buckets, app, cooldown, now))
    && (o.SkippedCooldown? ==> after == before.(feed := before.feed + [FeedEvent([], Pending, "skipped_cooldown", now)]))
    && (o.SkippedWindow? ==> after == before.(feed := before.feed + [FeedEvent([], Pending, "skipped_window", now)]))
    && (NoAnswer(o) ==> after == before)
    && (o.Attempted? ==> r.value.startedAt == now && AttemptDone(e, app, origin, before, after, r.value))
  }

  // ---- What an attempt leaves, in full ------------------------------------------------

  /** Some service with a known update cannot be pulled. */
  ghost predicate CannotPull(e: Env, services: set<string>) {
    exists s :: s in services && s in e.hasUpdate && s in e.pullErrors
  }

  /** Some previous digest was recorded, and each recorded one can be pinned. */
  ghost predicate CanPin(e: Env, r: Record)
    requires e.compose.Some?
  {
    && (exists s :: s in r.services && r.services[s].previousDigest != "")
    && (forall s :: s in r.services && r.services[s].previousDigest != "" ==>
          IP.Pinnable(e.compose.value, s, r.services[s].previousDigest))
  }

  lemma CanPinIff(e: Env, r: Record)
    requires Ready(e) && r.services == ServiceInfos(e)
    ensures CanPin(e, r) <==> CanRedeploy(e)
  {
    var digests := PreviousDigests(e.containers.value, e.services.value);
    forall s ensures s in WantedPins(e) <==> s in r.services && r.services[s].previousDigest != "" {
    }
    forall s | s in WantedPins(e) ensures digests[s] == r.services[s].previousDigest {
    }
  }

  lemma WordInFull(e: Env)
    requires Ready(e)
    ensures var last := if RollbackWorks(e) then RolledBack else Failed;
            StageWord(e) ==
            if CannotPull(e, e.services.value) then [Pulling, Failed]
            else if e.deployFails then [Pulling, Recreating, last]
            else if e.probeFails then [Pulling, Recreating, Verifying, last]
            else [Pulling, Recreating, Verifying, Completed]
  {
  }

  lemma WordFollows(w: seq<Stage>, last: Stage)
    requires Terminal(last) && last != Completed
    requires w == [Pulling, Failed] || w == [Pulling, Recreating, last] || w == [Pulling, Recreating, Verifying, last]
             || w == [Pulling, Recreating, Verifying, Completed]
    ensures forall i :: 0 <= i < |w| - 1 ==> Follows(w[i], w[i + 1])
  {
  }

  /** The stages of the record, one by one. */
  lemma StagesInFull(e: Env, app: Bytes, origin: Origin, before: Outside, after: Outside, r: Record)
    requires AttemptDone(e, app, origin, before, after, r)
    ensures var last := if CanPin(e, r) && !e.redeployFails then RolledBack else Failed;
            Stages(r.events) ==
            if CannotPull(e, e.services.value) then [Pulling, Failed]
            else if e.deployFails then [Pulling, Recreating, last]
            else if e.probeFails then [Pulling, Recreating, Verifying, last]
            else [Pulling, Recreating, Verifying, Completed]
    ensures forall i :: 0 <= i < |r.events| - 1 ==> Follows(r.events[i].stage, r.events[i + 1].stage)
  {
    CanPinIff(e, r);
    WordInFull(e);
    var w := Stages(r.events);
    WordFollows(w, UndoStage(e));
    assert forall i :: 0 <= i < |r.events| ==> r.events[i].stage == w[i];
  }

  /** Its final error code. */
  lemma CodesInFull(e: Env, app: Bytes, origin: Origin, before: Outside, after: Outside, r: Record)
    requires AttemptDone(e, app, origin, before, after, r)
    ensures CannotPull(e, e.services.value) ==>
              exists s :: s in e.services.value && s in e.hasUpdate && s in e.pullErrors
                && r.errorCode == if e.pullErrors[s].AuthError? then "auth_missing" else "pull_error"
    ensures !CannotPull(e, e.services.value) ==>
              r.errorCode == if !e.deployFails && !e.probeFails then ""
                             else if !CanPin(e, r) || e.redeployFails then "rollback_failed"
                             else if e.deployFails then "compose_error" else "health_probe_failed"
  {
    CanPinIff(e, r);
    if PullFails(e, e.services.value) {
      var s :| s in e.services.value && s in e.hasUpdate && s in e.pullErrors && r.errorCode == PullCode(e.pullErrors[s]);
    }
  }

  /** What it says of a service: the declared image, the digest of the first container that
      carries the service's label, and the remote digest if one is known. */
  lemma ServicesInFull(e: Env, app: Bytes, origin: Origin, before: Outside, after: Outside, r: Record, s: string)
    requires AttemptDone(e, app, origin, before, after, r)
    ensures s in r.services <==> s in e.services.value
    ensures s in r.services && IP.Service(e.compose.value, s).Some? ==>
              var image := CT.Find(IP.Service(e.compose.value, s).value, "image");
              r.services[s].image == if image.Some? && image.value.Scalar? then image.value.text else ""
    ensures forall i :: s in r.services && s != "" && 0 <= i < |e.containers.value| && e.containers.value[i].service == s
              && (forall j :: 0 <= j < i ==> e.containers.value[j].service != s)
              ==> r.services[s].previousDigest == e.containers.value[i].digest
    ensures (s in r.services && (s == "" || forall i :: 0 <= i < |e.containers.value| ==> e.containers.value[i].service != s))
            ==> r.services[s].previousDigest == ""
    ensures s in r.services ==>
              r.services[s].newDigest == if s in e.remoteDigests then e.remoteDigests[s] else ""
  {
    var cs := e.containers.value;
    forall i | 0 <= i < |cs| && cs[i].service == s && (forall j :: 0 <= j < i ==> cs[j].service != s)
      ensures Mentions(cs, s) && FirstDigest(cs, s) == cs[i].digest
    {
      FirstDigestIs(cs, s, i);
    }
  }

  lemma {:induction false} FirstDigestIs(cs: seq<Container>, s: string, i: nat)
    requires i < |cs| && cs[i].service == s && forall j :: 0 <= j < i ==> cs[j].service != s
    ensures FirstDigest(cs, s) == cs[i].digest
  {
    if i > 0 {
      assert cs[1..][i - 1] == cs[i];
      FirstDigestIs(cs[1..], s, i - 1);
    }
  }

  /** The feed got one event for each stage, the last with the code. */
  lemma FeedInFull(e: Env, app: Bytes, origin: Origin, before: Outside, after: Outside, r: Record)
    requires AttemptDone(e, app, origin, before, after, r)
    ensures |after.feed| == |before.feed| + |r.events| && after.feed[..|before.feed|] == before.feed
    ensures forall i :: 0 <= i < |r.events| ==>
              after.feed[|before.feed| + i] == FeedEvent(r.attemptId, r.events[i].stage,
                                                         if i == |r.events| - 1 then r.errorCode else "", r.events[i].at)
  {
    FeedGains(before.feed, after.feed, r);
  }

  lemma FeedGains(before: seq<FeedEvent>, after: seq<FeedEvent>, r: Record)
    requires after == before + FeedFrom(r, 0)
    ensures |after| == |before| + |r.events| && after[..|before|] == before
    ensures forall i :: 0 <= i < |r.events| ==>
              after[|before| + i] == FeedEvent(r.attemptId, r.events[i].stage,
                                               if i == |r.events| - 1 then r.errorCode else "", r.events[i].at)
  {
    var f := FeedFrom(r, 0);
    forall i | 0 <= i < |r.events|
      ensures after[|before| + i] == FeedEvent(r.attemptId, r.events[i].stage,
                                               if i == |r.events| - 1 then r.errorCode else "", r.events[i].at)
    {
      assert after[|before| + i] == f[i];
    }
  }

  /** Both buckets of the store got the record. */
  lemma StoredInFull(e: Env, app: Bytes, origin: Origin, before: Outside, after: Outside, r: Record)
    requires AttemptDone(e, app, origin, before, after, r)
    ensures r.attemptId in after.buckets.byId && after.buckets.byId[r.attemptId] == r
    ensures KeyOf(r) in after.buckets.byApp && after.buckets.byApp[KeyOf(r)] == r
  {
    CurrentIsBumped(r);
  }

  lemma CurrentIsBumped(r: Record)
    requires Current(r)
    ensures Bumped(r) == r
  {
  }

  /** The deploys: none when a pull failed; else the forced one of the compose file, followed by
      that of the pinned file when the attempt was undone and could pin. */
  lemma DeploysInFull(e: Env, app: Bytes, origin: Origin, before: Outside, after: Outside, r: Record)
    requires AttemptDone(e, app, origin, before, after, r)
    ensures var first, second := Deploy(app, e.compose.value, true), Deploy(app, PinnedCompose(e), false);
            after.deploys == before.deploys +
            if CannotPull(e, e.services.value) then []
            else if (e.deployFails || e.probeFails) && CanPin(e, r) then [first, second]
            else [first]
  {
    CanPinIff(e, r);
  }

  // ---- The worker -------------------------------------------------------------------

  /** *db.AppUpdateRecord: the record the pipeline keeps rewriting. */
  class Attempt {
    var rec: Record

    constructor (rec: Record)
      ensures this.rec == rec
    {
      this.rec := rec;
    }
  }

  class Worker {
    const store: Store
    const instanceId: Bytes
    const cooldown: nat
    var running: set<Bytes>
    var clock: Micros
    var feed: seq<FeedEvent>
    var deploys: seq<Deploy>
    var pulls: seq<string>

    constructor (store: Store, instanceId: Bytes, cooldown: nat, now: Micros)
      ensures this.store == store && this.instanceId == instanceId && this.cooldown == cooldown
      ensures running == {} && clock == now && feed == [] && deploys == [] && pulls == []
    {
      this.store, this.instanceId, this.cooldown := store, instanceId, cooldown;
      running, clock, feed, deploys, pulls := {}, now, [], [], [];
    }

    method Now() returns (t: Micros)
      modifies this`clock
      ensures old(clock) <= t == clock
    {
      t :| clock <= t;
      clock := t;
    }

    ghost function Seen(): Outside
      reads this, store
    {
      Outside(store.View(), feed, deploys)
    }

    ghost function TrackOf(attempt: Attempt): Track
      reads this, store, attempt
    {
      Track(attempt.rec, feed, store.View())
    }

    method AppendEvent(attempt: Attempt, stage: Stage, errorCode: string, message: string)
      requires Open(attempt.rec, clock)
      modifies attempt, store, this`clock, this`feed
      ensures old(clock) <= clock && attempt.rec == Appended(old(attempt.rec), clock, stage, errorCode, message)
      ensures Ran(old(TrackOf(attempt)), TrackOf(attempt), [stage]) && Open(attempt.rec, clock)
      ensures feed == old(feed) + [FeedEvent(attempt.rec.attemptId, stage, errorCode, clock)]
    {
      var now := Now();
      var rec := attempt.rec;
      rec := rec.(stage := stage);
      if errorCode != "" { rec := rec.(errorCode := errorCode); }
      if message != "" { rec := rec.(message := message); }
      rec := rec.(updatedAt := now, events := rec.events + [Event(now, stage, message)]);
      AppendedProgress(old(attempt.rec), old(clock), now, stage, errorCode, message);
      attempt.rec := rec;
      var _, saved := store.SaveAppUpdate(attempt.rec);
      attempt.rec := saved;
      feed := feed + [FeedEvent(rec.attemptId, stage, errorCode, now)];
      AppendedFeed(old(attempt.rec), now, stage, errorCode, message);
    }

    /** DeployCompose: the call is logged, the answer comes from outside. */
    method DeployCompose(app: Bytes, compose: CT.Node, forcePull: bool, fails: bool) returns (err: bool)
      modifies this`deploys
      ensures deploys == old(deploys) + [Deploy(app, compose, forcePull)] && err == fails
    {
      deploys := deploys + [Deploy(app, compose, forcePull)];
      err := fails;
    }

    method CaptureDigests(containers: seq<Container>, services: set<string>) returns (digests: IP.Digests)
      ensures digests == PreviousDigests(containers, services)
    {
      digests := map[];
      for i := 0 to |containers|
        invariant digests == PreviousDigests(containers[..i], services)
      {
        var c := containers[i];
        DigestStep(containers, services, i);
        if c.service != "" && c.service in services && c.service !in digests {
          digests := digests[c.service := c.digest];
        }
      }
      assert containers[..|containers|] == containers;
    }

    /** Pulls every service with a known update; stops at the first failure. */
    method PullServices(services: set<string>, e: Env) returns (failed: Option<PullError>)
      modifies this`pulls
      ensures failed.Some? <==> PullFails(e, services)
      ensures failed.Some? ==>
                exists s :: s in services && s in e.hasUpdate && s in e.pullErrors && failed.value == e.pullErrors[s]
      ensures old(pulls) <= pulls
      ensures failed.None? ==> forall s :: s in services && s in e.hasUpdate ==> s in pulls[|old(pulls)|..]
      ensures forall s :: s in pulls[|old(pulls)|..] ==> s in services && s in e.hasUpdate
    {
      failed := None;
      var todo := services;
      while todo != {}
        invariant todo <= services && old(pulls) <= pulls
        invariant forall s :: s in services - todo && s in e.hasUpdate ==> s in pulls[|old(pulls)|..] && s !in e.pullErrors
        invariant forall s :: s in pulls[|old(pulls)|..] ==> s in services && s in e.hasUpdate
      {
        var s :| s in todo;
        todo := todo - {s};
        if s in e.hasUpdate {
          assert (pulls + [s])[|old(pulls)|..] == pulls[|old(pulls)|..] + [s];
          pulls := pulls + [s];
          if s in e.pullErrors {
            return Some(e.pullErrors[s]);
          }
        }
      }
    }

    /** Pins what can be pinned and redeploys without pulling. */
    method Rollback(app: Bytes, e: Env, digests: IP.Digests) returns (err: bool)
      requires Ready(e) && digests == PreviousDigests(e.containers.value, e.services.value)
      modifies this`deploys
      ensures err <==> !RollbackWorks(e)
      ensures deploys == old(deploys) + UndoDeploys(app, e)
    {
      var rolled, pinned := IP.PinServices(e.compose.value, e.services.value, digests);
      if rolled.Err? { return true; }
      if pinned == 0 { return true; }
      err := DeployCompose(app, rolled.tree, false, e.redeployFails);
    }

    /** The stages of one attempt, from the first saved record to the terminal one. */
    method RunAttempt(attempt: Attempt, e: Env, digests: IP.Digests)
      requires Ready(e) && digests == PreviousDigests(e.containers.value, e.services.value)
      requires attempt.rec.events == [] && attempt.rec.errorCode == "" && Open(attempt.rec, clock)
      modifies attempt, store, this`clock, this`feed, this`deploys, this`pulls
      ensures Ran(old(TrackOf(attempt)), TrackOf(attempt), StageWord(e)) && FinalCode(e, attempt.rec.errorCode) && old(clock) <= clock
      ensures deploys == old(deploys) + DeployWord(old(attempt.rec.app), e) && Noted(old(attempt.rec.completedAt), attempt.rec)
    {
      var undo := RunForward(attempt, e);
      WordsSplit(attempt.rec.app, e, old(deploys));
      if undo.Some? {
        ghost var t := TrackOf(attempt);
        Undo(attempt, e, digests, undo.value);
        RanTwice(old(TrackOf(attempt)), t, TrackOf(attempt), ForwardWord(e), [UndoStage(e)]);
      }
    }

    /** Pull, recreate, verify; a failure that calls for a rollback is handed back
        as the error code to record. */
    method RunForward(attempt: Attempt, e: Env) returns (undo: Option<string>)
      requires Ready(e) && attempt.rec.errorCode == "" && Open(attempt.rec, clock)
      modifies attempt, store, this`clock, this`feed, this`deploys, this`pulls
      ensures Ran(old(TrackOf(attempt)), TrackOf(attempt), ForwardWord(e)) && Open(attempt.rec, clock) && old(clock) <= clock
      ensures undo == if NeedsRollback(e) then Some(UndoCode(e)) else None
      ensures undo.Some? ==> attempt.rec.errorCode == "" && attempt.rec.completedAt == old(attempt.rec.completedAt)
      ensures undo.None? ==> FinalCode(e, attempt.rec.errorCode) && Noted(old(attempt.rec.completedAt), attempt.rec)
      ensures deploys == old(deploys) + ForwardDeploys(old(attempt.rec.app), e)
    {
      var pulled := PullStage(attempt, e);
      undo := None;
      if pulled {
        ghost var t := TrackOf(attempt);
        undo := Recreate(attempt, e);
        RanTwice(old(TrackOf(attempt)), t, TrackOf(attempt), [Pulling], RecreateWord(e));
      }
    }

    /** Stage 1; a pull that fails ends the attempt. */
    method PullStage(attempt: Attempt, e: Env) returns (pulled: bool)
      requires Ready(e) && attempt.rec.errorCode == "" && Open(attempt.rec, clock)
      modifies attempt, store, this`clock, this`feed, this`pulls
      ensures pulled == !PullFails(e, e.services.value) && Open(attempt.rec, clock)
      ensures Ran(old(TrackOf(attempt)), TrackOf(attempt), if pulled then [Pulling] else [Pulling, Failed]) && old(clock) <= clock
      ensures if pulled then attempt.rec.errorCode == "" else FinalCode(e, attempt.rec.errorCode)
      ensures attempt.rec.stage != Completed && attempt.rec.completedAt == old(attempt.rec.completedAt)
    {
      AppendEvent(attempt, Pulling, "", "starting image pulls");
      ghost var t := TrackOf(attempt);
      assert t.rec.errorCode == "" && t.rec.completedAt == old(attempt.rec.completedAt);
      var failed := PullServices(e.services.value, e);
      assert TrackOf(attempt) == t;
      pulled := failed.None?;
      if !pulled {
        AppendEvent(attempt, Failed, PullCode(failed.value), "pull failed");
      }
      Pulled(old(TrackOf(attempt)), t, TrackOf(attempt), pulled);
    }

    method Recreate(attempt: Attempt, e: Env) returns (undo: Option<string>)
      requires e.compose.Some? && attempt.rec.errorCode == "" && Open(attempt.rec, clock)
      modifies attempt, store, this`clock, this`feed, this`deploys
      ensures Ran(old(TrackOf(attempt)), TrackOf(attempt), RecreateWord(e)) && Open(attempt.rec, clock) && old(clock) <= clock
      ensures undo == (if e.deployFails || e.probeFails then Some(UndoCode(e)) else None) && attempt.rec.errorCode == ""
      ensures if undo.Some? then attempt.rec.completedAt == old(attempt.rec.completedAt)
              else Noted(old(attempt.rec.completedAt), attempt.rec)
      ensures deploys == old(deploys) + [Deploy(old(attempt.rec.app), e.compose.value, true)]
    {
      AppendEvent(attempt, Recreating, "", "redeploying compose project");
      ghost var t := TrackOf(attempt);
      var err := DeployCompose(attempt.rec.app, e.compose.value, true, e.deployFails);
      if err {
        return Some("compose_error");
      }
      undo := Verify(attempt, e);
      RanTwice(old(TrackOf(attempt)), t, TrackOf(attempt), [Recreating], VerifyWord(e));
    }

    method Verify(attempt: Attempt, e: Env) returns (undo: Option<string>)
      requires attempt.rec.errorCode == "" && Open(attempt.rec, clock)
      modifies attempt, store, this`clock, this`feed
      ensures Ran(old(TrackOf(attempt)), TrackOf(attempt), VerifyWord(e)) && Open(attempt.rec, clock) && old(clock) <= clock
      ensures undo == (if e.probeFails then Some("health_probe_failed") else None) && attempt.rec.errorCode == ""
      ensures undo.Some? ==> attempt.rec.completedAt == old(attempt.rec.completedAt)
      ensures undo.None? ==> Noted(old(attempt.rec.completedAt), attempt.rec)
    {
      AppendEvent(attempt, Verifying, "", "running post-deploy health probe");
      ghost var t := TrackOf(attempt);
      assert t.rec.completedAt == old(attempt.rec.completedAt) && t.rec.errorCode == "";
      if e.probeFails {
        undo := Some("health_probe_failed");
      } else {
        Complete(attempt);
        undo := None;
      }
      Verified(e, old(TrackOf(attempt)), t, TrackOf(attempt));
    }

    /** The last stage of an attempt that went well. */
    method Complete(attempt: Attempt)
      requires attempt.rec.errorCode == "" && Open(attempt.rec, clock)
      modifies attempt, store, this`clock, this`feed
      ensures Ran(old(TrackOf(attempt)), TrackOf(attempt), [Completed]) && Open(attempt.rec, clock) && old(clock) <= clock
      ensures attempt.rec.errorCode == "" && Noted(old(attempt.rec.completedAt), attempt.rec)
    {
      var completedAt := Now();
      attempt.rec := attempt.rec.(completedAt := completedAt);
      AppendEvent(attempt, Completed, "", "auto-update completed successfully");
      RanFromCompleted(old(TrackOf(attempt)), completedAt, TrackOf(attempt), [Completed]);
    }

    /** The failure branch shared by the recreate and verify stages. */
    method Undo(attempt: Attempt, e: Env, digests: IP.Digests, code: string)
      requires Ready(e) && digests == PreviousDigests(e.containers.value, e.services.value)
      requires attempt.rec.errorCode == "" && Open(attempt.rec, clock) && code != ""
      modifies attempt, store, this`clock, this`feed, this`deploys
      ensures Ran(old(TrackOf(attempt)), TrackOf(attempt), [UndoStage(e)]) && old(clock) <= clock
      ensures attempt.rec.errorCode == if RollbackWorks(e) then code else "rollback_failed"
      ensures attempt.rec.stage != Completed && attempt.rec.completedAt == old(attempt.rec.completedAt)
      ensures deploys == old(deploys) + UndoDeploys(old(attempt.rec.app), e)
    {
      var err := Rollback(attempt.rec.app, e, digests);
      if err {
        AppendEvent(attempt, Failed, "rollback_failed", "rollback also failed");
      } else {
        AppendEvent(attempt, RolledBack, code, "rolled back");
      }
    }

    method TriggerApp(app: Bytes, bypassCooldown: bool, bypassWindow: bool, triggeredBy: string, e: Env)
        returns (outcome: Outcome, attempt: Attempt?, ghost now: Micros)
      requires ZeroFree(app) && WorkerState(store.View()) && clock >= 0
      modifies store, this`clock, this`feed, this`deploys, this`pulls, this`running
      ensures running == old(running) && WorkerState(store.View())
      ensures outcome == EmptyApp <==> app == []
      ensures app != [] ==> (outcome == AlreadyRunning <==> app in old(running))
      ensures outcome.EmptyApp? || outcome.AlreadyRunning? ==> attempt == null && Seen() == old(Seen())
      ensures !outcome.EmptyApp? && !outcome.AlreadyRunning? ==>
                && old(clock) <= now <= clock && (attempt != null ==> fresh(attempt))
                && Ended(outcome, e, app, Origin(instanceId, triggeredBy), !bypassCooldown && !e.listFails, bypassWindow, cooldown, now,
                         old(Seen()), Seen(), RecordOf(attempt))
    {
      attempt, now := null, clock;
      if app == [] { return EmptyApp, attempt, now; }
      if app in running { return AlreadyRunning, attempt, now; }
      running := running + {app};
      outcome, attempt, now := TriggerHeld(app, bypassCooldown, bypassWindow, triggeredBy, e);
      running := running - {app};
    }

    ghost function RecordOf(attempt: Attempt?): Option<Record>
      reads attempt
    {
      if attempt == null then None else Some(attempt.rec)
    }

    /** The cooldown and window guards; Attempted means that both let the trigger through. */
    method Guards(app: Bytes, now: Micros, bypassCooldown: bool, bypassWindow: bool, e: Env) returns (outcome: Outcome)
      requires app != [] && ZeroFree(app) && WorkerState(store.View())
      modifies this`feed
      ensures Skipped(outcome) || outcome.Attempted?
      ensures outcome.SkippedCooldown? <==> !bypassCooldown && !e.listFails && !CooledDown(store.View(), app, cooldown, now)
      ensures outcome.SkippedWindow? <==> !outcome.SkippedCooldown? && !bypassWindow && e.windowForbids
      ensures outcome.SkippedCooldown? ==> feed == old(feed) + [FeedEvent([], Pending, "skipped_cooldown", now)]
      ensures outcome.SkippedWindow? ==> feed == old(feed) + [FeedEvent([], Pending, "skipped_window", now)]
      ensures outcome.Attempted? ==> feed == old(feed)
    {
      var cooling := false;
      if !bypassCooldown && !e.listFails {
        cooling := CoolingDown(app, now);
      }
      if cooling {
        feed := feed + [FeedEvent([], Pending, "skipped_cooldown", now)];
        outcome := SkippedCooldown;
      } else if !bypassWindow && e.windowForbids {
        feed := feed + [FeedEvent([], Pending, "skipped_window", now)];
        outcome := SkippedWindow;
      } else {
        outcome := Attempted;
      }
    }

    /** TriggerApp while it holds the app. */
    method TriggerHeld(app: Bytes, bypassCooldown: bool, bypassWindow: bool, triggeredBy: string, e: Env)
        returns (outcome: Outcome, attempt: Attempt?, ghost now: Micros)
      requires app != [] && ZeroFree(app) && WorkerState(store.View()) && clock >= 0
      modifies store, this`clock, this`feed, this`deploys, this`pulls
      ensures WorkerState(store.View()) && outcome != EmptyApp && outcome != AlreadyRunning
      ensures old(clock) <= now <= clock && (attempt != null ==> fresh(attempt))
      ensures Ended(outcome, e, app, Origin(instanceId, triggeredBy), !bypassCooldown && !e.listFails, bypassWindow, cooldown, now,
                    old(Seen()), Seen(), RecordOf(attempt))
    {
      attempt := null;
      var time := Now();
      now := time;
      outcome := Guards(app, time, bypassCooldown, bypassWindow, e);
      if outcome == Attempted {
        assert Seen() == old(Seen());
        outcome, attempt := Proceed(app, time, triggeredBy, e);
      }
    }

    /** Past the guards: the answers an attempt needs, and then the attempt. */
    method Proceed(app: Bytes, now: Micros, triggeredBy: string, e: Env) returns (outcome: Outcome, attempt: Attempt?)
      requires app != [] && ZeroFree(app) && 0 <= now <= clock && WorkerState(store.View())
      modifies store, this`clock, this`feed, this`deploys, this`pulls
      ensures WorkerState(store.View()) && (NoAnswer(outcome) || outcome.Attempted?)
      ensures old(clock) <= clock && (attempt != null ==> fresh(attempt))
      ensures Ended(outcome, e, app, Origin(instanceId, triggeredBy), false, true, 0, now, old(Seen()), Seen(), RecordOf(attempt))
    {
      attempt := null;
      if e.compose.None? {
        outcome := NoCompose;
      } else if e.containers.None? {
        outcome := ListFailed;
      } else if e.containers.value == [] {
        outcome := NoContainers;
      } else if e.services.None? {
        outcome := BadCompose;
      } else {
        attempt := StartAttempt(app, now, triggeredBy, e);
        outcome := Attempted;
      }
    }

    method BuildServices(e: Env, digests: IP.Digests) returns (infos: map<string, ServiceInfo>)
      requires Ready(e) && digests == PreviousDigests(e.containers.value, e.services.value)
      ensures infos == ServiceInfos(e)
    {
      infos := map[];
      var todo := e.services.value;
      while todo != {}
        invariant todo <= e.services.value && infos.Keys == e.services.value - todo
        invariant forall s :: s in infos ==> infos[s] == ServiceInfoOf(e, digests, s)
      {
        var s :| s in todo;
        todo := todo - {s};
        infos := infos[s := ServiceInfoOf(e, digests, s)];
      }
    }

    /** Builds the record and runs the stages. */
    method StartAttempt(app: Bytes, now: Micros, triggeredBy: string, e: Env) returns (attempt: Attempt)
      requires Ready(e) && app != [] && ZeroFree(app) && 0 <= now <= clock && WorkerState(store.View())
      modifies store, this`clock, this`feed, this`deploys, this`pulls
      ensures old(clock) <= clock && fresh(attempt) && attempt.rec.startedAt == now && WorkerState(store.View())
      ensures AttemptDone(e, app, Origin(instanceId, triggeredBy), old(Seen()), Seen(), attempt.rec)
    {
      var digests := CaptureDigests(e.containers.value, e.services.value);
      var services := BuildServices(e, digests);
      var rec := Record(AttemptId(app, now), instanceId, app, services, Pulling, "", "", triggeredBy, now, now, 0, []);
      attempt := new Attempt(rec);
      RunAttempt(attempt, e, digests);
      assert attempt.rec.events[0..] == attempt.rec.events;
      StepAgrees(old(store.View()), Save(attempt.rec), store.View());
    }

    /** The cooldown guard: does the newest record of the app forbid a start at now? */
    method CoolingDown(app: Bytes, now: Micros) returns (cooling: bool)
      requires app != [] && ZeroFree(app) && WorkerState(store.View())
      ensures cooling <==> !CooledDown(store.View(), app, cooldown, now)
    {
      var listing := store.ListAppUpdates(app, 1);
      ghost var b := store.View();
      ghost var ks :| PrefixScan(b.byApp, Prefix(app), 1, ks) && listing.records == Values(b.byApp, ks);
      ScanIsNewestFirst(b, app, 1, ks);
      var recs := listing.records;
      cooling := |recs| > 0 && recs[0].startedAt + cooldown > now;
      if |recs| > 0 {
        assert recs[0] in recs && recs[0] in OfApp(Records(b), app);
      }
    }
  }

  lemma DigestStep(containers: seq<Container>, services: set<string>, i: nat)
    requires i < |containers|
    ensures var before, c := PreviousDigests(containers[..i], services), containers[i];
            PreviousDigests(containers[..i + 1], services)
            == if c.service != "" && c.service in services && c.service !in before then before[c.service := c.digest] else before
  {
    var old', c := containers[..i], containers[i];
    assert containers[..i + 1] == old' + [c];
    forall s ensures Mentions(old' + [c], s) <==> Mentions(old', s) || c.service == s {
      FirstDigestAppend(old', c, s);
    }
    forall s ensures FirstDigest(old' + [c], s) == if Mentions(old', s) then FirstDigest(old', s)
                                                    else if c.service == s then c.digest else "" {
      FirstDigestAppend(old', c, s);
    }
  }

  lemma {:induction false} FirstDigestAppend(cs: seq<Container>, c: Container, s: string)
    ensures Mentions(cs + [c], s) <==> Mentions(cs, s) || c.service == s
    ensures FirstDigest(cs + [c], s) == if Mentions(cs, s) then FirstDigest(cs, s)
                                        else if c.service == s then c.digest else ""
  {
    var all := cs + [c];
    assert all[|cs|] == c;
    forall i | 0 <= i < |cs| ensures all[i] == cs[i] {}
    if cs == [] {
      assert all == [c];
    } else {
      assert all[1..] == cs[1..] + [c];
      FirstDigestAppend(cs[1..], c, s);
      MentionsTail(cs, s);
    }
  }

  lemma MentionsTail(cs: seq<Container>, s: string)
    requires cs != []
    ensures Mentions(cs, s) <==> cs[0].service == s || Mentions(cs[1..], s)
  {
    if Mentions(cs, s) && cs[0].service != s {
      var i :| 0 <= i < |cs| && cs[i].service == s;
      assert cs[1..][i - 1] == cs[i];
    }
  }

  /** Saving a later state of the same attempt overwrites the earlier one. */
  lemma SavedAgain(b0: Buckets, r: Record, r': Record)
    requires r'.app == r.app && r'.startedAt == r.startedAt && r'.attemptId == r.attemptId
    ensures SaveSpec(SaveSpec(b0, r), r') == SaveSpec(b0, r')
  {
  }
}
