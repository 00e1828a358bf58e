/** How triggers interleave: scheduleAutoUpdate and the locking of TriggerApp in
    internal/docker/auto_updater.go, as a state machine over the steps goroutines take.

    Any number of scheduled and manual triggers run at once. The clock never goes
    back, store calls succeed and nothing is purged meanwhile. */
module UpdateSchedule {
  import opened Collections
  import opened UpdateStages

  type App = string

  /** Where one trigger is. Locked to Leaving hold the mutex of the app. */
  datatype Pc =
    | Queued                                  // scheduled, waiting for a slot
    | Ready                                   // about to TryLock
    | Locked
    | Timed(now: nat)                         // time.Now() was read
    | Admitted(now: nat)                      // the cooldown guard let it pass
    | InFlight(now: nat, stage: Stage)        // record saved, not yet terminal
    | Leaving                                 // about to unlock
    | Unlocked                                // about to give the slot back
    | Done

  datatype Trigger = Trigger(app: App, scheduled: bool, bypass: bool, pc: Pc)

  datatype Key = Key(app: App, at: nat)

  /** One attempt that was started: ghost history, in order. */
  datatype Start = Start(app: App, at: nat, bypass: bool)

  datatype State = State(
    clock: nat,
    triggers: map<nat, Trigger>,
    mutex: map<App, nat>,
    slots: set<nat>,
    store: map<Key, Stage>,
    starts: seq<Start>)

  datatype Config = Config(cooldown: nat, concurrency: nat)

  datatype Step =
    | Tick(to: nat)
    | Spawn(id: nat, app: App, scheduled: bool, bypass: bool)
    | AcquireSlot(id: nat)
    | GiveUp(id: nat)
    | TryLock(id: nat)
    | ReadClock(id: nat)
    | CheckCooldown(id: nat)
    | Abandon(id: nat)
    | Begin(id: nat)
    | Advance(id: nat, stage: Stage)
    | Unlock(id: nat)
    | ReleaseSlot(id: nat)

  function Init(): State {
    State(0, map[], map[], {}, map[], [])
  }

  predicate At(s: State, id: nat, pc: Pc) {
    id in s.triggers && s.triggers[id].pc == pc
  }

  function Move(s: State, id: nat, pc: Pc): State
    requires id in s.triggers
  {
    s.(triggers := s.triggers[id := s.triggers[id].(pc := pc)])
  }

  /** The cooldown guard over the stored attempts of the app. */
  ghost predicate Cooling(c: Config, s: State, app: App, now: nat) {
    exists k :: k in s.store && k.app == app && k.at + c.cooldown > now
  }

  ghost predicate Enabled(c: Config, s: State, step: Step) {
    match step
    case Tick(to) => s.clock <= to
    case Spawn(id, _, scheduled, bypass) => id !in s.triggers && (scheduled ==> !bypass)
    case AcquireSlot(id) => At(s, id, Queued) && |s.slots| < c.concurrency
    case GiveUp(id) => At(s, id, Queued)
    case TryLock(id) => At(s, id, Ready)
    case ReadClock(id) => At(s, id, Locked)
    case CheckCooldown(id) => id in s.triggers && s.triggers[id].pc.Timed?
    case Abandon(id) => id in s.triggers && s.triggers[id].pc.Admitted?
    case Begin(id) => id in s.triggers && s.triggers[id].pc.Admitted?
    case Advance(id, stage) =>
      id in s.triggers && s.triggers[id].pc.InFlight? && Follows(s.triggers[id].pc.stage, stage)
    case Unlock(id) => At(s, id, Leaving)
    case ReleaseSlot(id) => At(s, id, Unlocked)
  }

  ghost function Apply(c: Config, s: State, step: Step): State
    requires Enabled(c, s, step)
  {
    match step
    case Tick(to) => s.(clock := to)
    case Spawn(id, app, scheduled, bypass) =>
      s.(triggers := s.triggers[id := Trigger(app, scheduled, bypass, if scheduled then Queued else Ready)])
    case AcquireSlot(id) => Move(s.(slots := s.slots + {id}), id, Ready)
    case GiveUp(id) => Move(s, id, Done)
    case TryLock(id) =>
      var app := s.triggers[id].app;
      if app in s.mutex then Move(s, id, Unlocked)
      else Move(s.(mutex := s.mutex[app := id]), id, Locked)
    case ReadClock(id) => Move(s, id, Timed(s.clock))
    case CheckCooldown(id) =>
      var t := s.triggers[id];
      if !t.bypass && Cooling(c, s, t.app, t.pc.now) then Move(s, id, Leaving)
      else Move(s, id, Admitted(t.pc.now))
    case Abandon(id) => Move(s, id, Leaving)
    case Begin(id) =>
      var t := s.triggers[id];
      Move(s.(store := s.store[Key(t.app, t.pc.now) := Pulling],
              starts := s.starts + [Start(t.app, t.pc.now, t.bypass)]), id, InFlight(t.pc.now, Pulling))
    case Advance(id, stage) =>
      var t := s.triggers[id];
      Move(s.(store := s.store[Key(t.app, t.pc.now) := stage]), id,
           if Terminal(stage) then Leaving else InFlight(t.pc.now, stage))
    case Unlock(id) => Move(s.(mutex := s.mutex - {s.triggers[id].app}), id, Unlocked)
    case ReleaseSlot(id) => Move(s.(slots := s.slots - {id}), id, Done)
  }

  /** s is a state the machine can be in after these steps. */
  ghost predicate Reached(c: Config, steps: seq<Step>, s: State) {
    if steps == [] then s == Init()
    else
      var n := |steps| - 1;
      var before, step := steps[..n], steps[n];
      exists p :: Reached(c, before, p) && Enabled(c, p, step) && s == Apply(c, p, step)
  }

  // ---- Invariant ----------------------------------------------------------------------

  predicate HoldsMutex(pc: Pc) {
    pc.Locked? || pc.Timed? || pc.Admitted? || pc.InFlight? || pc.Leaving?
  }

  predicate HoldsSlot(t: Trigger) {
    t.scheduled && !t.pc.Queued? && !t.pc.Done?
  }

  ghost predicate MutexInv(s: State) {
    && (forall id :: id in s.triggers && HoldsMutex(s.triggers[id].pc) ==>
          s.triggers[id].app in s.mutex && s.mutex[s.triggers[id].app] == id)
    && (forall a :: a in s.mutex ==>
          s.mutex[a] in s.triggers && HoldsMutex(s.triggers[s.mutex[a]].pc) && s.triggers[s.mutex[a]].app == a)
  }

  ghost predicate SlotInv(c: Config, s: State) {
    && |s.slots| <= c.concurrency
    && (forall id :: id in s.triggers && s.triggers[id].pc.Queued? ==> s.triggers[id].scheduled)
    && (forall id :: id in s.slots <==> id in s.triggers && HoldsSlot(s.triggers[id]))
  }

  /** What the time read by a trigger guarantees while it holds the mutex. */
  ghost predicate TimeInv(c: Config, s: State) {
    && (forall i :: 0 <= i < |s.starts| ==>
          s.starts[i].at <= s.clock && Key(s.starts[i].app, s.starts[i].at) in s.store)
    && (forall id :: id in s.triggers && (s.triggers[id].pc.Timed? || s.triggers[id].pc.Admitted?) ==>
          s.triggers[id].pc.now <= s.clock && NotBefore(s.starts, s.triggers[id].app, s.triggers[id].pc.now))
    && (forall id :: id in s.triggers && s.triggers[id].pc.Admitted? && !s.triggers[id].bypass ==>
          NotBefore(s.starts, s.triggers[id].app, s.triggers[id].pc.now - c.cooldown))
  }

  ghost predicate NotBefore(starts: seq<Start>, app: App, t: int) {
    forall i :: 0 <= i < |starts| && starts[i].app == app ==> starts[i].at <= t
  }

  ghost predicate StoreInv(s: State) {
    && (forall id :: id in s.triggers && s.triggers[id].pc.InFlight? ==>
          && !Terminal(s.triggers[id].pc.stage)
          && Key(s.triggers[id].app, s.triggers[id].pc.now) in s.store
          && s.store[Key(s.triggers[id].app, s.triggers[id].pc.now)] == s.triggers[id].pc.stage)
    && (forall k :: k in s.store && !Terminal(s.store[k]) ==> Driven(s, k))
  }

  /** An unfinished record has a trigger at work on it, which holds the app's mutex. */
  ghost predicate Driven(s: State, k: Key) {
    && k.app in s.mutex && s.mutex[k.app] in s.triggers
    && s.triggers[s.mutex[k.app]].pc.InFlight? && s.triggers[s.mutex[k.app]].pc.now == k.at
  }

  /** Attempts of one app are started in time order, and one that respected the
      cooldown starts at least that long after every earlier one. */
  ghost predicate Spaced(c: Config, starts: seq<Start>) {
    forall i, j :: 0 <= i < j < |starts| && starts[i].app == starts[j].app ==>
      && starts[i].at <= starts[j].at
      && (!starts[j].bypass ==> starts[i].at + c.cooldown <= starts[j].at)
  }

  ghost predicate Inv(c: Config, s: State) {
    MutexInv(s) && SlotInv(c, s) && TimeInv(c, s) && StoreInv(s) && Spaced(c, s.starts)
  }

  // ---- Every step keeps it ---------------------------------------------------------------

  lemma MutexKept(c: Config, s: State, step: Step)
    requires MutexInv(s) && Enabled(c, s, step)
    ensures MutexInv(Apply(c, s, step))
  {
    HoldersRegistered(c, s, step);
    RegisteredHold(c, s, step);
  }

  lemma HoldersRegistered(c: Config, s: State, step: Step)
    requires MutexInv(s) && Enabled(c, s, step)
    ensures var s' := Apply(c, s, step);
            forall id :: id in s'.triggers && HoldsMutex(s'.triggers[id].pc) ==>
              s'.triggers[id].app in s'.mutex && s'.mutex[s'.triggers[id].app] == id
  {
  }

  lemma RegisteredHold(c: Config, s: State, step: Step)
    requires MutexInv(s) && Enabled(c, s, step)
    ensures var s' := Apply(c, s, step);
            forall a :: a in s'.mutex ==>
              (s'.mutex[a] in s'.triggers && HoldsMutex(s'.triggers[s'.mutex[a]].pc) && s'.triggers[s'.mutex[a]].app == a)
  {
  }

  lemma SlotsKept(c: Config, s: State, step: Step)
    requires SlotInv(c, s) && Enabled(c, s, step)
    ensures SlotInv(c, Apply(c, s, step))
  {
    SlotCount(c, s, step);
    SlotHolders(c, s, step);
    QueuedStay(c, s, step);
  }

  lemma QueuedStay(c: Config, s: State, step: Step)
    requires SlotInv(c, s) && Enabled(c, s, step)
    ensures var s' := Apply(c, s, step);
            forall id :: id in s'.triggers && s'.triggers[id].pc.Queued? ==> s'.triggers[id].scheduled
  {
  }

  lemma SlotCount(c: Config, s: State, step: Step)
    requires SlotInv(c, s) && Enabled(c, s, step)
    ensures |Apply(c, s, step).slots| <= c.concurrency
  {
    if step.AcquireSlot? {
      assert |s.slots + {step.id}| <= |s.slots| + 1;
    } else if step.ReleaseSlot? {
      SubsetSize(s.slots - {step.id}, s.slots);
    }
  }

  lemma SlotHolders(c: Config, s: State, step: Step)
    requires SlotInv(c, s) && Enabled(c, s, step)
    ensures var s' := Apply(c, s, step);
            forall id :: id in s'.slots <==> id in s'.triggers && HoldsSlot(s'.triggers[id])
  {
  }

  lemma TimesKept(c: Config, s: State, step: Step)
    requires MutexInv(s) && TimeInv(c, s) && Enabled(c, s, step)
    ensures TimeInv(c, Apply(c, s, step))
  {
    if step.Begin? {
      TimesAfterBegin(c, s, step);
    } else {
      TimesOtherwise(c, s, step);
    }
  }

  /** Beginning an attempt moves no other trigger of the app: none holds its mutex. */
  lemma TimesAfterBegin(c: Config, s: State, step: Step)
    requires MutexInv(s) && TimeInv(c, s) && Enabled(c, s, step) && step.Begin?
    ensures TimeInv(c, Apply(c, s, step))
  {
    var s' := Apply(c, s, step);
    var app := s.triggers[step.id].app;
    assert s.mutex[app] == step.id;
    forall id | id in s'.triggers && (s'.triggers[id].pc.Timed? || s'.triggers[id].pc.Admitted?)
      ensures s'.triggers[id].app != app && s'.triggers[id] == s.triggers[id]
    {
    }
  }

  lemma TimesOtherwise(c: Config, s: State, step: Step)
    requires TimeInv(c, s) && Enabled(c, s, step) && !step.Begin?
    ensures TimeInv(c, Apply(c, s, step))
  {
    var s' := Apply(c, s, step);
    assert s'.starts == s.starts && s'.store.Keys >= s.store.Keys && s'.clock >= s.clock;
    if step.CheckCooldown? {
      GuardPasses(c, s, step.id);
    }
    forall id | id in s'.triggers && (s'.triggers[id].pc.Timed? || s'.triggers[id].pc.Admitted?)
      ensures s'.triggers[id].pc.now <= s'.clock && NotBefore(s.starts, s'.triggers[id].app, s'.triggers[id].pc.now)
    {
      if id in s.triggers && s'.triggers[id] == s.triggers[id] {
        assert s.triggers[id].pc.now <= s.clock;
      }
    }
  }

  /** What the cooldown guard establishes when it lets a trigger through. */
  lemma GuardPasses(c: Config, s: State, id: nat)
    requires TimeInv(c, s) && id in s.triggers && s.triggers[id].pc.Timed?
    ensures var t := s.triggers[id];
            !Cooling(c, s, t.app, t.pc.now) ==> NotBefore(s.starts, t.app, t.pc.now - c.cooldown)
  {
    var t := s.triggers[id];
    if !Cooling(c, s, t.app, t.pc.now) {
      forall i | 0 <= i < |s.starts| && s.starts[i].app == t.app ensures s.starts[i].at <= t.pc.now - c.cooldown {
        var k := Key(s.starts[i].app, s.starts[i].at);
        assert k in s.store && k.app == t.app;
      }
    }
  }

  lemma StoreKept(c: Config, s: State, step: Step)
    requires MutexInv(s) && StoreInv(s) && Enabled(c, s, step)
    ensures StoreInv(Apply(c, s, step))
  {
    InFlightStored(c, s, step);
    if step.Begin? || step.Advance? {
      WriterDrives(c, s, step);
    } else {
      OthersDrive(c, s, step);
    }
  }

  lemma InFlightStored(c: Config, s: State, step: Step)
    requires MutexInv(s) && StoreInv(s) && Enabled(c, s, step)
    ensures var s' := Apply(c, s, step);
            forall id :: id in s'.triggers && s'.triggers[id].pc.InFlight? ==>
              && !Terminal(s'.triggers[id].pc.stage)
              && Key(s'.triggers[id].app, s'.triggers[id].pc.now) in s'.store
              && s'.store[Key(s'.triggers[id].app, s'.triggers[id].pc.now)] == s'.triggers[id].pc.stage
  {
  }

  lemma WriterDrives(c: Config, s: State, step: Step)
    requires MutexInv(s) && StoreInv(s) && Enabled(c, s, step) && (step.Begin? || step.Advance?)
    ensures var s' := Apply(c, s, step);
            forall k :: k in s'.store && !Terminal(s'.store[k]) ==> Driven(s', k)
  {
    var s' := Apply(c, s, step);
    var t := s.triggers[step.id];
    assert s.mutex[t.app] == step.id && s'.mutex == s.mutex;
    forall k | k in s'.store && !Terminal(s'.store[k]) ensures Driven(s', k) {
      if k != Key(t.app, t.pc.now) {
        assert Driven(s, k);
      }
    }
  }

  lemma OthersDrive(c: Config, s: State, step: Step)
    requires MutexInv(s) && StoreInv(s) && Enabled(c, s, step) && !step.Begin? && !step.Advance?
    ensures var s' := Apply(c, s, step);
            forall k :: k in s'.store && !Terminal(s'.store[k]) ==> Driven(s', k)
  {
    var s' := Apply(c, s, step);
    assert s'.store == s.store;
    forall k | k in s'.store && !Terminal(s'.store[k]) ensures Driven(s', k) {
      assert Driven(s, k);
      assert s'.triggers[s.mutex[k.app]] == s.triggers[s.mutex[k.app]];
    }
  }

  lemma SpacingKept(c: Config, s: State, step: Step)
    requires TimeInv(c, s) && Spaced(c, s.starts) && Enabled(c, s, step)
    ensures Spaced(c, Apply(c, s, step).starts)
  {
    if step.Begin? {
      var t := s.triggers[step.id];
      assert NotBefore(s.starts, t.app, t.pc.now);
    }
  }

  lemma {:induction false} AlwaysInv(c: Config, steps: seq<Step>, s: State)
    requires Reached(c, steps, s)
    ensures Inv(c, s)
  {
    if steps != [] {
      var n := |steps| - 1;
      var p :| Reached(c, steps[..n], p) && Enabled(c, p, steps[n]) && s == Apply(c, p, steps[n]);
      AlwaysInv(c, steps[..n], p);
      MutexKept(c, p, steps[n]);
      SlotsKept(c, p, steps[n]);
      TimesKept(c, p, steps[n]);
      StoreKept(c, p, steps[n]);
      SpacingKept(c, p, steps[n]);
    }
  }

  // ---- The promises ------------------------------------------------------------------------

  /** At most one attempt per app is between its first and its terminal stage, whether
      one looks at the goroutines or at the records they left. */
  lemma SingleFlight(c: Config, steps: seq<Step>, s: State)
    requires Reached(c, steps, s)
    ensures forall i, j :: (i in s.triggers && j in s.triggers && s.triggers[i].pc.InFlight?
              && s.triggers[j].pc.InFlight? && s.triggers[i].app == s.triggers[j].app) ==> i == j
    ensures forall k, l :: (k in s.store && l in s.store && !Terminal(s.store[k]) && !Terminal(s.store[l])
              && k.app == l.app) ==> k == l
  {
    AlwaysInv(c, steps, s);
    forall k, l | k in s.store && l in s.store && !Terminal(s.store[k]) && !Terminal(s.store[l]) && k.app == l.app
      ensures k == l
    {
      assert Driven(s, k) && Driven(s, l);
    }
  }

  /** Never more scheduled runs at work than the configured concurrency. */
  lemma BoundedFanOut(c: Config, steps: seq<Step>, s: State, ids: set<nat>)
    requires Reached(c, steps, s)
    requires forall id :: id in ids ==> id in s.triggers && s.triggers[id].scheduled && HoldsMutex(s.triggers[id].pc)
    ensures |ids| <= c.concurrency
  {
    AlwaysInv(c, steps, s);
    SubsetSize(ids, s.slots);
  }

  /** An attempt that respected the cooldown begins at least that long after every
      attempt of the app begun before it, however the triggers interleaved. */
  lemma CooldownRespected(c: Config, steps: seq<Step>, s: State, i: nat, j: nat)
    requires Reached(c, steps, s)
    requires i < j < |s.starts| && s.starts[i].app == s.starts[j].app && !s.starts[j].bypass
    ensures s.starts[i].at + c.cooldown <= s.starts[j].at
  {
    AlwaysInv(c, steps, s);
  }

  /** Once every trigger has ended no mutex and no slot is left behind, and no record
      is left unfinished. */
  lemma QuietMeansReleased(c: Config, steps: seq<Step>, s: State)
    requires Reached(c, steps, s)
    requires forall id :: id in s.triggers ==> s.triggers[id].pc.Done?
    ensures s.mutex == map[] && s.slots == {}
    ensures forall k :: k in s.store ==> Terminal(s.store[k])
  {
    AlwaysInv(c, steps, s);
    assert forall id :: id !in s.slots;
  }

  // ---- Triggers get on -----------------------------------------------------------------------

  /** A trigger gets the app exactly when no other one is between its lock and its unlock. */
  lemma TryLockIff(c: Config, steps: seq<Step>, s: State, id: nat)
    requires Reached(c, steps, s) && Enabled(c, s, TryLock(id))
    ensures var t := Apply(c, s, TryLock(id));
            && (At(t, id, Locked) <==>
                forall j :: j in s.triggers && s.triggers[j].app == s.triggers[id].app ==> !HoldsMutex(s.triggers[j].pc))
            && (At(t, id, Locked) || At(t, id, Unlocked))
            && t.store == s.store && t.starts == s.starts
  {
    AlwaysInv(c, steps, s);
    var app := s.triggers[id].app;
    if app in s.mutex { assert HoldsMutex(s.triggers[s.mutex[app]].pc); }
  }

  /** The guard lets a trigger through exactly when it bypasses the cooldown or every stored
      attempt of its app began at least a cooldown ago. */
  lemma GuardIff(c: Config, s: State, id: nat)
    requires Enabled(c, s, CheckCooldown(id))
    ensures var t, u := s.triggers[id], Apply(c, s, CheckCooldown(id));
            && (At(u, id, Admitted(t.pc.now)) <==>
                t.bypass || forall k :: k in s.store && k.app == t.app ==> k.at + c.cooldown <= t.pc.now)
            && (At(u, id, Admitted(t.pc.now)) || At(u, id, Leaving))
            && u.store == s.store && u.starts == s.starts && u.mutex == s.mutex
  {
  }

  /** An attempt that begins is stored as pulling, under its app and start time, and every later
      stage overwrites that one record. */
  lemma StagesAreStored(c: Config, s: State, step: Step, k: Key)
    requires Enabled(c, s, step)
    ensures var t := Apply(c, s, step);
            if (step.Begin? || step.Advance?) && k == Key(s.triggers[step.id].app, s.triggers[step.id].pc.now)
            then k in t.store && t.store[k] == if step.Begin? then Pulling else step.stage
            else (k in t.store <==> k in s.store) && (k in s.store ==> t.store[k] == s.store[k])
    ensures |Apply(c, s, step).starts| == |s.starts| + if step.Begin? then 1 else 0
  {
  }

  /** How far a trigger is from being done. */
  function Left(pc: Pc): nat {
    match pc
    case Queued => 11
    case Ready => 10
    case Locked => 9
    case Timed(_) => 8
    case Admitted(_) => 7
    case InFlight(_, stage) => if stage.Pulling? then 6 else if stage.Recreating? then 5 else if stage.Verifying? then 4 else 3
    case Leaving => 2
    case Unlocked => 1
    case Done => 0
  }

  predicate IsOwn(step: Step, id: nat) {
    !step.Tick? && !step.Spawn? && step.id == id
  }

  /** Its own steps bring a trigger nearer its end, and nobody else's move it. */
  lemma OnlyForward(c: Config, s: State, step: Step, id: nat)
    requires Enabled(c, s, step) && id in s.triggers
    ensures id in Apply(c, s, step).triggers
    ensures if IsOwn(step, id) then Left(Apply(c, s, step).triggers[id].pc) < Left(s.triggers[id].pc)
            else Apply(c, s, step).triggers[id] == s.triggers[id]
  {
  }

  /** A step of its own that the trigger can take, whatever the others do; waiting for a slot
      may be given up. */
  function OwnNext(id: nat, pc: Pc): Step {
    match pc
    case Queued => GiveUp(id)
    case Ready => TryLock(id)
    case Locked => ReadClock(id)
    case Timed(_) => CheckCooldown(id)
    case Admitted(_) => Begin(id)
    case InFlight(_, stage) => Advance(id, Failed)
    case Leaving => Unlock(id)
    case _ => ReleaseSlot(id)
  }

  /** So no trigger ever waits for another one: with its own steps alone it is done after at
      most eleven of them. */
  lemma NeverBlocked(c: Config, steps: seq<Step>, s: State, id: nat)
    requires Reached(c, steps, s) && id in s.triggers && !s.triggers[id].pc.Done?
    ensures Enabled(c, s, OwnNext(id, s.triggers[id].pc)) && IsOwn(OwnNext(id, s.triggers[id].pc), id)
    ensures s.triggers[id].pc.Queued? ==>
              (Enabled(c, s, AcquireSlot(id)) <==> |s.slots| < c.concurrency)
  {
    AlwaysWorking(c, steps, s, id);
  }

  /** Between its first and its last stage an attempt is pulling, recreating or verifying. */
  predicate Working(pc: Pc) {
    pc.InFlight? ==> pc.stage.Pulling? || pc.stage.Recreating? || pc.stage.Verifying?
  }

  lemma StaysWorking(c: Config, s: State, step: Step, id: nat)
    requires Enabled(c, s, step) && id in Apply(c, s, step).triggers
    requires id in s.triggers ==> Working(s.triggers[id].pc)
    ensures Working(Apply(c, s, step).triggers[id].pc)
  {
  }

  lemma {:induction false} AlwaysWorking(c: Config, steps: seq<Step>, s: State, id: nat)
    requires Reached(c, steps, s) && id in s.triggers
    ensures Working(s.triggers[id].pc)
  {
    var n := |steps| - 1;
    var p :| Reached(c, steps[..n], p) && Enabled(c, p, steps[n]) && s == Apply(c, p, steps[n]);
    if id in p.triggers { AlwaysWorking(c, steps[..n], p, id); }
    StaysWorking(c, p, steps[n], id);
  }
}
