/** Fan-out of deploy events: DeploySession in internal/docker/deploy_stream.go.

    Every method holds the session's lock, so each is one step; taking an event out of
    a subscription channel is the subscriber's own step. */
module DeployFanout {
  import opened Collections

  datatype Event = Event(step: string, message: string, status: string, time: string)

  /** A subscription: its channel (capacity, buffer, closed) and its account, which only
      the proofs look at: the history length when it began, the positions of the events
      put into the channel, the events the subscriber took out, how many were dropped, and
      the history length when it ended. */
  datatype Sub = Sub(
    cap: nat, buf: seq<Event>, closed: bool,
    base: nat, kept: seq<nat>, got: seq<Event>, drops: nat, until: nat)

  /** all lists every subscription ever made; registered holds those still in subs. */
  datatype State = State(history: seq<Event>, registered: set<nat>, dropped: nat, closed: bool, all: seq<Sub>)

  datatype Step = Subscribe | Unsubscribe(ch: nat) | Emit(ev: Event) | Close | Receive(ch: nat)

  const LIVE_BUFFER := 64

  function Init(): State { State([], {}, 0, false, []) }

  function Iota(n: nat): (r: seq<nat>)
    ensures |r| == n && forall i :: 0 <= i < n ==> r[i] == i
  {
    seq(n, i => i)
  }

  // ---- The steps, on values ------------------------------------------------------------

  function NewSub(history: seq<Event>, closed: bool): Sub {
    var n := |history|;
    Sub(n + LIVE_BUFFER, history, closed, n, Iota(n), [], 0, n)
  }

  function SubscribeSpec(s: State): State {
    s.(all := s.all + [NewSub(s.history, s.closed)],
       registered := if s.closed then s.registered else s.registered + {|s.all|})
  }

  function Ended(c: Sub, n: nat): Sub { c.(closed := true, until := n) }

  function UnsubscribeSpec(s: State, ch: nat): State {
    if ch in s.registered && ch < |s.all| then
      s.(registered := s.registered - {ch}, all := s.all[ch := Ended(s.all[ch], |s.history|)])
    else s
  }

  /** A non-blocking send of the event at position n. */
  function Offered(c: Sub, ev: Event, n: nat): Sub {
    if |c.buf| < c.cap then c.(buf := c.buf + [ev], kept := c.kept + [n]) else c.(drops := c.drops + 1)
  }

  function Full(s: State): set<nat> {
    set i | i in s.registered && i < |s.all| && |s.all[i].buf| >= s.all[i].cap
  }

  /** The event at position n offered to the subscriptions in who. */
  function OfferAll(all: seq<Sub>, who: set<nat>, ev: Event, n: nat): (r: seq<Sub>)
    ensures |r| == |all|
    ensures forall i :: 0 <= i < |all| ==> r[i] == if i in who then Offered(all[i], ev, n) else all[i]
  {
    seq(|all|, i requires 0 <= i < |all| => if i in who then Offered(all[i], ev, n) else all[i])
  }

  function EmitSpec(s: State, ev: Event): State {
    s.(history := s.history + [ev],
       all := OfferAll(s.all, s.registered, ev, |s.history|),
       dropped := s.dropped + |Full(s)|)
  }

  function CloseSpec(s: State): (t: State)
    ensures |t.all| == |s.all|
    ensures forall i :: 0 <= i < |s.all| ==>
              t.all[i] == if i in s.registered then Ended(s.all[i], |s.history|) else s.all[i]
  {
    s.(closed := true, registered := {},
       all := seq(|s.all|, i requires 0 <= i < |s.all| =>
                  if i in s.registered then Ended(s.all[i], |s.history|) else s.all[i]))
  }

  function Taken(c: Sub): Sub
    requires c.buf != []
  {
    c.(buf := c.buf[1..], got := c.got + [c.buf[0]])
  }

  function ReceiveSpec(s: State, ch: nat): State {
    if ch < |s.all| && s.all[ch].buf != [] then s.(all := s.all[ch := Taken(s.all[ch])]) else s
  }

  function Apply(s: State, step: Step): State {
    match step
    case Subscribe => SubscribeSpec(s)
    case Unsubscribe(ch) => UnsubscribeSpec(s, ch)
    case Emit(ev) => EmitSpec(s, ev)
    case Close => CloseSpec(s)
    case Receive(ch) => ReceiveSpec(s, ch)
  }

  function Run(steps: seq<Step>): State {
    if steps == [] then Init() else Apply(Run(steps[..|steps| - 1]), steps[|steps| - 1])
  }

  ghost predicate Reachable(s: State) {
    exists steps :: Run(steps) == s
  }

  // ---- What holds of every reachable state ----------------------------------------------

  /** Exactly the registered channels are open; a closed session has none. */
  ghost predicate Wired(s: State) {
    && (forall i :: i in s.registered ==> i < |s.all|)
    && (forall i :: 0 <= i < |s.all| ==> (s.all[i].closed <==> i !in s.registered))
    && (s.closed ==> s.registered == {})
  }

  /** How much history a subscription was there for. */
  function End(c: Sub, n: nat): nat { if c.closed then c.until else n }

  ghost predicate Increasing(k: seq<nat>) {
    forall i, j :: 0 <= i < j < |k| ==> k[i] < k[j]
  }

  ghost predicate AllBelow(k: seq<nat>, n: nat) {
    forall i :: 0 <= i < |k| ==> k[i] < n
  }

  /** The account balances: kept and dropped positions make up the whole time, and the
      history at subscription plus the next 64 events were kept. */
  ghost predicate Balanced(c: Sub, n: nat) {
    var end := End(c, n);
    && c.base <= end <= n
    && Increasing(c.kept) && AllBelow(c.kept, end)
    && |c.kept| + c.drops == end
    && Min(end, c.base + LIVE_BUFFER) <= |c.kept|
    && (forall i :: 0 <= i < Min(end, c.base + LIVE_BUFFER) ==> c.kept[i] == i)
  }

  /** What the subscriber took out, and then what is still in the buffer, are the kept events. */
  ghost predicate Buffered(c: Sub, history: seq<Event>) {
    && AllBelow(c.kept, |history|)
    && c.cap == c.base + LIVE_BUFFER && |c.buf| <= c.cap
    && |c.got + c.buf| == |c.kept|
    && (forall i :: 0 <= i < |c.kept| ==> (c.got + c.buf)[i] == history[c.kept[i]])
  }

  ghost predicate Accounted(c: Sub, history: seq<Event>) {
    Balanced(c, |history|) && Buffered(c, history)
  }

  function TotalDrops(all: seq<Sub>): nat {
    if all == [] then 0 else TotalDrops(all[..|all| - 1]) + all[|all| - 1].drops
  }

  ghost predicate AllAccounted(s: State) {
    forall i :: 0 <= i < |s.all| ==> Accounted(s.all[i], s.history)
  }

  ghost predicate Inv(s: State) {
    Wired(s) && AllAccounted(s) && s.dropped == TotalDrops(s.all)
  }

  /** Raising the drops of the subscriptions in full by one raises the total by their number. */
  lemma {:induction false} TotalAfterDrops(before: seq<Sub>, after: seq<Sub>, full: set<nat>)
    requires |before| == |after| && forall i :: i in full ==> i < |before|
    requires forall i :: 0 <= i < |before| ==> after[i].drops == before[i].drops + (if i in full then 1 else 0)
    ensures TotalDrops(after) == TotalDrops(before) + |full|
  {
    if before == [] {
      assert full == {};
    } else {
      var n := |before| - 1;
      TotalAfterDrops(before[..n], after[..n], full - {n});
      assert n in full ==> |full - {n}| == |full| - 1;
      assert n !in full ==> full - {n} == full;
    }
  }

  lemma EndedAccounted(c: Sub, history: seq<Event>)
    requires Accounted(c, history) && !c.closed
    ensures Accounted(Ended(c, |history|), history)
  {
  }

  lemma TakenAccounted(c: Sub, history: seq<Event>)
    requires Accounted(c, history) && c.buf != []
    ensures Accounted(Taken(c), history)
  {
    assert Taken(c).got + Taken(c).buf == c.got + c.buf;
  }

  lemma NewAccounted(history: seq<Event>, closed: bool)
    ensures Accounted(NewSub(history, closed), history)
  {
  }

  /** A full buffer means at least 64 live events were kept: replay never fills it. */
  lemma OfferedBalanced(c: Sub, history: seq<Event>, ev: Event)
    requires Accounted(c, history) && !c.closed
    ensures Balanced(Offered(c, ev, |history|), |history| + 1)
  {
  }

  lemma OfferedBuffered(c: Sub, history: seq<Event>, ev: Event)
    requires Accounted(c, history) && !c.closed
    ensures Buffered(Offered(c, ev, |history|), history + [ev])
  {
    var n, t, h := |history|, Offered(c, ev, |history|), history + [ev];
    assert |c.buf| < c.cap ==> t.got + t.buf == (c.got + c.buf) + [ev];
    forall i | 0 <= i < |t.kept| ensures (t.got + t.buf)[i] == h[t.kept[i]] {
      if i < |c.kept| { assert t.kept[i] == c.kept[i] < n; }
    }
  }

  lemma ClosedStaysAccounted(c: Sub, history: seq<Event>, ev: Event)
    requires Accounted(c, history) && c.closed
    ensures Accounted(c, history + [ev])
  {
  }

  lemma SubscribeKeeps(s: State)
    requires Inv(s)
    ensures Inv(SubscribeSpec(s))
  {
    var t := SubscribeSpec(s);
    NewAccounted(s.history, s.closed);
    forall i | 0 <= i < |t.all| ensures Accounted(t.all[i], t.history) {
      if i < |s.all| { assert t.all[i] == s.all[i]; }
    }
    assert t.all[..|s.all|] == s.all;
    assert TotalDrops(t.all) == TotalDrops(s.all);
  }

  lemma UnsubscribeKeeps(s: State, ch: nat)
    requires Inv(s)
    ensures Inv(UnsubscribeSpec(s, ch))
  {
    if ch in s.registered {
      EndedAccounted(s.all[ch], s.history);
      TotalAfterDrops(s.all, UnsubscribeSpec(s, ch).all, {});
    }
  }

  lemma CloseKeeps(s: State)
    requires Inv(s)
    ensures Inv(CloseSpec(s))
  {
    var t := CloseSpec(s);
    TotalAfterDrops(s.all, t.all, {});
    forall i | 0 <= i < |t.all| ensures Accounted(t.all[i], t.history) {
      if i in s.registered { EndedAccounted(s.all[i], s.history); }
    }
  }

  lemma ReceiveKeeps(s: State, ch: nat)
    requires Inv(s)
    ensures Inv(ReceiveSpec(s, ch))
  {
    if ch < |s.all| && s.all[ch].buf != [] {
      TakenAccounted(s.all[ch], s.history);
      TotalAfterDrops(s.all, ReceiveSpec(s, ch).all, {});
    }
  }

  lemma EmitAccounts(s: State, ev: Event, i: nat)
    requires i < |s.all| && Accounted(s.all[i], s.history) && (s.all[i].closed <==> i !in s.registered)
    ensures Accounted(EmitSpec(s, ev).all[i], EmitSpec(s, ev).history)
  {
    if i in s.registered {
      OfferedBalanced(s.all[i], s.history, ev);
      OfferedBuffered(s.all[i], s.history, ev);
    } else {
      ClosedStaysAccounted(s.all[i], s.history, ev);
    }
  }

  lemma EmitKeeps(s: State, ev: Event)
    requires Inv(s)
    ensures Inv(EmitSpec(s, ev))
  {
    EmitWired(s, ev);
    EmitTotals(s, ev);
    var t := EmitSpec(s, ev);
    forall i | 0 <= i < |t.all| ensures Accounted(t.all[i], t.history) {
      EmitAccounts(s, ev, i);
    }
  }

  lemma EmitTotals(s: State, ev: Event)
    requires Wired(s)
    ensures TotalDrops(EmitSpec(s, ev).all) == TotalDrops(s.all) + |Full(s)|
  {
    TotalAfterDrops(s.all, EmitSpec(s, ev).all, Full(s));
  }

  lemma StepKeeps(s: State, step: Step)
    requires Inv(s)
    ensures Inv(Apply(s, step))
  {
    match step
    case Subscribe => SubscribeKeeps(s);
    case Unsubscribe(ch) => UnsubscribeKeeps(s, ch);
    case Emit(ev) => EmitKeeps(s, ev);
    case Close => CloseKeeps(s);
    case Receive(ch) => ReceiveKeeps(s, ch);
  }

  lemma {:induction false} RunKeeps(steps: seq<Step>)
    ensures Inv(Run(steps))
  {
    if steps != [] {
      var n := |steps| - 1;
      RunKeeps(steps[..n]);
      StepKeeps(Run(steps[..n]), steps[n]);
    }
  }

  lemma ReachableInv(s: State)
    requires Reachable(s)
    ensures Inv(s)
  {
    var steps :| Run(steps) == s;
    RunKeeps(steps);
  }

  // ---- The promises -----------------------------------------------------------------------

  /** The events of the history that were put into a channel so far. */
  function Stream(c: Sub, history: seq<Event>): (r: seq<Event>)
    requires AllBelow(c.kept, |history|)
    ensures |r| == |c.kept| && forall i :: 0 <= i < |r| ==> r[i] == history[c.kept[i]]
  {
    seq(|c.kept|, i requires 0 <= i < |c.kept| => history[c.kept[i]])
  }

  /** The stream is a subsequence of the history that starts with the history at
      subscription and the first 64 live events; what it lacks up to its end was counted
      as dropped; it is what the subscriber received followed by what is buffered. */
  ghost predicate Faithful(c: Sub, history: seq<Event>) {
    && AllBelow(c.kept, |history|) && Increasing(c.kept)
    && End(c, |history|) <= |history|
    && var stream, sure := Stream(c, history), Min(End(c, |history|), c.base + LIVE_BUFFER);
    && sure <= |stream| && stream[..sure] == history[..sure]
    && |stream| + c.drops == End(c, |history|)
    && c.got + c.buf == stream
  }

  lemma AccountedIsFaithful(c: Sub, history: seq<Event>)
    requires Accounted(c, history)
    ensures Faithful(c, history)
  {
    var stream, sure := Stream(c, history), Min(End(c, |history|), c.base + LIVE_BUFFER);
    forall i | 0 <= i < sure ensures stream[i] == history[i] {
      assert c.kept[i] == i;
    }
  }

  /** In every reachable state every subscription is served faithfully. */
  lemma SubscriberSees(s: State, i: nat)
    requires Reachable(s) && i < |s.all|
    ensures Faithful(s.all[i], s.history)
  {
    ReachableInv(s);
    AccountedIsFaithful(s.all[i], s.history);
  }

  /** The session's drop counter is the sum of what every subscriber missed. */
  lemma DropsAddUp(s: State)
    requires Reachable(s)
    ensures s.dropped == TotalDrops(s.all)
  {
    ReachableInv(s);
  }

  /** A subscription without drops saw everything up to its end. */
  lemma NoDropsNoLoss(s: State, i: nat)
    requires Reachable(s) && i < |s.all| && s.all[i].drops == 0
    ensures AllBelow(s.all[i].kept, |s.history|) && End(s.all[i], |s.history|) <= |s.history|
    ensures s.all[i].got + s.all[i].buf == s.history[..End(s.all[i], |s.history|)]
  {
    ReachableInv(s);
    assert Accounted(s.all[i], s.history);
    IncreasingBelow(s.all[i].kept, End(s.all[i], |s.history|));
  }

  lemma {:induction false} IncreasingBelow(k: seq<nat>, n: nat)
    requires Increasing(k) && |k| == n && AllBelow(k, n)
    ensures forall i :: 0 <= i < n ==> k[i] == i
  {
    if n > 0 {
      var head := k[..n - 1];
      assert forall i :: 0 <= i < n - 1 ==> head[i] == k[i] && k[i] < k[n - 1];
      IncreasingBelow(head, n - 1);
      assert n > 1 ==> k[n - 2] == head[n - 2] == n - 2;
    }
  }

  /** Open channels are exactly the registered ones, so nothing is sent on, or closes, a
      closed channel; closing the session closes every channel. */
  lemma ChannelsCloseOnce(s: State, i: nat, step: Step)
    requires Reachable(s) && i < |s.all|
    ensures i in s.registered <==> !s.all[i].closed
    ensures s.closed ==> s.all[i].closed
    ensures s.all[i].closed ==> i < |Apply(s, step).all|
    ensures s.all[i].closed ==>
              var c := Apply(s, step).all[i]; c.closed && c.until == s.all[i].until && c.kept == s.all[i].kept
  {
    ReachableInv(s);
    ClosedStays(s, i, step);
  }

  lemma ClosedStays(s: State, i: nat, step: Step)
    requires Wired(s) && i < |s.all|
    ensures i < |Apply(s, step).all|
    ensures s.all[i].closed ==>
              var c := Apply(s, step).all[i]; c.closed && c.until == s.all[i].until && c.kept == s.all[i].kept
  {
  }

  /** Events after Close reach no channel, only those who subscribe later. */
  lemma AfterClose(s: State, ev: Event)
    requires Reachable(s) && s.closed
    ensures EmitSpec(s, ev).all == s.all
    ensures var c := NewSub(EmitSpec(s, ev).history, true);
            SubscribeSpec(EmitSpec(s, ev)).all == s.all + [c] && c.closed && c.buf == s.history + [ev]
  {
    ReachableInv(s);
    assert OfferAll(s.all, {}, ev, |s.history|) == s.all;
  }

  /** An event goes to the end of every registered channel that has room, and is missed exactly
      where the replay's places and 64 more are all taken by events not yet received. */
  lemma EmitInFull(s: State, ev: Event, i: nat)
    requires Reachable(s) && i < |s.all|
    ensures var c, t := s.all[i], EmitSpec(s, ev);
            && t.history == s.history + [ev] && t.registered == s.registered && |t.all| == |s.all|
            && var d := t.all[i];
            && d.got == c.got && d.closed == c.closed
            && (i in s.registered && |c.buf| < c.base + 64 ==> d.buf == c.buf + [ev] && d.drops == c.drops)
            && (i in s.registered && |c.buf| >= c.base + 64 ==> d.buf == c.buf && d.drops == c.drops + 1)
            && (i !in s.registered ==> d == c)
  {
    ReachableInv(s);
    assert Accounted(s.all[i], s.history);
  }

  /** A new subscriber finds the whole history waiting, and only that. */
  lemma SubscribeInFull(s: State)
    ensures var t, n := SubscribeSpec(s), |s.all|;
            && |t.all| == n + 1 && t.all[..n] == s.all && t.history == s.history
            && t.all[n].buf == s.history && t.all[n].got == [] && t.all[n].drops == 0
            && t.all[n].base == |s.history| && t.all[n].closed == s.closed
            && (n in t.registered <==> !s.closed || n in s.registered)
  {
  }

  /** Ending a subscription, alone or with the session, takes nothing out of its channel. */
  lemma EndKeepsBuffer(s: State, step: Step, i: nat)
    requires Reachable(s) && i < |s.all| && (step.Unsubscribe? || step == Close)
    ensures var c, t := s.all[i], Apply(s, step);
            && |t.all| == |s.all| && t.history == s.history && t.dropped == s.dropped
            && t.all[i].buf == c.buf && t.all[i].got == c.got && t.all[i].drops == c.drops
            && (t.all[i].closed <==> c.closed || step == Close || step == Unsubscribe(i))
            && (i in t.registered <==> i in s.registered && step != Close && step != Unsubscribe(i))
            && (t.closed <==> s.closed || step == Close)
  {
    ReachableInv(s);
  }

  /** The subscriptions as they stand when the range over subs has yet to visit todo. */
  function Midway(s: State, ev: Event, todo: set<nat>): State {
    s.(history := s.history + [ev],
       all := OfferAll(s.all, s.registered - todo, ev, |s.history|),
       dropped := s.dropped + |Full(s) - todo|)
  }

  lemma MidwayStep(s: State, ev: Event, todo: set<nat>, ch: nat)
    requires Wired(s) && todo <= s.registered && ch in todo
    ensures ch < |s.all| && Midway(s, ev, todo).all[ch] == s.all[ch]
    ensures var m, n := Midway(s, ev, todo), Midway(s, ev, todo - {ch});
            && n.all == m.all[ch := Offered(s.all[ch], ev, |s.history|)]
            && n.dropped == m.dropped + (if |s.all[ch].buf| < s.all[ch].cap then 0 else 1)
  {
    OfferOneMore(s.all, s.registered, todo, ch, ev, |s.history|);
    CountOneMore(Full(s), todo, ch);
  }

  lemma OfferOneMore(all: seq<Sub>, who: set<nat>, todo: set<nat>, ch: nat, ev: Event, n: nat)
    requires ch < |all| && ch in todo && ch in who
    ensures OfferAll(all, who - todo, ev, n)[ch] == all[ch]
    ensures OfferAll(all, who - (todo - {ch}), ev, n) == OfferAll(all, who - todo, ev, n)[ch := Offered(all[ch], ev, n)]
  {
  }

  lemma CountOneMore(full: set<nat>, todo: set<nat>, ch: nat)
    requires ch in todo
    ensures |full - (todo - {ch})| == |full - todo| + (if ch in full then 1 else 0)
  {
    assert full - (todo - {ch}) == (full - todo) + (if ch in full then {ch} else {});
  }

  lemma EmitWired(s: State, ev: Event)
    requires Wired(s)
    ensures Wired(EmitSpec(s, ev))
  {
  }

  lemma MidwayStart(s: State, ev: Event)
    requires Wired(s)
    ensures Midway(s, ev, s.registered) == s.(history := s.history + [ev])
  {
    assert Full(s) - s.registered == {} && s.registered - s.registered == {};
    assert OfferAll(s.all, {}, ev, |s.history|) == s.all;
  }

  lemma MidwayEnd(s: State, ev: Event)
    requires Wired(s)
    ensures Midway(s, ev, {}) == EmitSpec(s, ev) && Wired(EmitSpec(s, ev))
  {
    assert Full(s) - {} == Full(s) && s.registered - {} == s.registered;
    EmitWired(s, ev);
  }

  // ---- The session ---------------------------------------------------------------------------

  class DeploySession {
    var history: seq<Event>
    var subs: set<nat>
    var dropped: nat
    var closed: bool
    var once: bool
    var doneClosed: bool
    var channels: seq<Sub>

    function View(): State
      reads this
    {
      State(history, subs, dropped, closed, channels)
    }

    ghost predicate Valid()
      reads this
    {
      Wired(View()) && once == closed == doneClosed
    }

    constructor ()
      ensures Valid() && View() == Init()
    {
      history, subs, dropped, closed, once, doneClosed, channels := [], {}, 0, false, false, false, [];
    }

    method Subscribe() returns (ch: nat)
      requires Valid()
      modifies this
      ensures Valid() && View() == SubscribeSpec(old(View())) && ch == |old(channels)|
    {
      ch := |channels|;
      var c := Sub(|history| + LIVE_BUFFER, [], false, |history|, [], [], 0, |history|);
      for i := 0 to |history|
        invariant c.cap == |history| + LIVE_BUFFER && !c.closed && c.base == |history| && c.until == |history|
        invariant c.buf == history[..i] && c.kept == Iota(i) && c.got == [] && c.drops == 0
      {
        c := c.(buf := c.buf + [history[i]], kept := c.kept + [i]);
        assert Iota(i + 1) == Iota(i) + [i];
      }
      assert c.buf == history;
      if closed {
        c := CloseChannel(c);
      } else {
        subs := subs + {ch};
      }
      channels := channels + [c];
    }

    method Unsubscribe(ch: nat)
      requires Valid()
      modifies this
      ensures Valid() && View() == UnsubscribeSpec(old(View()), ch)
    {
      if ch in subs {
        subs := subs - {ch};
        var c := CloseChannel(channels[ch]);
        channels := channels[ch := c];
      }
    }

    /** close(ch): closing a closed channel would panic. */
    method CloseChannel(c: Sub) returns (r: Sub)
      requires !c.closed
      ensures r == Ended(c, |history|)
    {
      r := c.(closed := true, until := |history|);
    }

    /** ch <- ev with a default branch that counts the drop: sending on a closed channel
        would panic. */
    method TrySend(ch: nat, ev: Event, at: nat)
      requires ch < |channels| && !channels[ch].closed
      modifies this`channels, this`dropped
      ensures channels == old(channels)[ch := Offered(old(channels)[ch], ev, at)]
      ensures dropped == old(dropped) + (if |old(channels)[ch].buf| < old(channels)[ch].cap then 0 else 1)
    {
      var c := channels[ch];
      if |c.buf| < c.cap {
        c := c.(buf := c.buf + [ev], kept := c.kept + [at]);
      } else {
        dropped := dropped + 1;
        c := c.(drops := c.drops + 1);
      }
      channels := channels[ch := c];
    }

    /** One turn of the range over subs. */
    method SendTo(ch: nat, ev: Event, ghost s0: State, ghost todo: set<nat>)
      requires Wired(s0) && ch in todo && todo <= s0.registered
      requires View() == Midway(s0, ev, todo)
      modifies this`channels, this`dropped
      ensures View() == Midway(s0, ev, todo - {ch})
    {
      MidwayStep(s0, ev, todo, ch);
      TrySend(ch, ev, |history| - 1);
    }

    /** The range over subs, in any order; s0 is the session before the event. */
    method Broadcast(ev: Event, ghost s0: State)
      requires Wired(s0) && subs == s0.registered && View() == Midway(s0, ev, subs)
      modifies this`channels, this`dropped
      ensures Wired(View()) && View() == EmitSpec(s0, ev)
    {
      var todo := subs;
      while todo != {}
        invariant todo <= s0.registered && View() == Midway(s0, ev, todo)
        decreases |todo|
      {
        var ch :| ch in todo;
        SendTo(ch, ev, s0, todo);
        todo := todo - {ch};
      }
      MidwayEnd(s0, ev);
    }

    method EmitEvent(ev: Event)
      requires Valid()
      modifies this
      ensures Valid() && View() == EmitSpec(old(View()), ev)
    {
      ghost var s0 := View();
      MidwayStart(s0, ev);
      history := history + [ev];
      Broadcast(ev, s0);
    }

    /** Safe to call more than once. */
    method Close()
      requires Valid()
      modifies this
      ensures Valid() && doneClosed
      ensures View() == CloseSpec(old(View()))
    {
      if once {
        assert channels == CloseSpec(old(View())).all;
        return;
      }
      once := true;
      closed := true;
      ghost var done: set<nat> := {};
      while subs != {}
        invariant done + subs == old(subs) && done !! subs
        invariant closed && once && !doneClosed && history == old(history) && dropped == old(dropped)
        invariant |channels| == |old(channels)|
        invariant forall i :: 0 <= i < |channels| ==>
                    channels[i] == if i in done then Ended(old(channels)[i], |history|) else old(channels)[i]
        decreases subs
      {
        var ch :| ch in subs;
        var c := CloseChannel(channels[ch]);
        channels := channels[ch := c];
        subs := subs - {ch};
        done := done + {ch};
      }
      assert channels == CloseSpec(old(View())).all;
      doneClosed := true;
    }

    /** The subscriber takes the next buffered event, if any. */
    method Receive(ch: nat) returns (got: bool, ev: Event)
      requires Valid() && ch < |channels|
      modifies this
      ensures Valid() && View() == ReceiveSpec(old(View()), ch)
      ensures got <==> old(channels[ch].buf) != []
      ensures got ==> ev == old(channels[ch].buf[0])
    {
      var c := channels[ch];
      got := c.buf != [];
      if got {
        ev := c.buf[0];
        channels := channels[ch := Taken(c)];
      } else {
        ev := Event("", "", "", "");
      }
    }

    method DroppedEvents() returns (n: nat)
      ensures n == dropped
    {
      n := dropped;
    }
  }
}
