/** Edge connections and the requests multiplexed over them: internal/agent/manager.go,
    with the writers of the stored status in internal/server/agent_ws.go and
    internal/server/instance_routes.go.

    The methods of the manager hold its mutex, so each is one step. A read loop, a
    request and a slow status write take several steps, and all of them interleave. */
module EdgeConnections {
  import opened Collections

  type Instance = string

  datatype Reader = Reading | Exiting | Exited

  /** EdgeConnection: doneCloses counts how often close(done) was executed. */
  datatype Conn = Conn(instance: Instance, doneCloses: nat, socketClosed: bool, reader: Reader, pending: map<nat, nat>)

  datatype Status = Enrolling | Online | Offline

  /** The manager: every connection ever made, the registered ones, and the instance rows of
      the database with their status. */
  datatype Manager = Manager(conns: seq<Conn>, edge: map<Instance, nat>, status: map<Instance, Status>)

  /** A response names the request it answers; conn is where it was read. */
  datatype Response = Response(id: nat, conn: nat)

  datatype Result = NoConnection | SendFailed | Got(resp: Response) | TimedOut | ConnectionClosed

  /** Where a SendEdgeRequest call is. */
  datatype Pc =
    | Looking
    | Found(conn: nat)
    | Registered(conn: nat)
    | Waiting(conn: nat)
    | Returning(conn: nat, result: Result)
    | Returned(result: Result)

  datatype Request = Request(id: nat, instance: Instance, pc: Pc, inbox: Option<Response>)

  /** Writes still to come outside the manager's mutex. online: of a handler that registered
      a connection or pinged through one; offline: of a delete that found no connection;
      deletes: of a row, after its connection was torn down; installs: running over SSH. */
  datatype Writes = Writes(online: multiset<Instance>, offline: multiset<Instance>,
                           deletes: multiset<Instance>, installs: multiset<Instance>)

  datatype State = State(mgr: Manager, reqs: seq<Request>, due: Writes)

  datatype Step =
    | Register(instance: Instance)
    | PingAnswered(instance: Instance)
    | MarkOnline(instance: Instance)
    | Unregister(instance: Instance)
    | WriteOffline(instance: Instance)
    | CreateInstance(instance: Instance)
    | DeleteInstance(instance: Instance)
    | StartInstall(instance: Instance)
    | InstallEnds(instance: Instance, failed: bool)
    | ReadError(c: nat)
    | ReaderCleanup(c: nat)
    | Deliver(c: nat, id: nat)
    | NewRequest(id: nat, instance: Instance)
    | LookUp(r: nat)
    | AddPending(r: nat)
    | WriteRequest(r: nat, ok: bool)
    | TakeResponse(r: nat)
    | TimeOut(r: nat)
    | SeeDone(r: nat)
    | DropPending(r: nat)
    | CloseAll

  // ---- Manager steps on values -----------------------------------------------------------

  /** The select that closes done unless it is closed, then conn.Close(). */
  function Shut(c: Conn): Conn {
    c.(doneCloses := if c.doneCloses > 0 then c.doneCloses else 1, socketClosed := true)
  }

  function NewConn(instance: Instance): Conn { Conn(instance, 0, false, Reading, map[]) }

  predicate Live(m: Manager, c: nat) {
    c < |m.conns| && m.conns[c].instance in m.edge && m.edge[m.conns[c].instance] == c
  }

  /** UpdateInstanceStatus: an error, and no write, when there is no such row. */
  function SetStatus(m: Manager, instance: Instance, status: Status): Manager {
    if instance in m.status then m.(status := m.status[instance := status]) else m
  }

  function RegisterSpec(m: Manager, instance: Instance): Manager {
    var conns := if instance in m.edge && m.edge[instance] < |m.conns|
                 then m.conns[m.edge[instance] := Shut(m.conns[m.edge[instance]])] else m.conns;
    m.(conns := conns + [NewConn(instance)], edge := m.edge[instance := |m.conns|])
  }

  function TeardownSpec(m: Manager, c: nat): Manager {
    if !Live(m, c) then m
    else
      var instance := m.conns[c].instance;
      SetStatus(m, instance, Offline).(conns := m.conns[c := Shut(m.conns[c])], edge := m.edge - {instance})
  }

  function CloseSpec(m: Manager): (r: Manager)
    ensures |r.conns| == |m.conns|
    ensures forall c :: 0 <= c < |m.conns| ==> r.conns[c] == if Live(m, c) then Shut(m.conns[c]) else m.conns[c]
  {
    m.(conns := seq(|m.conns|, c requires 0 <= c < |m.conns| => if Live(m, c) then Shut(m.conns[c]) else m.conns[c]),
       edge := map[])
  }

  function SetReader(m: Manager, c: nat, reader: Reader): Manager
    requires c < |m.conns|
  {
    m.(conns := m.conns[c := m.conns[c].(reader := reader)])
  }

  function SetPending(m: Manager, c: nat, pending: map<nat, nat>): Manager
    requires c < |m.conns|
  {
    m.(conns := m.conns[c := m.conns[c].(pending := pending)])
  }

  // ---- The machine -------------------------------------------------------------------------

  const NO_WRITES := Writes(multiset{}, multiset{}, multiset{}, multiset{})

  /** The process starts with no connection, over whatever rows the database holds. */
  function Init(rows: map<Instance, Status>): State { State(Manager([], map[], rows), [], NO_WRITES) }

  function SetPc(s: State, r: nat, pc: Pc): State
    requires r < |s.reqs|
  {
    s.(reqs := s.reqs[r := s.reqs[r].(pc := pc)])
  }

  predicate OnConn(s: State, c: nat) { c < |s.mgr.conns| }

  predicate Enabled(s: State, step: Step) {
    match step
    case Register(_) => true
    case PingAnswered(i) => i in s.mgr.edge
    case MarkOnline(i) => i in s.due.online
    case Unregister(_) => true
    case WriteOffline(i) => i in s.due.offline
    case CreateInstance(i) => i !in s.mgr.status
    case DeleteInstance(i) => i in s.due.deletes
    case StartInstall(i) => i in s.mgr.status
    case InstallEnds(i, _) => i in s.due.installs
    case ReadError(c) => OnConn(s, c) && s.mgr.conns[c].reader == Reading
    case ReaderCleanup(c) => OnConn(s, c) && s.mgr.conns[c].reader == Exiting
    case Deliver(c, _) => OnConn(s, c) && s.mgr.conns[c].reader == Reading
    case NewRequest(id, _) => forall r :: 0 <= r < |s.reqs| ==> s.reqs[r].id != id
    case LookUp(r) => r < |s.reqs| && s.reqs[r].pc.Looking?
    case AddPending(r) => r < |s.reqs| && s.reqs[r].pc.Found? && OnConn(s, s.reqs[r].pc.conn)
    case WriteRequest(r, ok) =>
      && r < |s.reqs| && s.reqs[r].pc.Registered? && OnConn(s, s.reqs[r].pc.conn)
      && (ok ==> !s.mgr.conns[s.reqs[r].pc.conn].socketClosed)
    case TakeResponse(r) => r < |s.reqs| && s.reqs[r].pc.Waiting? && s.reqs[r].inbox.Some?
    case TimeOut(r) => r < |s.reqs| && s.reqs[r].pc.Waiting?
    case SeeDone(r) =>
      && r < |s.reqs| && s.reqs[r].pc.Waiting? && OnConn(s, s.reqs[r].pc.conn)
      && s.mgr.conns[s.reqs[r].pc.conn].doneCloses > 0
    case DropPending(r) => r < |s.reqs| && s.reqs[r].pc.Returning? && OnConn(s, s.reqs[r].pc.conn)
    case CloseAll => true
  }

  function Apply(s: State, step: Step): State
    requires Enabled(s, step)
  {
    match step
    case Register(i) => s.(mgr := RegisterSpec(s.mgr, i), due := s.due.(online := s.due.online + multiset{i}))
    case PingAnswered(i) => s.(due := s.due.(online := s.due.online + multiset{i}))
    case MarkOnline(i) => s.(mgr := SetStatus(s.mgr, i, Online), due := s.due.(online := s.due.online - multiset{i}))
    case Unregister(i) =>
      if i in s.mgr.edge then
        s.(mgr := TeardownSpec(s.mgr, s.mgr.edge[i]), due := s.due.(deletes := s.due.deletes + multiset{i}))
      else s.(due := s.due.(offline := s.due.offline + multiset{i}))
    case WriteOffline(i) =>
      s.(mgr := SetStatus(s.mgr, i, Offline),
         due := s.due.(offline := s.due.offline - multiset{i}, deletes := s.due.deletes + multiset{i}))
    case CreateInstance(i) => s.(mgr := s.mgr.(status := s.mgr.status[i := Enrolling]))
    case DeleteInstance(i) =>
      s.(mgr := s.mgr.(status := s.mgr.status - {i}), due := s.due.(deletes := s.due.deletes - multiset{i}))
    case StartInstall(i) =>
      s.(mgr := SetStatus(s.mgr, i, Enrolling), due := s.due.(installs := s.due.installs + multiset{i}))
    case InstallEnds(i, failed) =>
      s.(mgr := if failed then SetStatus(s.mgr, i, Offline) else s.mgr,
         due := s.due.(installs := s.due.installs - multiset{i}))
    case ReadError(c) => s.(mgr := SetReader(s.mgr, c, Exiting))
    case ReaderCleanup(c) => s.(mgr := TeardownSpec(SetReader(s.mgr, c, Exited), c))
    case Deliver(c, id) =>
      var pending := s.mgr.conns[c].pending;
      if id in pending && pending[id] < |s.reqs| && s.reqs[pending[id]].inbox.None? then
        s.(reqs := s.reqs[pending[id] := s.reqs[pending[id]].(inbox := Some(Response(id, c)))])
      else s
    case NewRequest(id, i) => s.(reqs := s.reqs + [Request(id, i, Looking, None)])
    case LookUp(r) =>
      var i := s.reqs[r].instance;
      SetPc(s, r, if i in s.mgr.edge then Found(s.mgr.edge[i]) else Returned(NoConnection))
    case AddPending(r) =>
      var c := s.reqs[r].pc.conn;
      SetPc(s.(mgr := SetPending(s.mgr, c, s.mgr.conns[c].pending[s.reqs[r].id := r])), r, Registered(c))
    case WriteRequest(r, ok) =>
      var c := s.reqs[r].pc.conn;
      SetPc(s, r, if ok then Waiting(c) else Returning(c, SendFailed))
    case TakeResponse(r) =>
      var q := s.reqs[r];
      s.(reqs := s.reqs[r := q.(pc := Returning(q.pc.conn, Got(q.inbox.value)), inbox := None)])
    case TimeOut(r) => SetPc(s, r, Returning(s.reqs[r].pc.conn, TimedOut))
    case SeeDone(r) => SetPc(s, r, Returning(s.reqs[r].pc.conn, ConnectionClosed))
    case DropPending(r) =>
      var c := s.reqs[r].pc.conn;
      SetPc(s.(mgr := SetPending(s.mgr, c, s.mgr.conns[c].pending - {s.reqs[r].id})), r, Returned(s.reqs[r].pc.result))
    case CloseAll => s.(mgr := CloseSpec(s.mgr))
  }

  ghost predicate Reached(steps: seq<Step>, s: State) {
    if steps == [] then s == Init(s.mgr.status)
    else
      var n := |steps| - 1;
      var before, step := steps[..n], steps[n];
      exists p :: Reached(before, p) && Enabled(p, step) && s == Apply(p, step)
  }

  ghost predicate Reachable(s: State) {
    exists steps :: Reached(steps, s)
  }

  // ---- Invariant ---------------------------------------------------------------------------

  /** A registered connection is open; every other one was shut exactly once. */
  ghost predicate MgrInv(m: Manager) {
    && (forall i :: i in m.edge ==> m.edge[i] < |m.conns| && m.conns[m.edge[i]].instance == i)
    && (forall c :: 0 <= c < |m.conns| ==>
          m.conns[c].doneCloses == (if Live(m, c) then 0 else 1) && m.conns[c].socketClosed == !Live(m, c))
  }

  predicate HasConn(pc: Pc) { !pc.Looking? && !pc.Returned? }

  predicate Enlisted(pc: Pc) { pc.Registered? || pc.Waiting? || pc.Returning? }

  function ResponseOf(r: Request): Option<Response> {
    match r.pc
    case Returning(_, Got(resp)) => Some(resp)
    case Returned(Got(resp)) => Some(resp)
    case _ => r.inbox
  }

  ghost predicate ReqInv(s: State) {
    && (forall r, q :: 0 <= r < |s.reqs| && 0 <= q < |s.reqs| && s.reqs[r].id == s.reqs[q].id ==> r == q)
    && (forall r :: 0 <= r < |s.reqs| && HasConn(s.reqs[r].pc) ==>
          OnConn(s, s.reqs[r].pc.conn) && s.mgr.conns[s.reqs[r].pc.conn].instance == s.reqs[r].instance)
    && (forall c, id :: 0 <= c < |s.mgr.conns| && id in s.mgr.conns[c].pending ==>
          var r := s.mgr.conns[c].pending[id];
          r < |s.reqs| && s.reqs[r].id == id && Enlisted(s.reqs[r].pc) && s.reqs[r].pc.conn == c)
    && (forall r :: 0 <= r < |s.reqs| ==> Answered(s, r) && Listed(s, r))
  }

  /** An enlisted request is found in its connection's table, under its own id. */
  ghost predicate Listed(s: State, r: nat)
    requires r < |s.reqs|
  {
    var q := s.reqs[r];
    Enlisted(q.pc) ==>
      OnConn(s, q.pc.conn) && q.id in s.mgr.conns[q.pc.conn].pending && s.mgr.conns[q.pc.conn].pending[q.id] == r
  }

  /** Whatever response a request holds is for it, and from a connection of its instance;
      while it still has a connection, from that one. */
  ghost predicate Answered(s: State, r: nat)
    requires r < |s.reqs|
  {
    var q := s.reqs[r];
    && (q.inbox.Some? ==> !q.pc.Looking? && !q.pc.Found?)
    && (q.inbox.Some? ==> ForRequest(s, q, q.inbox.value))
    && (ResponseOf(q).Some? ==> ForRequest(s, q, ResponseOf(q).value))
  }

  ghost predicate ForRequest(s: State, q: Request, resp: Response) {
    && resp.id == q.id && OnConn(s, resp.conn) && s.mgr.conns[resp.conn].instance == q.instance
    && (HasConn(q.pc) ==> resp.conn == q.pc.conn)
  }

  ghost predicate Inv(s: State) { MgrInv(s.mgr) && ReqInv(s) }

  // ---- Every step keeps it ---------------------------------------------------------------------

  lemma RegisterKeeps(m: Manager, instance: Instance)
    requires MgrInv(m)
    ensures MgrInv(RegisterSpec(m, instance))
  {
    var n := RegisterSpec(m, instance);
    forall c | 0 <= c < |n.conns|
      ensures n.conns[c].doneCloses == (if Live(n, c) then 0 else 1) && n.conns[c].socketClosed == !Live(n, c)
    {
      if c < |m.conns| { assert n.conns[c].instance == m.conns[c].instance; }
    }
  }

  lemma TeardownKeeps(m: Manager, c: nat)
    requires MgrInv(m)
    ensures MgrInv(TeardownSpec(m, c))
  {
    var n := TeardownSpec(m, c);
    forall d | 0 <= d < |n.conns|
      ensures n.conns[d].doneCloses == (if Live(n, d) then 0 else 1) && n.conns[d].socketClosed == !Live(n, d)
    {
      assert n.conns[d].instance == m.conns[d].instance;
    }
  }

  lemma CloseKeeps(m: Manager)
    requires MgrInv(m)
    ensures MgrInv(CloseSpec(m))
  {
  }

  lemma MgrKept(s: State, step: Step)
    requires MgrInv(s.mgr) && Enabled(s, step)
    ensures MgrInv(Apply(s, step).mgr)
  {
    match step
    case Register(i) => RegisterKeeps(s.mgr, i);
    case Unregister(i) => if i in s.mgr.edge { TeardownKeeps(s.mgr, s.mgr.edge[i]); }
    case ReadError(c) => SameButReader(s.mgr, c, Exiting);
    case ReaderCleanup(c) =>
      SameButReader(s.mgr, c, Exited);
      TeardownKeeps(SetReader(s.mgr, c, Exited), c);
    case AddPending(r) => SameButPending(s.mgr, s.reqs[r].pc.conn, Apply(s, step).mgr.conns[s.reqs[r].pc.conn].pending);
    case DropPending(r) => SameButPending(s.mgr, s.reqs[r].pc.conn, Apply(s, step).mgr.conns[s.reqs[r].pc.conn].pending);
    case CloseAll => CloseKeeps(s.mgr);
    case _ =>
  }

  lemma SameButReader(m: Manager, c: nat, reader: Reader)
    requires MgrInv(m) && c < |m.conns|
    ensures MgrInv(SetReader(m, c, reader))
  {
    var n := SetReader(m, c, reader);
    assert forall d :: 0 <= d < |m.conns| ==> n.conns[d].instance == m.conns[d].instance;
  }

  lemma SameButPending(m: Manager, c: nat, pending: map<nat, nat>)
    requires MgrInv(m) && c < |m.conns|
    ensures MgrInv(SetPending(m, c, pending))
  {
    var n := SetPending(m, c, pending);
    assert forall d :: 0 <= d < |m.conns| ==> n.conns[d].instance == m.conns[d].instance;
  }

  /** Steps of the manager and the read loops leave requests and pending tables alone. */
  ghost predicate KeepsTables(m: Manager, n: Manager) {
    && |m.conns| <= |n.conns|
    && (forall c :: 0 <= c < |m.conns| ==> n.conns[c].instance == m.conns[c].instance && n.conns[c].pending == m.conns[c].pending)
    && (forall c :: |m.conns| <= c < |n.conns| ==> n.conns[c].pending == map[])
  }

  lemma TablesKeepReqs(s: State, t: State)
    requires ReqInv(s) && t.reqs == s.reqs && KeepsTables(s.mgr, t.mgr)
    ensures ReqInv(t)
  {
    forall r | 0 <= r < |t.reqs| ensures Answered(t, r) && Listed(t, r) {
      assert Answered(s, r) && Listed(s, r);
    }
  }

  /** A step of one request: only its own program counter and its own table entry change. */
  ghost predicate MovesOne(s: State, t: State, r: nat) {
    && r < |s.reqs| && |t.reqs| == |s.reqs|
    && t.reqs[r].id == s.reqs[r].id && t.reqs[r].instance == s.reqs[r].instance
    && (forall q :: 0 <= q < |s.reqs| && q != r ==> t.reqs[q] == s.reqs[q])
    && |t.mgr.conns| == |s.mgr.conns|
    && (forall c :: 0 <= c < |s.mgr.conns| ==> t.mgr.conns[c].instance == s.mgr.conns[c].instance)
    && (forall c, id :: 0 <= c < |s.mgr.conns| && id != s.reqs[r].id ==>
          && (id in t.mgr.conns[c].pending <==> id in s.mgr.conns[c].pending)
          && (id in s.mgr.conns[c].pending ==> t.mgr.conns[c].pending[id] == s.mgr.conns[c].pending[id]))
  }

  /** What the moving request itself has to bring: a connection of its instance, a table entry
      only while it is enlisted there, and only responses that are for it. */
  ghost predicate MoverGood(t: State, r: nat)
    requires r < |t.reqs|
  {
    var q := t.reqs[r];
    && (HasConn(q.pc) ==> OnConn(t, q.pc.conn) && t.mgr.conns[q.pc.conn].instance == q.instance)
    && (forall c :: 0 <= c < |t.mgr.conns| && q.id in t.mgr.conns[c].pending ==>
          t.mgr.conns[c].pending[q.id] == r && Enlisted(q.pc) && q.pc.conn == c)
    && Answered(t, r) && Listed(t, r)
  }

  lemma MoveKeepsReqs(s: State, t: State, r: nat)
    requires ReqInv(s) && MovesOne(s, t, r) && MoverGood(t, r)
    ensures ReqInv(t)
  {
    forall q, p | 0 <= q < |t.reqs| && 0 <= p < |t.reqs| && t.reqs[q].id == t.reqs[p].id ensures q == p {
      assert s.reqs[q].id == s.reqs[p].id;
    }
    forall q | 0 <= q < |t.reqs| ensures Answered(t, q) && Listed(t, q) {
      assert Answered(s, q) && Listed(s, q);
      assert q != r ==> s.reqs[q].id != s.reqs[r].id;
    }
    forall c, id | 0 <= c < |t.mgr.conns| && id in t.mgr.conns[c].pending
      ensures var q := t.mgr.conns[c].pending[id];
              q < |t.reqs| && t.reqs[q].id == id && Enlisted(t.reqs[q].pc) && t.reqs[q].pc.conn == c
    {
      if id != s.reqs[r].id {
        assert id in s.mgr.conns[c].pending;
        var q := s.mgr.conns[c].pending[id];
        assert s.reqs[q].id == id;
      }
    }
  }

  /** Only the request the table names for an id can be found under that id. */
  lemma TableOwner(s: State, c: nat, r: nat)
    requires ReqInv(s) && OnConn(s, c) && r < |s.reqs| && s.reqs[r].id in s.mgr.conns[c].pending
    ensures s.mgr.conns[c].pending[s.reqs[r].id] == r && Enlisted(s.reqs[r].pc) && s.reqs[r].pc.conn == c
  {
    var q := s.mgr.conns[c].pending[s.reqs[r].id];
    assert s.reqs[q].id == s.reqs[r].id;
  }

  predicate MovesRequest(step: Step) {
    step.LookUp? || step.AddPending? || step.WriteRequest? || step.TakeResponse? || step.TimeOut? || step.SeeDone? || step.DropPending?
  }

  lemma RequestStepKeeps(s: State, step: Step)
    requires MgrInv(s.mgr) && ReqInv(s) && Enabled(s, step) && MovesRequest(step)
    ensures ReqInv(Apply(s, step))
  {
    RequestMovesOne(s, step);
    if step.AddPending? || step.DropPending? { TableMoveIsGood(s, step); } else { PlainMoveIsGood(s, step); }
    MoveKeepsReqs(s, Apply(s, step), step.r);
  }

  /** Entering or leaving the table of the request's connection. */
  lemma TableMoveIsGood(s: State, step: Step)
    requires MgrInv(s.mgr) && ReqInv(s) && Enabled(s, step) && (step.AddPending? || step.DropPending?)
    ensures step.r < |Apply(s, step).reqs| && MoverGood(Apply(s, step), step.r)
  {
    var t, r := Apply(s, step), step.r;
    assert Answered(s, r) && Listed(s, r);
    OwnEntries(s, r);
    assert Answered(t, r) && Listed(t, r);
  }

  lemma PlainMoveIsGood(s: State, step: Step)
    requires MgrInv(s.mgr) && ReqInv(s) && Enabled(s, step) && MovesRequest(step) && !step.AddPending? && !step.DropPending?
    ensures step.r < |Apply(s, step).reqs| && MoverGood(Apply(s, step), step.r)
  {
    var t, r := Apply(s, step), step.r;
    assert t.mgr == s.mgr;
    assert Answered(s, r) && Listed(s, r);
    OwnEntries(s, r);
    assert Answered(t, r) && Listed(t, r);
  }

  lemma OwnEntries(s: State, r: nat)
    requires ReqInv(s) && r < |s.reqs|
    ensures forall c :: 0 <= c < |s.mgr.conns| && s.reqs[r].id in s.mgr.conns[c].pending ==>
              s.mgr.conns[c].pending[s.reqs[r].id] == r && Enlisted(s.reqs[r].pc) && s.reqs[r].pc.conn == c
  {
    forall c | 0 <= c < |s.mgr.conns| && s.reqs[r].id in s.mgr.conns[c].pending
      ensures s.mgr.conns[c].pending[s.reqs[r].id] == r && Enlisted(s.reqs[r].pc) && s.reqs[r].pc.conn == c
    {
      TableOwner(s, c, r);
    }
  }

  lemma RequestMovesOne(s: State, step: Step)
    requires Enabled(s, step) && MovesRequest(step)
    ensures MovesOne(s, Apply(s, step), step.r)
  {
  }

  lemma NewRequestKeeps(s: State, id: nat, instance: Instance)
    requires ReqInv(s) && Enabled(s, NewRequest(id, instance))
    ensures ReqInv(Apply(s, NewRequest(id, instance)))
  {
    var t := Apply(s, NewRequest(id, instance));
    forall r | 0 <= r < |t.reqs| ensures Answered(t, r) && Listed(t, r) {
      if r < |s.reqs| { assert Answered(s, r) && Listed(s, r); }
    }
  }

  /** The read loop finds a request only in its own connection's table. */
  lemma DeliverKeeps(s: State, c: nat, id: nat)
    requires ReqInv(s) && Enabled(s, Deliver(c, id))
    ensures ReqInv(Apply(s, Deliver(c, id)))
  {
    var t := Apply(s, Deliver(c, id));
    if t != s {
      var r := s.mgr.conns[c].pending[id];
      assert s.reqs[r].id == id && Enlisted(s.reqs[r].pc) && s.reqs[r].pc.conn == c;
      assert Answered(s, r) && Listed(s, r);
      forall d | 0 <= d < |s.mgr.conns| && id in s.mgr.conns[d].pending
        ensures s.mgr.conns[d].pending[id] == r && d == c
      {
        TableOwner(s, d, r);
      }
      MoveKeepsReqs(s, t, r);
    }
  }

  lemma OtherStepKeeps(s: State, step: Step)
    requires ReqInv(s) && Enabled(s, step) && !MovesRequest(step) && !step.NewRequest? && !step.Deliver?
    ensures ReqInv(Apply(s, step))
  {
    var t := Apply(s, step);
    assert KeepsTables(s.mgr, t.mgr) by {
      match step
      case Register(i) => RegisterTables(s.mgr, i);
      case Unregister(i) => if i in s.mgr.edge { TeardownTables(s.mgr, s.mgr.edge[i]); }
      case ReaderCleanup(c) => TeardownTables(SetReader(s.mgr, c, Exited), c);
      case CloseAll => CloseTables(s.mgr);
      case _ =>
    }
    TablesKeepReqs(s, t);
  }

  lemma RegisterTables(m: Manager, i: Instance)
    ensures KeepsTables(m, RegisterSpec(m, i))
  {
  }

  lemma TeardownTables(m: Manager, c: nat)
    ensures KeepsTables(m, TeardownSpec(m, c))
  {
  }

  lemma CloseTables(m: Manager)
    ensures KeepsTables(m, CloseSpec(m))
  {
  }

  lemma ReqKept(s: State, step: Step)
    requires Inv(s) && Enabled(s, step)
    ensures ReqInv(Apply(s, step))
  {
    if MovesRequest(step) {
      RequestStepKeeps(s, step);
    } else if step.NewRequest? {
      NewRequestKeeps(s, step.id, step.instance);
    } else if step.Deliver? {
      DeliverKeeps(s, step.c, step.id);
    } else {
      OtherStepKeeps(s, step);
    }
  }

  lemma InvKept(s: State, step: Step)
    requires Inv(s) && Enabled(s, step)
    ensures Inv(Apply(s, step))
  {
    MgrKept(s, step);
    ReqKept(s, step);
  }

  lemma {:induction false} AlwaysInv(steps: seq<Step>, s: State)
    requires Reached(steps, s)
    ensures Inv(s)
    decreases |steps|
  {
    if steps != [] {
      var n := |steps| - 1;
      var before, step := steps[..n], steps[n];
      var p :| Reached(before, p) && Enabled(p, step) && s == Apply(p, step);
      AlwaysInv(before, p);
      InvKept(p, step);
    }
  }

  // ---- What the manager promises ---------------------------------------------------------------

  /** A registered connection's done channel is open; any other was closed exactly once, so
      the select in front of close(done) is never what saves a second close. */
  lemma ClosedExactlyOnce(s: State, c: nat)
    requires Reachable(s) && OnConn(s, c)
    ensures s.mgr.conns[c].doneCloses == if Live(s.mgr, c) then 0 else 1
    ensures s.mgr.conns[c].socketClosed <==> !Live(s.mgr, c)
    ensures Live(s.mgr, c) ==> Shut(s.mgr.conns[c]).doneCloses == s.mgr.conns[c].doneCloses + 1
  {
    var steps :| Reached(steps, s);
    AlwaysInv(steps, s);
  }

  /** The read loop of a connection that is no longer registered unwinds without touching
      the map, the stored status or any other connection. */
  lemma SupersededCleanup(s: State, c: nat)
    requires Enabled(s, ReaderCleanup(c)) && !Live(s.mgr, c)
    ensures var t := Apply(s, ReaderCleanup(c));
            && t.mgr.edge == s.mgr.edge && t.mgr.status == s.mgr.status && t.reqs == s.reqs
            && t.mgr.conns == s.mgr.conns[c := s.mgr.conns[c].(reader := Exited)]
  {
  }

  predicate Displaces(step: Step, instance: Instance, c: nat) {
    step == Register(instance) || step == Unregister(instance) || step == ReaderCleanup(c) || step == CloseAll
  }

  /** A live connection ends exactly when its instance reconnects or is deleted, its own read
      loop exits, or the manager closes. */
  lemma LiveUntilDisplaced(s: State, step: Step, c: nat)
    requires Reachable(s) && Enabled(s, step) && Live(s.mgr, c)
    ensures !Live(Apply(s, step).mgr, c) <==> Displaces(step, s.mgr.conns[c].instance, c)
  {
    ReachedInv(s);
    if step.Register? || step.Unregister? || step.ReaderCleanup? || step.CloseAll? {
      LiveEnds(s, step, c);
    } else {
      LiveKept(s, step, c);
    }
  }

  lemma LiveEnds(s: State, step: Step, c: nat)
    requires MgrInv(s.mgr) && Enabled(s, step) && Live(s.mgr, c)
    requires step.Register? || step.Unregister? || step.ReaderCleanup? || step.CloseAll?
    ensures !Live(Apply(s, step).mgr, c) <==> Displaces(step, s.mgr.conns[c].instance, c)
  {
    if step.Register? {
      RegisterEnds(s.mgr, step.instance, c);
    } else if step.Unregister? {
      if step.instance in s.mgr.edge { TeardownEnds(s.mgr, s.mgr.edge[step.instance], c); }
    } else if step.ReaderCleanup? {
      SameButReader(s.mgr, step.c, Exited);
      TeardownEnds(SetReader(s.mgr, step.c, Exited), step.c, c);
    }
  }

  lemma LiveKept(s: State, step: Step, c: nat)
    requires Enabled(s, step) && Live(s.mgr, c)
    requires !step.Register? && !step.Unregister? && !step.ReaderCleanup? && !step.CloseAll?
    ensures Live(Apply(s, step).mgr, c) && !Displaces(step, s.mgr.conns[c].instance, c)
  {
  }

  lemma RegisterEnds(m: Manager, i: Instance, c: nat)
    requires MgrInv(m) && Live(m, c)
    ensures Live(RegisterSpec(m, i), c) <==> m.conns[c].instance != i
  {
  }

  lemma TeardownEnds(m: Manager, d: nat, c: nat)
    requires MgrInv(m) && Live(m, c)
    ensures Live(TeardownSpec(m, d), c) <==> c != d
  {
  }

  /** Once displaced, a connection never becomes the registered one again. */
  lemma DeadStaysDead(s: State, step: Step, c: nat)
    requires Inv(s) && Enabled(s, step) && OnConn(s, c) && !Live(s.mgr, c)
    ensures OnConn(Apply(s, step), c) && !Live(Apply(s, step).mgr, c)
  {
  }

  lemma {:induction false} ReachedInv(s: State)
    requires Reachable(s)
    ensures Inv(s)
  {
    var steps :| Reached(steps, s);
    AlwaysInv(steps, s);
  }

  /** A request is answered only with its own id, read from a connection of its instance,
      and the connection is the one it was sent on. */
  lemma AnswerIsOwn(s: State, r: nat)
    requires Reachable(s) && r < |s.reqs| && ResponseOf(s.reqs[r]).Some?
    ensures var resp := ResponseOf(s.reqs[r]).value;
            && resp.id == s.reqs[r].id && OnConn(s, resp.conn)
            && s.mgr.conns[resp.conn].instance == s.reqs[r].instance
            && (s.reqs[r].pc.Returning? ==> resp.conn == s.reqs[r].pc.conn)
  {
    ReachedInv(s);
    assert Answered(s, r);
  }

  /** Two requests never hold the same response. */
  lemma AnswersAreDistinct(s: State, r: nat, q: nat)
    requires Reachable(s) && r < |s.reqs| && q < |s.reqs| && r != q
    requires ResponseOf(s.reqs[r]).Some? && ResponseOf(s.reqs[q]).Some?
    ensures ResponseOf(s.reqs[r]) != ResponseOf(s.reqs[q])
  {
    ReachedInv(s);
    AnswerIsOwn(s, r);
    AnswerIsOwn(s, q);
  }

  /** A finished request leaves no entry in any connection's table. */
  lemma NoEntryLeft(s: State, r: nat, c: nat)
    requires Reachable(s) && r < |s.reqs| && OnConn(s, c) && s.reqs[r].pc.Returned?
    ensures s.reqs[r].id !in s.mgr.conns[c].pending
  {
    ReachedInv(s);
    if s.reqs[r].id in s.mgr.conns[c].pending { TableOwner(s, c, r); }
  }

  /** A request is never stuck on a connection that was torn down: whatever it was doing
      there, a step of its own is enabled, and waiting ends by seeing the closed channel. */
  function OwnStep(r: nat, pc: Pc): Step {
    match pc
    case Found(_) => AddPending(r)
    case Registered(_) => WriteRequest(r, false)
    case Waiting(_) => SeeDone(r)
    case _ => DropPending(r)
  }

  lemma NeverStuck(s: State, r: nat)
    requires Reachable(s) && r < |s.reqs| && HasConn(s.reqs[r].pc) && !Live(s.mgr, s.reqs[r].pc.conn)
    ensures Enabled(s, OwnStep(r, s.reqs[r].pc))
  {
    ReachedInv(s);
  }

  /** Own steps that lie between a request and its return. */
  function StepsLeft(pc: Pc): nat {
    match pc
    case Looking => 5
    case Found(_) => 4
    case Registered(_) => 3
    case Waiting(_) => 2
    case Returning(_, _) => 1
    case Returned(_) => 0
  }

  /** Nobody else's step moves a request, and each of its own brings it nearer its return;
      so with a dead connection at most four own steps remain. */
  lemma OnlyForward(s: State, step: Step, r: nat)
    requires Enabled(s, step) && r < |s.reqs|
    ensures r < |Apply(s, step).reqs|
    ensures var pc, next := s.reqs[r].pc, Apply(s, step).reqs[r].pc;
            if MovesRequest(step) && step.r == r then StepsLeft(next) < StepsLeft(pc) else next == pc
  {
    if MovesRequest(step) { RequestMovesOne(s, step); }
  }

  // ---- A response reaches the request that waits for it --------------------------------------

  /** Reading a response for id from c fills the empty inbox of the request with that id, if it
      is enlisted on c, and changes nothing else: an unknown id, another connection's request
      and a second response all leave the state as it was. */
  lemma DeliverInFull(s: State, c: nat, id: nat, r: nat)
    requires Reachable(s) && Enabled(s, Deliver(c, id)) && r < |s.reqs|
    ensures var t, q := Apply(s, Deliver(c, id)), s.reqs[r];
            && t.mgr == s.mgr && t.due == s.due && |t.reqs| == |s.reqs|
            && (t.reqs[r].inbox != q.inbox <==> id == q.id && Enlisted(q.pc) && q.pc.conn == c && q.inbox.None?)
            && t.reqs[r] == q.(inbox := t.reqs[r].inbox)
            && (t.reqs[r].inbox == q.inbox || t.reqs[r].inbox == Some(Response(id, c)))
  {
    ReachedInv(s);
    assert Listed(s, r);
    if s.reqs[r].id in s.mgr.conns[c].pending { TableOwner(s, c, r); }
    if id in s.mgr.conns[c].pending {
      var q := s.mgr.conns[c].pending[id];
      assert s.reqs[q].id == id;
    }
  }

  /** What is read for a waiting request can be taken, and is what the call returns. */
  lemma ResponseReaches(s: State, r: nat)
    requires Reachable(s) && r < |s.reqs| && s.reqs[r].pc.Waiting? && s.reqs[r].inbox.None?
    requires OnConn(s, s.reqs[r].pc.conn) && s.mgr.conns[s.reqs[r].pc.conn].reader == Reading
    ensures var c, id := s.reqs[r].pc.conn, s.reqs[r].id;
            && Enabled(s, Deliver(c, id))
            && var t := Apply(s, Deliver(c, id));
            && r < |t.reqs| && t.reqs[r].pc == Waiting(c) && t.reqs[r].inbox == Some(Response(id, c))
            && Enabled(t, TakeResponse(r))
            && var u := Apply(t, TakeResponse(r));
            && u.reqs[r].pc == Returning(c, Got(Response(id, c))) && u.reqs[r].inbox == None
            && Enabled(u, DropPending(r))
            && Apply(u, DropPending(r)).reqs[r].pc == Returned(Got(Response(id, c)))
  {
    DeliverInFull(s, s.reqs[r].pc.conn, s.reqs[r].id, r);
  }

  /** A response waits in the inbox until a step of its own request. */
  lemma InboxKept(s: State, step: Step, r: nat)
    requires Reachable(s) && Enabled(s, step) && r < |s.reqs| && s.reqs[r].inbox.Some?
    requires !(MovesRequest(step) && step.r == r)
    ensures r < |Apply(s, step).reqs| && Apply(s, step).reqs[r] == s.reqs[r]
  {
    if MovesRequest(step) { RequestMovesOne(s, step); }
  }

  /** How a call can end, and by which step. */
  lemma EndsBy(s: State, step: Step)
    requires Enabled(s, step) && MovesRequest(step) && !step.DropPending?
    ensures var q, pc := s.reqs[step.r], Apply(s, step).reqs[step.r].pc;
            && (pc == Returned(NoConnection) <==> step.LookUp? && q.instance !in s.mgr.edge)
            && (pc.Returned? ==> pc == Returned(NoConnection))
            && (pc.Returning? ==> HasConn(q.pc) && pc.conn == q.pc.conn)
            && (pc.Returning? && pc.result == SendFailed <==> step == WriteRequest(step.r, false))
            && (pc.Returning? && pc.result == TimedOut <==> step.TimeOut?)
            && (pc.Returning? && pc.result == ConnectionClosed <==> step.SeeDone?)
            && (pc.Returning? && pc.result.Got? <==> step.TakeResponse?)
            && (pc.Found? <==> step.LookUp? && q.instance in s.mgr.edge)
            && (pc.Found? ==> pc.conn == s.mgr.edge[q.instance])
            && (pc.Waiting? <==> step == WriteRequest(step.r, true))
  {
  }

  predicate Moves(s: State, step: Step, t: State) { Enabled(s, step) && Apply(s, step) == t }

  /** s with one more request, for an id that no table knows, and its entry while it is enlisted. */
  function Sending(s: State, id: nat, i: Instance, c: nat, pc: Pc, inbox: Option<Response>): State
    requires OnConn(s, c)
  {
    s.(mgr := if Enlisted(pc) then SetPending(s.mgr, c, s.mgr.conns[c].pending[id := |s.reqs|]) else s.mgr,
       reqs := s.reqs + [Request(id, i, pc, inbox)])
  }

  lemma SendSteps(s: State, id: nat, i: Instance, c: nat)
    requires OnConn(s, c) && Enabled(s, NewRequest(id, i)) && i in s.mgr.edge && s.mgr.edge[i] == c
    requires !s.mgr.conns[c].socketClosed
    ensures var r, looking, found := |s.reqs|, Sending(s, id, i, c, Looking, None), Sending(s, id, i, c, Found(c), None);
            var listed, waiting := Sending(s, id, i, c, Registered(c), None), Sending(s, id, i, c, Waiting(c), None);
            && Moves(s, NewRequest(id, i), looking)
            && Moves(looking, LookUp(r), found)
            && Moves(found, AddPending(r), listed)
            && Moves(listed, WriteRequest(r, true), waiting)
  {
  }

  lemma ReceiveSteps(s: State, id: nat, i: Instance, c: nat)
    requires OnConn(s, c) && id !in s.mgr.conns[c].pending && s.mgr.conns[c].reader == Reading
    ensures var r, resp := |s.reqs|, Response(id, c);
            var waiting, filled := Sending(s, id, i, c, Waiting(c), None), Sending(s, id, i, c, Waiting(c), Some(resp));
            var taken, done := Sending(s, id, i, c, Returning(c, Got(resp)), None), Sending(s, id, i, c, Returned(Got(resp)), None);
            && Moves(waiting, Deliver(c, id), filled)
            && Moves(filled, TakeResponse(r), taken)
            && Moves(taken, DropPending(r), done)
  {
    var r, resp := |s.reqs|, Response(id, c);
    var taken := Sending(s, id, i, c, Returning(c, Got(resp)), None);
    assert taken.mgr.conns[c].pending - {id} == s.mgr.conns[c].pending;
    assert Apply(taken, DropPending(r)).mgr.conns == s.mgr.conns;
  }

  lemma NewIdUnlisted(s: State, id: nat, i: Instance, c: nat)
    requires Reachable(s) && Enabled(s, NewRequest(id, i)) && OnConn(s, c)
    ensures id !in s.mgr.conns[c].pending && (Live(s.mgr, c) ==> !s.mgr.conns[c].socketClosed)
    ensures i in s.mgr.edge && s.mgr.edge[i] == c ==> Live(s.mgr, c)
  {
    ReachedInv(s);
  }

  /** A whole exchange on a live connection that is being read: the call returns the response,
      and all it leaves behind is its own record. */
  lemma WholeExchange(s: State, id: nat, i: Instance)
      returns (s1: State, s2: State, s3: State, s4: State, s5: State, s6: State)
    requires Reachable(s) && Enabled(s, NewRequest(id, i))
    requires i in s.mgr.edge && OnConn(s, s.mgr.edge[i]) && s.mgr.conns[s.mgr.edge[i]].reader == Reading
    ensures var r, c := |s.reqs|, s.mgr.edge[i];
            && Moves(s, NewRequest(id, i), s1) && Moves(s1, LookUp(r), s2) && Moves(s2, AddPending(r), s3)
            && Moves(s3, WriteRequest(r, true), s4) && Moves(s4, Deliver(c, id), s5) && Moves(s5, TakeResponse(r), s6)
            && Moves(s6, DropPending(r), s.(reqs := s.reqs + [Request(id, i, Returned(Got(Response(id, c))), None)]))
  {
    var c, resp := s.mgr.edge[i], Response(id, s.mgr.edge[i]);
    NewIdUnlisted(s, id, i, c);
    SendSteps(s, id, i, c);
    ReceiveSteps(s, id, i, c);
    s1, s2 := Sending(s, id, i, c, Looking, None), Sending(s, id, i, c, Found(c), None);
    s3, s4 := Sending(s, id, i, c, Registered(c), None), Sending(s, id, i, c, Waiting(c), None);
    s5, s6 := Sending(s, id, i, c, Waiting(c), Some(resp)), Sending(s, id, i, c, Returning(c, Got(resp)), None);
  }

  // ---- A connection comes and goes -----------------------------------------------------------

  /** The new connection is the live one of its instance; the one it displaces is shut but keeps
      its reader and its table; every other connection and every row is as before. */
  lemma RegisterInFull(s: State, i: Instance, c: nat)
    requires Reachable(s) && OnConn(s, c)
    ensures var t, n := Apply(s, Register(i)), |s.mgr.conns|;
            && |t.mgr.conns| == n + 1 && t.mgr.conns[n] == Conn(i, 0, false, Reading, map[]) && Live(t.mgr, n)
            && (t.mgr.conns[c] == if Live(s.mgr, c) && s.mgr.conns[c].instance == i
                                  then s.mgr.conns[c].(doneCloses := 1, socketClosed := true) else s.mgr.conns[c])
            && t.mgr.status == s.mgr.status && t.reqs == s.reqs && t.due.online[i] == s.due.online[i] + 1
  {
    ReachedInv(s);
  }

  /** The clean-up of a live connection: out of the map, shut, and offline if there is a row. */
  lemma CleanupInFull(s: State, c: nat)
    requires Reachable(s) && Enabled(s, ReaderCleanup(c)) && Live(s.mgr, c)
    ensures var t, i := Apply(s, ReaderCleanup(c)), s.mgr.conns[c].instance;
            && t.mgr.conns == s.mgr.conns[c := s.mgr.conns[c].(reader := Exited, doneCloses := 1, socketClosed := true)]
            && t.mgr.edge == s.mgr.edge - {i} && t.reqs == s.reqs && t.due == s.due
            && t.mgr.status == if i in s.mgr.status then s.mgr.status[i := Offline] else s.mgr.status
  {
    ReachedInv(s);
  }

  // ---- The stored status -----------------------------------------------------------------------

  predicate IsOnline(m: Manager, i: Instance) { i in m.status && m.status[i] == Online }

  predicate IsOffline(m: Manager, i: Instance) { i in m.status && m.status[i] == Offline }

  /** Online in the database with nothing registered. */
  predicate StaleOnline(m: Manager, i: Instance) { i !in m.edge && IsOnline(m, i) }

  /** Registered, and offline in the database. */
  predicate HiddenLive(m: Manager, i: Instance) { i in m.edge && IsOffline(m, i) }

  /** Registered for an instance that has no row. */
  predicate Orphan(m: Manager, i: Instance) { i in m.edge && i !in m.status }

  /** Steps that touch neither the registered connections nor the rows. */
  predicate LeavesStatus(step: Step) {
    MovesRequest(step) || step.NewRequest? || step.Deliver? || step.ReadError? || step.PingAnswered?
  }

  lemma StatusUntouched(s: State, step: Step)
    requires Enabled(s, step) && LeavesStatus(step)
    ensures Apply(s, step).mgr.edge == s.mgr.edge && Apply(s, step).mgr.status == s.mgr.status
  {
  }

  /** An instance is written offline exactly by the end of its live connection, by the write
      of a delete that found none, or by a failed install; superseding and closing write
      nothing. */
  lemma OfflineOnlyBy(s: State, step: Step, i: Instance)
    requires Reachable(s) && Enabled(s, step) && !IsOffline(s.mgr, i)
    ensures IsOffline(Apply(s, step).mgr, i) <==>
            && i in s.mgr.status
            && (|| step == WriteOffline(i) || step == InstallEnds(i, true)
                || (i in s.mgr.edge && (step == Unregister(i) || step == ReaderCleanup(s.mgr.edge[i]))))
  {
    RowInFull(s, step, i);
    assert RowAfter(s.mgr, step, i, Apply(s, step).mgr.status);
  }

  /** Where "online means registered" breaks: an online write lands with nothing registered,
      or the manager closes over an online instance. */
  lemma StaleOnlineIff(s: State, step: Step, i: Instance)
    requires Reachable(s) && Enabled(s, step) && !StaleOnline(s.mgr, i)
    ensures StaleOnline(Apply(s, step).mgr, i) <==>
            || (step == MarkOnline(i) && i !in s.mgr.edge && i in s.mgr.status)
            || (step == CloseAll && i in s.mgr.edge && IsOnline(s.mgr, i))
  {
    ReachedInv(s);
    if LeavesStatus(step) { StatusUntouched(s, step); }
  }

  /** Where "registered means not offline" breaks: the write of a delete or of a failed
      install lands on a live connection, or the instance connects while still offline. */
  lemma HiddenLiveIff(s: State, step: Step, i: Instance)
    requires Reachable(s) && Enabled(s, step) && !HiddenLive(s.mgr, i)
    ensures HiddenLive(Apply(s, step).mgr, i) <==>
            || ((step == WriteOffline(i) || step == InstallEnds(i, true)) && i in s.mgr.edge && i in s.mgr.status)
            || (step == Register(i) && IsOffline(s.mgr, i))
  {
    ReachedInv(s);
    if LeavesStatus(step) { StatusUntouched(s, step); }
  }

  /** Where a connection stays registered without a row: the row goes while it is live, or it
      is registered after the row went. */
  lemma OrphanIff(s: State, step: Step, i: Instance)
    requires Reachable(s) && Enabled(s, step) && !Orphan(s.mgr, i)
    ensures Orphan(Apply(s, step).mgr, i) <==>
            || (step == DeleteInstance(i) && i in s.mgr.edge)
            || (step == Register(i) && i !in s.mgr.status)
  {
    ReachedInv(s);
    if LeavesStatus(step) { StatusUntouched(s, step); }
  }

  /** Writing offline: the end of a live connection, a delete that found none, a failed install. */
  predicate TurnsOffline(m: Manager, step: Step, i: Instance) {
    || step == WriteOffline(i) || step == InstallEnds(i, true)
    || (i in m.edge && (step == Unregister(i) || step == ReaderCleanup(m.edge[i])))
  }

  /** The row of an instance after any step. */
  ghost predicate RowAfter(m: Manager, step: Step, i: Instance, after: map<Instance, Status>) {
    && (i in after <==> step == CreateInstance(i) || (i in m.status && step != DeleteInstance(i)))
    && (i in after ==>
          after[i] == if step == CreateInstance(i) || step == StartInstall(i) then Enrolling
                      else if step == MarkOnline(i) then Online
                      else if TurnsOffline(m, step, i) then Offline
                      else m.status[i])
  }

  lemma RowInFull(s: State, step: Step, i: Instance)
    requires Reachable(s) && Enabled(s, step)
    ensures RowAfter(s.mgr, step, i, Apply(s, step).mgr.status)
  {
    ReachedInv(s);
    if LeavesStatus(step) {
      StatusUntouched(s, step);
      RowKept(s.mgr, step, i);
    } else if step.Unregister? || step.ReaderCleanup? {
      RowTornDown(s, step, i);
    } else {
      RowWritten(s, step, i);
    }
  }

  lemma RowKept(m: Manager, step: Step, i: Instance)
    requires LeavesStatus(step)
    ensures RowAfter(m, step, i, m.status)
  {
  }

  lemma RowTornDown(s: State, step: Step, i: Instance)
    requires MgrInv(s.mgr) && Enabled(s, step) && (step.Unregister? || step.ReaderCleanup?)
    ensures RowAfter(s.mgr, step, i, Apply(s, step).mgr.status)
  {
  }

  lemma RowWritten(s: State, step: Step, i: Instance)
    requires Enabled(s, step) && !LeavesStatus(step) && !step.Unregister? && !step.ReaderCleanup?
    ensures RowAfter(s.mgr, step, i, Apply(s, step).mgr.status)
  {
  }

  function OneIf(b: bool): nat { if b then 1 else 0 }

  /** Which steps make a later write due, and which one uses it up. */
  lemma DueInFull(s: State, step: Step, i: Instance)
    requires Enabled(s, step)
    ensures Apply(s, step).due.online[i] + OneIf(step == MarkOnline(i))
            == s.due.online[i] + OneIf(step == Register(i) || step == PingAnswered(i))
    ensures Apply(s, step).due.offline[i] + OneIf(step == WriteOffline(i))
            == s.due.offline[i] + OneIf(step == Unregister(i) && i !in s.mgr.edge)
    ensures Apply(s, step).due.deletes[i] + OneIf(step == DeleteInstance(i))
            == s.due.deletes[i] + OneIf((step == Unregister(i) && i in s.mgr.edge) || step == WriteOffline(i))
    ensures Apply(s, step).due.installs[i] + OneIf(step.InstallEnds? && step.instance == i)
            == s.due.installs[i] + OneIf(step == StartInstall(i))
  {
  }

  /** The instance i alone, with its row and one connection or none. */
  function One(i: Instance, conns: seq<Conn>, edge: map<Instance, nat>, status: Status, due: Writes): State {
    State(Manager(conns, edge, map[i := status]), [], due)
  }

  /** A delete looks up an instance that is not connected and has yet to write offline. The
      agent connects and is marked online. Then the write lands: live, and offline. */
  lemma LateOfflineHidesLive(i: Instance)
    ensures var s := One(i, [NewConn(i)], map[i := 0], Online, NO_WRITES.(offline := multiset{i}));
            && Reachable(s) && !HiddenLive(s.mgr, i)
            && Enabled(s, WriteOffline(i)) && HiddenLive(Apply(s, WriteOffline(i)).mgr, i)
  {
    var due := NO_WRITES.(offline := multiset{i});
    var s0 := Init(map[i := Offline]);
    var s1 := One(i, [], map[], Offline, due);
    var s2 := One(i, [NewConn(i)], map[i := 0], Offline, due.(online := multiset{i}));
    StartReached(map[i := Offline]);
    Follow(s0, Unregister(i), s1);
    Follow(s1, Register(i), s2);
    Follow(s2, MarkOnline(i), One(i, [NewConn(i)], map[i := 0], Online, due));
  }

  /** An agent connects and breaks off again before its handler has written online: the read
      loop writes offline first, and the late online write stays. */
  lemma OnlineWithoutConnection(i: Instance)
    ensures var s := One(i, [Shut(NewConn(i).(reader := Exited))], map[], Offline, NO_WRITES.(online := multiset{i}));
            && Reachable(s) && !StaleOnline(s.mgr, i)
            && Enabled(s, MarkOnline(i)) && StaleOnline(Apply(s, MarkOnline(i)).mgr, i)
  {
    var due := NO_WRITES.(online := multiset{i});
    var open := NewConn(i);
    var s0 := Init(map[i := Offline]);
    var s1 := One(i, [open], map[i := 0], Offline, due);
    var s2 := One(i, [open.(reader := Exiting)], map[i := 0], Offline, due);
    StartReached(map[i := Offline]);
    Follow(s0, Register(i), s1);
    Follow(s1, ReadError(0), s2);
    Follow(s2, ReaderCleanup(0), One(i, [Shut(open.(reader := Exited))], map[], Offline, due));
  }

  lemma StartReached(rows: map<Instance, Status>)
    ensures Reachable(Init(rows))
  {
    assert Reached([], Init(rows));
  }

  lemma Follow(s: State, step: Step, t: State)
    requires Reachable(s) && Enabled(s, step) && t == Apply(s, step)
    ensures Reachable(t)
  {
    var steps :| Reached(steps, s);
    var more := steps + [step];
    assert more[..|steps|] == steps;
    assert Reached(more, t);
  }
}
