/** The manager object of internal/agent/manager.go, with its connections as heap objects.
    Each method is proved to be the step of the same name in EdgeConnections. */
module EdgeManager {
  import E = EdgeConnections

  class EdgeConnection {
    const instance: E.Instance
    ghost const index: nat
    var doneCloses: nat
    var socketClosed: bool
    var reader: E.Reader
    var pending: map<nat, nat>

    constructor (instance: E.Instance, ghost index: nat)
      ensures this.instance == instance && this.index == index && Value() == E.NewConn(instance)
    {
      this.instance, this.index := instance, index;
      doneCloses, socketClosed, reader, pending := 0, false, E.Reading, map[];
    }

    ghost function Value(): E.Conn
      reads this
    {
      E.Conn(instance, doneCloses, socketClosed, reader, pending)
    }

    /** The select around close(done), then the socket. */
    method Shut()
      modifies this`doneCloses, this`socketClosed
      ensures Value() == E.Shut(old(Value()))
    {
      if doneCloses == 0 { doneCloses := 1; }
      socketClosed := true;
    }
  }

  class Manager {
    ghost var all: seq<EdgeConnection>
    var edge: map<E.Instance, EdgeConnection>
    var status: map<E.Instance, E.Status>

    constructor (rows: map<E.Instance, E.Status>)
      ensures Valid() && View() == E.Init(rows).mgr && all == []
    {
      all, edge, status := [], map[], rows;
    }

    ghost predicate Known(ec: EdgeConnection)
      reads this
    {
      ec.index < |all| && all[ec.index] == ec
    }

    ghost predicate Valid()
      reads this
    {
      && (forall k :: 0 <= k < |all| ==> all[k].index == k)
      && (forall i :: i in edge ==> Known(edge[i]) && edge[i].instance == i)
    }

    ghost function View(): E.Manager
      reads this, all
    {
      E.Manager(seq(|all|, k requires 0 <= k < |all| reads this, all => all[k].Value()),
                map i | i in edge :: edge[i].index, status)
    }

    /** A fresh connection becomes the registered one; whatever was there is not touched. */
    method Store(instance: E.Instance) returns (ec: EdgeConnection)
      requires Valid()
      modifies this
      ensures Valid() && fresh(ec) && all == old(all) + [ec]
      ensures View() == old(View()).(conns := old(View()).conns + [E.NewConn(instance)],
                                     edge := old(View()).edge[instance := |old(all)|])
    {
      ec := new EdgeConnection(instance, |all|);
      all := all + [ec];
      edge := edge[instance := ec];
    }

    method RegisterEdgeConnection(instance: E.Instance) returns (ec: EdgeConnection)
      requires Valid()
      modifies this, if instance in edge then {edge[instance]} else {}
      ensures Valid() && fresh(ec) && all == old(all) + [ec]
      ensures View() == E.RegisterSpec(old(View()), instance)
    {
      if instance in edge {
        edge[instance].Shut();
        assert View().conns == E.RegisterSpec(old(View()), instance).conns[..|all|];
      }
      ec := Store(instance);
    }

    /** Shuts the registered connection of an instance and takes it out of the map. */
    method Retire(id: E.Instance)
      requires Valid() && id in edge
      modifies this`edge, edge[id]
      ensures Valid() && edge == old(edge) - {id}
      ensures View() == Without(old(View()), id)
    {
      edge[id].Shut();
      edge := edge - {id};
    }

    /** The database call: no write when the instance has no row. */
    method UpdateInstanceStatus(instance: E.Instance, newStatus: E.Status)
      requires Valid()
      modifies this`status
      ensures Valid() && View() == E.SetStatus(old(View()), instance, newStatus)
    {
      if instance in status {
        status := status[instance := newStatus];
      }
    }

    method TeardownEdgeConnectionLocked(ec: EdgeConnection)
      requires Valid() && Known(ec)
      modifies this, ec
      ensures Valid() && all == old(all)
      ensures View() == E.TeardownSpec(old(View()), ec.index)
    {
      if ec.instance !in edge || edge[ec.instance] != ec {
        return;
      }
      Retire(ec.instance);
      UpdateInstanceStatus(ec.instance, E.Offline);
    }

    /** late tells the caller that the status write is still to come, without the mutex. */
    method UnregisterEdgeConnection(instance: E.Instance) returns (late: bool)
      requires Valid()
      modifies this, if instance in edge then {edge[instance]} else {}
      ensures Valid() && all == old(all)
      ensures late == (instance !in old(edge))
      ensures View() == if late then old(View()) else E.TeardownSpec(old(View()), old(edge[instance].index))
    {
      late := instance !in edge;
      if !late {
        TeardownEdgeConnectionLocked(edge[instance]);
      }
    }

    method Close()
      requires Valid()
      modifies this, edge.Values
      ensures Valid() && all == old(all)
      ensures View() == E.CloseSpec(old(View()))
    {
      while edge != map[]
        invariant Valid() && all == old(all)
        invariant forall i :: i in edge ==> i in old(edge) && edge[i] == old(edge)[i]
        invariant Closing(old(View()), View())
        decreases |edge|
      {
        CloseNext(old(View()));
      }
      ClosingEnds(old(View()), View());
    }

    /** One turn of the range over the map; was is the manager when Close began. */
    method CloseNext(ghost was: E.Manager)
      requires Valid() && edge != map[] && Closing(was, View())
      modifies this`edge, edge.Values
      ensures Valid() && Closing(was, View()) && |edge| < |old(edge)|
      ensures forall i :: i in edge ==> i in old(edge) && edge[i] == old(edge)[i]
    {
      var id :| id in edge;
      ClosingOne(was, View(), id);
      Retire(id);
    }
  }

  ghost function Without(m: E.Manager, id: E.Instance): E.Manager
    requires id in m.edge && m.edge[id] < |m.conns|
  {
    m.(conns := m.conns[m.edge[id] := E.Shut(m.conns[m.edge[id]])], edge := m.edge - {id})
  }

  /** Part of the way through Close: the connections already taken from the map are shut. */
  ghost predicate Closing(was: E.Manager, m: E.Manager) {
    && |m.conns| == |was.conns| && m.status == was.status
    && (forall i :: i in m.edge ==> i in was.edge && m.edge[i] == was.edge[i])
    && (forall i :: i in was.edge ==> was.edge[i] < |was.conns| && was.conns[was.edge[i]].instance == i)
    && (forall k :: 0 <= k < |was.conns| ==>
          m.conns[k] == if E.Live(was, k) && was.conns[k].instance !in m.edge then E.Shut(was.conns[k]) else was.conns[k])
  }

  lemma ClosingEnds(was: E.Manager, m: E.Manager)
    requires Closing(was, m) && m.edge == map[]
    ensures m == E.CloseSpec(was)
  {
    assert m.conns == E.CloseSpec(was).conns;
  }

  lemma ClosingOne(was: E.Manager, m: E.Manager, id: E.Instance)
    requires Closing(was, m) && id in m.edge
    ensures Closing(was, Without(m, id))
  {
    var n, c := Without(m, id), m.edge[id];
    forall k | 0 <= k < |was.conns|
      ensures n.conns[k] == if E.Live(was, k) && was.conns[k].instance !in n.edge then E.Shut(was.conns[k]) else was.conns[k]
    {
      assert k == c <==> E.Live(was, k) && was.conns[k].instance == id;
    }
  }
}
