/** The server's `ConnectionManager` object and the accept handler that feeds it. Each
    method is one critical section, one atomic operation or one callback of the source;
    `model` is the state of the protocol that all threads drive together. */
module Manager {
  import opened Common
  import opened Connection
  import C = ConnectionProtocol
  import M = ManagerProtocol

  class ConnectionManager {
    var conns: map<u64, Connection>
    var nextId: u64
    ghost var objects: seq<Connection>  // every connection that got a number, in that order
    ghost var model: M.State

    /** The fields are those of the protocol state. */
    ghost predicate Agrees()
      reads this
    {
      && nextId == model.nextId && |objects| == |model.conns|
      && (forall i, j :: 0 <= i < j < |objects| ==> objects[i] != objects[j])
      && conns.Keys == model.table.Keys
      && (forall k :: k in conns ==> model.table[k] < |objects| && conns[k] == objects[model.table[k]])
      && M.Inv(model)
    }

    /** Object `i` is in the state that the protocol has for connection `i`. */
    ghost predicate Tied(i: nat)
      requires i < |objects| == |model.conns|
      reads this, objects[i]
    {
      objects[i].Valid() && objects[i].model == model.conns[i].state && objects[i].connId == model.conns[i].id
    }

    ghost predicate Valid()
      reads this, objects
    {
      Agrees() && forall i :: 0 <= i < |objects| ==> Tied(i)
    }

    constructor ()
      ensures Valid() && model == M.Init() && conns == map[] && objects == []
    {
      M.InitInv();
      conns, nextId, objects, model := map[], 1, [], M.Init();
    }

    /** `add` up to its lock: the next number, given to the connection. */
    method NumberConn(conn: Connection) returns (id: u64)
      requires Valid() && conn.Valid() && conn !in objects && conn.model == C.Init()
      modifies this, conn`connId
      ensures Valid() && model == M.Apply(old(model), M.Number)
      ensures objects == old(objects) + [conn] && conns == old(conns)
      ensures id == old(nextId) == conn.connId && conn.model == old(conn.model)
    {
      hide M.Inv, M.Apply, Connection.Valid;
      M.Step(model, M.Number);
      NumberEffect(model);
      id := nextId;
      nextId := (nextId + 1) % U64_SPAN;
      conn.SetConnId(id);
      objects, model := objects + [conn], M.Apply(model, M.Number);
      assert forall i :: 0 <= i < |old(objects)| ==> old(Tied(i)) && objects[i] == old(objects)[i];
    }

    /** `add`: the critical section. */
    method InsertConn(conn: Connection, id: u64, ghost i: nat)
      requires Valid() && i < |objects| && objects[i] == conn && conn.connId == id
      requires M.Enabled(model, M.Insert(i))
      modifies this`conns, this`model
      ensures Valid() && model == M.Apply(old(model), M.Insert(i)) && conns == old(conns)[id := conn]
    {
      hide M.Inv, M.Apply, Connection.Valid;
      M.Step(model, M.Insert(i));
      QuietEffect(model, M.Insert(i));
      assert Tied(i);
      conns := conns[id := conn];
      model := M.Apply(model, M.Insert(i));
      forall j | 0 <= j < |objects| ensures Tied(j) {
        assert old(Tied(j));
      }
    }

    /** `start_read`, as far as the manager is concerned. */
    ghost method StartRead(i: nat)
      requires Valid() && M.Enabled(model, M.StartRead(i))
      modifies this`model
      ensures Valid() && model == M.Apply(old(model), M.StartRead(i))
    {
      hide M.Inv, M.Apply, Connection.Valid;
      M.Step(model, M.StartRead(i));
      QuietEffect(model, M.StartRead(i));
      model := M.Apply(model, M.StartRead(i));
      forall j | 0 <= j < |objects| ensures Tied(j) {
        assert old(Tied(j));
      }
    }

    /** The accept handler: a new connection is added and starts to read, and the next
        accept is armed while the server runs; a failed accept changes nothing. */
    method OnAccept(failed: bool, conn: Connection, running: bool) returns (again: bool)
      requires Valid() && conn.Valid() && conn !in objects && conn.model == C.Init()
      modifies this, conn`connId
      ensures Valid() && again == running
      ensures failed ==> model == old(model) && conns == old(conns)
      ensures !failed ==> conns == old(conns)[old(nextId) := conn] && conn.connId == old(nextId)
      ensures !failed ==>
                var acts := [M.Number, M.Insert(|old(objects)|), M.StartRead(|old(objects)|)];
                M.RunOk(old(model), acts) && model == M.Exec(old(model), acts)
    {
      hide M.Apply, M.Enabled, M.RunOk, M.Exec, M.Inv, Connection.Valid, Valid, Tied, Agrees;
      again := running;
      if !failed {
        ghost var i, before := |objects|, model;
        AsManyObjects(this);
        NewIsNumbered(before, i);
        ThreeSteps(before, M.Number, M.Insert(i), M.StartRead(i));
        var id := NumberConn(conn);
        InsertConn(conn, id, i);
        StartRead(i);
      }
    }

    /** Connection `i` has done something by itself; the protocol follows. */
    ghost method Follow(i: nat, action: C.Action)
      requires Agrees() && i < |objects| && objects[i].Valid() && M.Enabled(model, M.Traffic(i, action))
      requires objects[i].model == C.Apply(model.conns[i].state, action) && objects[i].connId == model.conns[i].id
      requires forall j :: 0 <= j < |objects| && j != i ==> Tied(j)
      modifies this`model
      ensures Valid() && model == M.Apply(old(model), M.Traffic(i, action))
    {
      hide M.Inv, M.Apply, Connection.Valid, C.Apply, C.Enabled;
      M.Step(model, M.Traffic(i, action));
      MoveEffect(model, M.Traffic(i, action), i);
      model := M.Apply(model, M.Traffic(i, action));
      forall j | 0 <= j < |objects| ensures Tied(j) {
        assert j == i || old(Tied(j));
      }
    }

    /** The close callback: `on_close_` is called and removes the connection's entry. */
    method OnClose(conn: Connection, ghost i: nat)
      requires Valid() && i < |objects| && objects[i] == conn && M.Enabled(model, M.Callback(i))
      modifies this`conns, this`model, conn`model
      ensures Valid() && model == M.Apply(old(model), M.Callback(i))
      ensures conns == old(conns) - {conn.connId}
    {
      hide M.Inv, M.Apply, Connection.Valid, C.Apply, C.Enabled;
      M.Step(model, M.Callback(i));
      MoveEffect(model, M.Callback(i), i);
      assert Tied(i);
      conn.FireOnClose();
      conns := conns - {conn.connId};
      model := M.Apply(model, M.Callback(i));
      forall j | 0 <= j < |objects| ensures Tied(j) {
        assert j == i || old(Tied(j));
      }
    }

    /** A read or write of connection `i` fails: the first failure to take the
        compare-and-swap calls back, and the connection leaves the table; a later one
        changes neither the table nor anybody else's connection. */
    method OnFailure(conn: Connection, ghost i: nat, ghost a: C.Action) returns (won: bool, ghost acts: seq<M.Action>)
      requires Valid() && i < |objects| && objects[i] == conn
      requires M.Enabled(model, M.Traffic(i, a)) && (a.ReadFailed? || a.WriteFailed?)
      modifies this`conns, this`model, conn
      ensures Valid() && won == !old(conn.closed) && conn.closed
      ensures conns == if won then old(conns) - {conn.connId} else old(conns)
      ensures acts == if won then [M.Traffic(i, a), M.Callback(i)] else [M.Traffic(i, a)]
      ensures M.RunOk(old(model), acts) && model == M.Exec(old(model), acts)
    {
      ghost var before := model;
      TrafficEnables(model, i, a);
      assert Tied(i);
      hide M.Inv, Connection.Valid, C.Apply, C.Enabled;
      won := conn.LoseConnection(a);
      forall j | 0 <= j < |objects| && j != i ensures Tied(j) {
        assert old(Tied(j));
      }
      Follow(i, a);
      hide M.Apply, M.RunOk, M.Exec;
      acts := [M.Traffic(i, a)];
      OneStep(before, M.Traffic(i, a));
      if won {
        assert Tied(i);
        OwesCallback(model, i);
        acts := [M.Traffic(i, a), M.Callback(i)];
        TwoSteps(before, M.Traffic(i, a), M.Callback(i));
        hide M.Enabled;
        OnClose(conn, i);
      }
    }

    /** `close_all` under the lock: everything in the table is taken out of it. */
    method TakeSnapshot() returns (snapshot: seq<Connection>, ghost order: seq<u64>)
      requires Valid()
      modifies this`conns, this`model
      ensures Valid() && conns == map[] && M.Enabled(old(model), M.Snapshot(order))
      ensures model == M.Apply(old(model), M.Snapshot(order))
      ensures Lists(order, old(conns).Keys) && |snapshot| == |order|
      ensures forall j :: 0 <= j < |order| ==> snapshot[j] == old(conns)[order[j]]
    {
      hide M.Inv, M.Apply, Connection.Valid;
      snapshot, order := ListEntries(conns);
      M.Step(model, M.Snapshot(order));
      QuietEffect(model, M.Snapshot(order));
      conns := map[];
      model := M.Apply(model, M.Snapshot(order));
      forall j | 0 <= j < |objects| ensures Tied(j) {
        assert old(Tied(j));
      }
    }

    /** One turn of `close_all`'s loop: `close()` on the `n`-th connection left over. */
    method CloseNext(conn: Connection, socketOpen: bool, ghost n: nat) returns (closesSocket: bool)
      requires Valid() && M.Enabled(model, M.CloseOne(n)) && objects[model.closing[n]] == conn
      modifies this`model, conn`model, conn`closed
      ensures Valid() && model == AfterCloseOne(old(model), n, socketOpen)
      ensures conn.closed && conn.model == AfterClose(old(conn.model), socketOpen)
      ensures closesSocket == (!old(conn.closed) && socketOpen) && old(conn.closed) == old(conn.model.closed)
      ensures conn.model.socketCloses == old(conn.model.socketCloses) + (if closesSocket then 1 else 0)
      ensures model.closing == Without(old(model.closing), n)
    {
      hide M.Inv, M.Apply, Connection.Valid, C.Apply, AfterClose, AfterCloseOne;
      CloseOneSteps(model, n, socketOpen);
      ghost var i := model.closing[n];
      assert Tied(i);
      closesSocket := conn.Close(socketOpen);
      model := AfterCloseOne(model, n, socketOpen);
      forall j | 0 <= j < |objects| ensures Tied(j) {
        assert j == i || old(Tied(j));
      }
    }

    /** The loop of `close_all`, over the connections it took out of the table. */
    method CloseEach(
      snapshot: seq<Connection>, socketOpen: Connection -> bool, ghost kept: seq<nat>, ghost places: seq<nat>)
      returns (ghost acts: seq<M.Action>)
      requires Valid() && model.closing == kept + places && |snapshot| == |places|
      requires forall t :: 0 <= t < |snapshot| ==> places[t] < |objects| && snapshot[t] == objects[places[t]]
      requires forall t, u :: 0 <= t < u < |snapshot| ==> snapshot[t] != snapshot[u]
      modifies this`model, snapshot
      ensures Valid() && model.closing == kept
      ensures M.RunOk(old(model), acts) && model == M.Exec(old(model), acts)
      ensures forall t :: 0 <= t < |snapshot| ==>
                ClosedNow(snapshot[t], old(snapshot[t].model), socketOpen(snapshot[t]))
    {
      hide M.Inv, M.Apply, M.Enabled, C.Apply, AfterClose, AfterCloseOne, Valid;
      ghost var first := model;
      acts := [];
      for j := 0 to |snapshot|
        invariant Valid() && model.closing == kept + places[j..]
        invariant M.RunOk(first, acts) && model == M.Exec(first, acts)
        invariant forall t :: j <= t < |snapshot| ==> snapshot[t].model == old(snapshot[t].model)
        invariant forall t :: 0 <= t < j ==> ClosedNow(snapshot[t], old(snapshot[t].model), socketOpen(snapshot[t]))
      {
        hide M.RunOk, M.Exec;
        AsManyObjects(this);
        CloseEnabled(model, |kept|);
        acts := CloseOneRun(first, acts, |kept|, socketOpen(snapshot[j]));
        var closesSocket := CloseNext(snapshot[j], socketOpen(snapshot[j]), |kept|);
        assert Without(kept + places[j..], |kept|) == kept + places[j + 1..];
      }
    }

    /** `close_all`, left alone: the table is emptied, and every connection that was in it
        is closed by one `close()` of its own, whatever the state of its socket. */
    method CloseAll(socketOpen: Connection -> bool) returns (ghost acts: seq<M.Action>)
      requires Valid()
      modifies this`conns, this`model, conns.Values
      ensures Valid() && conns == map[] && model.closing == old(model.closing)
      ensures M.RunOk(old(model), acts) && model == M.Exec(old(model), acts)
      ensures forall k :: k in old(conns) ==>
                ClosedNow(old(conns)[k], old(conns[k].model), socketOpen(old(conns)[k]))
    {
      hide M.Inv, C.Apply, Connection.Valid, ClosedNow, AfterCloseOne;
      ghost var first := model;
      var snapshot, order := TakeSnapshot();
      ghost var places := M.Entries(first.table, order);
      PlacesDistinct(first, order);
      ghost var rest := CloseEach(snapshot, socketOpen, first.closing, places);
      acts := [M.Snapshot(order)] + rest;
      hide M.Enabled, M.Apply, Valid;
      RunCons(first, M.Snapshot(order), rest);
      assert forall k :: k in old(conns) ==> k in order;
    }
  }

  /** What `close()` leaves behind. */
  ghost predicate ClosedNow(c: Connection, before: C.State, socketOpen: bool)
    reads c
  {
    && c.closed && c.model == AfterClose(before, socketOpen)
    && c.model.socketCloses == before.socketCloses + (if !before.closed && socketOpen then 1 else 0)
  }

  /** The loop that copies the table, in whatever order the map is iterated. */
  method ListEntries(conns: map<u64, Connection>) returns (snapshot: seq<Connection>, ghost order: seq<u64>)
    ensures Lists(order, conns.Keys) && |snapshot| == |order|
    ensures forall j :: 0 <= j < |order| ==> snapshot[j] == conns[order[j]]
  {
    var left := conns.Keys;
    snapshot, order := [], [];
    while left != {}
      invariant left <= conns.Keys && |snapshot| == |order| && NoDup(order)
      invariant forall k :: k in order <==> k in conns && k !in left
      invariant forall j :: 0 <= j < |order| ==> order[j] in conns && snapshot[j] == conns[order[j]]
      decreases left
    {
      var id :| id in left;
      NoDupSnoc(order, id);
      snapshot, order := snapshot + [conns[id]], order + [id];
      left := left - {id};
    }
  }

  /** `close()` on the `n`-th left over; if it is the first to close, the socket follows. */
  ghost function AfterCloseOne(s: M.State, n: nat, socketOpen: bool): M.State
    requires M.Enabled(s, M.CloseOne(n))
  {
    var i := s.closing[n];
    var s' := M.Apply(s, M.CloseOne(n));
    if s.conns[i].state.closed then s' else M.Apply(s', M.Traffic(i, C.CloseSocket(socketOpen)))
  }

  lemma CloseOneSteps(s: M.State, n: nat, socketOpen: bool)
    requires M.Inv(s) && M.Enabled(s, M.CloseOne(n))
    ensures var i, s' := s.closing[n], AfterCloseOne(s, n, socketOpen);
            && M.Inv(s') && s'.closing == Without(s.closing, n)
            && s'.nextId == s.nextId && s'.table == s.table && |s'.conns| == |s.conns|
            && (forall j :: 0 <= j < |s.conns| && j != i ==> s'.conns[j] == s.conns[j])
            && s'.conns[i].id == s.conns[i].id
            && s'.conns[i].state == AfterClose(s.conns[i].state, socketOpen)
  {
    hide M.Inv;
    var i := s.closing[n];
    var s' := M.Apply(s, M.CloseOne(n));
    M.Step(s, M.CloseOne(n));
    if !s.conns[i].state.closed {
      M.Step(s', M.Traffic(i, C.CloseSocket(socketOpen)));
    }
  }

  lemma AsManyObjects(m: ConnectionManager)
    requires m.Valid()
    ensures |m.objects| == |m.model.conns| && M.Inv(m.model)
  {
  }

  lemma CloseEnabled(s: M.State, n: nat)
    requires n < |s.closing| && s.closing[n] < |s.conns|
    ensures M.Enabled(s, M.CloseOne(n))
  {
  }

  /** A snapshot names every connection once. */
  lemma PlacesDistinct(s: M.State, order: seq<u64>)
    requires M.Inv(s) && Lists(order, s.table.Keys)
    ensures NoDup(M.Entries(s.table, order))
    ensures forall j :: 0 <= j < |order| ==> order[j] in s.table && s.table[order[j]] < |s.conns|
  {
    hide M.CareInv, C.Inv, M.IdOf;
    assert forall j :: 0 <= j < |order| ==> order[j] in order;
  }

  lemma RunCons(s: M.State, a: M.Action, rest: seq<M.Action>)
    requires M.Enabled(s, a) && M.RunOk(M.Apply(s, a), rest)
    ensures M.RunOk(s, [a] + rest) && M.Exec(s, [a] + rest) == M.Exec(M.Apply(s, a), rest)
  {
    hide M.Enabled, M.Apply;
    assert ([a] + rest)[1..] == rest;
  }

  /** A run that goes on with one more `close()`. */
  lemma CloseOneRun(s: M.State, acts: seq<M.Action>, n: nat, socketOpen: bool) returns (more: seq<M.Action>)
    requires M.RunOk(s, acts) && M.Enabled(M.Exec(s, acts), M.CloseOne(n))
    ensures M.RunOk(s, more) && M.Exec(s, more) == AfterCloseOne(M.Exec(s, acts), n, socketOpen)
  {
    hide M.RunOk, M.Exec;
    var e := M.Exec(s, acts);
    M.RunSnoc(s, acts, M.CloseOne(n));
    more := acts + [M.CloseOne(n)];
    if !e.conns[e.closing[n]].state.closed {
      var last := M.Traffic(e.closing[n], C.CloseSocket(socketOpen));
      M.RunSnoc(s, more, last);
      more := more + [last];
    }
  }

  lemma NumberEffect(s: M.State)
    ensures var s' := M.Apply(s, M.Number);
            && s'.nextId == (s.nextId + 1) % U64_SPAN && s'.table == s.table
            && |s'.conns| == |s.conns| + 1 && s'.conns[..|s.conns|] == s.conns
            && s'.conns[|s.conns|].state == C.Init() && s'.conns[|s.conns|].id == s.nextId
  {
  }

  /** The steps that move no connection. */
  lemma QuietEffect(s: M.State, a: M.Action)
    requires M.Enabled(s, a) && (a.Insert? || a.StartRead? || a.Snapshot?)
    ensures var s' := M.Apply(s, a);
            && s'.nextId == s.nextId && |s'.conns| == |s.conns|
            && (forall j :: 0 <= j < |s.conns| ==>
                  s'.conns[j].state == s.conns[j].state && s'.conns[j].id == s.conns[j].id)
            && (a.Insert? ==> s'.table == s.table[s.conns[a.i].id := a.i])
            && (a.StartRead? ==> s'.table == s.table)
            && (a.Snapshot? ==> s'.table == map[])
  {
  }

  /** The steps that move one connection. */
  lemma MoveEffect(s: M.State, a: M.Action, i: nat)
    requires M.Enabled(s, a) && (a == M.Callback(i) || (a.Traffic? && a.i == i))
    ensures var s' := M.Apply(s, a);
            && s'.nextId == s.nextId && |s'.conns| == |s.conns|
            && (forall j :: 0 <= j < |s.conns| && j != i ==> s'.conns[j] == s.conns[j])
            && s'.conns[i].id == s.conns[i].id
            && s'.conns[i].state == C.Apply(s.conns[i].state, if a.Callback? then C.FireOnClose else a.action)
            && s'.table == (if a.Callback? then s.table - {s.conns[i].id} else s.table)
  {
    hide C.Apply;
  }

  lemma TrafficEnables(s: M.State, i: nat, a: C.Action)
    requires M.Enabled(s, M.Traffic(i, a))
    ensures i < |s.conns| && C.Enabled(s.conns[i].state, a)
  {
  }

  lemma OwesCallback(s: M.State, i: nat)
    requires i < |s.conns| && s.conns[i].state.callbacks == 1
    ensures M.Enabled(s, M.Callback(i))
  {
  }

  lemma NewIsNumbered(s: M.State, i: nat)
    requires i == |s.conns|
    ensures var s' := M.Apply(s, M.Number);
            && M.Enabled(s, M.Number) && M.Enabled(s', M.Insert(i))
            && M.Enabled(M.Apply(s', M.Insert(i)), M.StartRead(i))
  {
  }

  lemma OneStep(s: M.State, a: M.Action)
    requires M.Enabled(s, a)
    ensures M.RunOk(s, [a]) && M.Exec(s, [a]) == M.Apply(s, a)
  {
    hide M.Enabled, M.Apply;
    assert [a][1..] == [];
  }

  lemma TwoSteps(s: M.State, a: M.Action, b: M.Action)
    requires M.Enabled(s, a) && M.Enabled(M.Apply(s, a), b)
    ensures M.RunOk(s, [a, b]) && M.Exec(s, [a, b]) == M.Apply(M.Apply(s, a), b)
  {
    hide M.Enabled, M.Apply, M.RunOk, M.Exec;
    OneStep(M.Apply(s, a), b);
    RunCons(s, a, [b]);
    assert [a] + [b] == [a, b];
  }

  lemma ThreeSteps(s: M.State, a: M.Action, b: M.Action, c: M.Action)
    requires M.Enabled(s, a) && M.Enabled(M.Apply(s, a), b) && M.Enabled(M.Apply(M.Apply(s, a), b), c)
    ensures M.RunOk(s, [a, b, c]) && M.Exec(s, [a, b, c]) == M.Apply(M.Apply(M.Apply(s, a), b), c)
  {
    hide M.Enabled, M.Apply, M.RunOk, M.Exec;
    TwoSteps(M.Apply(s, a), b, c);
    RunCons(s, a, [b, c]);
    assert [a] + [b, c] == [a, b, c];
  }
}
