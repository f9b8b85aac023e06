/** Accepting, managing and closing connections as a transition system: the accept
    handler, the removing close callback, and any number of `close_all`s.

    A connection object is known by its number in the order of `next_id_++`. */
module ManagerProtocol {
  import opened Common
  import C = ConnectionProtocol

  /** How far the accept handler has got with a connection. */
  datatype Life = Numbered | Inserted | Started

  datatype Conn = Conn(state: C.State, id: u64, life: Life)

  datatype State = State(
    nextId: u64,              // next_id_
    table: map<u64, nat>,     // conns_
    conns: seq<Conn>,
    closing: seq<nat>)        // in the snapshot of a `close_all`, not yet closed

  datatype Action =
    | Number                             // add: next_id_++, set_conn_id
    | Insert(i: nat)                     // add: the critical section
    | StartRead(i: nat)
    | Traffic(i: nat, action: C.Action)  // whatever the connection does by itself
    | Callback(i: nat)                   // on_close_, which removes the id
    | Snapshot(order: seq<u64>)          // close_all: the critical section, in the map's order
    | CloseOne(n: nat)                   // close_all: conn->close() on the n-th left over

  function Init(): State { State(1, map[], [], []) }

  ghost predicate Enabled(s: State, a: Action)
  {
    match a
    case Number => true
    case Insert(i) => i < |s.conns| && s.conns[i].life.Numbered?
    case StartRead(i) => i < |s.conns| && s.conns[i].life.Inserted?
    case Traffic(i, action) =>
      && i < |s.conns| && C.Enabled(s.conns[i].state, action)
      && !action.Close? && !action.FireOnClose?
      && (s.conns[i].life.Started? || action.CloseSocket?)
    case Callback(i) => i < |s.conns| && C.Enabled(s.conns[i].state, C.FireOnClose)
    case Snapshot(order) => Lists(order, s.table.Keys)
    case CloseOne(n) => n < |s.closing| && s.closing[n] < |s.conns|
  }

  function Run(s: State, i: nat, action: C.Action): State
    requires i < |s.conns| && C.Enabled(s.conns[i].state, action)
  {
    s.(conns := s.conns[i := s.conns[i].(state := C.Apply(s.conns[i].state, action))])
  }

  ghost function Entries(table: map<u64, nat>, order: seq<u64>): (r: seq<nat>)
    requires Lists(order, table.Keys)
    ensures |r| == |order|
  {
    seq(|order|, i requires 0 <= i < |order| => table[order[i]])
  }

  ghost function Apply(s: State, a: Action): State
    requires Enabled(s, a)
  {
    match a
    case Number =>
      s.(nextId := (s.nextId + 1) % U64_SPAN, conns := s.conns + [Conn(C.Init(), s.nextId, Numbered)])
    case Insert(i) =>
      s.(table := s.table[s.conns[i].id := i], conns := s.conns[i := s.conns[i].(life := Inserted)])
    case StartRead(i) =>
      s.(conns := s.conns[i := s.conns[i].(life := Started)])
    case Traffic(i, action) => Run(s, i, action)
    case Callback(i) => Run(s, i, C.FireOnClose).(table := s.table - {s.conns[i].id})
    case Snapshot(order) => s.(table := map[], closing := s.closing + Entries(s.table, order))
    case CloseOne(n) => Run(s, s.closing[n], C.Close).(closing := Without(s.closing, n))
  }

  // -------------------------------------------------------------- invariants

  /** The id of connection `i`: the counter starts at one and wraps. */
  function IdOf(i: nat): u64 { (i + 1) % U64_SPAN }

  /** Below 2^64 connections no id is used twice. */
  lemma IdOfInjective(i: nat, j: nat)
    requires i < j < i + U64_SPAN
    ensures IdOf(i) != IdOf(j)
  {
    var q, r := (i + 1) / U64_SPAN, (j + 1) / U64_SPAN;
    assert i + 1 == q * U64_SPAN + IdOf(i) && j + 1 == r * U64_SPAN + IdOf(j);
  }

  lemma IdOfNext(i: nat)
    ensures IdOf(i + 1) == (IdOf(i) + 1) % U64_SPAN
  {
  }

  predicate Managed(s: State, i: nat)
  {
    i < |s.conns| && s.conns[i].id in s.table && s.table[s.conns[i].id] == i
  }

  ghost predicate IdInv(s: State)
  {
    && s.nextId == IdOf(|s.conns|)
    && (forall i :: 0 <= i < |s.conns| ==> s.conns[i].id == IdOf(i))
    && (forall k :: k in s.table ==> s.table[k] < |s.conns| && s.conns[s.table[k]].id == k)
    && (forall i :: 0 <= i < |s.conns| ==> C.Inv(s.conns[i].state))
  }

  /** A connection whose insertion is done is managed, or waits in a snapshot to be
      closed, or is closed; and one that is managed and closed is about to be
      removed by its callback. */
  ghost predicate CareInv(s: State)
  {
    && (forall i: nat {:trigger Managed(s, i)} :: Managed(s, i) ==> !s.conns[i].life.Numbered? && i !in s.closing)
    && (forall i: nat {:trigger Managed(s, i)} ::
          Managed(s, i) && s.conns[i].state.closed ==> s.conns[i].state.callbacks == 1)
    && (forall i: nat :: i in s.closing ==> i < |s.conns| && !s.conns[i].life.Numbered?)
    && (forall i :: 0 <= i < |s.conns| && s.conns[i].life.Numbered? ==> !s.conns[i].state.closed)
    && (|s.conns| <= U64_SPAN ==>
          forall i: nat {:trigger Managed(s, i)} ::
            i < |s.conns| && !s.conns[i].life.Numbered? && !s.conns[i].state.closed ==>
              Managed(s, i) || i in s.closing)
  }

  lemma CareNumber(s: State)
    requires IdInv(s) && CareInv(s)
    ensures IdInv(Apply(s, Number)) && CareInv(Apply(s, Number))
  {
    hide IdOf, C.Inv;
    var s' := Apply(s, Number);
    IdOfNext(|s.conns|);
    C.InitInv();
    forall i: nat ensures Managed(s', i) <==> Managed(s, i) {
    }
  }

  lemma CareInsert(s: State, i: nat)
    requires IdInv(s) && CareInv(s) && Enabled(s, Insert(i))
    ensures IdInv(Apply(s, Insert(i))) && CareInv(Apply(s, Insert(i)))
  {
    hide IdOf, C.Inv;
    var s' := Apply(s, Insert(i));
    forall j: nat ensures Managed(s', j) <==> j == i || (Managed(s, j) && s.conns[j].id != s.conns[i].id) {
    }
    if |s.conns| <= U64_SPAN {
      forall j: nat | j < |s.conns| && j != i ensures s.conns[j].id != s.conns[i].id {
        if j < i { IdOfInjective(j, i); } else { IdOfInjective(i, j); }
      }
    }
  }

  /** A step of one connection that leaves the table and the snapshots alone. */
  lemma CareRun(s: State, s': State, i: nat)
    requires IdInv(s) && CareInv(s)
    requires i < |s.conns| && |s'.conns| == |s.conns|
    requires s'.table == s.table && s'.closing == s.closing && s'.nextId == s.nextId
    requires forall j :: 0 <= j < |s.conns| && j != i ==> s'.conns[j] == s.conns[j]
    requires s'.conns[i].id == s.conns[i].id && C.Inv(s'.conns[i].state)
    requires s'.conns[i].life.Numbered? <==> s.conns[i].life.Numbered?
    requires s.conns[i].state.closed ==>
               s'.conns[i].state.closed && s'.conns[i].state.callbacks == s.conns[i].state.callbacks
    requires !s.conns[i].state.closed && s'.conns[i].state.closed ==>
               s'.conns[i].state.callbacks == 1 && !s.conns[i].life.Numbered?
    ensures IdInv(s') && CareInv(s')
  {
    hide IdOf, C.Inv;
    forall j: nat ensures Managed(s', j) <==> Managed(s, j) {
    }
  }

  lemma CareStart(s: State, i: nat)
    requires IdInv(s) && CareInv(s) && Enabled(s, StartRead(i))
    ensures IdInv(Apply(s, StartRead(i))) && CareInv(Apply(s, StartRead(i)))
  {
    assert C.Inv(s.conns[i].state);
    hide IdInv, CareInv, C.Inv;
    CareRun(s, Apply(s, StartRead(i)), i);
  }

  /** What a connection does by itself never takes `closed_` or a callback back. */
  lemma TrafficEffect(c: C.State, action: C.Action)
    requires C.Inv(c) && C.Enabled(c, action) && !action.Close? && !action.FireOnClose?
    ensures var c' := C.Apply(c, action);
            && C.Inv(c') && (c.closed ==> c'.closed && c'.callbacks == c.callbacks)
            && (!c.closed && c'.closed ==> c'.callbacks == 1 && !action.CloseSocket?)
  {
    hide C.WriteInv;
    C.Step(c, action);
  }

  lemma CareTraffic(s: State, i: nat, action: C.Action)
    requires IdInv(s) && CareInv(s) && Enabled(s, Traffic(i, action))
    ensures IdInv(Apply(s, Traffic(i, action))) && CareInv(Apply(s, Traffic(i, action)))
  {
    assert C.Inv(s.conns[i].state);
    hide IdInv, CareInv, C.Inv, C.Apply;
    TrafficEffect(s.conns[i].state, action);
    CareRun(s, Apply(s, Traffic(i, action)), i);
  }

  lemma CallbackEffect(c: C.State)
    requires C.Inv(c) && C.Enabled(c, C.FireOnClose)
    ensures C.Inv(C.Apply(c, C.FireOnClose)) && c.closed && C.Apply(c, C.FireOnClose).closed
  {
    C.Step(c, C.FireOnClose);
  }

  lemma CareCallback(s: State, i: nat)
    requires IdInv(s) && CareInv(s) && Enabled(s, Callback(i))
    ensures IdInv(Apply(s, Callback(i))) && CareInv(Apply(s, Callback(i)))
  {
    hide IdOf, C.Inv, C.Apply;
    var s' := Apply(s, Callback(i));
    CallbackEffect(s.conns[i].state);
    forall j: nat ensures Managed(s', j) <==> Managed(s, j) && s.conns[j].id != s.conns[i].id {
    }
    if |s.conns| <= U64_SPAN {
      forall j: nat | j < |s.conns| && j != i ensures s.conns[j].id != s.conns[i].id {
        if j < i { IdOfInjective(j, i); } else { IdOfInjective(i, j); }
      }
    }
  }

  lemma CareSnapshot(s: State, order: seq<u64>)
    requires IdInv(s) && CareInv(s) && Enabled(s, Snapshot(order))
    ensures IdInv(Apply(s, Snapshot(order))) && CareInv(Apply(s, Snapshot(order)))
  {
    hide IdOf, C.Inv;
    var s' := Apply(s, Snapshot(order));
    forall n | 0 <= n < |order| ensures Managed(s, s.table[order[n]]) {
      assert order[n] in order;
    }
    forall j: nat ensures j in s'.closing <==> j in s.closing || Managed(s, j) {
      if Managed(s, j) {
        var n :| 0 <= n < |order| && order[n] == s.conns[j].id;
        assert s'.closing[|s.closing| + n] == j;
      }
      if j in s.closing {
        var n :| 0 <= n < |s.closing| && s.closing[n] == j;
        assert s'.closing[n] == j;
      }
    }
  }

  lemma CloseEffect(c: C.State)
    requires C.Inv(c)
    ensures C.Inv(C.Apply(c, C.Close)) && C.Apply(c, C.Close).closed
    ensures c.closed ==> C.Apply(c, C.Close) == c
  {
    C.Step(c, C.Close);
  }

  lemma CareClose(s: State, n: nat)
    requires IdInv(s) && CareInv(s) && Enabled(s, CloseOne(n))
    ensures IdInv(Apply(s, CloseOne(n))) && CareInv(Apply(s, CloseOne(n)))
  {
    hide IdOf, C.Inv, C.Apply;
    var s' := Apply(s, CloseOne(n));
    var i := s.closing[n];
    CloseEffect(s.conns[i].state);
    assert i in s.closing;
    forall j: nat ensures Managed(s', j) <==> Managed(s, j) {
    }
    forall j: nat | j in s.closing && j != i ensures j in s'.closing {
      var m :| 0 <= m < |s.closing| && s.closing[m] == j;
      assert s'.closing[if m < n then m else m - 1] == j;
    }
    forall j: nat | j in s'.closing ensures j in s.closing {
    }
  }

  ghost predicate Inv(s: State) { IdInv(s) && CareInv(s) }

  lemma InitInv()
    ensures Inv(Init())
  {
  }

  lemma Step(s: State, a: Action)
    requires Inv(s) && Enabled(s, a)
    ensures Inv(Apply(s, a))
  {
    hide IdInv, CareInv, Enabled, Apply;
    match a
    case Number => CareNumber(s);
    case Insert(i) => CareInsert(s, i);
    case StartRead(i) => CareStart(s, i);
    case Traffic(i, action) => CareTraffic(s, i, action);
    case Callback(i) => CareCallback(s, i);
    case Snapshot(order) => CareSnapshot(s, order);
    case CloseOne(n) => CareClose(s, n);
  }

  // -------------------------------------------------------------- whole runs

  ghost predicate RunOk(s: State, acts: seq<Action>)
    decreases |acts|
  {
    acts == [] || (Enabled(s, acts[0]) && RunOk(Apply(s, acts[0]), acts[1..]))
  }

  ghost function Exec(s: State, acts: seq<Action>): State
    requires RunOk(s, acts)
    decreases |acts|
  {
    if acts == [] then s else Exec(Apply(s, acts[0]), acts[1..])
  }

  lemma {:induction false} RunKeepsInv(s: State, acts: seq<Action>)
    requires Inv(s) && RunOk(s, acts)
    ensures Inv(Exec(s, acts))
    decreases |acts|
  {
    hide Inv, Enabled, Apply;
    if acts != [] {
      Step(s, acts[0]);
      RunKeepsInv(Apply(s, acts[0]), acts[1..]);
    }
  }

  lemma {:induction false} RunSnoc(s: State, acts: seq<Action>, a: Action)
    requires RunOk(s, acts) && Enabled(Exec(s, acts), a)
    ensures RunOk(s, acts + [a]) && Exec(s, acts + [a]) == Apply(Exec(s, acts), a)
    decreases |acts|
  {
    hide Enabled, Apply;
    if acts == [] {
      assert acts + [a] == [a] && [a][1..] == [];
    } else {
      RunSnoc(Apply(s, acts[0]), acts[1..], a);
      assert (acts + [a])[1..] == acts[1..] + [a];
    }
  }

  ghost predicate Reachable(s: State, acts: seq<Action>)
  {
    RunOk(Init(), acts) && s == Exec(Init(), acts)
  }

  /** In every run, for every connection: closing happened exactly once if it is closed; a key maps
      to a connection with that id; a managed connection that is closed is one whose
      removing callback has not run yet; and, below 2^64 connections, ids are
      distinct and an open connection that was inserted is either managed or in the
      snapshot of a `close_all` that will still close it. */
  lemma ManagerConsistent(s: State, acts: seq<Action>)
    requires Reachable(s, acts)
    ensures forall i :: 0 <= i < |s.conns| ==>
              var c := s.conns[i].state;
              c.callbacks + c.fired + c.closers + c.socketCloses + c.foundShut == (if c.closed then 1 else 0)
    ensures forall k :: k in s.table ==> s.table[k] < |s.conns| && s.conns[s.table[k]].id == k
    ensures forall i: nat :: Managed(s, i) && s.conns[i].state.closed ==> s.conns[i].state.callbacks == 1
    ensures |s.conns| <= U64_SPAN ==>
              forall i, j :: 0 <= i < j < |s.conns| ==> s.conns[i].id != s.conns[j].id
    ensures |s.conns| <= U64_SPAN ==>
              forall i: nat :: i < |s.conns| && !s.conns[i].life.Numbered? && !s.conns[i].state.closed
                ==> Managed(s, i) || i in s.closing
  {
    InitInv();
    RunKeepsInv(Init(), acts);
    hide IdOf;
    forall i, j | 0 <= i < j < |s.conns| && |s.conns| <= U64_SPAN ensures s.conns[i].id != s.conns[j].id {
      IdOfInjective(i, j);
    }
  }

  /** Nothing that the outside may do is ruled out: connections are accepted and `close_all`
      is called at any time, and a connection that reads may do whatever it can by itself. */
  lemma OutsideIsFree(s: State, order: seq<u64>, i: nat, action: C.Action)
    requires Lists(order, s.table.Keys)
    ensures Enabled(s, Number) && Enabled(s, Snapshot(order))
    ensures i < |s.conns| && s.conns[i].life.Started? && C.Enabled(s.conns[i].state, action) ==>
              Enabled(s, if action.FireOnClose? then Callback(i) else Traffic(i, action)) || action.Close?
  {
    hide C.Enabled;
  }

  /** What accepting a connection comes to: it is in the table under the next number, fresh,
      and reads, so whatever a connection can do by itself it may now do; nothing else
      changes. */
  lemma AcceptedReads(s: State, action: C.Action)
    ensures var i := |s.conns|;
            && Enabled(s, Number) && Enabled(Apply(s, Number), Insert(i))
            && Enabled(Apply(Apply(s, Number), Insert(i)), StartRead(i))
            && var s' := Apply(Apply(Apply(s, Number), Insert(i)), StartRead(i));
               && s'.conns == s.conns + [Conn(C.Init(), s.nextId, Started)]
               && s'.table == s.table[s.nextId := i] && s'.nextId == (s.nextId + 1) % 0x1_0000_0000_0000_0000
               && s'.closing == s.closing
               && (C.Enabled(C.Init(), action) && !action.Close? && !action.FireOnClose? ==>
                     Enabled(s', Traffic(i, action)))
  {
    hide C.Enabled;
    var i := |s.conns|;
    var s' := Apply(Apply(Apply(s, Number), Insert(i)), StartRead(i));
    assert s'.conns[i] == Conn(C.Init(), s.nextId, Started);
    assert s'.conns == s.conns + [Conn(C.Init(), s.nextId, Started)];
  }
}
