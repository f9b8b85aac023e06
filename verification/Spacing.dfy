/** Sufficient discipline for callers: take a sequence number again only when its previous
    owner is through with it. Then every call starts clean, so every answer is its own
    (`Matching.EveryAnswerIsItsOwn`), and no entry of `pending_` is overwritten. With up
    to 2^32 calls every run keeps to it. */
module Spacing {
  import opened Wire
  import Cl = ClientProtocol
  import opened EndToEnd
  import opened Matching

  /** A call registers only when the previous owner of its number is through. */
  ghost predicate SpacedStep(s: State, a: Action)
  {
    a.Caller? && a.call.Register? && a.call.call >= U32_SPAN ==> Through(s.client, a.call.call - U32_SPAN)
  }

  ghost predicate Spaced(s: State, acts: seq<Action>)
    requires RunOk(s, acts)
    decreases |acts|
  {
    acts == [] || (SpacedStep(s, acts[0]) && Spaced(Apply(s, acts[0]), acts[1..]))
  }

  ghost predicate SpacedInv(client: Cl.State)
  {
    forall d: nat {:trigger Cl.IsRegistered(client, d)} ::
      d >= U32_SPAN && Cl.IsRegistered(client, d) ==> Through(client, d - U32_SPAN)
  }

  lemma CallsGrow(s: State, a: Action)
    requires Enabled(s, a)
    ensures |s.client.calls| <= |Apply(s, a).client.calls|
  {
    hide Enabled, Apply;
    if a.Caller? {
      CallerGrows(s, a.call);
    } else if a.ClientStartWrite? {
      StartWriteGrows(s);
    } else {
      RequestsUntouched(s, a);
    }
  }

  lemma {:induction false} CallsGrowInRun(s: State, acts: seq<Action>)
    requires RunOk(s, acts)
    ensures |s.client.calls| <= |Exec(s, acts).client.calls|
    decreases |acts|
  {
    hide Enabled, Apply;
    if acts != [] {
      CallsGrow(s, acts[0]);
      CallsGrowInRun(Apply(s, acts[0]), acts[1..]);
    }
  }

  lemma RegisterIssued(s: State, a: Action)
    requires Cl.SeqInv(s.client) && Enabled(s, a) && |s.client.calls| <= U32_SPAN
    ensures SpacedStep(s, a)
  {
    hide Cl.SeqOf;
  }

  /** A run of up to 2^32 calls is spaced, whatever it does. */
  lemma {:induction false} FewCallsSpaced(s: State, acts: seq<Action>)
    requires Inv(s) && RunOk(s, acts) && |Exec(s, acts).client.calls| <= U32_SPAN
    ensures Spaced(s, acts)
    decreases |acts|
  {
    hide Inv, Enabled, Apply, SpacedStep;
    if acts != [] {
      CallsGrowInRun(s, acts);
      SeqOfInv(s);
      RegisterIssued(s, acts[0]);
      Step(s, acts[0]);
      FewCallsSpaced(Apply(s, acts[0]), acts[1..]);
    }
  }

  /** With every later owner of a number registered, the earlier ones are through. */
  lemma {:induction false} EarlierThrough(client: Cl.State, c: nat, d: nat)
    requires Cl.Inv(client) && SpacedInv(client) && Cl.IsRegistered(client, d)
    requires c < d && (d - c) % U32_SPAN == 0
    ensures Through(client, c)
    decreases d
  {
    hide Cl.Inv, Through;
    assert d - c >= U32_SPAN;
    var e := d - U32_SPAN;
    assert Through(client, e);
    if e != c {
      ThroughIsDone(client, e);
      EarlierThrough(client, c, e);
    }
  }

  /** A call that waited for its number's previous owner finds all earlier owners through. */
  lemma SpacedIsClean(c: Cl.State, x: nat)
    requires Cl.Inv(c) && SpacedInv(c) && !Cl.IsRegistered(c, x)
    requires x >= U32_SPAN ==> Through(c, x - U32_SPAN)
    ensures CleanStart(c, x)
  {
    hide Through, SpacedInv, Cl.SeqOf, Cl.Inv, Cl.IsRegistered;
    forall d: nat | Cl.IsRegistered(c, d) && Cl.SeqOf(d) == Cl.SeqOf(x) ensures Through(c, d) {
      if d < x {
        Cl.SeqOfCollision(d, x);
        if d < x - U32_SPAN {
          Cl.SeqOfCollision(d, x - U32_SPAN);
          ThroughIsDone(c, x - U32_SPAN);
          EarlierThrough(c, d, x - U32_SPAN);
        }
      } else {
        Cl.SeqOfCollision(x, d);
        if x < d {
          EarlierThrough(c, x, d);
          ThroughIsDone(c, x);
        }
      }
    }
  }

  lemma SpacedClient(c: Cl.State, a: Cl.Action)
    requires Cl.Inv(c) && SpacedInv(c) && Cl.Enabled(c, a)
    requires a.Register? && a.call >= U32_SPAN ==> Through(c, a.call - U32_SPAN)
    ensures SpacedInv(Cl.Apply(c, a))
  {
    hide Cl.Apply, Cl.Enabled, Through, Cl.SeqInv, Cl.WriteInv, Cl.PromiseInv, Cl.NothingLost, Cl.HistoryInv;
    var c' := Cl.Apply(c, a);
    forall d: nat | d >= U32_SPAN && Cl.IsRegistered(c', d) ensures Through(c', d - U32_SPAN) {
      RegisteredBy(c, a, d);
      ThroughStays(c, a, d - U32_SPAN);
    }
  }

  /** In a spaced run no entry of `pending_` is ever overwritten. */
  lemma NothingOverwritten(c: Cl.State, a: Cl.Action)
    requires Cl.Inv(c) && SpacedInv(c) && Cl.Enabled(c, a) && c.lost == {}
    requires a.Register? && a.call >= U32_SPAN ==> Through(c, a.call - U32_SPAN)
    ensures Cl.Apply(c, a).lost == {}
  {
    hide Through, SpacedInv, Cl.SeqOf, Cl.WriteInv, Cl.NothingLost, Cl.HistoryInv;
    if a.Register? && c.seqs[a.call] in c.pending {
      PendingNumber(c, c.seqs[a.call]);
      SpacedIsClean(c, a.call);
      ThroughIsDone(c, c.pending[c.seqs[a.call]]);
    }
  }

  // ---------------------------------------------------------------- whole runs

  ghost predicate SpaceInv(s: State) { SpacedInv(s.client) && s.client.lost == {} }

  lemma SpaceStep(s: State, a: Action)
    requires Inv(s) && SpaceInv(s) && Enabled(s, a) && SpacedStep(s, a)
    ensures SpaceInv(Apply(s, a))
  {
    hide Inv, SpacedInv, Through, Cl.Apply, Cl.Enabled, Between, ClientMove, ConnMove, PoolMove, Guard;
    if ClientMove(s, a).Some? {
      SeqOfInv(s);
      var move := ClientMove(s, a).value;
      if move.Register? {
        RegistersOnlyCaller(s, a);
      }
      SpacedClient(s.client, move);
      NothingOverwritten(s.client, move);
    }
  }

  lemma SpacedStepIsClean(s: State, a: Action, c: nat)
    requires Inv(s) && SpaceInv(s) && Enabled(s, a) && SpacedStep(s, a)
    ensures CleanStep(s, a, c)
  {
    hide Inv, SpacedInv, CleanStart, Cl.SeqOf;
    if a == Caller(Cl.Register(c)) {
      SeqOfInv(s);
      SpacedIsClean(s.client, c);
    }
  }

  /** Every call of a spaced run starts clean, and nothing is overwritten. */
  lemma {:induction false} SpacedRunIsClean(s: State, acts: seq<Action>, c: nat)
    requires Inv(s) && SpaceInv(s) && RunOk(s, acts) && Spaced(s, acts)
    ensures StartsClean(s, acts, c) && Exec(s, acts).client.lost == {}
    decreases |acts|
  {
    hide Inv, SpacedInv, Enabled, Apply, SpacedStep, CleanStep;
    if acts != [] {
      SpacedStepIsClean(s, acts[0], c);
      SpaceStep(s, acts[0]);
      Step(s, acts[0]);
      SpacedRunIsClean(Apply(s, acts[0]), acts[1..], c);
    }
  }

  /** In a spaced run every answer is its own, and no call is lost. */
  lemma SpacedAnswers(s: State, n: nat, acts: seq<Action>, i: nat)
    requires n >= 1 && Reachable(s, n, acts) && Spaced(Init(n), acts)
    ensures s.client.lost == {}
    ensures i < |s.client.settled| && s.client.settled[i].how.Answered? ==>
              exists k :: AnsweredBy(s, s.client.settled[i], k)
  {
    hide AnsweredBy, Inv, StartsClean, Spaced;
    InitInv(n);
    SpacedRunIsClean(Init(n), acts, if i < |s.client.settled| then s.client.settled[i].call else 0);
    if i < |s.client.settled| && s.client.settled[i].how.Answered? {
      EveryAnswerIsItsOwn(s, n, acts, i);
    }
  }

  /** In particular in every run of up to 2^32 calls. */
  lemma FewCallsAnswered(s: State, n: nat, acts: seq<Action>, i: nat)
    requires n >= 1 && Reachable(s, n, acts) && |s.client.calls| <= U32_SPAN
    ensures s.client.lost == {}
    ensures i < |s.client.settled| && s.client.settled[i].how.Answered? ==>
              exists k :: AnsweredBy(s, s.client.settled[i], k)
  {
    hide AnsweredBy, Inv;
    InitInv(n);
    FewCallsSpaced(Init(n), acts);
    SpacedAnswers(s, n, acts, i);
  }
}
