/** Load balancing: round robin, weighted choice, and the `LoadBalancer` that holds
    one of them. The random draw is an argument. */
module Balancer {
  import opened Common
  import opened Wire

  datatype Endpoint = Endpoint(name: Bytes, address: Bytes, weight: i32)

  // ------------------------------------------------------------- modular facts

  lemma MultipleIsFar(d: int, n: int)
    requires n > 0 && d != 0
    ensures d * n >= n || d * n <= -n
  {
    if d >= 1 {
      assert (d - 1) * n >= 0;
    } else {
      assert (-1 - d) * n >= 0;
    }
  }

  lemma ModUnique(x: int, q: int, r: int, n: int)
    requires n > 0 && x == q * n + r && 0 <= r < n
    ensures x % n == r && x / n == q
  {
    var d := x / n - q;
    assert x == (x / n) * n + x % n;
    assert d * n == r - x % n;
    if d != 0 {
      MultipleIsFar(d, n);
    }
  }

  /** Counting on by less than one turn. */
  lemma ModStep(c: int, j: int, n: int)
    requires n > 0 && 0 <= j < n
    ensures (c + j) % n == if c % n + j < n then c % n + j else c % n + j - n
  {
    var q := c / n;
    if c % n + j < n {
      ModUnique(c + j, q, c % n + j, n);
    } else {
      assert c + j == (q + 1) * n + (c % n + j - n);
      ModUnique(c + j, q + 1, c % n + j - n, n);
    }
  }

  // --------------------------------------------------------------- round robin

  /** The position chosen by the `j`-th selection from a counter at `c`, for `n` nodes. */
  function Position(c: u64, j: nat, n: nat): nat
    requires n > 0
  {
    (c + j) % U64_SPAN % n
  }

  /** Position `p` is chosen by exactly one of `n` consecutive selections. */
  ghost predicate ChosenOnce(c: u64, n: nat, p: nat)
    requires n > 0
  {
    exists j :: ChosenOnlyAt(c, n, p, j)
  }

  ghost predicate ChosenOnlyAt(c: u64, n: nat, p: nat, j: nat)
    requires n > 0
  {
    j < n && Position(c, j, n) == p && forall i :: 0 <= i < n && i != j ==> Position(c, i, n) != p
  }

  /** The positions before the counter wraps. */
  lemma PositionStraight(c: u64, j: nat, n: nat)
    requires 0 < n && j < n && c + j < U64_SPAN
    ensures Position(c, j, n) == if c % n + j < n then c % n + j else c % n + j - n
  {
    ModUnique(c + j, 0, c + j, U64_SPAN);
    ModStep(c, j, n);
  }

  /** And after it wrapped. */
  lemma PositionWrapped(c: u64, j: nat, n: nat)
    requires 0 < n <= U64_SPAN && j < n && c + j >= U64_SPAN
    ensures Position(c, j, n) == c + j - U64_SPAN
  {
    ModUnique(c + j, 1, c + j - U64_SPAN, U64_SPAN);
    ModUnique(c + j - U64_SPAN, 0, c + j - U64_SPAN, n);
  }

  lemma FairStraight(c: u64, n: nat, p: nat)
    requires 0 < n && p < n && c + n <= U64_SPAN
    ensures ChosenOnce(c, n, p)
  {
    var r := c % n;
    var j := if p >= r then p - r else p - r + n;
    forall i | 0 <= i < n ensures Position(c, i, n) == if r + i < n then r + i else r + i - n {
      PositionStraight(c, i, n);
    }
    assert ChosenOnlyAt(c, n, p, j);
  }

  lemma FairAcrossWrap(c: u64, n: nat, p: nat)
    requires 0 < n <= U64_SPAN && p < n && c + n > U64_SPAN && U64_SPAN % n == 0
    ensures ChosenOnce(c, n, p)
  {
    var k := U64_SPAN - c;
    assert c % n == if k == n then 0 else n - k by {
      ModStep(c, if k == n then 0 else k, n);
    }
    forall i | 0 <= i < n ensures Position(c, i, n) == if i < k then n - k + i else i - k {
      if i < k { PositionStraight(c, i, n); } else { PositionWrapped(c, i, n); }
    }
    assert ChosenOnlyAt(c, n, p, if p >= n - k then p - (n - k) else p + k);
  }

  lemma UnfairAcrossWrap(c: u64, n: nat) returns (p: nat)
    requires 0 < n <= U64_SPAN && c + n > U64_SPAN && U64_SPAN % n != 0
    ensures p < n && !ChosenOnce(c, n, p)
  {
    var k, r := U64_SPAN - c, U64_SPAN % n;
    ModStep(c, k, n);
    var i, j := if r >= k then 0 else k - r, if r >= k then r else k;
    p := if r >= k then r - k else 0;
    PositionStraight(c, i, n);
    PositionWrapped(c, j, n);
    assert i != j && Position(c, i, n) == Position(c, j, n) == p;
  }

  /** Any `n` consecutive selections over `n` nodes choose every position exactly once,
      from any counter value, unless the counter wraps in between and `n` does not
      divide 2^64; then some position is not chosen exactly once. */
  lemma RoundRobinWindow(c: u64, n: nat)
    requires 0 < n <= U64_SPAN
    ensures (forall p: nat :: p < n ==> ChosenOnce(c, n, p)) <==> c + n <= U64_SPAN || U64_SPAN % n == 0
  {
    if c + n <= U64_SPAN {
      forall p: nat | p < n ensures ChosenOnce(c, n, p) {
        FairStraight(c, n, p);
      }
    } else if U64_SPAN % n == 0 {
      forall p: nat | p < n ensures ChosenOnce(c, n, p) {
        FairAcrossWrap(c, n, p);
      }
    } else {
      var p := UnfairAcrossWrap(c, n);
    }
  }

  /** How many of the first `k` selections from a fresh counter choose position `p`. */
  function Hits(n: nat, k: nat, p: nat): nat
    requires n > 0
  {
    if k == 0 then 0 else Hits(n, k - 1, p) + (if Position(0, k - 1, n) == p then 1 else 0)
  }

  lemma PositionFresh(j: nat, n: nat)
    requires n > 0 && j < U64_SPAN
    ensures Position(0, j, n) == j % n
  {
    ModUnique(j, 0, j, U64_SPAN);
  }

  lemma NextTurn(m: nat, n: nat)
    requires n > 0
    ensures if m % n + 1 < n then (m + 1) % n == m % n + 1 && (m + 1) / n == m / n
            else (m + 1) % n == 0 && m % n == n - 1 && (m + 1) / n == m / n + 1
  {
    if m % n + 1 < n {
      ModUnique(m + 1, m / n, m % n + 1, n);
    } else {
      assert m + 1 == (m / n + 1) * n;
      ModUnique(m + 1, m / n + 1, 0, n);
    }
  }

  /** After `set_nodes`, the first `k` selections hit each position floor(k/n) times, and
      the first `k % n` positions once more. */
  lemma {:induction false} RoundRobinShares(n: nat, k: nat, p: nat)
    requires n > 0 && p < n && k <= U64_SPAN
    ensures Hits(n, k, p) == k / n + (if p < k % n then 1 else 0)
  {
    hide Position;
    if k == 0 {
      ModUnique(0, 0, 0, n);
    } else {
      RoundRobinShares(n, k - 1, p);
      PositionFresh(k - 1, n);
      NextTurn(k - 1, n);
    }
  }

  // ------------------------------------------------------------------ weighted

  function WeightSum(nodes: seq<Endpoint>, k: nat): int
    requires k <= |nodes|
  {
    if k == 0 then 0 else WeightSum(nodes, k - 1) + nodes[k - 1].weight
  }

  /** No partial sum overflows `int`; beyond that the source is undefined. */
  ghost predicate SumsFit(nodes: seq<Endpoint>)
  {
    forall k :: 0 <= k <= |nodes| ==> -0x8000_0000 <= WeightSum(nodes, k) < 0x8000_0000
  }

  /** Draw `r` chooses position `i`: the first whose running sum exceeds it. */
  ghost predicate Chooses(nodes: seq<Endpoint>, r: int, i: nat)
  {
    i < |nodes| && r < WeightSum(nodes, i + 1) && forall k :: 1 <= k <= i ==> WeightSum(nodes, k) <= r
  }

  datatype Selection = Chosen(position: nat) | NoNodes | NoWeight

  /** `WeightedStrategy::select`. A draw in range always chooses inside the loop: the
      fallback behind it is never taken, whatever the signs of the weights. */
  method SelectWeighted(nodes: seq<Endpoint>, draw: int) returns (s: Selection)
    requires SumsFit(nodes)
    requires WeightSum(nodes, |nodes|) > 0 ==> 0 <= draw < WeightSum(nodes, |nodes|)
    ensures s.NoNodes? <==> nodes == []
    ensures s.NoWeight? <==> nodes != [] && WeightSum(nodes, |nodes|) <= 0
    ensures s.Chosen? ==> Chooses(nodes, draw, s.position)
  {
    if |nodes| == 0 {
      return NoNodes;
    }
    var total := 0;
    for i := 0 to |nodes|
      invariant total == WeightSum(nodes, i)
    {
      total := total + nodes[i].weight;
    }
    if total <= 0 {
      return NoWeight;
    }
    var accum := 0;
    for i := 0 to |nodes|
      invariant accum == WeightSum(nodes, i)
      invariant forall k :: 1 <= k <= i ==> WeightSum(nodes, k) <= draw
    {
      accum := accum + nodes[i].weight;
      if draw < accum {
        return Chosen(i);
      }
    }
    assert false;
  }

  predicate NonNegative(nodes: seq<Endpoint>) { forall i :: 0 <= i < |nodes| ==> nodes[i].weight >= 0 }

  lemma {:induction false} WeightSumMonotone(nodes: seq<Endpoint>, i: nat, k: nat)
    requires NonNegative(nodes) && i <= k <= |nodes|
    ensures WeightSum(nodes, i) <= WeightSum(nodes, k)
    decreases k
  {
    if i < k {
      WeightSumMonotone(nodes, i, k - 1);
    }
  }

  /** With non-negative weights, the draws of position `i` are an interval of its own. */
  lemma ChoosesInterval(nodes: seq<Endpoint>, r: int, i: nat)
    requires NonNegative(nodes) && i < |nodes| && r >= 0
    ensures Chooses(nodes, r, i) <==> WeightSum(nodes, i) <= r < WeightSum(nodes, i + 1)
  {
    if WeightSum(nodes, i) <= r {
      forall k | 1 <= k <= i ensures WeightSum(nodes, k) <= r {
        WeightSumMonotone(nodes, k, i);
      }
    }
  }

  /** How many of the draws `0 .. n` choose position `i`. */
  ghost function Draws(nodes: seq<Endpoint>, n: nat, i: nat): nat
  {
    if n == 0 then 0 else Draws(nodes, n - 1, i) + (if Chooses(nodes, n - 1, i) then 1 else 0)
  }

  lemma {:induction false} DrawsCount(nodes: seq<Endpoint>, n: nat, i: nat)
    requires NonNegative(nodes) && i < |nodes|
    ensures var lo, hi := WeightSum(nodes, i), WeightSum(nodes, i + 1);
            Draws(nodes, n, i) == if n <= lo then 0 else if n <= hi then n - lo else hi - lo
    decreases n
  {
    WeightSumMonotone(nodes, 0, i);
    if n > 0 {
      DrawsCount(nodes, n - 1, i);
      ChoosesInterval(nodes, n - 1, i);
    }
  }

  /** Weighted selection is exactly proportional: of the draws in range, as many choose a
      node as its weight says, for every node, exactly when no weight is negative. */
  lemma WeightedProportional(nodes: seq<Endpoint>)
    requires WeightSum(nodes, |nodes|) > 0
    ensures (forall i: nat :: i < |nodes| ==> Draws(nodes, WeightSum(nodes, |nodes|), i) == nodes[i].weight)
            <==> NonNegative(nodes)
  {
    if NonNegative(nodes) {
      forall i: nat | i < |nodes| ensures Draws(nodes, WeightSum(nodes, |nodes|), i) == nodes[i].weight {
        DrawsCount(nodes, WeightSum(nodes, |nodes|), i);
        WeightSumMonotone(nodes, i + 1, |nodes|);
      }
    } else {
      var i: nat :| i < |nodes| && nodes[i].weight < 0;
      assert Draws(nodes, WeightSum(nodes, |nodes|), i) != nodes[i].weight;
    }
  }

  // ------------------------------------------------------------- load balancer

  datatype Strategy = RoundRobin(counter: u64) | Random | Weighted

  function StrategyName(s: Strategy): string
  {
    match s
    case RoundRobin(_) => "round_robin"
    case Random => "random"
    case Weighted => "weighted"
  }

  function CreateStrategy(name: string): Strategy
  {
    if name == "random" then Random else if name == "weighted" then Weighted else RoundRobin(0)
  }

  /** The factory undoes the name, starting a round robin afresh, and gives a round robin
      for every name it does not know. */
  lemma FactoryNames(s: Strategy, name: string)
    ensures CreateStrategy(StrategyName(s)) == (if s.RoundRobin? then RoundRobin(0) else s)
    ensures name != "random" && name != "weighted" ==> CreateStrategy(name) == RoundRobin(0)
    ensures CreateStrategy("random") == Random && CreateStrategy("weighted") == Weighted
  {
  }

  class LoadBalancer {
    var strategy: Strategy
    var nodes: seq<Endpoint>

    constructor ()
      ensures strategy == RoundRobin(0) && nodes == []
    {
      strategy, nodes := RoundRobin(0), [];
    }

    /** `set_nodes`: the strategy is rebuilt from its name, so the kind stays and a round
        robin starts over. */
    method SetNodes(newNodes: seq<Endpoint>)
      modifies this
      ensures nodes == newNodes
      ensures strategy == (if old(strategy).RoundRobin? then RoundRobin(0) else old(strategy))
    {
      nodes := newNodes;
      strategy := CreateStrategy(StrategyName(strategy));
    }

    /** `select`: the draw is used by the two random strategies only. */
    method Select(draw: int) returns (s: Selection)
      requires strategy.Random? && nodes != [] ==> 0 <= draw < |nodes|
      requires strategy.Weighted? ==> SumsFit(nodes)
      requires strategy.Weighted? && WeightSum(nodes, |nodes|) > 0 ==> 0 <= draw < WeightSum(nodes, |nodes|)
      modifies this`strategy
      ensures s.NoNodes? <==> nodes == []
      ensures s.NoWeight? <==> nodes != [] && strategy.Weighted? && WeightSum(nodes, |nodes|) <= 0
      ensures s.Chosen? ==> s.position < |nodes|
      ensures nodes != [] && old(strategy).RoundRobin? ==>
                && s == Chosen(Position(old(strategy).counter, 0, |nodes|))
                && strategy == RoundRobin((old(strategy).counter + 1) % U64_SPAN)
      ensures nodes == [] || !old(strategy).RoundRobin? ==> strategy == old(strategy)
      ensures s.Chosen? && strategy.Random? ==> s.position == draw
      ensures s.Chosen? && strategy.Weighted? ==> Chooses(nodes, draw, s.position)
    {
      match strategy
      case RoundRobin(counter) =>
        if |nodes| == 0 {
          s := NoNodes;
        } else {
          ModUnique(counter, 0, counter, U64_SPAN);
          s := Chosen(counter % |nodes|);
          strategy := RoundRobin((counter + 1) % U64_SPAN);
        }
      case Random =>
        s := if |nodes| == 0 then NoNodes else Chosen(draw);
      case Weighted =>
        s := SelectWeighted(nodes, draw);
    }
  }
}
