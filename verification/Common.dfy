/** Vocabulary shared by the protocol models. */
module Common {

  const U64_SPAN: int := 0x1_0000_0000_0000_0000
  type u64 = x: int | 0 <= x < U64_SPAN

  datatype Option<+V> = None | Some(value: V)

  ghost predicate NoDup<V(!new)>(q: seq<V>)
  {
    forall i, j :: 0 <= i < j < |q| ==> q[i] != q[j]
  }

  lemma NoDupSnoc<V(!new)>(q: seq<V>, v: V)
    requires NoDup(q) && v !in q
    ensures NoDup(q + [v])
  {
  }

  /** `order` enumerates `keys`, each once. */
  ghost predicate Lists<V(!new)>(order: seq<V>, keys: set<V>)
  {
    NoDup(order) && forall k :: k in order <==> k in keys
  }

  /** A sequence without its element at `i`. */
  function Without<V>(q: seq<V>, i: nat): seq<V>
    requires i < |q|
  {
    q[..i] + q[i + 1..]
  }

  /** The sum of the weights of all elements. */
  function Sum<V>(q: seq<V>, weight: V -> nat): nat
  {
    if q == [] then 0 else weight(q[0]) + Sum(q[1..], weight)
  }

  lemma {:induction false} SumUpdate<V>(q: seq<V>, i: nat, v: V, weight: V -> nat)
    requires i < |q|
    ensures Sum(q[i := v], weight) == Sum(q, weight) - weight(q[i]) + weight(v)
  {
    if i == 0 {
      assert q[i := v][1..] == q[1..];
    } else {
      assert q[i := v][1..] == q[1..][i - 1 := v];
      SumUpdate(q[1..], i - 1, v, weight);
    }
  }

  lemma {:induction false} SumSnoc<V>(q: seq<V>, v: V, weight: V -> nat)
    ensures Sum(q + [v], weight) == Sum(q, weight) + weight(v)
  {
    if q == [] {
      assert q + [v] == [v] && Sum([v], weight) == weight(v) + Sum([v][1..], weight);
    } else {
      assert (q + [v])[1..] == q[1..] + [v];
      SumSnoc(q[1..], v, weight);
    }
  }

  ghost function Image(keys: set<nat>, h: map<nat, nat>): set<nat>
    requires keys <= h.Keys
  {
    set x | x in keys :: h[x]
  }

  ghost predicate Injective(keys: set<nat>, h: map<nat, nat>)
    requires keys <= h.Keys
  {
    forall x, y :: x in keys && y in keys && x != y ==> h[x] != h[y]
  }

  lemma {:induction false} ImageSize(keys: set<nat>, h: map<nat, nat>)
    requires keys <= h.Keys && Injective(keys, h)
    ensures |Image(keys, h)| == |keys|
    decreases keys
  {
    if keys != {} {
      var k :| k in keys;
      var rest := keys - {k};
      ImageSize(rest, h);
      assert Image(keys, h) == Image(rest, h) + {h[k]};
    }
  }

  lemma {:induction false} SubsetSize(a: set<nat>, b: set<nat>)
    requires a <= b
    ensures |a| <= |b| && (|a| == |b| ==> a == b)
    decreases a
  {
    if a != {} {
      var x :| x in a;
      SubsetSize(a - {x}, b - {x});
      assert a == (a - {x}) + {x} && b == (b - {x}) + {x};
    }
  }

  /** An injective map of a finite set into itself reaches every element. */
  lemma InjectiveFillsUp(keys: set<nat>, h: map<nat, nat>)
    requires keys <= h.Keys && Injective(keys, h) && Image(keys, h) <= keys
    ensures Image(keys, h) == keys
  {
    hide Image, Injective;
    ImageSize(keys, h);
    SubsetSize(Image(keys, h), keys);
  }
}
