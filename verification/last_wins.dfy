/** The loop `for (k, v) in pairs: d[k] = v` over a Python dict: later pairs overwrite
    earlier ones with the same key, and keys no pair names keep their old value. */
module LastWins {
  import Sequences

  /** The keys named by `ps`. */
  function Keys<K(==), V>(ps: seq<(K, V)>): set<K> {
    set i | 0 <= i < |ps| :: ps[i].0
  }

  /** No key after position `i` equals key `i`: position `i` is the last occurrence of
      its key. */
  predicate IsLastKey<K(==)>(ks: seq<K>, i: int)
    requires 0 <= i < |ks|
  {
    forall j :: i < j < |ks| ==> ks[j] != ks[i]
  }

  /** The keys of `ps`, in order. */
  function KeySeq<K, V>(ps: seq<(K, V)>): (ks: seq<K>)
    ensures |ks| == |ps|
    ensures forall j :: 0 <= j < |ps| ==> ks[j] == ps[j].0
  {
    seq(|ps|, j requires 0 <= j < |ps| => ps[j].0)
  }

  /** No pair after position `i` has the same key as pair `i`. */
  predicate IsLast<K(==), V>(ps: seq<(K, V)>, i: int)
    requires 0 <= i < |ps|
  {
    IsLastKey(KeySeq(ps), i)
  }

  /** `m` after the assignments `m[k] := v` for every pair `(k, v)` of `ps`, in order. */
  function Assign<K(==), V>(m: map<K, V>, ps: seq<(K, V)>): map<K, V>
    decreases |ps|
  {
    if |ps| == 0 then m
    else Assign(m, ps[..|ps| - 1])[ps[|ps| - 1].0 := ps[|ps| - 1].1]
  }

  /** A single pair is a single update. */
  lemma AssignOne<K, V>(m: map<K, V>, k: K, v: V)
    ensures Assign(m, [(k, v)]) == m[k := v]
  {
    assert [(k, v)][..0] == [];
  }

  /** The assignments add exactly the named keys, leave every other key alone, and leave
      each named key holding the value of its last pair. */
  lemma {:induction false} AssignSpec<K, V>(m: map<K, V>, ps: seq<(K, V)>)
    ensures Assign(m, ps).Keys == m.Keys + Keys(ps)
    ensures forall k :: k in m && k !in Keys(ps) ==> Assign(m, ps)[k] == m[k]
    ensures forall i :: 0 <= i < |ps| && IsLast(ps, i) ==> Assign(m, ps)[ps[i].0] == ps[i].1
  {
    AssignKeys(m, ps);
    AssignFrame(m, ps);
    forall i | 0 <= i < |ps| && IsLast(ps, i)
      ensures Assign(m, ps)[ps[i].0] == ps[i].1
    {
      AssignLast(m, ps, i);
    }
  }

  lemma {:induction false} AssignKeys<K, V>(m: map<K, V>, ps: seq<(K, V)>)
    decreases |ps|
    ensures Assign(m, ps).Keys == m.Keys + Keys(ps)
  {
    if |ps| > 0 {
      var n := |ps| - 1;
      var init := ps[..n];
      AssignKeys(m, init);
      assert Keys(ps) == Keys(init) + {ps[n].0} by {
        assert forall i :: 0 <= i < n ==> init[i] == ps[i];
      }
    }
  }

  lemma {:induction false} AssignFrame<K, V>(m: map<K, V>, ps: seq<(K, V)>)
    decreases |ps|
    ensures forall k :: k in m && k !in Keys(ps) ==> k in Assign(m, ps) && Assign(m, ps)[k] == m[k]
  {
    if |ps| > 0 {
      var n := |ps| - 1;
      var init := ps[..n];
      AssignFrame(m, init);
      assert Keys(init) <= Keys(ps) by {
        assert forall i :: 0 <= i < n ==> init[i] == ps[i];
      }
      assert ps[n].0 in Keys(ps);
    }
  }

  lemma {:induction false} AssignLast<K, V>(m: map<K, V>, ps: seq<(K, V)>, i: nat)
    decreases |ps|
    requires i < |ps| && IsLast(ps, i)
    ensures ps[i].0 in Assign(m, ps) && Assign(m, ps)[ps[i].0] == ps[i].1
  {
    var n := |ps| - 1;
    var init := ps[..n];
    if i < n {
      assert init[i] == ps[i];
      assert IsLast(init, i);
      AssignLast(m, init, i);
    }
  }

  /** Every named key has a last pair. */
  lemma LastExists<K, V>(ps: seq<(K, V)>, k: K) returns (i: nat)
    requires k in Keys(ps)
    ensures i < |ps| && ps[i].0 == k && IsLast(ps, i)
  {
    i :| 0 <= i < |ps| && ps[i].0 == k;
    while !IsLast(ps, i)
      invariant 0 <= i < |ps| && ps[i].0 == k
      decreases |ps| - i
    {
      var j :| i < j < |ps| && ps[j].0 == ps[i].0;
      i := j;
    }
  }

  /** Assigning `a` then `b` is assigning `a + b`. */
  lemma {:induction false} AssignAppend<K, V>(m: map<K, V>, a: seq<(K, V)>, b: seq<(K, V)>)
    decreases |b|
    ensures Assign(m, a + b) == Assign(Assign(m, a), b)
  {
    if |b| == 0 {
      assert a + b == a;
    } else {
      Sequences.DropLastAppend(a, b);
      AssignAppend(m, a, b[..|b| - 1]);
    }
  }
}
