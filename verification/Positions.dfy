/** Pairs of positions that a condition holds of, in order, and what they name: a filtered list without recursion. */
module Positions {
  import opened Common

  ghost predicate Before(a: (nat, nat), b: (nat, nat)) {
    a.0 < b.0 || (a.0 == b.0 && a.1 < b.1)
  }

  /** Exactly the pairs of positions that a condition holds of, in order. */
  ghost predicate Lists(ps: seq<(nat, nat)>, holds: (nat, nat) -> bool) {
    && (forall a, b | 0 <= a < b < |ps| :: Before(ps[a], ps[b]))
    && forall x: nat, y: nat :: (x, y) in ps <==> holds(x, y)
  }

  ghost function Row(holds: (nat, nat) -> bool, x: nat, y: nat, n: nat): (ps: seq<(nat, nat)>)
    ensures forall a | 0 <= a < |ps| :: ps[a].0 == x && y <= ps[a].1 < n
    ensures forall a, b | 0 <= a < b < |ps| :: Before(ps[a], ps[b])
    ensures forall z: nat :: (x, z) in ps <==> y <= z < n && holds(x, z)
    decreases n - y
  {
    if y >= n then [] else (if holds(x, y) then [(x, y)] else []) + Row(holds, x, y + 1, n)
  }

  ghost function Rows(holds: (nat, nat) -> bool, x: nat, m: nat, n: nat -> nat): (ps: seq<(nat, nat)>)
    ensures forall a | 0 <= a < |ps| :: x <= ps[a].0 < m
    ensures forall a, b | 0 <= a < b < |ps| :: Before(ps[a], ps[b])
    ensures forall w: nat, z: nat :: (w, z) in ps <==> x <= w < m && z < n(w) && holds(w, z)
    decreases m - x
  {
    if x >= m then [] else Row(holds, x, 0, n(x)) + Rows(holds, x + 1, m, n)
  }

  ghost function Labels<T>(ps: seq<(nat, nat)>, name: (nat, nat) -> T): (ls: seq<T>)
    ensures |ls| == |ps| && forall a | 0 <= a < |ps| :: ls[a] == name(ps[a].0, ps[a].1)
  {
    seq(|ps|, a requires 0 <= a < |ps| => name(ps[a].0, ps[a].1))
  }

  lemma LabelsAppend<T>(ps: seq<(nat, nat)>, qs: seq<(nat, nat)>, name: (nat, nat) -> T)
    ensures Labels(ps + qs, name) == Labels(ps, name) + Labels(qs, name)
  {}

  lemma RowStep<T>(holds: (nat, nat) -> bool, x: nat, y: nat, n: nat, name: (nat, nat) -> T)
    requires y < n
    ensures Labels(Row(holds, x, y, n), name)
            == (if holds(x, y) then [name(x, y)] else []) + Labels(Row(holds, x, y + 1, n), name)
  {
    LabelsAppend(if holds(x, y) then [(x, y)] else [], Row(holds, x, y + 1, n), name);
  }

  lemma {:induction false} NoRow(holds: (nat, nat) -> bool, x: nat, y: nat, n: nat)
    requires forall z: nat :: !holds(x, z)
    ensures Row(holds, x, y, n) == []
    decreases n - y
  {
    if y < n {
      NoRow(holds, x, y + 1, n);
    }
  }

  /** A list that grows, position by position, by what the condition picks is the list of what it picks. */
  lemma {:induction false} RowGrows<T>(holds: (nat, nat) -> bool, x: nat, y: nat, n: nat, name: (nat, nat) -> T,
      before: nat -> seq<T>)
    requires y <= n
    requires forall z: nat | y <= z < n :: before(z + 1) == before(z) + if holds(x, z) then [name(x, z)] else []
    ensures before(n) == before(y) + Labels(Row(holds, x, y, n), name)
    decreases n - y
  {
    if y == n {
      assert before(n) + [] == before(n);
    } else {
      var own := if holds(x, y) then [name(x, y)] else [];
      RowGrows(holds, x, y + 1, n, name, before);
      RowStep(holds, x, y, n, name);
      Glue(before(y), own, Labels(Row(holds, x, y + 1, n), name), before(y + 1), Labels(Row(holds, x, y, n), name));
    }
  }

  lemma Glue<T>(a: seq<T>, own: seq<T>, rest: seq<T>, longer: seq<T>, all: seq<T>)
    requires longer == a + own && all == own + rest
    ensures longer + rest == a + all
  {
    Associates(a, own, rest);
  }

  lemma RowGrown<T>(holds: (nat, nat) -> bool, x: nat, n: nat, name: (nat, nat) -> T, before: nat -> seq<T>)
    requires before(0) == []
    requires forall z: nat | z < n :: before(z + 1) == before(z) + if holds(x, z) then [name(x, z)] else []
    ensures before(n) == Labels(Row(holds, x, 0, n), name)
  {
    RowGrows(holds, x, 0, n, name, before);
    assert [] + Labels(Row(holds, x, 0, n), name) == Labels(Row(holds, x, 0, n), name);
  }
}
