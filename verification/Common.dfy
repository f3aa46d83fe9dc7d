/** Small result types and sequence helpers shared by the other modules. */
module Common {

  datatype Option<+T> = None | Some(value: T)

  datatype Result<+T, +E> = Ok(value: T) | Err(error: E)

  /** Concatenation of a list of lists. */
  function Flatten<T>(xss: seq<seq<T>>): seq<T> {
    if xss == [] then [] else xss[0] + Flatten(xss[1..])
  }

  lemma {:induction false} FlattenAppend<T>(xss: seq<seq<T>>, yss: seq<seq<T>>)
    ensures Flatten(xss + yss) == Flatten(xss) + Flatten(yss)
  {
    var all := xss + yss;
    if xss == [] {
      assert all == yss && [] + Flatten(yss) == Flatten(yss);
    } else {
      assert all[0] == xss[0] && all[1..] == xss[1..] + yss;
      FlattenAppend(xss[1..], yss);
      assert xss[0] + (Flatten(xss[1..]) + Flatten(yss)) == (xss[0] + Flatten(xss[1..])) + Flatten(yss);
    }
  }

  lemma Associates<T>(a: seq<T>, b: seq<T>, c: seq<T>)
    ensures (a + b) + c == a + (b + c)
  {}

  lemma FlattenOne<T>(xs: seq<T>)
    ensures Flatten([xs]) == xs
  {
    assert [xs][1..] == [] && xs + [] == xs;
  }

  lemma {:induction false} FlattenHas<T>(xss: seq<seq<T>>, k: nat)
    requires k < |xss|
    ensures forall x :: x in xss[k] ==> x in Flatten(xss)
  {
    if k > 0 {
      FlattenHas(xss[1..], k - 1);
    }
  }

  ghost predicate NoDuplicates<T>(xs: seq<T>) {
    forall i, j :: 0 <= i < j < |xs| ==> xs[i] != xs[j]
  }
}
