/**
 * Link tables as sets of pairs of row ids. A `unique_together` pair of foreign keys
 * (a Follow, a Like) or a many-to-many field (a watchlist) holds each pair
 * at most once, which is what a set of pairs holds; counting the rows that
 * point at one object is counting the other ends.
 */
module Relations {
  /** Add `x` when it is absent, remove it when present (`get_or_create`
      followed by `delete` when it already existed). */
  function Toggle<T>(s: set<T>, x: T): (r: set<T>)
    ensures x in r <==> x !in s
    ensures r - {x} == s - {x}
  {
    if x in s then s - {x} else s + {x}
  }

  /** Toggling twice restores the set. */
  lemma ToggleTwice<T>(s: set<T>, x: T)
    ensures Toggle(Toggle(s, x), x) == s
  {
  }

  /** The first components of the pairs whose second component is `b`: the
      rows pointing at `b`. */
  function Into(rel: set<(nat, nat)>, b: nat): (r: set<nat>)
    ensures forall a :: a in r <==> (a, b) in rel
  {
    set p | p in rel && p.1 == b :: p.0
  }

  /** The second components of the pairs whose first component is `a`: the
      rows starting from `a`. */
  function OutOf(rel: set<(nat, nat)>, a: nat): (r: set<nat>)
    ensures forall b :: b in r <==> (a, b) in rel
  {
    set p | p in rel && p.0 == a :: p.1
  }

  /** Toggling one pair moves the count pointing at its target by exactly
      one, up when the pair was added and down when it was removed, and
      leaves every other target's count alone. */
  lemma ToggleInto(rel: set<(nat, nat)>, a: nat, b: nat)
    ensures (a, b) in rel ==> |Into(Toggle(rel, (a, b)), b)| == |Into(rel, b)| - 1
    ensures (a, b) !in rel ==> |Into(Toggle(rel, (a, b)), b)| == |Into(rel, b)| + 1
    ensures forall c :: c != b ==> Into(Toggle(rel, (a, b)), c) == Into(rel, c)
  {
    var before := Into(rel, b);
    var after := Into(Toggle(rel, (a, b)), b);
    if (a, b) in rel {
      assert after == before - {a};
    } else {
      assert after == before + {a};
    }
  }

  /** The same for the count starting from the pair's source. */
  lemma ToggleOutOf(rel: set<(nat, nat)>, a: nat, b: nat)
    ensures (a, b) in rel ==> |OutOf(Toggle(rel, (a, b)), a)| == |OutOf(rel, a)| - 1
    ensures (a, b) !in rel ==> |OutOf(Toggle(rel, (a, b)), a)| == |OutOf(rel, a)| + 1
    ensures forall c :: c != a ==> OutOf(Toggle(rel, (a, b)), c) == OutOf(rel, c)
  {
    var before := OutOf(rel, a);
    var after := OutOf(Toggle(rel, (a, b)), a);
    if (a, b) in rel {
      assert after == before - {b};
    } else {
      assert after == before + {b};
    }
  }
}
