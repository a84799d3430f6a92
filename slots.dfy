/** The list of bodies a simulation holds, as a sequence of slots, and the
    bookkeeping the step is specified with: sums of a quantity over the
    slots, and which bodies are still there. Nothing here depends on the
    physics beyond the fields of a body's state. */
module Slots {
  import opened Vectors
  import opened Bodies

  /** A body (its identity, `B`) with its current state. */
  datatype Slot<B> = Slot(body: B, state: BodyState)

  /** The slots left after a run of interactions, and the bodies absorbed on
      the way, in the order they were absorbed. */
  datatype Pass<B> = Pass(slots: seq<Slot<B>>, absorbed: seq<B>)

  predicate AllWellFormed<B>(s: seq<Slot<B>>) {
    forall n :: 0 <= n < |s| ==> WellFormed(s[n].state)
  }

  /** No element occurs twice. */
  predicate Distinct<T(==)>(xs: seq<T>) {
    |xs| == 0 || (xs[0] !in xs[1..] && Distinct(xs[1..]))
  }

  /** The bodies of some slots, in order. */
  function Refs<B>(s: seq<Slot<B>>): (r: seq<B>)
    ensures |r| == |s|
  {
    if s == [] then [] else [s[0].body] + Refs(s[1..])
  }

  lemma {:induction false} RefsAt<B>(s: seq<Slot<B>>)
    ensures forall n :: 0 <= n < |s| ==> Refs(s)[n] == s[n].body
  {
    if s != [] {
      RefsAt(s[1..]);
    }
  }

  function RemoveAt<T>(s: seq<T>, k: nat): (r: seq<T>)
    requires k < |s|
    ensures |r| == |s| - 1
    ensures forall n :: 0 <= n < k ==> r[n] == s[n]
    ensures forall n :: k <= n < |r| ==> r[n] == s[n + 1]
  {
    s[..k] + s[k + 1..]
  }

  /** Removing an element adds nothing. */
  lemma RemoveAtSubset<T>(s: seq<T>, k: nat)
    requires k < |s|
    ensures forall x :: x in RemoveAt(s, k) ==> x in s
  {
    assert RemoveAt(s, k) == s[..k] + s[k + 1..];
  }


  /** `list.remove(x)`: drops the first element equal to `x`; the source
      only removes elements that are present. */
  function RemoveFirst<T(==)>(s: seq<T>, x: T): (r: seq<T>)
    requires x in s
    ensures |r| == |s| - 1
  {
    if s[0] == x then s[1..] else [s[0]] + RemoveFirst(s[1..], x)
  }

  /** The first occurrence of `x` is the one `RemoveFirst` drops. */
  lemma {:induction false} RemoveFirstAt<T>(s: seq<T>, x: T, k: nat)
    requires k < |s| && s[k] == x && x !in s[..k]
    ensures RemoveFirst(s, x) == RemoveAt(s, k)
  {
    if k > 0 {
      assert s[0] in s[..k];
      assert s[1..][k - 1] == x;
      assert s[1..][..k - 1] == s[..k][1..];
      RemoveFirstAt(s[1..], x, k - 1);
    }
  }

  /** In a list without repeats, nothing before index `k` equals the
      element at `k`. */
  lemma {:induction false} DistinctBefore<T>(xs: seq<T>, k: nat)
    requires k < |xs| && Distinct(xs)
    ensures xs[k] !in xs[..k]
  {
    if k > 0 {
      assert xs[k] == xs[1..][k - 1];
      assert xs[k] != xs[0];
      DistinctBefore(xs[1..], k - 1);
      assert xs[..k] == [xs[0]] + xs[1..][..k - 1];
    }
  }

  /** In a list without repeats, elements at different indices differ. */
  lemma {:induction false} DistinctAt<T>(xs: seq<T>, p: nat, q: nat)
    requires p < |xs| && q < |xs| && p != q && Distinct(xs)
    ensures xs[p] != xs[q]
  {
    if p == 0 {
      assert xs[q] == xs[1..][q - 1];
    } else if q == 0 {
      assert xs[p] == xs[1..][p - 1];
    } else {
      DistinctAt(xs[1..], p - 1, q - 1);
    }
  }

  /** Appending an element that is not there yet keeps a list without
      repeats. */
  lemma {:induction false} AppendDistinct<T>(xs: seq<T>, x: T)
    requires Distinct(xs) && x !in xs
    ensures Distinct(xs + [x])
  {
    if xs != [] {
      assert (xs + [x])[1..] == xs[1..] + [x];
      assert x !in xs[1..];
      AppendDistinct(xs[1..], x);
    }
  }

  /** `bodies.remove(body_b)` and `body_list.remove(body_b)` when
      `body_list` is the part of `bodies` after index `i` and `body_b` sits
      at index `j` of it: both drop that one occurrence, the second list is
      still the part of the first after index `i`, and nothing is added. */
  lemma RemoveFromBoth<T>(list: seq<T>, tail: seq<T>, i: nat, j: nat)
    requires i + 1 + j < |list| && Distinct(list) && tail == list[i + 1..]
    ensures RemoveFirst(list, tail[j]) == RemoveAt(list, i + 1 + j)
    ensures RemoveFirst(tail, tail[j]) == RemoveAt(tail, j)
    ensures RemoveAt(list, i + 1 + j)[i + 1..] == RemoveAt(tail, j)
    ensures Distinct(RemoveAt(list, i + 1 + j))
    ensures forall x :: x in RemoveAt(list, i + 1 + j) ==> x in list
  {
    var k := i + 1 + j;
    DistinctBefore(list, k);
    assert tail[..j] == list[i + 1..k];
    RemoveFirstAt(list, tail[j], k);
    RemoveFirstAt(tail, tail[j], j);
    DistinctRemoveAt(list, k);
    RemoveAtSubset(list, k);
  }

  /** `xs` without the elements of `gone`, the others in their order. */
  function Without<T(==)>(xs: seq<T>, gone: seq<T>): seq<T> {
    if xs == [] then [] else (if xs[0] in gone then [] else [xs[0]]) + Without(xs[1..], gone)
  }

  // ---------------------------------------------------------------------
  // Sums over slots

  /** The sum of a quantity over the bodies of some slots. */
  function Total<B>(s: seq<Slot<B>>, f: BodyState -> Vector2): Vector2 {
    if s == [] then Zero else Add(f(s[0].state), Total(s[1..], f))
  }

  function TotalMass<B>(s: seq<Slot<B>>): real {
    if s == [] then 0.0 else s[0].state.mass + TotalMass(s[1..])
  }

  /** The totals a run of interactions keeps: mass, momentum and the
      mass-weighted position (whose quotient by the mass is the centre of
      mass). */
  predicate SameTotals<B>(s: seq<Slot<B>>, t: seq<Slot<B>>) {
    TotalsOf(s) == TotalsOf(t)
  }

  datatype Totals = Totals(mass: real, momentum: Vector2, moment: Vector2)

  function TotalsOf<B>(s: seq<Slot<B>>): Totals {
    Totals(TotalMass(s), Total(s, Momentum), Total(s, Moment))
  }

  lemma {:induction false} TotalUpdate<B>(s: seq<Slot<B>>, n: nat, x: Slot<B>, f: BodyState -> Vector2)
    requires n < |s|
    ensures Total(s[n := x], f) == Add(Sub(Total(s, f), f(s[n].state)), f(x.state))
  {
    if n == 0 {
      assert s[n := x][1..] == s[1..];
    } else {
      assert s[n := x][1..] == s[1..][n - 1 := x];
      TotalUpdate(s[1..], n - 1, x, f);
    }
  }

  lemma {:induction false} TotalRemoveAt<B>(s: seq<Slot<B>>, k: nat, f: BodyState -> Vector2)
    requires k < |s|
    ensures Total(RemoveAt(s, k), f) == Sub(Total(s, f), f(s[k].state))
  {
    if k == 0 {
      assert RemoveAt(s, k) == s[1..];
    } else {
      assert RemoveAt(s, k)[1..] == RemoveAt(s[1..], k - 1);
      TotalRemoveAt(s[1..], k - 1, f);
    }
  }

  lemma {:induction false} MassUpdate<B>(s: seq<Slot<B>>, n: nat, x: Slot<B>)
    requires n < |s|
    ensures TotalMass(s[n := x]) == TotalMass(s) - s[n].state.mass + x.state.mass
  {
    if n == 0 {
      assert s[n := x][1..] == s[1..];
    } else {
      assert s[n := x][1..] == s[1..][n - 1 := x];
      MassUpdate(s[1..], n - 1, x);
    }
  }

  lemma {:induction false} MassRemoveAt<B>(s: seq<Slot<B>>, k: nat)
    requires k < |s|
    ensures TotalMass(RemoveAt(s, k)) == TotalMass(s) - s[k].state.mass
  {
    if k == 0 {
      assert RemoveAt(s, k) == s[1..];
    } else {
      assert RemoveAt(s, k)[1..] == RemoveAt(s[1..], k - 1);
      MassRemoveAt(s[1..], k - 1);
    }
  }

  /** Replacing the slots at `i` and `k` keeps a total when the two new
      contributions add up to the two old ones. */
  lemma ExchangeKeepsTotal<B>(s: seq<Slot<B>>, i: nat, k: nat, x: Slot<B>, y: Slot<B>, f: BodyState -> Vector2)
    requires i < k < |s| && Add(f(x.state), f(y.state)) == Add(f(s[i].state), f(s[k].state))
    ensures Total(s[i := x][k := y], f) == Total(s, f)
  {
    TotalUpdate(s, i, x, f);
    TotalUpdate(s[i := x], k, y, f);
  }

  /** Replacing the slot at `i` and dropping the one at `k` keeps a total
      when the new contribution is the sum of the two old ones. */
  lemma MergeKeepsTotal<B>(s: seq<Slot<B>>, i: nat, k: nat, z: Slot<B>, f: BodyState -> Vector2)
    requires i < k < |s| && f(z.state) == Add(f(s[i].state), f(s[k].state))
    ensures Total(RemoveAt(s[i := z], k), f) == Total(s, f)
  {
    TotalUpdate(s, i, z, f);
    TotalRemoveAt(s[i := z], k, f);
  }

  // ---------------------------------------------------------------------
  // Which bodies are there

  lemma RefsRemoveAt<B>(s: seq<Slot<B>>, i: nat, k: nat, z: Slot<B>)
    requires i < k < |s| && z.body == s[i].body
    ensures Refs(RemoveAt(s[i := z], k)) == RemoveAt(Refs(s), k)
  {
    RefsAt(s);
    RefsAt(RemoveAt(s[i := z], k));
  }

  lemma RefsExchange<B>(s: seq<Slot<B>>, i: nat, k: nat, x: Slot<B>, y: Slot<B>)
    requires i < k < |s| && x.body == s[i].body && y.body == s[k].body
    ensures Refs(s[i := x][k := y]) == Refs(s)
  {
    RefsAt(s);
    RefsAt(s[i := x][k := y]);
  }

  lemma {:induction false} WithoutNothing<T>(xs: seq<T>)
    ensures Without(xs, []) == xs
  {
    if xs != [] {
      WithoutNothing(xs[1..]);
    }
  }

  lemma {:induction false} WithoutAbsent<T>(xs: seq<T>, x: T, gone: seq<T>)
    requires x !in xs
    ensures Without(xs, [x] + gone) == Without(xs, gone)
  {
    if xs != [] {
      WithoutAbsent(xs[1..], x, gone);
    }
  }

  /** Removing the element at `k` from a list without repeats is dropping
      that element. */
  lemma {:induction false} WithoutRemoveAt<T>(xs: seq<T>, k: nat, gone: seq<T>)
    requires k < |xs| && Distinct(xs)
    ensures Without(RemoveAt(xs, k), gone) == Without(xs, [xs[k]] + gone)
  {
    if k == 0 {
      assert RemoveAt(xs, k) == xs[1..];
      WithoutAbsent(xs[1..], xs[0], gone);
    } else {
      assert RemoveAt(xs, k)[1..] == RemoveAt(xs[1..], k - 1);
      assert xs[k] == xs[1..][k - 1];
      WithoutRemoveAt(xs[1..], k - 1, gone);
    }
  }

  lemma {:induction false} WithoutTwice<T>(xs: seq<T>, g1: seq<T>, g2: seq<T>)
    ensures Without(Without(xs, g1), g2) == Without(xs, g1 + g2)
  {
    if xs != [] {
      var w := Without(xs[1..], g1);
      WithoutTwice(xs[1..], g1, g2);
      if xs[0] in g1 {
        assert Without(xs, g1) == w;
        assert xs[0] in g1 + g2;
      } else {
        assert Without(xs, g1) == [xs[0]] + w;
        assert ([xs[0]] + w)[1..] == w;
        assert (xs[0] in g1 + g2) == (xs[0] in g2);
      }
    }
  }

  lemma {:induction false} DistinctRemoveAt<T>(xs: seq<T>, k: nat)
    requires k < |xs| && Distinct(xs)
    ensures Distinct(RemoveAt(xs, k))
  {
    if k == 0 {
      assert RemoveAt(xs, k) == xs[1..];
    } else {
      var r := RemoveAt(xs[1..], k - 1);
      assert RemoveAt(xs, k) == [xs[0]] + r;
      assert ([xs[0]] + r)[1..] == r;
      DistinctRemoveAt(xs[1..], k - 1);
      assert xs[0] !in r by {
        forall n | 0 <= n < |r| ensures r[n] != xs[0] {
          assert r[n] in xs[1..];
        }
      }
    }
  }

  /** Leaving elements out keeps a list free of repeats. */
  lemma {:induction false} DistinctWithout<T>(xs: seq<T>, gone: seq<T>)
    requires Distinct(xs)
    ensures Distinct(Without(xs, gone))
  {
    if xs != [] {
      var w := Without(xs[1..], gone);
      DistinctWithout(xs[1..], gone);
      if xs[0] !in gone {
        assert Without(xs, gone) == [xs[0]] + w;
        WithoutSubset(xs[1..], gone);
        assert xs[0] !in w;
        assert ([xs[0]] + w)[1..] == w;
      } else {
        assert Without(xs, gone) == w;
      }
    }
  }

  /** Every element of `Without(xs, gone)` is one of `xs`. */
  lemma {:induction false} WithoutSubset<T>(xs: seq<T>, gone: seq<T>)
    ensures forall x :: x in Without(xs, gone) ==> x in xs
  {
    if xs != [] {
      WithoutSubset(xs[1..], gone);
    }
  }

  lemma MultisetRemoveAt<T>(xs: seq<T>, k: nat)
    requires k < |xs|
    ensures multiset(xs) == multiset(RemoveAt(xs, k)) + multiset{xs[k]}
  {
    assert xs == xs[..k] + [xs[k]] + xs[k + 1..];
  }

  /** What a run of interactions does to the list of bodies: the survivors
      are the old bodies without the absorbed ones, in their order, every
      body either survives or is absorbed (so, in a list without repeats,
      no survivor occurs twice: `DistinctWithout`). */
  predicate Accounts<B(==)>(s: seq<Slot<B>>, r: Pass<B>) {
    && Refs(r.slots) == Without(Refs(s), r.absorbed)
    && multiset(Refs(s)) == multiset(Refs(r.slots)) + multiset(r.absorbed)
  }

  /** Replacing states and keeping the bodies absorbs nothing. */
  lemma KeepAccounts<B>(s: seq<Slot<B>>, t: seq<Slot<B>>)
    requires Refs(t) == Refs(s)
    ensures Distinct(Refs(s)) ==> Accounts(s, Pass(t, []))
  {
    WithoutNothing(Refs(s));
  }

  /** Dropping the slot at `k` absorbs exactly its body. */
  lemma DropAccounts<B>(s: seq<Slot<B>>, t: seq<Slot<B>>, k: nat)
    requires k < |s| && Refs(t) == RemoveAt(Refs(s), k)
    ensures Distinct(Refs(s)) ==> Accounts(s, Pass(t, [s[k].body]))
  {
    var xs := Refs(s);
    if Distinct(xs) {
      RefsAt(s);
      assert [xs[k]] + [] == [s[k].body];
      MultisetRemoveAt(xs, k);
      DistinctRemoveAt(xs, k);
      WithoutRemoveAt(xs, k, []);
      WithoutNothing(RemoveAt(xs, k));
    }
  }

  /** Two runs one after the other account for the bodies the two absorb. */
  lemma AccountsCompose<B>(s: seq<Slot<B>>, p: Pass<B>, q: Pass<B>)
    requires Distinct(Refs(s)) ==> Accounts(s, p)
    requires Distinct(Refs(p.slots)) ==> Accounts(p.slots, q)
    ensures Distinct(Refs(s)) ==> Accounts(s, Pass(q.slots, p.absorbed + q.absorbed))
  {
    if Distinct(Refs(s)) {
      DistinctWithout(Refs(s), p.absorbed);
      WithoutTwice(Refs(s), p.absorbed, q.absorbed);
    }
  }

  /** What every part of a step keeps between the list `s` and its result
      `r`: the totals of mass, momentum and mass-weighted position; the total
      force when nothing is absorbed; and, for a list without repeats, the
      accounts of the bodies. */
  predicate Keeps<B(==)>(s: seq<Slot<B>>, r: Pass<B>) {
    && SameTotals(r.slots, s)
    && (r.absorbed == [] ==> Total(r.slots, Force) == Total(s, Force))
    && (Distinct(Refs(s)) ==> Accounts(s, r))
  }

  /** Doing nothing keeps everything. */
  lemma KeepsAll<B>(s: seq<Slot<B>>)
    ensures Keeps(s, Pass(s, []))
  {
    KeepAccounts(s, s);
  }

  /** Two parts of a step one after the other keep what each keeps. */
  lemma KeepsCompose<B>(s: seq<Slot<B>>, p: Pass<B>, q: Pass<B>)
    requires Keeps(s, p) && Keeps(p.slots, q)
    ensures Keeps(s, Pass(q.slots, p.absorbed + q.absorbed))
  {
    AccountsCompose(s, p, q);
  }
}
