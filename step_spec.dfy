/** A description of `Simulation.step` over values. `Inner` is the inner loop
    for the body at index `i`, with the position `j` of the iterator over the
    working copy `body_list` made explicit; `Pairs` is the outer loop over the
    bodies; `Stepped` adds the final update of every survivor. Each loop
    states in its contract what it keeps: the totals of mass, momentum and
    mass-weighted position, the total force when nothing merges, and which
    bodies survive (for the outer loop, in the lemma `PairsKeeps`). The class `Simulation` in module `Gravity` is proved to
    do what `Stepped` says. */
module StepSpec {
  import opened Vectors
  import opened Bodies
  import opened Slots

  /** Absorbing `s[k]` into `s[i]` keeps the total mass, momentum and
      mass-weighted position. */
  lemma MergeConserves<B>(root: real -> real, s: seq<Slot<B>>, i: nat, k: nat)
    requires IsSqrt(root) && i < k < |s| && AllWellFormed(s)
    ensures SameTotals(RemoveAt(s[i := Slot(s[i].body, Merged(root, s[i].state, s[k].state))], k), s)
  {
    var z := Slot(s[i].body, Merged(root, s[i].state, s[k].state));
    MassUpdate(s, i, z);
    MassRemoveAt(s[i := z], k);
    MergeKeepsTotal(s, i, k, z, Momentum);
    MergeKeepsTotal(s, i, k, z, Moment);
  }

  /** Letting `s[i]` and `s[k]` attract each other keeps the same totals
      and the total force. */
  lemma AttractConserves<B>(root: real -> real, s: seq<Slot<B>>, i: nat, k: nat)
    requires IsSqrt(root) && i < k < |s| && Attract(root, s[i].state, s[k].state).Ok?
    ensures var pulled := Attract(root, s[i].state, s[k].state).value;
            var t := s[i := Slot(s[i].body, pulled.0)][k := Slot(s[k].body, pulled.1)];
            SameTotals(t, s) && Total(t, Force) == Total(s, Force)
  {
    var pulled := Attract(root, s[i].state, s[k].state).value;
    var x, y := Slot(s[i].body, pulled.0), Slot(s[k].body, pulled.1);
    MassUpdate(s, i, x);
    MassUpdate(s[i := x], k, y);
    ExchangeKeepsTotal(s, i, k, x, y, Momentum);
    ExchangeKeepsTotal(s, i, k, x, y, Moment);
    ExchangeKeepsTotal(s, i, k, x, y, Force);
  }

  /** One turn of the inner loop of `step`: `body_a` at index `i` meets
      `body_b` at index `k`. If they collide, `body_b` is merged into `body_a`
      and leaves the list; otherwise the two attract each other, which never
      fails, because well-formed bodies that do not collide are apart. Every
      body before `k` keeps its place, the bodies are those of `s` but for
      the absorbed one, and the turn keeps what `Keeps` names. */
  function Turn<B>(root: real -> real, s: seq<Slot<B>>, i: nat, k: nat): (r: Pass<B>)
    requires IsSqrt(root) && i < k < |s| && AllWellFormed(s)
    ensures |r.slots| + |r.absorbed| == |s| && k <= |r.slots|
    ensures AllWellFormed(r.slots) && r.slots[..i] == s[..i] && r.slots[i].body == s[i].body
    ensures r.absorbed == [] ==> Refs(r.slots) == Refs(s)
    ensures r.absorbed != [] ==> r.absorbed == [s[k].body] && Refs(r.slots) == RemoveAt(Refs(s), k)
    ensures Keeps(s, r)
  {
    var a, b := s[i].state, s[k].state;
    if Collides(root, a, b) then
      MergeKeepsWellFormed(root, a, b);
      var z := Slot(s[i].body, Merged(root, a, b));
      var t := Absorbed(root, s, i, k);
      RefsRemoveAt(s, i, k, z);
      MergeConserves(root, s, i, k);
      DropAccounts(s, t, k);
      Pass(t, [s[k].body])
    else
      SeparatedBodiesAttract(root, a, b);
      var pulled := Attract(root, a, b).value;
      var x, y := Slot(s[i].body, pulled.0), Slot(s[k].body, pulled.1);
      var t := Pulled(root, s, i, k);
      RefsExchange(s, i, k, x, y);
      AttractConserves(root, s, i, k);
      KeepAccounts(s, t);
      Pass(t, [])
  }

  /** The collision branch of a turn: `s[k]` is merged into `s[i]` and
      leaves the list. */
  function Absorbed<B>(root: real -> real, s: seq<Slot<B>>, i: nat, k: nat): seq<Slot<B>>
    requires IsSqrt(root) && i < k < |s| && AllWellFormed(s)
  {
    RemoveAt(s[i := Slot(s[i].body, Merged(root, s[i].state, s[k].state))], k)
  }

  /** The other branch: `s[i]` and `s[k]` attract each other. */
  function Pulled<B>(root: real -> real, s: seq<Slot<B>>, i: nat, k: nat): seq<Slot<B>>
    requires IsSqrt(root) && i < k < |s| && AllWellFormed(s) && !Collides(root, s[i].state, s[k].state)
  {
    SeparatedBodiesAttract(root, s[i].state, s[k].state);
    var pulled := Attract(root, s[i].state, s[k].state).value;
    s[i := Slot(s[i].body, pulled.0)][k := Slot(s[k].body, pulled.1)]
  }

  /** The inner loop of `step` for `body_a` at index `i`, resumed with the
      iterator of `body_list` at position `j`. `body_list` holds the bodies
      after index `i`, so its element `j` is `s[i + 1 + j]`. The iterator
      advances after every turn, also after one that removed `body_b`, so the
      body that followed an absorbed one is skipped. The loop keeps what
      `Keeps` names. */
  function Inner<B>(root: real -> real, s: seq<Slot<B>>, i: nat, j: nat): (r: Pass<B>)
    requires IsSqrt(root) && i < |s| && AllWellFormed(s)
    ensures i < |r.slots| && |r.slots| + |r.absorbed| == |s|
    ensures r.slots[..i] == s[..i] && r.slots[i].body == s[i].body
    ensures AllWellFormed(r.slots)
    ensures Keeps(s, r)
    decreases |s| - i - j
  {
    var k := i + 1 + j;
    if k >= |s| then
      KeepsAll(s);
      Pass(s, [])
    else
      var t := Turn(root, s, i, k);
      var rest := Inner(root, t.slots, i, j + 1);
      KeepsCompose(s, t, rest);
      Pass(rest.slots, t.absorbed + rest.absorbed)
  }

  /** One turn of the inner loop, seen from outside: resuming at `j` is
      taking the turn with `s[i + 1 + j]` and resuming at `j + 1`. */
  lemma InnerStep<B>(root: real -> real, s: seq<Slot<B>>, i: nat, j: nat)
    requires IsSqrt(root) && i + 1 + j < |s| && AllWellFormed(s)
    ensures Inner(root, s, i, j).slots == Inner(root, Turn(root, s, i, i + 1 + j).slots, i, j + 1).slots
  {
  }

  /** The inner loop ends when the iterator has run past the list. */
  lemma InnerDone<B>(root: real -> real, s: seq<Slot<B>>, i: nat, j: nat)
    requires IsSqrt(root) && i < |s| <= i + 1 + j && AllWellFormed(s)
    ensures Inner(root, s, i, j).slots == s
  {
  }

  /** The outer loop of `step`, from index `i` on. Removals only ever hit
      bodies after the current one, so the walk visits every survivor and
      leaves the bodies before index `i` as they are. */
  function Pairs<B>(root: real -> real, s: seq<Slot<B>>, i: nat): (r: Pass<B>)
    requires IsSqrt(root) && i <= |s| && AllWellFormed(s)
    ensures i <= |r.slots| && |r.slots| + |r.absorbed| == |s|
    ensures r.slots[..i] == s[..i]
    ensures AllWellFormed(r.slots)
    decreases |s| - i
  {
    if i == |s| then
      Pass(s, [])
    else
      var p := Inner(root, s, i, 0);
      var q := Pairs(root, p.slots, i + 1);
      assert q.slots[..i] == q.slots[..i + 1][..i];
      assert p.slots[..i] == p.slots[..i + 1][..i];
      Pass(q.slots, p.absorbed + q.absorbed)
  }

  /** The outer loop keeps what `Keeps` names. */
  lemma {:induction false} PairsKeeps<B>(root: real -> real, s: seq<Slot<B>>, i: nat)
    requires IsSqrt(root) && i <= |s| && AllWellFormed(s)
    ensures Keeps(s, Pairs(root, s, i))
    decreases |s| - i
  {
    if i == |s| {
      KeepsAll(s);
    } else {
      var p := Inner(root, s, i, 0);
      PairsKeeps(root, p.slots, i + 1);
      KeepsCompose(s, p, Pairs(root, p.slots, i + 1));
    }
  }

  /** One round of the outer loop, seen from outside: resuming at `i` is
      running the inner loop for `s[i]` and resuming at `i + 1`. */
  lemma PairsStep<B>(root: real -> real, s: seq<Slot<B>>, i: nat)
    requires IsSqrt(root) && i < |s| && AllWellFormed(s)
    ensures Pairs(root, s, i).slots == Pairs(root, Inner(root, s, i, 0).slots, i + 1).slots
  {
  }

  /** The outer loop ends at the end of the list. */
  lemma PairsDone<B>(root: real -> real, s: seq<Slot<B>>)
    requires IsSqrt(root) && AllWellFormed(s)
    ensures Pairs(root, s, |s|).slots == s
  {
  }

  /** The final loop of `step`: every survivor is updated once, in order. */
  function Integrate<B>(s: seq<Slot<B>>, dt: real): (r: seq<Slot<B>>)
    requires AllWellFormed(s)
    ensures |r| == |s|
    ensures forall n :: 0 <= n < |s| ==> r[n] == Slot(s[n].body, Integrated(s[n].state, dt))
  {
    if s == [] then [] else [Slot(s[0].body, Integrated(s[0].state, dt))] + Integrate(s[1..], dt)
  }

  /** One `step` with the time increment `dt`: the survivors in order with
      their new states, and the absorbed bodies. */
  function Stepped<B>(root: real -> real, s: seq<Slot<B>>, dt: real): (r: Pass<B>)
    requires IsSqrt(root) && AllWellFormed(s)
    ensures |r.slots| + |r.absorbed| == |s|
    ensures AllWellFormed(r.slots)
    ensures forall n :: 0 <= n < |r.slots| ==> r.slots[n].state.force == Zero
  {
    var p := Pairs(root, s, 0);
    var t := Integrate(p.slots, dt);
    assert AllWellFormed(t) by {
      forall n | 0 <= n < |t| ensures WellFormed(t[n].state) {
        assert t[n].state == Integrated(p.slots[n].state, dt);
      }
    }
    Pass(t, p.absorbed)
  }
}
