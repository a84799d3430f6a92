/** What one `step` keeps and what it changes: total mass always, total
    momentum when nothing merges, the bodies that survive and their order,
    and the quirk by which a merge hides the next body from the current
    one. */
module StepLaws {
  import opened RealArith
  import opened Vectors
  import opened Bodies
  import opened Slots
  import opened StepSpec

  /** Every force is zero, so is their sum. */
  lemma {:induction false} ForceFree<B>(s: seq<Slot<B>>)
    requires forall n :: 0 <= n < |s| ==> s[n].state.force == Zero
    ensures Total(s, Force) == Zero
  {
    if s != [] {
      ForceFree(s[1..]);
    }
  }

  /** The update loop keeps every mass. */
  lemma {:induction false} IntegrateKeepsMass<B>(s: seq<Slot<B>>, dt: real)
    requires AllWellFormed(s)
    ensures TotalMass(Integrate(s, dt)) == TotalMass(s)
  {
    if s != [] {
      assert Integrate(s, dt)[1..] == Integrate(s[1..], dt);
      IntegrateKeepsMass(s[1..], dt);
    }
  }

  /** The update loop adds the total impulse to the total momentum. */
  lemma {:induction false} IntegrateImpulse<B>(s: seq<Slot<B>>, dt: real)
    requires AllWellFormed(s)
    ensures Total(Integrate(s, dt), Momentum) == Add(Total(s, Momentum), Scale(Total(s, Force), dt))
  {
    if s != [] {
      assert Integrate(s, dt)[1..] == Integrate(s[1..], dt);
      IntegrateImpulse(s[1..], dt);
      Impulse(s[0].state, dt);
      ScaleAdd(s[0].state.force, Total(s[1..], Force), dt);
    }
  }

  /** A step never creates or destroys mass. */
  lemma StepConservesMass<B>(root: real -> real, s: seq<Slot<B>>, dt: real)
    requires IsSqrt(root) && AllWellFormed(s)
    ensures TotalMass(Stepped(root, s, dt).slots) == TotalMass(s)
  {
    PairsKeeps(root, s, 0);
    IntegrateKeepsMass(Pairs(root, s, 0).slots, dt);
  }

  /** A step in which nothing merges, started (as every step is) with no
      force on any body, keeps the total momentum: the forces the pairs
      exchange cancel. With a merge this fails in general, since the force
      already accumulated on an absorbed body is discarded. */
  lemma StepConservesMomentumWithoutContact<B>(root: real -> real, s: seq<Slot<B>>, dt: real)
    requires IsSqrt(root) && AllWellFormed(s)
    requires forall n :: 0 <= n < |s| ==> s[n].state.force == Zero
    requires Stepped(root, s, dt).absorbed == []
    ensures Total(Stepped(root, s, dt).slots, Momentum) == Total(s, Momentum)
  {
    var p := Pairs(root, s, 0);
    PairsKeeps(root, s, 0);
    ForceFree(s);
    var f := Total(p.slots, Force);
    assert f == Zero;
    IntegrateImpulse(p.slots, dt);
    ScaleZero(f, dt);
    var m := Total(p.slots, Momentum);
    assert Total(Integrate(p.slots, dt), Momentum) == Add(m, Zero);
    AddZero(m);
    assert Stepped(root, s, dt).slots == Integrate(p.slots, dt);
  }

  // ---------------------------------------------------------------------
  // Which bodies survive

  /** After a step the bodies are those that were there minus the absorbed
      ones, in their old order, each absorbed body having been there once. */
  lemma StepAccounts<B>(root: real -> real, s: seq<Slot<B>>, dt: real)
    requires IsSqrt(root) && AllWellFormed(s) && Distinct(Refs(s))
    ensures var r := Stepped(root, s, dt);
            && Refs(r.slots) == Without(Refs(s), r.absorbed)
            && multiset(Refs(s)) == multiset(Refs(r.slots)) + multiset(r.absorbed)
  {
    PairsKeeps(root, s, 0);
    RefsIntegrate(Pairs(root, s, 0).slots, dt);
  }

  /** The update loop keeps the bodies in their order. */
  lemma RefsIntegrate<B>(s: seq<Slot<B>>, dt: real)
    requires AllWellFormed(s)
    ensures Refs(Integrate(s, dt)) == Refs(s)
  {
    RefsAt(s);
    RefsAt(Integrate(s, dt));
  }

  // ---------------------------------------------------------------------
  // The skipped pair

  /** Three bodies in the same place: the first absorbs the second, and the
      iterator then steps over the third, so the first and the third still
      overlap when the step's interactions are over. */
  lemma SkipAfterMerge<B>(root: real -> real, x: B, y: B, z: B, st: BodyState)
    requires IsSqrt(root) && WellFormed(st)
    ensures var m := Merged(root, st, st);
            && Pairs(root, [Slot(x, st), Slot(y, st), Slot(z, st)], 0) == Pass([Slot(x, m), Slot(z, st)], [y])
            && Collides(root, m, st)
  {
    var s := [Slot(x, st), Slot(y, st), Slot(z, st)];
    var m := Merged(root, st, st);
    assert Collides(root, st, st);
    MergeKeepsWellFormed(root, st, st);
    var s2 := RemoveAt(s[0 := Slot(x, m)], 1);
    assert s2 == [Slot(x, m), Slot(z, st)];
    assert Inner(root, s, 0, 0) == Pass(s2, [y]);
    assert Pairs(root, s2, 1) == Pass(s2, []);
    SameCentre(root, st);
  }

  /** The skip in general: once `body_a` at `i` has absorbed the body at
      `k == i + 1 + j`, the inner loop resumes at `j + 1`, that is at index
      `k + 1` of the shortened list, which holds the old `s[k + 2]`. The old
      `s[k + 1]` has moved to index `k`, which the resumed loop never visits. */
  lemma SkipsNextBody<B>(root: real -> real, s: seq<Slot<B>>, i: nat, j: nat)
    requires IsSqrt(root) && i + 3 + j < |s| && AllWellFormed(s)
    requires Turn(root, s, i, i + 1 + j).absorbed != []
    ensures var t := Turn(root, s, i, i + 1 + j).slots;
            && Inner(root, s, i, j).slots == Inner(root, t, i, j + 1).slots
            && t[i + 1 + j].body == s[i + 2 + j].body
            && t[i + 2 + j].body == s[i + 3 + j].body
  {
    var t := Turn(root, s, i, i + 1 + j).slots;
    InnerStep(root, s, i, j);
    RefsAt(s);
    RefsAt(t);
  }

  /** A body merged with a copy of itself stays where it was. */
  lemma SameCentre(root: real -> real, st: BodyState)
    requires IsSqrt(root) && WellFormed(st)
    ensures Merged(root, st, st).position == st.position
  {
    var m := Merged(root, st, st);
    var p, q := st.position, m.position;
    var px, ppx, qx := st.mass * p.x, m.mass * p.x, q.x * m.mass;
    var py, ppy, qy := st.mass * p.y, m.mass * p.y, q.y * m.mass;
    Distribute(st.mass, st.mass, m.mass, p.x, px, px, ppx);
    Distribute(st.mass, st.mass, m.mass, p.y, py, py, ppy);
    CancelFactor(q.x, p.x, m.mass, qx, ppx);
    CancelFactor(q.y, p.y, m.mass, qy, ppy);
  }
}
