/** Placing slots one by one: each takes any of its servers that no slot it is related to
    has taken.  This is list colouring without looking ahead. */
module SlotColours {
  import opened Sets

  /** The servers of every slot, and the pairs of slots that need different ones. */
  datatype Table = Table(seers: map<int, set<string>>, share: set<(int, int)>) {
    predicate Shares(r: int, s: int) { r != s && ((r, s) in share || (s, r) in share) }
  }

  ghost predicate Fits(t: Table, plan: map<int, string>) {
    && (forall s | s in plan :: s in t.seers && plan[s] in t.seers[s])
    && forall r, s | r in plan && s in plan && t.Shares(r, s) :: plan[r] != plan[s]
  }

  /** Everything is placed. */
  ghost predicate Whole(t: Table, plan: map<int, string>) { Fits(t, plan) && plan.Keys == t.seers.Keys }

  ghost predicate TakenBy(t: Table, plan: map<int, string>, slot: int, v: string, r: int) {
    r in plan && plan[r] == v && t.Shares(r, slot)
  }

  /** With this much of a plan there is no server for the slot. */
  ghost predicate Stuck(t: Table, plan: map<int, string>, slot: int) {
    && Fits(t, plan) && slot in t.seers && slot !in plan
    && forall v | v in t.seers[slot] :: exists r :: TakenBy(t, plan, slot, v, r)
  }

  /** Whatever was taken, one gets stuck only where no whole plan exists. */
  ghost predicate Right(t: Table) { forall plan, slot, whole :: Stuck(t, plan, slot) ==> !Whole(t, whole) }

  /** Slots that share have the same servers, or none in common; and if two slots that
      share with a third do not share with each other, all with the same servers, there
      is just one such server. */
  ghost predicate Calm(t: Table) {
    && (forall r, s | r in t.seers && s in t.seers && t.Shares(r, s) :: t.seers[r] == t.seers[s] || t.seers[r] !! t.seers[s])
    && forall q, r, s, a, b | Fork(t, q, r, s) && a in t.seers[s] && b in t.seers[s] :: a == b
  }

  ghost predicate Fork(t: Table, q: int, r: int, s: int) {
    && q in t.seers && r in t.seers && s in t.seers && q != r
    && t.Shares(q, s) && t.Shares(r, s) && !t.Shares(q, r)
    && t.seers[q] == t.seers[r] == t.seers[s]
  }

  /** Some of the slots, and some of the servers. */
  function Sub(t: Table, slots: set<int>, servers: set<string>): Table {
    Table(map s | s in t.seers && s in slots :: t.seers[s] * servers, t.share)
  }

  // ---- Calm tables ----

  ghost predicate AllDifferent(s: seq<string>) { forall i, j | 0 <= i < j < |s| :: s[i] != s[j] }

  /** The servers one by one, and who has taken them. */
  lemma {:induction false} Takers(t: Table, plan: map<int, string>, slot: int, taken: set<string>) returns (vs: seq<string>, rs: seq<int>)
    requires forall v | v in taken :: exists r :: TakenBy(t, plan, slot, v, r)
    ensures |vs| == |rs| == |taken| && AllDifferent(vs)
    ensures forall i | 0 <= i < |vs| :: vs[i] in taken && TakenBy(t, plan, slot, vs[i], rs[i])
    decreases |taken|
  {
    if v :| v in taken {
      vs, rs := Takers(t, plan, slot, taken - {v});
      var r :| TakenBy(t, plan, slot, v, r);
      vs, rs := vs + [v], rs + [r];
    } else {
      NoMember(taken);
      vs, rs := [], [];
    }
  }

  lemma {:induction false} DifferentFit(xs: seq<string>, s: set<string>)
    requires AllDifferent(xs) && forall i | 0 <= i < |xs| :: xs[i] in s
    ensures |xs| <= |s|
  {
    if xs != [] {
      var n := |xs| - 1;
      DifferentFit(xs[..n], s - {xs[n]});
    }
  }

  lemma RivalElsewhere(t: Table, plan: map<int, string>, slot: int, whole: map<int, string>, v: string, r: int)
    requires Calm(t) && Stuck(t, plan, slot) && Whole(t, whole) && v in t.seers[slot] && TakenBy(t, plan, slot, v, r)
    ensures r in t.seers && t.seers[r] == t.seers[slot] && r in whole && slot in whole
    ensures whole[r] in t.seers[slot] && whole[r] != whole[slot]
  {
    assert v in t.seers[r] && v in t.seers[slot];
  }

  lemma RivalsDiffer(t: Table, plan: map<int, string>, slot: int, whole: map<int, string>, u: string, q: int, v: string, r: int)
    requires Calm(t) && Stuck(t, plan, slot) && Whole(t, whole) && u in t.seers[slot] && v in t.seers[slot] && u != v
    requires TakenBy(t, plan, slot, u, q) && TakenBy(t, plan, slot, v, r)
    ensures q in whole && r in whole && whole[q] != whole[r]
  {
    RivalElsewhere(t, plan, slot, whole, u, q);
    RivalElsewhere(t, plan, slot, whole, v, r);
    if !t.Shares(q, r) { assert Fork(t, q, r, slot); }
  }

  /** In a whole plan those who have taken the servers of a slot need others of them,
      one each, and so does the slot. */
  lemma CalmHasNoWhole(t: Table, plan: map<int, string>, slot: int, whole: map<int, string>)
    requires Calm(t) && Stuck(t, plan, slot)
    ensures !Whole(t, whole)
  {
    if Whole(t, whole) {
      var seers := t.seers[slot];
      var vs, rs := Takers(t, plan, slot, seers);
      var xs := OwnPlaces(t, plan, slot, whole, vs, rs);
      assert |seers - {whole[slot]}| == |seers| - 1;
      DifferentFit(xs, seers - {whole[slot]});
    }
  }

  lemma OwnPlaces(t: Table, plan: map<int, string>, slot: int, whole: map<int, string>, vs: seq<string>, rs: seq<int>) returns (xs: seq<string>)
    requires Calm(t) && Stuck(t, plan, slot) && Whole(t, whole) && |vs| == |rs| && AllDifferent(vs)
    requires forall i | 0 <= i < |vs| :: vs[i] in t.seers[slot] && TakenBy(t, plan, slot, vs[i], rs[i])
    ensures |xs| == |vs| && AllDifferent(xs) && forall i | 0 <= i < |xs| :: xs[i] in t.seers[slot] - {whole[slot]}
  {
    forall i | 0 <= i < |vs| ensures rs[i] in whole && whole[rs[i]] in t.seers[slot] - {whole[slot]} {
      RivalElsewhere(t, plan, slot, whole, vs[i], rs[i]);
    }
    xs := seq(|vs|, i requires 0 <= i < |vs| => whole[rs[i]]);
    forall i, j | 0 <= i < j < |xs| ensures xs[i] != xs[j] { RivalsDiffer(t, plan, slot, whole, vs[i], rs[i], vs[j], rs[j]); }
  }

  lemma CalmIsRight(t: Table)
    requires Calm(t)
    ensures Right(t)
  {
    forall plan, slot, whole | Stuck(t, plan, slot) ensures !Whole(t, whole) { CalmHasNoWhole(t, plan, slot, whole); }
  }

  lemma CalmSub(t: Table, slots: set<int>, servers: set<string>)
    requires Calm(t)
    ensures Calm(Sub(t, slots, servers))
  {
    var u := Sub(t, slots, servers);
    forall q, r, s, a, b | Fork(u, q, r, s) && a in u.seers[s] && b in u.seers[s] ensures a == b {
      assert a in t.seers[q] && a in t.seers[r] && a in t.seers[s];
      assert Fork(t, q, r, s);
    }
  }

  // ---- Others ----

  /** Two slots that share a server v, and one of them has another one, w. */
  lemma PairFails(t: Table, r: int, s: int, v: string, w: string)
    requires r in t.seers && s in t.seers && t.Shares(r, s)
    requires v in t.seers[r] && v in t.seers[s] && w in t.seers[r] && w !in t.seers[s]
    ensures !Right(Sub(t, {r, s}, {v, w}))
  {
    var u := Sub(t, {r, s}, {v, w});
    var plan, whole := map[r := v], map[r := w, s := v];
    assert TakenBy(u, plan, s, v, r);
    assert u.seers[s] == {v};
    assert Stuck(u, plan, s);
    assert whole.Keys == {r, s} == u.seers.Keys;
    assert Whole(u, whole);
  }

  /** Two slots that do not share with each other take the two servers of a third. */
  lemma ForkFails(t: Table, q: int, r: int, s: int, a: string, b: string)
    requires Fork(t, q, r, s) && a in t.seers[s] && b in t.seers[s] && a != b
    ensures !Right(Sub(t, {q, r, s}, {a, b}))
  {
    var u := Sub(t, {q, r, s}, {a, b});
    var plan, whole := map[q := a, r := b], map[q := a, r := a, s := b];
    assert TakenBy(u, plan, s, a, q) && TakenBy(u, plan, s, b, r);
    assert u.seers[s] == {a, b};
    assert Stuck(u, plan, s);
    assert whole.Keys == {q, r, s} == u.seers.Keys;
    assert Whole(u, whole);
  }

  lemma NotCalmFails(t: Table) returns (slots: set<int>, servers: set<string>)
    requires !Calm(t)
    ensures !Right(Sub(t, slots, servers))
  {
    if q, r, s, a, b :| Fork(t, q, r, s) && a in t.seers[s] && b in t.seers[s] && a != b {
      ForkFails(t, q, r, s, a, b);
      slots, servers := {q, r, s}, {a, b};
    } else {
      var r, s :| r in t.seers && s in t.seers && t.Shares(r, s) && t.seers[r] != t.seers[s] && !(t.seers[r] !! t.seers[s]);
      var v :| v in t.seers[r] && v in t.seers[s];
      if w :| w in t.seers[r] && w !in t.seers[s] {
        PairFails(t, r, s, v, w);
        slots, servers := {r, s}, {v, w};
      } else {
        var w :| w in t.seers[s] && w !in t.seers[r];
        PairFails(t, s, r, v, w);
        slots, servers := {s, r}, {v, w};
      }
    }
  }

  /** For every choice of the slots and the servers it does not matter in which order
      slots are placed and which server is taken, exactly if the table is calm. */
  lemma RightIff(t: Table)
    ensures Calm(t) <==> forall slots, servers :: Right(Sub(t, slots, servers))
  {
    if Calm(t) {
      forall slots, servers ensures Right(Sub(t, slots, servers)) {
        CalmSub(t, slots, servers);
        CalmIsRight(Sub(t, slots, servers));
      }
    } else {
      var slots, servers := NotCalmFails(t);
    }
  }
}
