/** First fit: one thing after the other takes the first free one of the places that it
    can use.  A table has the places for each thing. */
module FirstFits {
  import opened Sets

  type Table = seq<set<nat>>

  ghost predicate AllDifferent(a: seq<nat>) { forall i, j | 0 <= i < j < |a| :: a[i] != a[j] }

  ghost predicate TakesFirst(able: set<nat>, taken: seq<nat>, v: nat) {
    v in able && v !in taken && forall k: nat | k < v :: k in taken || k !in able
  }

  ghost predicate Fitted(t: Table, at: seq<nat>) {
    |at| <= |t| && forall i | 0 <= i < |at| :: TakesFirst(t[i], at[..i], at[i])
  }

  /** First fit has no place for thing number |at|. */
  ghost predicate Fails(t: Table, at: seq<nat>) {
    |at| < |t| && Fitted(t, at) && forall k | k in t[|at|] :: k in at
  }

  /** Everything has a place of its own. */
  ghost predicate Assignment(t: Table, a: seq<nat>) {
    |a| == |t| && AllDifferent(a) && forall i | 0 <= i < |t| :: a[i] in t[i]
  }

  /** First fit fails only where no assignment exists. */
  ghost predicate Right(t: Table) { forall at, a :: Fails(t, at) ==> !Assignment(t, a) }

  /** Two things that have a place in common: the later one can use every place that
      the earlier one can. */
  ghost predicate Nested(t: Table) {
    forall i, m, v, w | 0 <= i < m < |t| && v in t[i] && v in t[m] && w in t[i] :: w in t[m]
  }

  lemma FittedDifferent(t: Table, at: seq<nat>)
    requires Fitted(t, at)
    ensures AllDifferent(at)
  {
    forall i, j | 0 <= i < j < |at| ensures at[i] != at[j] {
      assert TakesFirst(t[j], at[..j], at[j]) && at[..j][i] == at[i];
    }
  }

  // ---- Counting ----

  ghost function Image(f: seq<nat>, idx: set<nat>): set<nat>
    requires forall i | i in idx :: i < |f|
  {
    set i | i in idx :: f[i]
  }

  lemma {:induction false} ImageSize(f: seq<nat>, idx: set<nat>)
    requires AllDifferent(f) && forall i | i in idx :: i < |f|
    ensures |Image(f, idx)| == |idx|
    decreases |idx|
  {
    if i: nat :| i in idx {
      ImageSize(f, idx - {i});
      assert Image(f, idx) == Image(f, idx - {i}) + {f[i]};
      assert f[i] !in Image(f, idx - {i});
    } else {
      NoMember(idx);
    }
  }

  /** Earlier things on places that thing m could use. */
  ghost function Rivals(t: Table, at: seq<nat>): set<nat>
    requires |at| < |t|
  {
    set i: nat | i < |at| && at[i] in t[|at|]
  }

  lemma AllTaken(t: Table, at: seq<nat>)
    requires Fails(t, at)
    ensures |t[|at|]| <= |Rivals(t, at)|
  {
    var rivals := Rivals(t, at);
    FittedDifferent(t, at);
    ImageSize(at, rivals);
    forall k | k in t[|at|] ensures k in Image(at, rivals) {
      assert k in at;
      var i :| 0 <= i < |at| && at[i] == k;
      assert i in rivals;
    }
    SubsetSize(t[|at|], Image(at, rivals));
  }

  lemma RivalsNeedMore(t: Table, at: seq<nat>, a: seq<nat>)
    requires Nested(t) && Fails(t, at) && Assignment(t, a)
    ensures |Rivals(t, at)| + 1 <= |t[|at|]|
  {
    var m := |at|;
    var all := Rivals(t, at) + {m};
    forall i | i in all ensures i < |a| && a[i] in t[m] {
      if i != m { assert TakesFirst(t[i], at[..i], at[i]) && at[i] in t[i] && at[i] in t[m]; }
    }
    ImageSize(a, all);
    SubsetSize(Image(a, all), t[m]);
  }

  /** Where the places are nested, those of the thing that first fit fails at are all
      taken by things that can go nowhere else. */
  lemma NestedIsRight(t: Table)
    requires Nested(t)
    ensures Right(t)
  {
    forall at, a | Fails(t, at) && Assignment(t, a) ensures false {
      AllTaken(t, at);
      RivalsNeedMore(t, at, a);
    }
  }

  // ---- Fewer things, and fewer places in another order ----

  ghost predicate Selection(pick: seq<nat>, idx: seq<nat>, things: nat) {
    && AllDifferent(pick) && (forall i | 0 <= i < |idx| :: idx[i] < things)
    && forall i, j | 0 <= i < j < |idx| :: idx[i] < idx[j]
  }

  /** The table of the chosen things and places; place k is the one that was pick[k]. */
  ghost function Sub(t: Table, pick: seq<nat>, idx: seq<nat>): (r: Table)
    requires Selection(pick, idx, |t|)
    ensures |r| == |idx|
    ensures forall i | 0 <= i < |idx| :: r[i] == set k: nat | k < |pick| && pick[k] in t[idx[i]]
  {
    seq(|idx|, i requires 0 <= i < |idx| => set k: nat | k < |pick| && pick[k] in t[idx[i]])
  }

  lemma NestedSub(t: Table, pick: seq<nat>, idx: seq<nat>)
    requires Nested(t) && Selection(pick, idx, |t|)
    ensures Nested(Sub(t, pick, idx))
  {
    var r := Sub(t, pick, idx);
    forall i, m, v, w | 0 <= i < m < |r| && v in r[i] && v in r[m] && w in r[i] ensures w in r[m] {
      assert pick[v] in t[idx[i]] && pick[v] in t[idx[m]] && pick[w] in t[idx[i]];
    }
  }

  /** Things i and m share place v, and w is for i only: with v listed first, thing i
      takes v, and m has none. */
  lemma NotNestedFails(t: Table, i: nat, m: nat, v: nat, w: nat)
    requires i < m < |t| && v in t[i] && v in t[m] && w in t[i] && w !in t[m]
    ensures Selection([v, w], [i, m], |t|) && !Right(Sub(t, [v, w], [i, m]))
  {
    var r := Sub(t, [v, w], [i, m]);
    assert r[0] == {0, 1} && r[1] == {0};
    assert [0][..0] == [];
    assert TakesFirst(r[0], [0][..0], [0][0]);
    assert Fails(r, [0]) && Assignment(r, [1, 0]);
  }

  /** First fit is right for every choice of the things and places and every order of
      the places, exactly if the places are nested. */
  lemma RightIff(t: Table)
    ensures Nested(t) <==> forall pick, idx | Selection(pick, idx, |t|) :: Right(Sub(t, pick, idx))
  {
    if Nested(t) {
      forall pick, idx | Selection(pick, idx, |t|) ensures Right(Sub(t, pick, idx)) {
        NestedSub(t, pick, idx);
        NestedIsRight(Sub(t, pick, idx));
      }
    } else {
      var i, m, v, w :| 0 <= i < m < |t| && v in t[i] && v in t[m] && w in t[i] && w !in t[m];
      NotNestedFails(t, i, m, v, w);
    }
  }
}
