/** Load balancing: how a bridge spreads VLANs over its additional trunks. */
module VlanLayout {
  import opened Options
  import opened VlanBridges

  // ---- Load balancing ----

  function Full(n: nat): (r: seq<nat>)
    ensures |r| == n && forall i | 0 <= i < n :: r[i] == MAX_VLANS_PER_VEA
  {
    if n == 0 then [] else Full(n - 1) + [MAX_VLANS_PER_VEA]
  }

  /** k full pairs of trunks, then one pair with `rest` VLANs, filled evenly. */
  function Pairs(k: nat, rest: nat): seq<nat> {
    Full(2 * k) + (if rest == 0 then [] else if rest == 1 then [1] else [(rest + 1) / 2, rest / 2])
  }

  /** Tag counts after n VLANs on a load-balanced bridge that had no additional
      trunk. */
  function Spread(n: nat): seq<nat> { Pairs(n / 40, n % 40) }

  lemma {:induction false} NumAvailableSplit(a: seq<nat>, b: seq<nat>)
    ensures NumAvailable(a + b) == NumAvailable(a) + NumAvailable(b)
  {
    if b == [] {
      assert a + b == a;
    } else {
      NumAvailableSplit(a, b[..|b| - 1]);
      assert (a + b)[..|a + b| - 1] == a + b[..|b| - 1];
    }
  }

  lemma {:induction false} NumAvailableFull(n: nat)
    ensures NumAvailable(Full(n)) == 0
  {
    if n > 0 {
      NumAvailableFull(n - 1);
      assert Full(n)[..n - 1] == Full(n - 1);
    }
  }

  function Bump(counts: seq<nat>, at: Option<nat>): seq<nat>
    requires at.Some? ==> at.value < |counts|
  {
    if at.Some? then counts[at.value := counts[at.value] + 1] else counts + [1]
  }

  /** The tag counts after one more VLAN. */
  function NextCounts(counts: seq<nat>, lb: bool, acrossVeas: bool): seq<nat> {
    Bump(counts, FindAvailable(counts, lb, acrossVeas))
  }

  /** A new pair is opened by two VLANs, one for each of its trunks. */
  lemma PairOpens(k: nat)
    ensures NextCounts(Pairs(k, 0), true, false) == Pairs(k, 1)
  {
    var c := Full(2 * k);
    assert Pairs(k, 0) == c;
    assert Emptiest(c) == None;
  }

  lemma PairGetsItsSecond(k: nat)
    ensures NextCounts(Pairs(k, 1), true, false) == Pairs(k, 2)
  {
    var c := Full(2 * k) + [1];
    assert Pairs(k, 1) == c;
    NumAvailableFull(2 * k);
    NumAvailableSplit(Full(2 * k), [1]);
    assert NumAvailable([1]) == 1 by { assert [1][..0] == []; }
    assert NextCounts(c, true, false) == c + [1];
  }

  /** An open pair takes VLANs in turn, until it is full. */
  lemma PairFills(k: nat, rest: nat)
    requires 2 <= rest < 40
    ensures NextCounts(Pairs(k, rest), true, false) ==
      if rest + 1 == 40 then Pairs(k + 1, 0) else Pairs(k, rest + 1)
  {
    var c := Pairs(k, rest);
    var at := FindAvailable(c, true, false);
    var first, second := 2 * k, 2 * k + 1;
    assert |c| == 2 * k + 2 && c[first] == (rest + 1) / 2 && c[second] == rest / 2;
    assert at == Emptiest(c);
    assert forall j | 0 <= j < first :: c[j] == MAX_VLANS_PER_VEA;
    assert c[second] < MAX_VLANS_PER_VEA;
    assert at == Some(if rest % 2 == 0 then first else second);
  }

  /** One more VLAN takes the spread for n to the spread for n + 1. */
  lemma SpreadStep(n: nat)
    ensures NextCounts(Spread(n), true, false) == Spread(n + 1)
  {
    var k, rest := n / 40, n % 40;
    if rest + 1 == 40 {
      assert (n + 1) / 40 == k + 1 && (n + 1) % 40 == 0;
    } else {
      assert (n + 1) / 40 == k && (n + 1) % 40 == rest + 1;
    }
    if rest == 0 { PairOpens(k); } else if rest == 1 { PairGetsItsSecond(k); } else { PairFills(k, rest); }
  }

  ghost predicate Follows(shape: nat -> seq<nat>, lb: bool, acrossVeas: bool, n: nat) {
    NextCounts(shape(n), lb, acrossVeas) == shape(n + 1)
  }

  lemma CountsPlace(b: Bridge, acrossVeas: bool, v: int, arb: int)
    ensures var at := FindAvailable(Counts(b.Addl()), b.loadBalance, acrossVeas);
      Counts(b.WithAddl(Place(b.Addl(), at, v, arb)).Addl()) == NextCounts(Counts(b.Addl()), b.loadBalance, acrossVeas)
  {
  }

  lemma FollowsOnce(b: Bridge, shape: nat -> seq<nat>, n: nat, acrossVeas: bool, v: int, arb: int)
    requires Counts(b.Addl()) == shape(n) && Follows(shape, b.loadBalance, acrossVeas, n)
    ensures var at := FindAvailable(Counts(b.Addl()), b.loadBalance, acrossVeas);
      Counts(b.WithAddl(Place(b.Addl(), at, v, arb)).Addl()) == shape(n + 1)
  {
    CountsPlace(b, acrossVeas, v, arb);
  }

  /** Placement depends on the tag counts alone, not on which VLANs they are: a
      shape of tag counts that one VLAN takes to the next is kept by any number. */
  lemma {:induction false} PlacementFollows(bs: seq<Bridge>, env: Env, r: nat, todo: seq<int>, all: seq<int>,
                                            shape: nat -> seq<nat>, n: nat, lb: bool, acrossVeas: bool)
    requires r < |bs| && bs[r].loadBalance == lb && env.acrossVeas == acrossVeas && Counts(bs[r].Addl()) == shape(n)
    requires forall i: nat :: Follows(shape, lb, acrossVeas, i)
    ensures var res := PlaceAll(bs, env, r, todo, all); res.Some? ==> Counts(res.value.Addl()) == shape(n + |todo|)
    decreases |todo|
  {
    if todo != [] {
      var b := bs[r];
      var at := FindAvailable(Counts(b.Addl()), lb, acrossVeas);
      var free := FreeVid(Reserved(bs, env, b.vswitch, all));
      if at.Some? || free.Some? {
        var arb := if free.Some? then free.value else 0;
        var c := b.WithAddl(Place(b.Addl(), at, todo[0], arb));
        FollowsOnce(b, shape, n, acrossVeas, todo[0], arb);
        PlacementFollows(bs[r := c], env, r, todo[1..], all, shape, n + 1, lb, acrossVeas);
      }
    }
  }

  /** Calls that put n VLANs in all on a load-balanced bridge without additional
      trunks leave them spread evenly, whatever the split into calls. */
  lemma PlacementSpreads(bs: seq<Bridge>, env: Env, r: nat, todo: seq<int>, n: nat)
    requires r < |bs| && bs[r].loadBalance && !env.acrossVeas && Counts(bs[r].Addl()) == Spread(n)
    ensures var res := PlaceAll(bs, env, r, todo, todo); res.Some? ==> Counts(res.value.Addl()) == Spread(n + |todo|)
  {
    forall i: nat ensures Follows(Spread, true, false, i) { SpreadStep(i); }
    PlacementFollows(bs, env, r, todo, todo, Spread, n, true, false);
  }
}
