/** The promises of the VLAN calls, for whole calls. */
module VlanResults {
  import opened Options
  import opened VlanBridges
  import opened VlanSafety

  // ---- What a call does to the bridge it is for ----

  /** b still has every tag of o, trunk by trunk and in place; no trunk has grown
      beyond the limit. */
  ghost predicate Grown(o: Bridge, b: Bridge) {
    && b.uuid == o.uuid && b.vswitch == o.vswitch && b.loadBalance == o.loadBalance
    && b.first.primary == o.first.primary
    && Local(b)
    && |o.Addl()| <= |b.Addl()|
    && (forall i | 0 <= i < |o.Addl()| :: o.Addl()[i].tags <= b.Addl()[i].tags)
    && (forall i | 0 <= i < |b.Addl()| :: |b.Addl()[i].tags| <= MAX_VLANS_PER_VEA || (i < |o.Addl()| && b.Addl()[i].tags == o.Addl()[i].tags))
  }

  lemma GrownPlace(o: Bridge, b: Bridge, at: Option<nat>, v: int, arb: int)
    requires Grown(o, b)
    requires at.Some? ==> at.value < |b.Addl()| && |b.Addl()[at.value].tags| < MAX_VLANS_PER_VEA
    requires Local(b.WithAddl(Place(b.Addl(), at, v, arb)))
    ensures Grown(o, b.WithAddl(Place(b.Addl(), at, v, arb)))
  {
  }

  /** All of `todo` is placed, each VLAN once, and nothing is lost. */
  lemma {:induction false} PlaceAllOk(o: Bridge, bs: seq<Bridge>, env: Env, r: nat, todo: seq<int>, all: seq<int>)
    requires r < |bs| && Grown(o, bs[r]) && Placeable(bs, env, bs[r].vswitch, todo)
    requires forall v | v in todo :: v in all
    ensures var res := PlaceAll(bs, env, r, todo, all); res.Some? ==>
      && Grown(o, res.value)
      && (forall u :: Copies(res.value.Addl(), u) == Copies(bs[r].Addl(), u) + multiset(todo)[u])
    decreases |todo|
  {
    var b := bs[r];
    if todo != [] {
      var at := FindAvailable(Counts(b.Addl()), b.loadBalance, env.acrossVeas);
      var free := FreeVid(Reserved(bs, env, b.vswitch, all));
      if at.Some? || free.Some? {
        var arb := if free.Some? then free.value else 0;
        var c := b.WithAddl(Place(b.Addl(), at, todo[0], arb));
        PlaceStep(bs, env, r, todo, all, at, arb);
        GrownPlace(o, b, at, todo[0], arb);
        PlaceAllOk(o, bs[r := c], env, r, todo[1..], all);
        PlaceAddsOne(b.Addl(), at, todo[0], arb);
        BagHead(todo);
      }
    }
  }

  lemma BagHead(s: seq<int>)
    requires s != []
    ensures forall u :: multiset(s)[u] == multiset(s[1..])[u] + if u == s[0] then 1 else 0
  {
    assert s == [s[0]] + s[1..];
  }

  lemma PlaceStep(bs: seq<Bridge>, env: Env, r: nat, todo: seq<int>, all: seq<int>, at: Option<nat>, arb: int)
    requires r < |bs| && Local(bs[r]) && Placeable(bs, env, bs[r].vswitch, todo) && todo != []
    requires forall v | v in todo :: v in all
    requires at.Some? ==> at.value < |bs[r].Addl()|
    requires var free := FreeVid(Reserved(bs, env, bs[r].vswitch, all)); at.None? ==> free == Some(arb)
    ensures var c := bs[r].WithAddl(Place(bs[r].Addl(), at, todo[0], arb));
      && Local(c)
      && Placeable(bs[r := c], env, bs[r].vswitch, todo[1..])
      && (forall u :: Supports(c, u) <==> Supports(bs[r], u) || u == todo[0])
      && (forall p :: HasPvid(c.Addl(), p) <==> HasPvid(bs[r].Addl(), p) || (at.None? && p == arb))
  {
    var b := bs[r];
    if at.None? { NewVidIsFree(bs, env, b.vswitch, all); }
    assert todo[0] in todo;
    PlaceEffect(b, at, todo[0], arb);
    var c := b.WithAddl(Place(b.Addl(), at, todo[0], arb));
    forall v | v in todo[1..] ensures !ArbitraryOn(bs[r := c], b.vswitch, v) {
      assert v in todo && !ArbitraryOn(bs, b.vswitch, v);
      var bs' := bs[r := c];
      forall k | 0 <= k < |bs'| && bs'[k].vswitch == b.vswitch ensures !HasPvid(bs'[k].Addl(), v) {
        assert bs[k].vswitch == b.vswitch;
      }
    }
  }

  /** The outcome of a call: `t` is the server after it, `o` before. */
  ghost predicate EnsureOk(o: seq<Bridge>, t: seq<Bridge>, env: Env, r: nat, vlans: seq<int>, out: Outcome) {
    && r < |o| == |t|
    && (forall k | 0 <= k < |o| && k != r :: Stripped(o[k], t[k], vlans))
    && (forall k | 0 <= k < |o| && k != r && !IsPeer(o, r, k) :: t[k] == o[k])
    && Grown(o[r], t[r])
    && (out == Done ==> forall u :: Copies(t[r].Addl(), u) == Copies(o[r].Addl(), u) + multiset(Missing(o[r], vlans))[u])
    && (out != Done ==> SameVlans(o[r], t[r]) && Explained(o, env, r, vlans, out))
  }

  lemma SameVlansFacts(a: Bridge, b: Bridge, vlans: seq<int>)
    requires SameVlans(a, b)
    ensures forall u :: Supports(a, u) <==> Supports(b, u)
    ensures forall u :: Copies(a.Addl(), u) == Copies(b.Addl(), u)
    ensures Missing(a, vlans) == Missing(b, vlans)
  {
    forall u ensures Copies(a.Addl(), u) == Copies(b.Addl(), u) ensures Supports(a, u) <==> Supports(b, u) {
      SameTagsSameCopies(a.Addl(), b.Addl(), u);
    }
    MissingExtensional(a, b, vlans);
  }

  lemma {:induction false} MissingExtensional(a: Bridge, b: Bridge, vlans: seq<int>)
    requires forall u :: Supports(a, u) <==> Supports(b, u)
    ensures Missing(a, vlans) == Missing(b, vlans)
  {
    if vlans != [] { MissingExtensional(a, b, vlans[1..]); }
  }

  /** A restart composes with what the scan before it did. */
  lemma RestartComposes(o: seq<Bridge>, w: World, t: seq<Bridge>, env: Env, r: nat, vlans: seq<int>, out: Outcome)
    requires r < |o| && ScanResultOk(o, env, r, vlans, Missing(o[r], vlans), Reassigned(w))
    requires EnsureOk(w.server, t, env, r, vlans, out)
    ensures EnsureOk(o, t, env, r, vlans, out)
  {
    var m := w.server;
    SameVlansFacts(o[r], m[r], vlans);
    forall k | 0 <= k < |o| && k != r ensures Stripped(o[k], t[k], vlans) {
      assert Stripped(o[k], m[k], vlans) && Stripped(m[k], t[k], vlans);
    }
    if out != Done {
      assert SameVlans(o[r], t[r]);
      ExplainedEarlier(o, w, env, r, vlans, out);
    }
  }

  lemma ExplainedEarlier(o: seq<Bridge>, w: World, env: Env, r: nat, vlans: seq<int>, out: Outcome)
    requires r < |o| && ScanResultOk(o, env, r, vlans, Missing(o[r], vlans), Reassigned(w))
    requires Explained(w.server, env, r, vlans, out) && forall u :: Supports(o[r], u) <==> Supports(w.server[r], u)
    ensures Explained(o, env, r, vlans, out)
  {
    if out == VidsExhausted {
      var m := w.server;
      var bs :| Midway(m, bs, r, vlans) && NoVidLeft(bs, env, m[r].vswitch, vlans);
      MissingExtensional(o[r], m[r], vlans);
      forall k | 0 <= k < |o| && k != r ensures Stripped(o[k], bs[k], vlans) {
        assert Stripped(o[k], m[k], vlans) && Stripped(m[k], bs[k], vlans);
      }
      assert Midway(o, bs, r, vlans);
    }
  }

  /** Placement fails when no VID is left, after fewer VLANs than there are. */
  lemma {:induction false} PlaceAllFails(o: Bridge, bs: seq<Bridge>, env: Env, r: nat, todo: seq<int>, all: seq<int>) returns (c: Bridge)
    requires r < |bs| && Grown(o, bs[r]) && Placeable(bs, env, bs[r].vswitch, todo)
    requires (forall v | v in todo :: v in all) && PlaceAll(bs, env, r, todo, all).None?
    ensures c.vswitch == bs[r].vswitch && |c.Addl()| < |bs[r].Addl()| + |todo|
    ensures forall u :: Supports(c, u) ==> Supports(bs[r], u) || u in all
    ensures NoVidLeft(bs[r := c], env, bs[r].vswitch, all)
    decreases |todo|
  {
    var b := bs[r];
    var at := FindAvailable(Counts(b.Addl()), b.loadBalance, env.acrossVeas);
    var free := FreeVid(Reserved(bs, env, b.vswitch, all));
    if at.None? && free.None? {
      c := b;
      assert bs[r := c] == bs;
      NoneFree(bs, env, b.vswitch, all, all);
    } else {
      var arb := if free.Some? then free.value else 0;
      var b1 := b.WithAddl(Place(b.Addl(), at, todo[0], arb));
      PlaceStep(bs, env, r, todo, all, at, arb);
      GrownPlace(o, b, at, todo[0], arb);
      c := PlaceAllFails(o, bs[r := b1], env, r, todo[1..], all);
      assert bs[r := b1][r := c] == bs[r := c];
    }
  }

  lemma FinishFails(o: seq<Bridge>, w: World, env: Env, r: nat, vlans: seq<int>, added: seq<int>)
    requires ScanInv(o, w, r, vlans) && added == Missing(o[r], vlans) && Placeable(w.feed, env, o[r].vswitch, added)
    requires PlaceAll(w.feed, env, r, added, added).None?
    ensures Explained(o, env, r, vlans, VidsExhausted)
  {
    assert Local(o[r]);
    var c := PlaceAllFails(o[r], w.feed, env, r, added, added);
    forall v ensures v in added ==> v in vlans { MissingHas(o[r], vlans, v); }
    assert Midway(o, w.feed[r := c], r, vlans);
    assert NoVidLeft(w.feed[r := c], env, o[r].vswitch, vlans);
  }

  lemma FinishMeetsSpec(o: seq<Bridge>, w: World, env: Env, r: nat, vlans: seq<int>, added: seq<int>)
    requires r < |o| && ScanResultOk(o, env, r, vlans, Missing(o[r], vlans), Scanned(w, added))
    ensures var (t, out) := Finish(w, env, r, added); EnsureOk(o, t, env, r, vlans, out)
  {
    assert Local(o[r]);
    PlaceAllOk(o[r], w.feed, env, r, added, added);
    if added != [] && PlaceAll(w.feed, env, r, added, added).None? { FinishFails(o, w, env, r, vlans, added); }
  }

  lemma FailureMeetsSpec(o: seq<Bridge>, w: World, env: Env, r: nat, vlans: seq<int>, why: Outcome)
    requires r < |o| && ScanResultOk(o, env, r, vlans, Missing(o[r], vlans), Failed(w, why))
    ensures EnsureOk(o, w.server, env, r, vlans, why)
  {
    assert Local(o[r]);
  }

  /** The whole call, restarts included: see EnsureOk. */
  lemma {:induction false} EnsureMeetsSpec(o: seq<Bridge>, env: Env, r: nat, vlans: seq<int>)
    requires r < |o| && AllLocal(o)
    ensures var (t, out) := Ensure(o, env, r, vlans); EnsureOk(o, t, env, r, vlans, out)
    decreases TotalWanted(o, vlans)
  {
    ScanFromServer(o, env, r, vlans);
    var res := Scan(Fetch(o), env, r, vlans, 0, []);
    match res
    case Failed(w, why) => FailureMeetsSpec(o, w, env, r, vlans, why);
    case Reassigned(w) =>
      EnsureMeetsSpec(w.server, env, r, vlans);
      RestartComposes(o, w, Ensure(w.server, env, r, vlans).0, env, r, vlans, Ensure(w.server, env, r, vlans).1);
    case Scanned(w, added) => FinishMeetsSpec(o, w, env, r, vlans, added);
  }

  /** A call that succeeds leaves every requested VLAN on the bridge; a VLAN that
      was asked for once and was not there is on exactly one additional trunk. */
  lemma EnsureDelivers(o: seq<Bridge>, env: Env, r: nat, vlans: seq<int>, v: int)
    requires r < |o| && AllLocal(o) && v in vlans && Ensure(o, env, r, vlans).1 == Done
    ensures var t := Ensure(o, env, r, vlans).0;
      && |t| == |o| && Supports(t[r], v)
      && (!Supports(o[r], v) && multiset(vlans)[v] == 1 ==> Copies(t[r].Addl(), v) == 1)
  {
    EnsureMeetsSpec(o, env, r, vlans);
    var t := Ensure(o, env, r, vlans).0;
    MissingCount(o[r], vlans, v);
    CopiesTagged(o[r].Addl(), v);
    CopiesTagged(t[r].Addl(), v);
    assert vlans[..] == vlans && v in multiset(vlans);
  }

  lemma {:induction false} MissingCount(b: Bridge, vlans: seq<int>, v: int)
    ensures multiset(Missing(b, vlans))[v] == if Supports(b, v) then 0 else multiset(vlans)[v]
  {
    if vlans != [] {
      MissingCount(b, vlans[1..], v);
      assert vlans == [vlans[0]] + vlans[1..];
    }
  }

  // ---- Throw-away PVIDs keep out of everybody's way ----

  /** On each virtual switch, throw-away PVIDs differ between bridges and are no
      primary PVID, no tagged VLAN and no orphan.  (Within a bridge they are
      distinct, and the failover SEA has the same ones: see Local.) */
  ghost predicate PvidsApart(bs: seq<Bridge>, env: Env) {
    && AllLocal(bs)
    && forall j, k, p | 0 <= j < |bs| && 0 <= k < |bs| && bs[j].vswitch == bs[k].vswitch && HasPvid(bs[j].Addl(), p) ::
         !Supports(bs[k], p) && p !in env.Orphans(bs[j].vswitch) && (HasPvid(bs[k].Addl(), p) ==> j == k)
  }

  /** Replacing a bridge keeps this if the PVIDs it gains are unused and the
      VLANs it gains are nobody's PVID. */
  lemma ReplaceKeepsApart(bs: seq<Bridge>, env: Env, k: nat, c: Bridge)
    requires k < |bs| && PvidsApart(bs, env) && Local(c) && c.vswitch == bs[k].vswitch
    requires forall p | HasPvid(c.Addl(), p) && !HasPvid(bs[k].Addl(), p) ::
      && p !in env.Orphans(c.vswitch)
      && (forall j | 0 <= j < |bs| && bs[j].vswitch == c.vswitch :: !Supports(bs[j], p) && !HasPvid(bs[j].Addl(), p))
    requires forall u | Supports(c, u) && !Supports(bs[k], u) :: !ArbitraryOn(bs, c.vswitch, u)
    ensures PvidsApart(bs[k := c], env)
  {
    var bs' := bs[k := c];
    forall i, j, p | 0 <= i < |bs'| && 0 <= j < |bs'| && bs'[i].vswitch == bs'[j].vswitch && HasPvid(bs'[i].Addl(), p)
      ensures !Supports(bs'[j], p) && p !in env.Orphans(bs'[i].vswitch) && (HasPvid(bs'[j].Addl(), p) ==> i == j)
    {
      assert bs'[i].vswitch == bs[i].vswitch && bs'[j].vswitch == bs[j].vswitch;
      if HasPvid(bs[i].Addl(), p) {
        assert ArbitraryOn(bs, bs[i].vswitch, p);
        assert !Supports(bs[j], p);
      }
    }
  }

  lemma {:induction false} PlaceAllApart(bs: seq<Bridge>, env: Env, r: nat, todo: seq<int>, all: seq<int>)
    requires r < |bs| && PvidsApart(bs, env) && Placeable(bs, env, bs[r].vswitch, todo)
    requires forall v | v in todo :: v in all
    ensures var res := PlaceAll(bs, env, r, todo, all); res.Some? ==> PvidsApart(bs[r := res.value], env)
    decreases |todo|
  {
    var b := bs[r];
    if todo == [] {
      assert bs[r := b] == bs;
    } else {
      var at := FindAvailable(Counts(b.Addl()), b.loadBalance, env.acrossVeas);
      var free := FreeVid(Reserved(bs, env, b.vswitch, all));
      if at.Some? || free.Some? {
        var arb := if free.Some? then free.value else 0;
        var c := b.WithAddl(Place(b.Addl(), at, todo[0], arb));
        PlaceStep(bs, env, r, todo, all, at, arb);
        if at.None? { NewVidIsFree(bs, env, b.vswitch, all); }
        assert todo[0] in todo;
        ReplaceKeepsApart(bs, env, r, c);
        PlaceAllApart(bs[r := c], env, r, todo[1..], all);
        var res := PlaceAll(bs[r := c], env, r, todo[1..], all);
        if res.Some? { assert bs[r := c][r := res.value] == bs[r := res.value]; }
      }
    }
  }

  lemma TakeKeepsApart(o: seq<Bridge>, w: World, env: Env, r: nat, v: int, vlans: seq<int>)
    requires ScanInv(o, w, r, vlans) && v in vlans && PvidsApart(w.feed, env)
    ensures PvidsApart(TakeFromPeer(w, env, r, v).0.feed, env)
  {
    var p := FirstPeer(w.feed, r, v, 0);
    if p < |w.feed| {
      assert Stripped(o[p], w.feed[p], vlans) && Stripped(o[r], w.feed[r], vlans);
      RemoveCases(w, env, p, v);
      var b := w.feed[p];
      if v != b.first.primary.pvid && Removable(b, v) {
        StrippedOnce(o[p], b, v, vlans);
        StrippedPurge(o[p], b, v, vlans);
        WithoutOff(b, v);
        PurgeOff(b, v);
        var c := if p in w.posted then Purge(b, v) else Without(b, v);
        assert Stripped(o[p], c, vlans) && OffBy(b, c, v);
        CopiesTagged(b.Addl(), v);
        ReplaceKeepsApart(w.feed, env, p, c);
      }
    }
  }

  lemma {:induction false} ScanApart(o: seq<Bridge>, w: World, env: Env, r: nat, vlans: seq<int>, i: nat, added: seq<int>)
    requires ScanInv(o, w, r, vlans) && i <= |vlans| && PvidsApart(w.feed, env) && Placeable(w.feed, env, o[r].vswitch, added)
    ensures PvidsApart(Scan(w, env, r, vlans, i, added).w.feed, env)
    decreases |vlans| - i
  {
    if i < |vlans| {
      var v := vlans[i];
      if Supports(w.feed[r], v) {
        ScanApart(o, w, env, r, vlans, i + 1, added);
      } else {
        TakeKeepsApart(o, w, env, r, v, vlans);
        var (w1, out) := TakeFromPeer(w, env, r, v);
        if Stops(w, env, r, v) {
          TakeKeeps(o, w, env, r, v, vlans);
          if out == Done && ArbitraryOn(w1.feed, w1.feed[r].vswitch, v) { ReassignApart(w1.feed, env, r, v, vlans); }
        } else {
          ScanGoesOn(o, w, env, r, vlans, i, added);
          ScanApart(o, w1, env, r, vlans, i + 1, added + [v]);
        }
      }
    }
  }

  lemma ReassignApart(bs: seq<Bridge>, env: Env, r: nat, v: int, others: seq<int>)
    requires r < |bs| && PvidsApart(bs, env)
    ensures var free := FreeVid(Reserved(bs, env, bs[r].vswitch, others));
      free.Some? && HasPvid(bs[r].Addl(), v) ==> PvidsApart(bs[r := Reassign(bs[r], v, free.value)], env)
  {
    var free := FreeVid(Reserved(bs, env, bs[r].vswitch, others));
    if free.Some? && HasPvid(bs[r].Addl(), v) {
      NewVidIsFree(bs, env, bs[r].vswitch, others);
      ReassignEffect(bs[r], v, free.value, others);
      ReplaceKeepsApart(bs, env, r, Reassign(bs[r], v, free.value));
    }
  }

  // ---- Trunks that are gone in memory only ----

  /** Every trunk that carries VLANs carries one that is not among these. */
  ghost predicate Held(addl: seq<Trunk>, vlans: seq<int>) {
    forall i | 0 <= i < |addl| :: addl[i].tags == [] || HeldAt(addl[i].tags, vlans)
  }

  ghost predicate HeldAt(tags: seq<int>, vlans: seq<int>) { exists u | u in tags :: u !in vlans }

  /** At most one of the VLANs can be taken off b. */
  ghost predicate OnceOn(b: Bridge, vlans: seq<int>) {
    forall i, j | 0 <= i < j < |vlans| :: !(Removable(b, vlans[i]) && Removable(b, vlans[j]))
  }

  /** Peers lose no trunk after their wrapper has been posted: from each, one of
      the VLANs that bridge r lacks is taken at most, or no trunk carries just
      such VLANs. */
  ghost predicate KeepsTrunks(bs: seq<Bridge>, r: nat, vlans: seq<int>)
    requires r < |bs|
  {
    forall p | IsPeer(bs, r, p) ::
      Held(bs[p].Addl(), Missing(bs[r], vlans)) || OnceOn(bs[p], Missing(bs[r], vlans))
  }

  /** No trunk is gone in memory only. */
  ghost predicate TrunksIn(w: World) {
    && |w.server| == |w.feed|
    && forall k, q | 0 <= k < |w.server| && HasPvid(w.server[k].Addl(), q) :: HasPvid(w.feed[k].Addl(), q)
  }

  lemma DropFirstKeeps(s: seq<int>, v: int, u: int)
    requires u in s && u != v
    ensures u in DropFirst(s, v)
  {
  }

  lemma HeldWithout(b: Bridge, v: int, vlans: seq<int>)
    requires Tagged(b.Addl(), v) && v in vlans && Held(b.Addl(), vlans)
    ensures Held(Without(b, v).Addl(), vlans)
    ensures forall q :: HasPvid(b.Addl(), q) ==> HasPvid(Without(b, v).Addl(), q)
  {
    var a := b.Addl();
    TrunkWithFinds(a, v);
    var k := TrunkWith(a, v);
    var a' := WithoutVlan(a, b.loadBalance, v);
    assert HeldAt(a[k].tags, vlans);
    var u :| u in a[k].tags && u !in vlans;
    DropFirstKeeps(a[k].tags, v, u);
    assert |a'| == |a| && HeldAt(a'[k].tags, vlans);
    forall q | HasPvid(a, q) ensures HasPvid(a', q) {
      var i :| 0 <= i < |a| && a[i].pvid == q;
      assert a'[i].pvid == q;
    }
  }

  lemma {:induction false} HeldPurge(b: Bridge, v: int, vlans: seq<int>)
    requires v in vlans && Held(b.Addl(), vlans)
    ensures Held(Purge(b, v).Addl(), vlans)
    ensures forall q :: HasPvid(b.Addl(), q) ==> HasPvid(Purge(b, v).Addl(), q)
    decreases Copies(b.Addl(), v)
  {
    if Removable(b, v) {
      WithoutDropsOne(b.Addl(), b.loadBalance, v);
      HeldWithout(b, v, vlans);
      HeldPurge(Without(b, v), v, vlans);
    }
  }

  /** How peer p stands, once the VLANs `added` have been found missing. */
  ghost predicate PeerKept(o: seq<Bridge>, w: World, m: seq<int>, added: seq<int>, p: nat)
    requires p < |o| == |w.server| == |w.feed|
  {
    if Held(o[p].Addl(), m) then
      && Held(w.server[p].Addl(), m) && Held(w.feed[p].Addl(), m)
      && forall q :: HasPvid(o[p].Addl(), q) ==> HasPvid(w.feed[p].Addl(), q)
    else
      w.server[p] == w.feed[p] && (p in w.posted ==> exists j | 0 <= j < |added| :: Removable(o[p], added[j]))
  }

  ghost predicate PeersKept(o: seq<Bridge>, w: World, r: nat, m: seq<int>, added: seq<int>) {
    && r < |o| == |w.server| == |w.feed|
    && forall p | IsPeer(o, r, p) :: PeerKept(o, w, m, added, p)
  }

  lemma PeersKeptTrunksIn(o: seq<Bridge>, w: World, r: nat, vlans: seq<int>, m: seq<int>, added: seq<int>)
    requires ScanInv(o, w, r, vlans) && PeersKept(o, w, r, m, added)
    ensures TrunksIn(w)
  {
    forall k, q | 0 <= k < |o| && HasPvid(w.server[k].Addl(), q) ensures HasPvid(w.feed[k].Addl(), q) {
      assert Stripped(o[k], w.server[k], vlans);
      if IsPeer(o, r, k) { assert PeerKept(o, w, m, added, k); }
    }
  }

  /** Taking v off peer p, which has it removable. */
  lemma PeerKeptPost(o: seq<Bridge>, w: World, r: nat, vlans: seq<int>, m: seq<int>, added: seq<int>, p: nat, v: int)
    requires ScanInv(o, w, r, vlans) && IsPeer(o, r, p) && PeerKept(o, w, m, added, p)
    requires Held(o[p].Addl(), m) || OnceOn(o[p], m)
    requires added + [v] <= m && Removable(w.feed[p], v)
    ensures var c := if p in w.posted then Purge(w.feed[p], v) else Without(w.feed[p], v);
      PeerKept(o, w.Post(p, c), m, added + [v], p)
  {
    assert m[|added|] == v;
    if Held(o[p].Addl(), m) {
      HeldWithout(w.feed[p], v, m);
      HeldPurge(w.feed[p], v, m);
    } else {
      assert Stripped(o[p], w.feed[p], vlans);
      assert Removable(o[p], v);
      forall j | 0 <= j < |added| ensures !Removable(o[p], added[j]) { assert m[j] == added[j]; }
      assert (added + [v])[|added|] == v;
    }
  }

  lemma PeerKeptLater(o: seq<Bridge>, w: World, m: seq<int>, added: seq<int>, v: int, p: nat)
    requires p < |o| == |w.server| == |w.feed| && PeerKept(o, w, m, added, p)
    ensures PeerKept(o, w, m, added + [v], p)
  {
    if !Held(o[p].Addl(), m) && p in w.posted {
      var j :| 0 <= j < |added| && Removable(o[p], added[j]);
      assert (added + [v])[j] == added[j];
    }
  }

  lemma TakeKeepsPeers(o: seq<Bridge>, w: World, env: Env, r: nat, vlans: seq<int>, v: int, m: seq<int>, added: seq<int>)
    requires ScanInv(o, w, r, vlans) && PeersKept(o, w, r, m, added) && v in vlans
    requires m == Missing(o[r], vlans) && KeepsTrunks(o, r, vlans) && added + [v] <= m
    ensures PeersKept(o, TakeFromPeer(w, env, r, v).0, r, m, added + [v])
  {
    var p := FirstPeer(w.feed, r, v, 0);
    forall q | IsPeer(o, r, q) ensures PeerKept(o, w, m, added + [v], q) { PeerKeptLater(o, w, m, added, v, q); }
    if p < |w.feed| {
      assert Stripped(o[p], w.feed[p], vlans) && Stripped(o[r], w.feed[r], vlans);
      RemoveCases(w, env, p, v);
      if v != w.feed[p].first.primary.pvid && Removable(w.feed[p], v) {
        PeerKeptPost(o, w, r, vlans, m, added, p, v);
        var w1 := TakeFromPeer(w, env, r, v).0;
        forall q | IsPeer(o, r, q) ensures PeerKept(o, w1, m, added + [v], q) {
          if q != p { PeerKeptLater(o, w, m, added, v, q); }
        }
      }
    }
  }

  /** What the world w of a scan's result is made of: the peers as in w1, and this
      bridge as before or with a throw-away PVID moved to a VID not requested. */
  ghost predicate EndsIn(o: seq<Bridge>, w: World, w1: World, r: nat, vlans: seq<int>, c: Bridge) {
    && ScanInv(o, w1, r, vlans)
    && w.server == w1.server[r := c] && w.feed == w1.feed[r := c] && c.vswitch == o[r].vswitch
    && forall q | HasPvid(c.Addl(), q) :: HasPvid(o[r].Addl(), q) || q !in vlans
  }

  /** The scan moves a throw-away PVID of this bridge out of the way of v. */
  ghost predicate Moves(w: World, env: Env, r: nat, v: int, vlans: seq<int>)
    requires r < |w.server| == |w.feed|
  {
    HasPvid(w.feed[r].Addl(), v) && FreeVid(Reserved(w.feed, env, w.feed[r].vswitch, vlans)).Some?
  }

  lemma StopWorld(w: World, env: Env, r: nat, vlans: seq<int>, i: nat, added: seq<int>)
    requires r < |w.server| == |w.feed| && i < |vlans| && !Supports(w.feed[r], vlans[i]) && Stops(w, env, r, vlans[i])
    ensures var (w1, out) := TakeFromPeer(w, env, r, vlans[i]);
      Scan(w, env, r, vlans, i, added).w ==
        if out == Done && Moves(w1, env, r, vlans[i], vlans)
        then w1.Post(r, Reassign(w1.feed[r], vlans[i], FreeVid(Reserved(w1.feed, env, w1.feed[r].vswitch, vlans)).value))
        else w1
  {
  }

  lemma ScanStopsKept(o: seq<Bridge>, w: World, env: Env, r: nat, vlans: seq<int>, i: nat, added: seq<int>) returns (c: Bridge)
    requires ScanInv(o, w, r, vlans) && i < |vlans| && !Supports(w.feed[r], vlans[i]) && Stops(w, env, r, vlans[i])
    ensures EndsIn(o, Scan(w, env, r, vlans, i, added).w, TakeFromPeer(w, env, r, vlans[i]).0, r, vlans, c)
  {
    StopWorld(w, env, r, vlans, i, added);
    TakeKeeps(o, w, env, r, vlans[i], vlans);
    var (w1, out) := TakeFromPeer(w, env, r, vlans[i]);
    if out == Done && Moves(w1, env, r, vlans[i], vlans) {
      c := MovedPvid(o, w1, env, r, vlans[i], vlans);
    } else {
      c := o[r];
      assert w1.server[r := c] == w1.server && w1.feed[r := c] == w1.feed;
    }
  }

  lemma MovedPvid(o: seq<Bridge>, w: World, env: Env, r: nat, v: int, vlans: seq<int>) returns (c: Bridge)
    requires ScanInv(o, w, r, vlans) && HasPvid(w.feed[r].Addl(), v)
    requires FreeVid(Reserved(w.feed, env, w.feed[r].vswitch, vlans)).Some?
    ensures c == Reassign(w.feed[r], v, FreeVid(Reserved(w.feed, env, w.feed[r].vswitch, vlans)).value)
    ensures EndsIn(o, w.Post(r, c), w, r, vlans, c)
  {
    var n := FreeVid(Reserved(w.feed, env, w.feed[r].vswitch, vlans)).value;
    c := Reassign(w.feed[r], v, n);
    assert Local(o[r]);
    NewVidIsFree(w.feed, env, o[r].vswitch, vlans);
    ReassignEffect(o[r], v, n, vlans);
  }

  /** A scan has come to VLAN i, the VLANs `added` of m still to be placed. */
  ghost predicate Underway(o: seq<Bridge>, w: World, env: Env, r: nat, vlans: seq<int>, i: nat, m: seq<int>, added: seq<int>) {
    && ScanInv(o, w, r, vlans) && i <= |vlans| && Placeable(w.feed, env, o[r].vswitch, added)
    && m == Missing(o[r], vlans) == added + Missing(o[r], vlans[i..])
    && KeepsTrunks(o, r, vlans) && PeersKept(o, w, r, m, added)
  }

  lemma MissingSplit(b: Bridge, vlans: seq<int>, i: nat, m: seq<int>, added: seq<int>)
    requires i < |vlans| && !Supports(b, vlans[i]) && m == added + Missing(b, vlans[i..])
    ensures m == added + [vlans[i]] + Missing(b, vlans[i + 1..]) && added + [vlans[i]] <= m
  {
    MissingStep(b, vlans, i);
  }

  lemma UnderwayTakes(o: seq<Bridge>, w: World, env: Env, r: nat, vlans: seq<int>, i: nat, m: seq<int>, added: seq<int>)
    requires Underway(o, w, env, r, vlans, i, m, added) && i < |vlans| && !Supports(o[r], vlans[i])
    ensures PeersKept(o, TakeFromPeer(w, env, r, vlans[i]).0, r, m, added + [vlans[i]])
  {
    MissingSplit(o[r], vlans, i, m, added);
    TakeKeepsPeers(o, w, env, r, vlans, vlans[i], m, added);
  }

  lemma UnderwayGoesOn(o: seq<Bridge>, w: World, env: Env, r: nat, vlans: seq<int>, i: nat, m: seq<int>, added: seq<int>)
    requires Underway(o, w, env, r, vlans, i, m, added) && i < |vlans| && !Supports(o[r], vlans[i]) && !Stops(w, env, r, vlans[i])
    ensures Underway(o, TakeFromPeer(w, env, r, vlans[i]).0, env, r, vlans, i + 1, m, added + [vlans[i]])
  {
    UnderwayTakes(o, w, env, r, vlans, i, m, added);
    MissingSplit(o[r], vlans, i, m, added);
    ScanGoesOn(o, w, env, r, vlans, i, added);
  }

  lemma {:induction false} ScanKeepsPeers(o: seq<Bridge>, w: World, env: Env, r: nat, vlans: seq<int>, i: nat, m: seq<int>, added: seq<int>)
      returns (w1: World, c: Bridge, end: seq<int>)
    requires Underway(o, w, env, r, vlans, i, m, added)
    ensures var res := Scan(w, env, r, vlans, i, added);
      EndsIn(o, res.w, w1, r, vlans, c) && PeersKept(o, w1, r, m, end) && (res.Scanned? ==> w1 == res.w)
    decreases |vlans| - i
  {
    if i == |vlans| {
      w1, c, end := w, o[r], added;
      assert w.server[r := c] == w.server && w.feed[r := c] == w.feed;
    } else if Supports(o[r], vlans[i]) {
      MissingStep(o[r], vlans, i);
      w1, c, end := ScanKeepsPeers(o, w, env, r, vlans, i + 1, m, added);
    } else {
      UnderwayTakes(o, w, env, r, vlans, i, m, added);
      w1, end := TakeFromPeer(w, env, r, vlans[i]).0, added + [vlans[i]];
      if Stops(w, env, r, vlans[i]) {
        c := ScanStopsKept(o, w, env, r, vlans, i, added);
        ScanStopsEarly(w, env, r, vlans, i, added);
      } else {
        UnderwayGoesOn(o, w, env, r, vlans, i, m, added);
        ScanGoesOn(o, w, env, r, vlans, i, added);
        w1, c, end := ScanKeepsPeers(o, w1, env, r, vlans, i + 1, m, end);
      }
    }
  }

  lemma ScanStopsEarly(w: World, env: Env, r: nat, vlans: seq<int>, i: nat, added: seq<int>)
    requires r < |w.server| == |w.feed| && i < |vlans| && !Supports(w.feed[r], vlans[i]) && Stops(w, env, r, vlans[i])
    ensures !Scan(w, env, r, vlans, i, added).Scanned?
  {
  }

  /** What is apart in memory is apart on the server, if no trunk is gone in
      memory only: VLANs left on the server are requested ones, which no new
      PVID is. */
  lemma ApartOnServer(o: seq<Bridge>, w: World, env: Env, r: nat, vlans: seq<int>, c: Bridge)
    requires ScanInv(o, w, r, vlans) && PvidsApart(o, env) && TrunksIn(w)
    requires PvidsApart(w.feed[r := c], env) && c.vswitch == o[r].vswitch
    requires forall q | HasPvid(c.Addl(), q) :: HasPvid(o[r].Addl(), q) || q !in vlans
    ensures PvidsApart(w.server[r := c], env)
  {
    var s, f := w.server[r := c], w.feed[r := c];
    forall k | 0 <= k < |s| ensures Local(s[k]) {
      assert Local(f[k]) && Stripped(o[k], w.server[k], vlans);
    }
    forall i, j, p | 0 <= i < |s| && 0 <= j < |s| && s[i].vswitch == s[j].vswitch && HasPvid(s[i].Addl(), p)
      ensures !Supports(s[j], p) && p !in env.Orphans(s[i].vswitch) && (HasPvid(s[j].Addl(), p) ==> i == j)
    {
      SameSwitches(o, w, r, vlans, i);
      SameSwitches(o, w, r, vlans, j);
      assert HasPvid(f[i].Addl(), p);
      assert HasPvid(s[j].Addl(), p) ==> HasPvid(f[j].Addl(), p);
      if j != r && Supports(s[j], p) { LeftIsRequested(o, w, r, vlans, j, p); }
    }
  }

  lemma SameSwitches(o: seq<Bridge>, w: World, r: nat, vlans: seq<int>, k: nat)
    requires ScanInv(o, w, r, vlans) && k < |o|
    ensures o[k].vswitch == w.server[k].vswitch == w.feed[k].vswitch
    ensures forall q :: HasPvid(w.server[k].Addl(), q) ==> HasPvid(o[k].Addl(), q)
    ensures forall u :: Supports(w.server[k], u) ==> Supports(o[k], u)
  {
    assert Stripped(o[k], w.server[k], vlans) && Stripped(o[k], w.feed[k], vlans);
  }

  lemma LeftIsRequested(o: seq<Bridge>, w: World, r: nat, vlans: seq<int>, k: nat, u: int)
    requires ScanInv(o, w, r, vlans) && k < |o| && Supports(w.server[k], u) && !Supports(w.feed[k], u)
    ensures u in vlans
  {
    assert Stripped(o[k], w.server[k], vlans) && Stripped(o[k], w.feed[k], vlans);
    CopiesTagged(w.server[k].Addl(), u);
    CopiesTagged(w.feed[k].Addl(), u);
  }

  /** An ensure call keeps throw-away PVIDs apart if peers lose no trunk after
      their wrapper has been posted.  VlanClashes has the exact condition for
      requests that name no VLAN twice. */
  lemma {:induction false} EnsureKeepsApart(o: seq<Bridge>, env: Env, r: nat, vlans: seq<int>)
    requires r < |o| && PvidsApart(o, env) && KeepsTrunks(o, r, vlans)
    ensures PvidsApart(Ensure(o, env, r, vlans).0, env)
    decreases TotalWanted(o, vlans)
  {
    ScanFromServer(o, env, r, vlans);
    FetchInv(o, r, vlans);
    var m := Missing(o[r], vlans);
    assert vlans[0..] == vlans && [] + m == m;
    var w1, c, end := ScanKeepsPeers(o, Fetch(o), env, r, vlans, 0, m, []);
    ScanApart(o, Fetch(o), env, r, vlans, 0, []);
    var res := Scan(Fetch(o), env, r, vlans, 0, []);
    PeersKeptTrunksIn(o, w1, r, vlans, m, end);
    ApartOnServer(o, w1, env, r, vlans, c);
    match res
    case Failed(w, why) =>
    case Reassigned(w) =>
      RestartKeeps(o, w, w1, env, r, vlans, m, c, end);
      EnsureKeepsApart(w.server, env, r, vlans);
    case Scanned(w, _) => PlacedApart(o, w, env, r, vlans, m, end);
  }

  lemma PlacedApart(o: seq<Bridge>, w: World, env: Env, r: nat, vlans: seq<int>, m: seq<int>, added: seq<int>)
    requires ScanInv(o, w, r, vlans) && PvidsApart(o, env) && PvidsApart(w.feed, env) && PeersKept(o, w, r, m, added)
    requires m == Missing(o[r], vlans) && Placeable(w.feed, env, o[r].vswitch, m)
    ensures var res := PlaceAll(w.feed, env, r, m, m); res.Some? ==> PvidsApart(w.server[r := res.value], env)
  {
    var res := PlaceAll(w.feed, env, r, m, m);
    if res.Some? {
      PlaceAllApart(w.feed, env, r, m, m);
      PlaceAllOk(o[r], w.feed, env, r, m, m);
      PlaceAllPvids(w.feed, env, r, m, m);
      PeersKeptTrunksIn(o, w, r, vlans, m, added);
      PlacedNotRequested(o, w.feed[r := res.value], env, r, vlans);
      ApartOnServer(o, w, env, r, vlans, res.value);
    }
  }

  /** New PVIDs are not requested. */
  lemma {:induction false} PlaceAllPvids(bs: seq<Bridge>, env: Env, r: nat, todo: seq<int>, all: seq<int>)
    requires r < |bs| && Local(bs[r]) && Placeable(bs, env, bs[r].vswitch, todo) && forall v | v in todo :: v in all
    ensures var res := PlaceAll(bs, env, r, todo, all); res.Some? ==>
      && res.value.vswitch == bs[r].vswitch
      && (forall q | HasPvid(res.value.Addl(), q) :: HasPvid(bs[r].Addl(), q) || q !in all)
      && (forall u | Supports(bs[r], u) :: Supports(res.value, u))
    decreases |todo|
  {
    var b := bs[r];
    if todo != [] {
      var at := FindAvailable(Counts(b.Addl()), b.loadBalance, env.acrossVeas);
      var free := FreeVid(Reserved(bs, env, b.vswitch, all));
      if at.Some? || free.Some? {
        var arb := if free.Some? then free.value else 0;
        if at.None? { NewVidIsFree(bs, env, b.vswitch, all); }
        PlaceStep(bs, env, r, todo, all, at, arb);
        PlaceAllPvids(bs[r := b.WithAddl(Place(b.Addl(), at, todo[0], arb))], env, r, todo[1..], all);
      }
    }
  }

  lemma PlacedNotRequested(o: seq<Bridge>, bs: seq<Bridge>, env: Env, r: nat, vlans: seq<int>)
    requires r < |o| == |bs| && PvidsApart(bs, env)
    requires forall u | Supports(o[r], u) :: Supports(bs[r], u)
    requires forall q | HasPvid(bs[r].Addl(), q) :: HasPvid(o[r].Addl(), q) || q !in Missing(o[r], vlans)
    ensures forall q | HasPvid(bs[r].Addl(), q) :: HasPvid(o[r].Addl(), q) || q !in vlans
  {
    forall q | HasPvid(bs[r].Addl(), q) && !HasPvid(o[r].Addl(), q) ensures q !in vlans {
      MissingHas(o[r], vlans, q);
    }
  }

  lemma RestartKeeps(o: seq<Bridge>, w: World, w1: World, env: Env, r: nat, vlans: seq<int>, m: seq<int>, c: Bridge, end: seq<int>)
    requires r < |o| && m == Missing(o[r], vlans) && KeepsTrunks(o, r, vlans)
    requires ScanResultOk(o, env, r, vlans, m, Reassigned(w)) && EndsIn(o, w, w1, r, vlans, c) && PeersKept(o, w1, r, m, end)
    ensures KeepsTrunks(w.server, r, vlans)
  {
    SameVlansFacts(o[r], w.server[r], vlans);
    forall p | IsPeer(w.server, r, p) ensures Held(w.server[p].Addl(), m) || OnceOn(w.server[p], m) {
      SameSwitches(o, w1, r, vlans, p);
      SameSwitches(o, w1, r, vlans, r);
      assert IsPeer(o, r, p) && PeerKept(o, w1, m, end, p) && Stripped(o[p], w1.server[p], vlans);
    }
  }

  /** Removing a VLAN, or moving the throw-away PVID of that number, does too. */
  lemma RemoveKeepsApart(o: seq<Bridge>, env: Env, k: nat, v: int, failIfPvid: bool)
    requires k < |o| && PvidsApart(o, env)
    ensures PvidsApart(Remove(o, env, k, v, failIfPvid).0, env)
  {
    var b := o[k];
    assert Local(b);
    if HasPvid(b.Addl(), v) {
      ReassignApart(o, env, k, v, [v]);
    } else if Removable(b, v) {
      WithoutOff(b, v);
      WithoutEffect(b, v);
      CopiesTagged(b.Addl(), v);
      ReplaceKeepsApart(o, env, k, Without(b, v));
    }
  }

  /** Removing takes one tag of that VLAN off that bridge, which stays mirrored. */
  lemma RemoveDropsThatVlanAlone(o: seq<Bridge>, env: Env, k: nat, v: int, failIfPvid: bool)
    requires k < |o| && AllLocal(o) && Removable(o[k], v)
    ensures var (t, out) := Remove(o, env, k, v, failIfPvid);
      && out == Done && t == o[k := t[k]] && Local(t[k])
      && t[k].first.primary == o[k].first.primary
      && (forall u :: Copies(t[k].Addl(), u) == Copies(o[k].Addl(), u) - (if u == v then 1 else 0))
  {
    assert Local(o[k]);
    assert forall i | 0 <= i < |o[k].Addl()| :: o[k].Addl()[i].pvid != v;
    WithoutEffect(o[k], v);
    WithoutDropsOne(o[k].Addl(), o[k].loadBalance, v);
  }
}
