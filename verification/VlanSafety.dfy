/** What holds of the VLAN calls: a scan of the requested VLANs ends, throw-away
    PVIDs keep out of everybody's way, and VLANs are neither lost nor doubled. */
module VlanSafety {
  import opened Options
  import opened VlanBridges

  // ---- What each change does to one bridge ----

  lemma PlaceEffect(b: Bridge, at: Option<nat>, v: int, arb: int)
    requires Local(b) && (at.Some? ==> at.value < |b.Addl()|)
    requires !HasPvid(b.Addl(), v)
    requires at.None? ==> !Supports(b, arb) && !HasPvid(b.Addl(), arb) && arb != v
    ensures var c := b.WithAddl(Place(b.Addl(), at, v, arb));
      && Local(c)
      && (forall u :: Supports(c, u) <==> Supports(b, u) || u == v)
      && (forall p :: HasPvid(c.Addl(), p) <==> HasPvid(b.Addl(), p) || (at.None? && p == arb))
  {
    var a := b.Addl();
    var a' := Place(a, at, v, arb);
    var c := b.WithAddl(a');
    forall u ensures Tagged(a', u) <==> Tagged(a, u) || u == v {
      CopiesTagged(a, u);
      CopiesTagged(a', u);
      PlaceAddsOne(a, at, v, arb);
    }
    assert forall i | 0 <= i < |a| :: a'[i].pvid == a[i].pvid;
    forall p ensures HasPvid(a', p) <==> HasPvid(a, p) || (at.None? && p == arb) {
      if HasPvid(a, p) {
        var i :| 0 <= i < |a| && a[i].pvid == p;
        assert a'[i].pvid == p;
      }
      if at.None? { assert a'[|a|].pvid == arb; }
    }
    forall i | 0 <= i < |a'| ensures !Supports(c, a'[i].pvid) {
      if i < |a| { assert HasPvid(a, a[i].pvid); }
    }
    forall i, j | 0 <= i < j < |a'| ensures a'[i].pvid != a'[j].pvid {
      assert HasPvid(a, a[i].pvid);
    }
  }

  /** Taking a VLAN off keeps the remaining PVIDs, in order. */
  lemma WithoutPvids(a: seq<Trunk>, lb: bool, v: int)
    requires DistinctPvids(a) && Tagged(a, v)
    ensures var a' := WithoutVlan(a, lb, v);
      && DistinctPvids(a')
      && (forall p :: HasPvid(a', p) ==> HasPvid(a, p))
  {
    var a' := WithoutVlan(a, lb, v);
    TrunkWithFinds(a, v);
    var k := TrunkWith(a, v);
    forall i | 0 <= i < |a'| ensures HasPvid(a, a'[i].pvid) {
      assert a'[i].pvid == a[if |a'| == |a| || i < k then i else i + 1].pvid;
    }
  }

  lemma WithoutWanted(a: seq<Trunk>, lb: bool, v: int, vlans: seq<int>)
    requires Tagged(a, v)
    ensures Wanted(WithoutVlan(a, lb, v), vlans) <= Wanted(a, vlans)
  {
    var a' := WithoutVlan(a, lb, v);
    TrunkWithFinds(a, v);
    var k := TrunkWith(a, v);
    WantedAt(a, k, vlans);
    if |a[k].tags| == 1 && (!lb || |a| > 1) {
      WantedSplit(a[..k], a[k + 1..], vlans);
    } else {
      WantedAt(a', k, vlans);
      assert a'[..k] == a[..k] && a'[k + 1..] == a[k + 1..];
    }
  }

  lemma WithoutEffect(b: Bridge, v: int)
    requires Local(b) && Tagged(b.Addl(), v)
    ensures var c := Without(b, v);
      && Local(c)
      && (forall u :: Tagged(c.Addl(), u) ==> Tagged(b.Addl(), u))
      && (forall u | u != v :: Tagged(c.Addl(), u) <==> Tagged(b.Addl(), u))
      && (forall p :: HasPvid(c.Addl(), p) ==> HasPvid(b.Addl(), p))
  {
    var a := b.Addl();
    var a' := WithoutVlan(a, b.loadBalance, v);
    WithoutDropsOne(a, b.loadBalance, v);
    forall u ensures Tagged(a', u) ==> Tagged(a, u) ensures u != v ==> (Tagged(a', u) <==> Tagged(a, u)) {
      CopiesTagged(a, u);
      CopiesTagged(a', u);
    }
    WithoutPvids(a, b.loadBalance, v);
    forall i | 0 <= i < |a'| ensures !Supports(b.WithAddl(a'), a'[i].pvid) {
      assert HasPvid(a', a'[i].pvid);
    }
  }

  lemma ReassignEffect(b: Bridge, old_: int, new_: int, vlans: seq<int>)
    requires Local(b) && HasPvid(b.Addl(), old_)
    requires !Supports(b, new_) && !HasPvid(b.Addl(), new_)
    ensures var c := Reassign(b, old_, new_);
      && Local(c)
      && (forall u :: Supports(c, u) <==> Supports(b, u))
      && (forall p :: HasPvid(c.Addl(), p) <==> (HasPvid(b.Addl(), p) && p != old_) || p == new_)
      && (old_ in vlans && new_ !in vlans ==> Wanted(c.Addl(), vlans) == Wanted(b.Addl(), vlans) - 1)
  {
    var a := b.Addl();
    var i := TrunkOfPvid(a, old_);
    assert i < |a|;
    var a' := Repvid(a, old_, new_);
    var c := Reassign(b, old_, new_);
    forall u ensures Tagged(a', u) <==> Tagged(a, u) {
      CopiesTagged(a, u);
      CopiesTagged(a', u);
      RepvidKeepsCopies(a, old_, new_, u);
    }
    forall p ensures HasPvid(a', p) <==> (HasPvid(a, p) && p != old_) || p == new_ {
      assert a'[i].pvid == new_;
      if HasPvid(a, p) && p != old_ {
        var j :| 0 <= j < |a| && a[j].pvid == p;
        assert a'[j].pvid == p;
      }
      if HasPvid(a', p) && p != new_ {
        var j :| 0 <= j < |a'| && a'[j].pvid == p;
        assert a[j].pvid == p;
      }
    }
    forall j | 0 <= j < |a'| ensures !Supports(c, a'[j].pvid) {}
    forall j, k | 0 <= j < k < |a'| ensures a'[j].pvid != a'[k].pvid {
      assert HasPvid(a, a[j].pvid) && HasPvid(a, a[k].pvid);
    }
    WantedAt(a, i, vlans);
    WantedAt(a', i, vlans);
    assert a'[..i] == a[..i] && a'[i + 1..] == a[i + 1..];
  }

  // ---- The self-recursion of `_ensure_vlans_on_nb_synch` ends ----

  /** How many throw-away PVIDs of a SEA are among the requested VLANs. */
  function Wanted(addl: seq<Trunk>, vlans: seq<int>): nat {
    if addl == [] then 0 else (if addl[0].pvid in vlans then 1 else 0) + Wanted(addl[1..], vlans)
  }

  lemma {:induction false} WantedSplit(a: seq<Trunk>, b: seq<Trunk>, vlans: seq<int>)
    ensures Wanted(a + b, vlans) == Wanted(a, vlans) + Wanted(b, vlans)
  {
    if a == [] {
      assert a + b == b;
    } else {
      WantedSplit(a[1..], b, vlans);
      assert (a + b)[1..] == a[1..] + b;
    }
  }

  lemma WantedAt(a: seq<Trunk>, i: nat, vlans: seq<int>)
    requires i < |a|
    ensures Wanted(a, vlans) == Wanted(a[..i], vlans) + (if a[i].pvid in vlans then 1 else 0) + Wanted(a[i + 1..], vlans)
  {
    assert a == a[..i] + a[i..];
    WantedSplit(a[..i], a[i..], vlans);
  }

  /** Requested VLANs in use as throw-away PVIDs, over all bridges. */
  function TotalWanted(bs: seq<Bridge>, vlans: seq<int>): nat {
    if bs == [] then 0 else Wanted(bs[0].Addl(), vlans) + TotalWanted(bs[1..], vlans)
  }

  lemma {:induction false} TotalWantedMonotone(a: seq<Bridge>, b: seq<Bridge>, vlans: seq<int>)
    requires |a| == |b| && forall k | 0 <= k < |a| :: Wanted(a[k].Addl(), vlans) <= Wanted(b[k].Addl(), vlans)
    ensures TotalWanted(a, vlans) <= TotalWanted(b, vlans)
  {
    if a != [] {
      assert Wanted(a[0].Addl(), vlans) <= Wanted(b[0].Addl(), vlans);
      forall k | 0 <= k < |a[1..]| ensures Wanted(a[1..][k].Addl(), vlans) <= Wanted(b[1..][k].Addl(), vlans) {
        assert a[1..][k] == a[k + 1] && b[1..][k] == b[k + 1];
      }
      TotalWantedMonotone(a[1..], b[1..], vlans);
    }
  }

  lemma {:induction false} TotalWantedUpdate(bs: seq<Bridge>, k: nat, b: Bridge, vlans: seq<int>)
    requires k < |bs|
    ensures TotalWanted(bs[k := b], vlans) + Wanted(bs[k].Addl(), vlans) == TotalWanted(bs, vlans) + Wanted(b.Addl(), vlans)
  {
    if k > 0 {
      TotalWantedUpdate(bs[1..], k - 1, b, vlans);
      assert bs[k := b][1..] == bs[1..][k - 1 := b];
    } else {
      assert bs[0 := b][1..] == bs[1..];
    }
  }

  /** Moving a requested PVID out of the way lowers that number by exactly one. */
  lemma ReassignLowersByOne(bs: seq<Bridge>, env: Env, r: nat, v: int, vlans: seq<int>)
    requires r < |bs| && Local(bs[r]) && HasPvid(bs[r].Addl(), v) && v in vlans
    requires FreeVid(Reserved(bs, env, bs[r].vswitch, vlans)).Some?
    ensures var n := FreeVid(Reserved(bs, env, bs[r].vswitch, vlans)).value;
      TotalWanted(bs[r := Reassign(bs[r], v, n)], vlans) == TotalWanted(bs, vlans) - 1
  {
    var n := FreeVid(Reserved(bs, env, bs[r].vswitch, vlans)).value;
    NewVidIsFree(bs, env, bs[r].vswitch, vlans);
    ReassignEffect(bs[r], v, n, vlans);
    TotalWantedUpdate(bs, r, Reassign(bs[r], v, n), vlans);
  }

  // ---- What a scan may do to the other bridges ----

  /** b is o after some requested VLANs have been taken off additional trunks. */
  ghost predicate Stripped(o: Bridge, b: Bridge, vlans: seq<int>) {
    && b.uuid == o.uuid && b.vswitch == o.vswitch && b.loadBalance == o.loadBalance
    && b.first.primary == o.first.primary
    && Local(b)
    && (forall u :: Tagged(b.Addl(), u) ==> Tagged(o.Addl(), u))
    && (forall u | u !in vlans :: Copies(b.Addl(), u) == Copies(o.Addl(), u))
    && (forall u :: Copies(b.Addl(), u) <= Copies(o.Addl(), u))
    && (forall p :: HasPvid(b.Addl(), p) ==> HasPvid(o.Addl(), p))
    && Wanted(b.Addl(), vlans) <= Wanted(o.Addl(), vlans)
  }

  lemma StrippedOnce(o: Bridge, b: Bridge, v: int, vlans: seq<int>)
    requires Stripped(o, b, vlans) && v in vlans && Tagged(b.Addl(), v)
    ensures Stripped(o, Without(b, v), vlans)
  {
    WithoutEffect(b, v);
    WithoutDropsOne(b.Addl(), b.loadBalance, v);
    WithoutWanted(b.Addl(), b.loadBalance, v, vlans);
  }

  lemma {:induction false} StrippedPurge(o: Bridge, b: Bridge, v: int, vlans: seq<int>)
    requires Stripped(o, b, vlans) && v in vlans
    ensures Stripped(o, Purge(b, v), vlans)
    ensures forall u | u != v :: Tagged(Purge(b, v).Addl(), u) <==> Tagged(b.Addl(), u)
    decreases Copies(b.Addl(), v)
  {
    if Removable(b, v) {
      WithoutDropsOne(b.Addl(), b.loadBalance, v);
      WithoutEffect(b, v);
      StrippedOnce(o, b, v, vlans);
      StrippedPurge(o, Without(b, v), v, vlans);
    }
  }

  /** The state of a scan relative to the bridges `o` it started from. */
  ghost predicate ScanInv(o: seq<Bridge>, w: World, r: nat, vlans: seq<int>) {
    && r < |o| == |w.server| == |w.feed|
    && r !in w.posted && w.server[r] == w.feed[r] == o[r]
    && AllLocal(o)
    && (forall k | 0 <= k < |o| :: Stripped(o[k], w.server[k], vlans) && Stripped(o[k], w.feed[k], vlans))
    && (forall k | 0 <= k < |o| && !IsPeer(o, r, k) :: w.server[k] == o[k] && w.feed[k] == o[k])
  }

  lemma FetchInv(o: seq<Bridge>, r: nat, vlans: seq<int>)
    requires r < |o| && AllLocal(o)
    ensures ScanInv(o, Fetch(o), r, vlans)
  {
  }

  /** Removing from a peer inside a scan: a PVID is no VLAN of its own bridge, so
      the arbitrary-PVID branch of the removal is not taken. */
  lemma RemoveCases(w: World, env: Env, p: nat, v: int)
    requires p < |w.server| == |w.feed| && Local(w.feed[p]) && Supports(w.feed[p], v)
    ensures RemoveSynch(w, env, p, v, true) ==
      if v == w.feed[p].first.primary.pvid then (w, PvidOfBridge(v))
      else if !Removable(w.feed[p], v) then (w, Done)
      else (w.Post(p, if p in w.posted then Purge(w.feed[p], v) else Without(w.feed[p], v)), Done)
  {
    assert forall i | 0 <= i < |w.feed[p].Addl()| :: w.feed[p].Addl()[i].pvid != v;
  }

  lemma PostPeer(o: seq<Bridge>, w: World, r: nat, p: nat, c: Bridge, vlans: seq<int>)
    requires ScanInv(o, w, r, vlans) && IsPeer(o, r, p) && Stripped(o[p], c, vlans)
    ensures ScanInv(o, w.Post(p, c), r, vlans)
  {
  }

  /** c is b with copies of v taken off and everything else as it was. */
  ghost predicate OffBy(b: Bridge, c: Bridge, v: int) {
    && c.first.primary == b.first.primary
    && Copies(c.Addl(), v) < Copies(b.Addl(), v)
    && (forall u | u != v :: Tagged(c.Addl(), u) <==> Tagged(b.Addl(), u))
    && (forall q :: HasPvid(c.Addl(), q) ==> HasPvid(b.Addl(), q))
  }

  lemma WithoutOff(b: Bridge, v: int)
    requires Local(b) && Removable(b, v)
    ensures OffBy(b, Without(b, v), v)
  {
    WithoutEffect(b, v);
    WithoutDropsOne(b.Addl(), b.loadBalance, v);
  }

  lemma {:induction false} PurgeOff(b: Bridge, v: int)
    requires Local(b) && Removable(b, v)
    ensures OffBy(b, Purge(b, v), v)
    decreases Copies(b.Addl(), v)
  {
    WithoutOff(b, v);
    WithoutEffect(b, v);
    var c := Without(b, v);
    if Removable(c, v) { PurgeOff(c, v); }
  }

  /** Bridge b offers the same VLANs as o, trunk by trunk; PVIDs may differ. */
  ghost predicate SameVlans(o: Bridge, b: Bridge) {
    && b.uuid == o.uuid && b.vswitch == o.vswitch && b.loadBalance == o.loadBalance
    && b.first.primary == o.first.primary
    && Local(b)
    && |b.Addl()| == |o.Addl()|
    && forall i | 0 <= i < |o.Addl()| :: b.Addl()[i].tags == o.Addl()[i].tags
  }

  lemma {:induction false} SameTagsSameCopies(a: seq<Trunk>, b: seq<Trunk>, u: int)
    requires |a| == |b| && forall i | 0 <= i < |a| :: a[i].tags == b[i].tags
    ensures Copies(a, u) == Copies(b, u)
    ensures Tagged(a, u) <==> Tagged(b, u)
  {
    if a != [] {
      SameTagsSameCopies(a[1..], b[1..], u);
    }
    CopiesTagged(a, u);
    CopiesTagged(b, u);
  }

  /** The requested VLANs, in order, that bridge b does not offer. */
  function Missing(b: Bridge, vlans: seq<int>): seq<int> {
    if vlans == [] then []
    else (if Supports(b, vlans[0]) then [] else [vlans[0]]) + Missing(b, vlans[1..])
  }

  /** Every VLAN to be placed is neither a throw-away PVID nor an orphan. */
  ghost predicate Placeable(bs: seq<Bridge>, env: Env, vs: int, vlans: seq<int>) {
    forall v | v in vlans :: !ArbitraryOn(bs, vs, v) && v !in env.Orphans(vs)
  }

  predicate PeerPrimary(bs: seq<Bridge>, r: nat, v: int)
    requires r < |bs|
  {
    exists p | 0 <= p < |bs| :: IsPeer(bs, r, p) && bs[p].first.primary.pvid == v
  }

  /** A removal from peer p, on the server or by redriving in memory. */
  lemma PeerStripped(o: seq<Bridge>, w: World, r: nat, p: nat, v: int, vlans: seq<int>)
    requires ScanInv(o, w, r, vlans) && IsPeer(o, r, p) && v in vlans && Removable(w.feed[p], v)
    ensures var c := if p in w.posted then Purge(w.feed[p], v) else Without(w.feed[p], v);
      Stripped(o[p], c, vlans) && forall q :: HasPvid(c.Addl(), q) ==> HasPvid(w.feed[p].Addl(), q)
  {
    var b := w.feed[p];
    assert Stripped(o[p], b, vlans);
    StrippedOnce(o[p], b, v, vlans);
    StrippedPurge(o[p], b, v, vlans);
    WithoutOff(b, v);
    PurgeOff(b, v);
  }

  lemma TakeKeeps(o: seq<Bridge>, w: World, env: Env, r: nat, v: int, vlans: seq<int>)
    requires ScanInv(o, w, r, vlans) && v in vlans
    ensures var (w1, out) := TakeFromPeer(w, env, r, v);
      && ScanInv(o, w1, r, vlans)
      && (out == Done || (out == PvidOfBridge(v) && PeerPrimary(o, r, v)))
      && (forall k, q | 0 <= k < |o| && HasPvid(w1.feed[k].Addl(), q) :: HasPvid(w.feed[k].Addl(), q))
  {
    var p := FirstPeer(w.feed, r, v, 0);
    if p < |w.feed| {
      SameBridges(o, w, r, vlans, p);
      SameBridges(o, w, r, vlans, r);
      RemoveCases(w, env, p, v);
      if v != w.feed[p].first.primary.pvid && Removable(w.feed[p], v) {
        PeerStripped(o, w, r, p, v, vlans);
        PostPeer(o, w, r, p, if p in w.posted then Purge(w.feed[p], v) else Without(w.feed[p], v), vlans);
      }
    }
  }

  lemma SameBridges(o: seq<Bridge>, w: World, r: nat, vlans: seq<int>, k: nat)
    requires ScanInv(o, w, r, vlans) && k < |o|
    ensures w.feed[k].vswitch == o[k].vswitch && w.feed[k].first.primary == o[k].first.primary && Local(w.feed[k])
  {
    assert Stripped(o[k], w.feed[k], vlans);
  }

  /** A state in which the call may look for a VID: peers have lost requested VLANs
      at most, and this bridge has gained such, but not yet all it lacks. */
  ghost predicate Midway(o: seq<Bridge>, bs: seq<Bridge>, r: nat, vlans: seq<int>) {
    && r < |o| == |bs|
    && (forall k | 0 <= k < |o| && k != r :: Stripped(o[k], bs[k], vlans))
    && bs[r].vswitch == o[r].vswitch
    && (forall u :: Supports(bs[r], u) ==> Supports(o[r], u) || u in vlans)
    && |bs[r].Addl()| < |o[r].Addl()| + |Missing(o[r], vlans)|
  }

  ghost predicate NoVidLeft(bs: seq<Bridge>, env: Env, vs: int, vlans: seq<int>) {
    forall v | 2 <= v <= TOP_VID :: v in vlans || v in env.Orphans(vs) || InUse(bs, vs, v)
  }

  lemma NoneFree(bs: seq<Bridge>, env: Env, vs: int, others: seq<int>, vlans: seq<int>)
    requires FreeVid(Reserved(bs, env, vs, others)).None? && forall v | v in others :: v in vlans
    ensures NoVidLeft(bs, env, vs, vlans)
  {
    forall v | 2 <= v <= TOP_VID ensures v in vlans || v in env.Orphans(vs) || InUse(bs, vs, v) {
      UsedOnMembers(bs, vs, v);
      assert v in Reserved(bs, env, vs, others);
    }
  }

  /** Why a call gives up: a requested VLAN is a peer's primary PVID, an orphan,
      or a throw-away PVID of a peer but not of this bridge; or at some point of
      the call every VID is requested, an orphan or in use. */
  ghost predicate Explained(o: seq<Bridge>, env: Env, r: nat, vlans: seq<int>, why: Outcome)
    requires r < |o|
  {
    match why
    case Done => false
    case PvidOfBridge(v) =>
      v in vlans && !Supports(o[r], v) && PeerPrimary(o, r, v)
    case OrphanFound(v) => v in vlans && !Supports(o[r], v) && v in env.Orphans(o[r].vswitch)
    case VidsExhausted => exists bs :: Midway(o, bs, r, vlans) && NoVidLeft(bs, env, o[r].vswitch, vlans)
    case NoTrunkToReassign =>
      exists v, p | v in vlans && IsPeer(o, r, p) :: HasPvid(o[p].Addl(), v)
  }

  /** What a scan comes to, from any point of it. */
  ghost predicate ScanResultOk(o: seq<Bridge>, env: Env, r: nat, vlans: seq<int>, expected: seq<int>, res: ScanResult) {
    && r < |o|
    && match res
       case Scanned(w, added) =>
         ScanInv(o, w, r, vlans) && added == expected && Placeable(w.feed, env, o[r].vswitch, added)
       case Failed(w, why) => ScanInv(o, w, r, vlans) && Explained(o, env, r, vlans, why)
       case Reassigned(w) =>
         && |w.server| == |w.feed| == |o|
         && w.server[r] == w.feed[r] && SameVlans(o[r], w.server[r])
         && Wanted(w.server[r].Addl(), vlans) < Wanted(o[r].Addl(), vlans)
         && (forall k | 0 <= k < |o| && k != r :: Stripped(o[k], w.server[k], vlans))
         && (forall k | 0 <= k < |o| && k != r && !IsPeer(o, r, k) :: w.server[k] == o[k])
  }

  lemma ReassignInScan(o: seq<Bridge>, w: World, env: Env, r: nat, v: int, vlans: seq<int>)
    requires ScanInv(o, w, r, vlans) && v in vlans && HasPvid(w.feed[r].Addl(), v)
    requires FreeVid(Reserved(w.feed, env, w.feed[r].vswitch, vlans)).Some?
    ensures var n := FreeVid(Reserved(w.feed, env, w.feed[r].vswitch, vlans)).value;
      ScanResultOk(o, env, r, vlans, [], Reassigned(w.Post(r, Reassign(w.feed[r], v, n))))
  {
    var n := FreeVid(Reserved(w.feed, env, w.feed[r].vswitch, vlans)).value;
    NewVidIsFree(w.feed, env, w.feed[r].vswitch, vlans);
    assert Local(o[r]);
    ReassignEffect(w.feed[r], v, n, vlans);
  }

  lemma ExhaustedInScan(o: seq<Bridge>, w: World, env: Env, r: nat, v: int, vlans: seq<int>)
    requires ScanInv(o, w, r, vlans) && v in vlans && !Supports(o[r], v)
    requires FreeVid(Reserved(w.feed, env, o[r].vswitch, vlans)).None?
    ensures Explained(o, env, r, vlans, VidsExhausted)
  {
    NoneFree(w.feed, env, o[r].vswitch, vlans, vlans);
    MissingHas(o[r], vlans, v);
    assert Midway(o, w.feed, r, vlans);
  }

  lemma {:induction false} MissingHas(b: Bridge, vlans: seq<int>, v: int)
    ensures v in Missing(b, vlans) <==> v in vlans && !Supports(b, v)
  {
    if vlans != [] { MissingHas(b, vlans[1..], v); }
  }

  /** The scan ends at VLAN i: an error, or a PVID was moved. */
  ghost predicate Stops(w: World, env: Env, r: nat, v: int)
    requires r < |w.server| == |w.feed|
  {
    var (w1, out) := TakeFromPeer(w, env, r, v);
    out != Done || ArbitraryOn(w1.feed, w1.feed[r].vswitch, v) || v in env.Orphans(w1.feed[r].vswitch)
  }

  lemma ScanStops(o: seq<Bridge>, w: World, env: Env, r: nat, vlans: seq<int>, i: nat, added: seq<int>, expected: seq<int>)
    requires ScanInv(o, w, r, vlans) && i < |vlans| && !Supports(w.feed[r], vlans[i]) && Stops(w, env, r, vlans[i])
    ensures ScanResultOk(o, env, r, vlans, expected, Scan(w, env, r, vlans, i, added))
  {
    var v := vlans[i];
    var (w1, out) := TakeFromPeer(w, env, r, v);
    TakeKeeps(o, w, env, r, v, vlans);
    if out == Done && ArbitraryOn(w1.feed, w1.feed[r].vswitch, v) {
      if FreeVid(Reserved(w1.feed, env, w1.feed[r].vswitch, vlans)).None? {
        ExhaustedInScan(o, w1, env, r, v, vlans);
      } else if HasPvid(w1.feed[r].Addl(), v) {
        ReassignInScan(o, w1, env, r, v, vlans);
      }
    }
  }

  /** The scan goes on after a VLAN that has to be placed. */
  lemma ScanGoesOn(o: seq<Bridge>, w: World, env: Env, r: nat, vlans: seq<int>, i: nat, added: seq<int>)
    requires ScanInv(o, w, r, vlans) && i < |vlans| && !Supports(w.feed[r], vlans[i]) && !Stops(w, env, r, vlans[i])
    requires Placeable(w.feed, env, o[r].vswitch, added)
    ensures var w1 := TakeFromPeer(w, env, r, vlans[i]).0;
      && ScanInv(o, w1, r, vlans)
      && Scan(w, env, r, vlans, i, added) == Scan(w1, env, r, vlans, i + 1, added + [vlans[i]])
      && Placeable(w1.feed, env, o[r].vswitch, added + [vlans[i]])
  {
    var w1 := TakeFromPeer(w, env, r, vlans[i]).0;
    TakeKeeps(o, w, env, r, vlans[i], vlans);
    PlaceableShrinks(w.feed, w1.feed, env, o[r].vswitch, added);
  }

  lemma MissingStep(b: Bridge, vlans: seq<int>, i: nat)
    requires i < |vlans|
    ensures Missing(b, vlans[i..]) == (if Supports(b, vlans[i]) then [] else [vlans[i]]) + Missing(b, vlans[i + 1..])
  {
    assert vlans[i..][0] == vlans[i] && vlans[i..][1..] == vlans[i + 1..];
  }

  /** The scan has come to VLAN i; `expected` is what it will find missing in all. */
  ghost predicate ScanAt(o: seq<Bridge>, w: World, env: Env, r: nat, vlans: seq<int>, i: nat, added: seq<int>, expected: seq<int>) {
    && ScanInv(o, w, r, vlans) && i <= |vlans|
    && Placeable(w.feed, env, o[r].vswitch, added)
    && expected == added + Missing(o[r], vlans[i..])
  }

  lemma ScanAtNext(o: seq<Bridge>, w: World, env: Env, r: nat, vlans: seq<int>, i: nat, added: seq<int>, expected: seq<int>)
    requires ScanAt(o, w, env, r, vlans, i, added, expected) && i < |vlans|
    ensures Supports(o[r], vlans[i]) ==> ScanAt(o, w, env, r, vlans, i + 1, added, expected)
    ensures !Supports(o[r], vlans[i]) && !Stops(w, env, r, vlans[i]) ==>
      var w1 := TakeFromPeer(w, env, r, vlans[i]).0;
      && ScanAt(o, w1, env, r, vlans, i + 1, added + [vlans[i]], expected)
      && Scan(w, env, r, vlans, i, added) == Scan(w1, env, r, vlans, i + 1, added + [vlans[i]])
  {
    MissingStep(o[r], vlans, i);
    if !Supports(o[r], vlans[i]) && !Stops(w, env, r, vlans[i]) { ScanGoesOn(o, w, env, r, vlans, i, added); }
  }

  lemma {:induction false} ScanOk(o: seq<Bridge>, w: World, env: Env, r: nat, vlans: seq<int>, i: nat, added: seq<int>, expected: seq<int>)
    requires ScanAt(o, w, env, r, vlans, i, added, expected)
    ensures ScanResultOk(o, env, r, vlans, expected, Scan(w, env, r, vlans, i, added))
    decreases |vlans| - i
  {
    if i < |vlans| {
      ScanAtNext(o, w, env, r, vlans, i, added, expected);
      if Supports(o[r], vlans[i]) {
        ScanOk(o, w, env, r, vlans, i + 1, added, expected);
      } else if Stops(w, env, r, vlans[i]) {
        ScanStops(o, w, env, r, vlans, i, added, expected);
      } else {
        ScanOk(o, TakeFromPeer(w, env, r, vlans[i]).0, env, r, vlans, i + 1, added + [vlans[i]], expected);
      }
    }
  }

  lemma PlaceableShrinks(a: seq<Bridge>, b: seq<Bridge>, env: Env, vs: int, vlans: seq<int>)
    requires |a| == |b| && Placeable(a, env, vs, vlans)
    requires forall k | 0 <= k < |a| :: a[k].vswitch == b[k].vswitch
    requires forall k, q | 0 <= k < |a| && HasPvid(b[k].Addl(), q) :: HasPvid(a[k].Addl(), q)
    ensures Placeable(b, env, vs, vlans)
  {
  }

  // ---- The whole call ----

  lemma ScanFromServer(server: seq<Bridge>, env: Env, r: nat, vlans: seq<int>)
    requires r < |server| && AllLocal(server)
    ensures var res := Scan(Fetch(server), env, r, vlans, 0, []);
      && ScanResultOk(server, env, r, vlans, Missing(server[r], vlans), res)
      && (res.Reassigned? ==> AllLocal(res.w.server) && TotalWanted(res.w.server, vlans) < TotalWanted(server, vlans))
  {
    FetchInv(server, r, vlans);
    assert vlans[0..] == vlans;
    ScanOk(server, Fetch(server), env, r, vlans, 0, [], Missing(server[r], vlans));
    var res := Scan(Fetch(server), env, r, vlans, 0, []);
    if res.Reassigned? {
      var t := res.w.server;
      TotalWantedUpdate(t, r, server[r], vlans);
      TotalWantedMonotone(t[r := server[r]], server, vlans);
    }
  }

  /** The end of the call: place what is missing and post the bridge. */
  ghost function Finish(w: World, env: Env, r: nat, added: seq<int>): (seq<Bridge>, Outcome)
    requires r < |w.server| == |w.feed|
  {
    if added == [] then (w.server, Done)
    else match PlaceAll(w.feed, env, r, added, added)
         case None => (w.server, VidsExhausted)
         case Some(b) => (w.Post(r, b).server, Done)
  }

  /** `_ensure_vlans_on_nb_synch` for the bridge at index r: scan; start over on
      a fresh feed when a PVID was moved; place what is missing and post. */
  ghost function Ensure(server: seq<Bridge>, env: Env, r: nat, vlans: seq<int>): (seq<Bridge>, Outcome)
    requires r < |server| && AllLocal(server)
    decreases TotalWanted(server, vlans)
  {
    ScanFromServer(server, env, r, vlans);
    match Scan(Fetch(server), env, r, vlans, 0, [])
    case Failed(w, why) => (w.server, why)
    case Reassigned(w) => Ensure(w.server, env, r, vlans)
    case Scanned(w, added) => Finish(w, env, r, added)
  }

  /** `_remove_vlan_from_nb_synch` on a feed of its own. */
  ghost function Remove(server: seq<Bridge>, env: Env, k: nat, v: int, failIfPvid: bool): (seq<Bridge>, Outcome)
    requires k < |server|
  {
    var (w, o) := RemoveSynch(Fetch(server), env, k, v, failIfPvid);
    (w.server, o)
  }
}
