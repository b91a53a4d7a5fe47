/** The trunk-adapter bridger: the loops that VlanBridges and VlanSafety specify. */
module NetworkBridger {
  import opened Options
  import opened VlanBridges
  import opened VlanSafety
  import opened VlanResults

  /** A trunk of a SEA, as `_find_peer_trunk` hands it out. */
  datatype TrunkRef = Primary | Additional(index: nat)

  /** `_find_available_trunks` on the additional trunks of the first SEA. */
  method FindAvailableTrunk(trunks: seq<Trunk>, loadBalance: bool, acrossVeas: bool) returns (at: Option<nat>)
    ensures at == FindAvailable(Counts(trunks), loadBalance, acrossVeas)
  {
    if acrossVeas && |trunks| < MAX_VEAS_PER_SEA {
      return None;
    }
    var curMin: Option<nat> := None;
    var availCount := 0;
    var i := 0;
    while i < |trunks|
      invariant 0 <= i <= |trunks|
      invariant curMin == Emptiest(Counts(trunks)[..i])
      invariant availCount == NumAvailable(Counts(trunks)[..i])
    {
      ghost var counts := Counts(trunks);
      assert counts[..i + 1][..i] == counts[..i];
      if |trunks[i].tags| < MAX_VLANS_PER_VEA {
        availCount := availCount + 1;
        if curMin.None? || |trunks[i].tags| < |trunks[curMin.value].tags| {
          curMin := Some(i);
        }
      }
      i := i + 1;
    }
    assert Counts(trunks)[..i] == Counts(trunks);
    if loadBalance && curMin.Some? && availCount == 1 && |trunks| % 2 == 1 {
      return None;
    }
    if curMin.None? { FullIsUnavailable(Counts(trunks)); }
    return curMin;
  }

  lemma {:induction false} FullIsUnavailable(counts: seq<nat>)
    requires forall j | 0 <= j < |counts| :: counts[j] >= MAX_VLANS_PER_VEA
    ensures NumAvailable(counts) == 0
  {
    if counts != [] { FullIsUnavailable(counts[..|counts| - 1]); }
  }

  /** `_find_peer_trunk`: the trunk of the failover SEA with the same PVID. */
  method FindPeerTrunk(b: Bridge, pvid: int) returns (peer: Option<TrunkRef>)
    ensures b.second.None? ==> peer == None
    ensures b.second.Some? ==>
      var sea := b.second.value; var i := TrunkOfPvid(sea.addl, pvid);
      peer == if sea.primary.pvid == pvid then Some(Primary) else if i < |sea.addl| then Some(Additional(i)) else None
  {
    if b.second.None? {
      return None;
    }
    var sea := b.second.value;
    if sea.primary.pvid == pvid {
      return Some(Primary);
    }
    var i := 0;
    while i < |sea.addl|
      invariant 0 <= i <= |sea.addl|
      invariant TrunkOfPvid(sea.addl, pvid) == i + TrunkOfPvid(sea.addl[i..], pvid)
    {
      assert sea.addl[i..][0] == sea.addl[i] && sea.addl[i..][1..] == sea.addl[i + 1..];
      if sea.addl[i].pvid == pvid {
        return Some(Additional(i));
      }
      i := i + 1;
    }
    return None;
  }

  /** On a mirrored bridge the peer of an additional trunk stands at the same place. */
  lemma PeerIsMirror(b: Bridge, i: nat)
    requires Local(b) && i < |b.Addl()| && b.second.Some?
    ensures b.second.value.primary.pvid != b.Addl()[i].pvid && TrunkOfPvid(b.second.value.addl, b.Addl()[i].pvid) == i
  {
    assert !Supports(b, b.Addl()[i].pvid);
    assert b.Addl()[i].pvid == b.Addl()[i].pvid && forall k | 0 <= k < i :: b.Addl()[k].pvid != b.Addl()[i].pvid;
  }

  /** What one requested VLAN asks for. */
  datatype Verdict = Present | Absent | Moved | GaveUp(why: Outcome)

  class NetworkBridgerTA {
    const env: Env
    /** The bridges as the server has them. */
    var server: seq<Bridge>
    /** The wrappers last fetched, changed in memory. */
    var feed: seq<Bridge>
    /** The wrappers that were posted since, so that their etag is stale. */
    var posted: set<nat>

    constructor (env: Env, server: seq<Bridge>)
      ensures this.env == env && this.server == server
    {
      this.env := env;
      this.server := server;
      feed := server;
      posted := {};
    }

    ghost function W(): World
      reads this
    {
      World(server, feed, posted)
    }

    /** POST of wrapper k; false if refused because of its etag. */
    method Update(k: nat) returns (accepted: bool)
      requires k < |server| == |feed|
      modifies this
      ensures accepted == (k !in old(posted))
      ensures feed == old(feed)
      ensures accepted ==> server == old(server)[k := feed[k]] && posted == old(posted) + {k}
      ensures !accepted ==> server == old(server) && posted == old(posted)
    {
      accepted := k !in posted;
      if accepted {
        server := server[k := feed[k]];
        posted := posted + {k};
      }
    }

    /** `_find_new_arbitrary_vid`. */
    method FindNewArbitraryVid(vs: int, others: seq<int>) returns (vid: Option<int>)
      ensures vid == FreeVid(UsedOn(feed, vs) + others)
    {
      var allVlans: seq<int> := [];
      var k := 0;
      while k < |feed|
        invariant 0 <= k <= |feed|
        invariant UsedOn(feed, vs) == allVlans + UsedOn(feed[k..], vs)
      {
        assert feed[k..][0] == feed[k] && feed[k..][1..] == feed[k + 1..];
        if feed[k].vswitch == vs {
          allVlans := allVlans + ListVlans(feed[k]);
        }
        k := k + 1;
      }
      assert UsedOn(feed[k..], vs) == [];
      assert allVlans == UsedOn(feed, vs);
      allVlans := allVlans + others;
      var i := TOP_VID;
      while i > 1
        invariant 1 <= i <= TOP_VID
        invariant FreeVid(allVlans) == FreeFrom(i, allVlans)
      {
        if i !in allVlans {
          return Some(i);
        }
        i := i - 1;
      }
      return None;
    }

    /** `_reassign_arbitrary_vid`: false if no additional trunk has that PVID,
        where the source fails on a missing trunk. */
    method ReassignArbitraryVid(k: nat, oldVid: int, newVid: int) returns (found: bool)
      requires k < |server| == |feed| && Local(feed[k])
      modifies this
      ensures found == HasPvid(old(feed[k]).Addl(), oldVid)
      ensures found ==> W() == old(W()).Post(k, Reassign(old(feed[k]), oldVid, newVid))
      ensures !found ==> W() == old(W())
    {
      var b := feed[k];
      var trunks := b.Addl();
      var i := 0;
      while i < |trunks| && trunks[i].pvid != oldVid
        invariant 0 <= i <= |trunks|
        invariant forall j | 0 <= j < i :: trunks[j].pvid != oldVid
      {
        i := i + 1;
      }
      found := i < |trunks|;
      if found {
        var peer := FindPeerTrunk(b, oldVid);
        if b.second.Some? { PeerIsMirror(b, i); }
        assert TrunkOfPvid(trunks, oldVid) == i;
        var first := b.first.(addl := trunks[i := trunks[i].(pvid := newVid)]);
        var second := SetPvid(b.second, peer, newVid);
        feed := feed[k := b.(first := first, second := second)];
        assert feed[k] == Reassign(b, oldVid, newVid);
        var _ := Update(k);
      }
    }

    static function SetPvid(sea: Option<Sea>, at: Option<TrunkRef>, vid: int): Option<Sea>
      requires sea.Some? && at.Some? && at.value.Additional? ==> at.value.index < |sea.value.addl|
    {
      if sea.None? || at.None? then sea
      else if at.value.Primary? then Some(sea.value.(primary := sea.value.primary.(pvid := vid)))
      else
        var a, i := sea.value.addl, at.value.index;
        Some(sea.value.(addl := a[i := a[i].(pvid := vid)]))
    }

    static function Tag(sea: Option<Sea>, at: Option<TrunkRef>, vlan: int): Option<Sea>
      requires sea.Some? && at.Some? && at.value.Additional? ==> at.value.index < |sea.value.addl|
    {
      if sea.None? || at.None? then sea
      else if at.value.Primary? then
        Some(sea.value.(primary := sea.value.primary.(tags := sea.value.primary.tags + [vlan])))
      else
        var a, i := sea.value.addl, at.value.index;
        Some(sea.value.(addl := a[i := a[i].(tags := a[i].tags + [vlan])]))
    }

    /** The body of `_add_vlans_to_nb` for one VLAN: on a new trunk of every SEA,
        or on the trunk at index `at` and its peer. */
    static method AddVlan(b: Bridge, at: Option<nat>, vlan: int, arbVid: int) returns (c: Bridge)
      requires Local(b) && (at.Some? ==> at.value < |b.Addl()|)
      ensures c == b.WithAddl(Place(b.Addl(), at, vlan, arbVid))
    {
      var trunks := b.Addl();
      if at.None? {
        var trunk := Trunk(arbVid, [vlan]);
        var second := b.second;
        if second.Some? {
          second := Some(second.value.(addl := second.value.addl + [trunk]));
        }
        c := b.(first := b.first.(addl := trunks + [trunk]), second := second);
      } else {
        var peer := FindPeerTrunk(b, trunks[at.value].pvid);
        if b.second.Some? { PeerIsMirror(b, at.value); }
        var first := b.first.(addl := trunks[at.value := trunks[at.value].(tags := trunks[at.value].tags + [vlan])]);
        c := b.(first := first, second := Tag(b.second, peer, vlan));
      }
    }

    /** One turn of the loop of `_add_vlans_to_nb`: false if a new trunk was needed
        and no VID was free. */
    method AddNextVlan(r: nat, ghost todo: seq<int>, newVlans: seq<int>, vlan: int) returns (ok: bool)
      requires r < |feed| && Local(feed[r]) && Placeable(feed, env, feed[r].vswitch, todo)
      requires todo != [] && todo[0] == vlan && forall v | v in todo :: v in newVlans
      modifies this`feed
      ensures |feed| == |old(feed)| && feed == old(feed)[r := feed[r]]
      ensures ok ==> Local(feed[r]) && Placeable(feed, env, feed[r].vswitch, todo[1..])
      ensures ok ==> PlaceAll(feed, env, r, todo[1..], newVlans) == PlaceAll(old(feed), env, r, todo, newVlans)
      ensures !ok ==> feed == old(feed) && PlaceAll(feed, env, r, todo, newVlans) == None
    {
      var b := feed[r];
      var at := FindAvailableTrunk(b.Addl(), b.loadBalance, env.acrossVeas);
      var arbVid := 0;
      if at.None? {
        var free := FindNewArbitraryVid(b.vswitch, newVlans + env.Orphans(b.vswitch));
        assert UsedOn(feed, b.vswitch) + (newVlans + env.Orphans(b.vswitch)) == Reserved(feed, env, b.vswitch, newVlans);
        if free.None? {
          return false;
        }
        arbVid := free.value;
      }
      var c := AddVlan(b, at, vlan, arbVid);
      StepAdds(feed, r, todo, newVlans, at, arbVid);
      feed := feed[r := c];
      return true;
    }

    /** `_add_vlans_to_nb`. */
    method AddVlansToNb(r: nat, newVlans: seq<int>) returns (ok: bool)
      requires r < |feed| && Local(feed[r]) && Placeable(feed, env, feed[r].vswitch, newVlans)
      modifies this`feed
      ensures |feed| == |old(feed)| && feed == old(feed)[r := feed[r]]
      ensures PlaceAll(old(feed), env, r, newVlans, newVlans) == if ok then Some(feed[r]) else None
    {
      ghost var feed0 := feed;
      assert newVlans[0..] == newVlans;
      var i := 0;
      while i < |newVlans|
        invariant 0 <= i <= |newVlans| && |feed| == |feed0| && feed == feed0[r := feed[r]]
        invariant Local(feed[r]) && Placeable(feed, env, feed[r].vswitch, newVlans[i..])
        invariant PlaceAll(feed, env, r, newVlans[i..], newVlans) == PlaceAll(feed0, env, r, newVlans, newVlans)
      {
        assert newVlans[i..][1..] == newVlans[i + 1..];
        ok := AddNextVlan(r, newVlans[i..], newVlans, newVlans[i]);
        if !ok {
          return;
        }
        i := i + 1;
      }
      assert newVlans[i..] == [];
      return true;
    }

    /** One turn of that loop is one step of the specification. */
    lemma StepAdds(bs: seq<Bridge>, r: nat, todo: seq<int>, all: seq<int>, at: Option<nat>, arbVid: int)
      requires r < |bs| && Local(bs[r]) && Placeable(bs, env, bs[r].vswitch, todo) && todo != []
      requires forall v | v in todo :: v in all
      requires at == FindAvailable(Counts(bs[r].Addl()), bs[r].loadBalance, env.acrossVeas)
      requires at.None? ==> FreeVid(Reserved(bs, env, bs[r].vswitch, all)) == Some(arbVid)
      ensures var c := bs[r].WithAddl(Place(bs[r].Addl(), at, todo[0], arbVid));
        && Local(c) && c.vswitch == bs[r].vswitch && Placeable(bs[r := c], env, bs[r].vswitch, todo[1..])
        && PlaceAll(bs[r := c], env, r, todo[1..], all) == PlaceAll(bs, env, r, todo, all)
    {
      PlaceStep(bs, env, r, todo, all, at, arbVid);
      var free := FreeVid(Reserved(bs, env, bs[r].vswitch, all));
      var arb := if free.Some? then free.value else 0;
      assert Place(bs[r].Addl(), at, todo[0], arb) == Place(bs[r].Addl(), at, todo[0], arbVid);
    }

    /** `_remove_vlan_from_nb` on the additional trunks of wrapper k. */
    method RemoveVlanFromNb(k: nat, vlan: int)
      requires k < |feed| && Local(feed[k]) && Tagged(feed[k].Addl(), vlan)
      modifies this`feed
      ensures feed == old(feed)[k := Without(old(feed[k]), vlan)]
    {
      var b := feed[k];
      var trunks := b.Addl();
      var i := 0;
      while i < |trunks| && vlan !in trunks[i].tags
        invariant 0 <= i <= |trunks|
        invariant forall j | 0 <= j < i :: vlan !in trunks[j].tags
      {
        i := i + 1;
      }
      assert TrunkWith(trunks, vlan) == i;
      var peer := FindPeerTrunk(b, trunks[i].pvid);
      if b.second.Some? { PeerIsMirror(b, i); }
      var canRemoveForLb := if b.loadBalance then |trunks| > 1 else true;
      var drop := |trunks[i].tags| == 1 && canRemoveForLb;
      var first := b.first.(addl := TakeOff(trunks, i, vlan, drop));
      var second := b.second;
      if second.Some? && peer.Some? && peer.value.Additional? {
        second := Some(second.value.(addl := TakeOff(second.value.addl, peer.value.index, vlan, drop)));
      }
      feed := feed[k := b.(first := first, second := second)];
    }

    /** The trunk goes with its last VLAN; otherwise the VLAN leaves its list. */
    static function TakeOff(a: seq<Trunk>, i: nat, vlan: int, drop: bool): seq<Trunk>
      requires i < |a|
    {
      if drop then a[..i] + a[i + 1..] else a[i := a[i].(tags := DropFirst(a[i].tags, vlan))]
    }

    /** `_remove_vlan_from_nb_synch` on the feed in hand.  A refused post redrives
        it on the same wrappers. */
    method RemoveVlanSynch(k: nat, vlan: int, failIfPvid: bool) returns (o: Outcome)
      requires k < |server| == |feed| && Local(feed[k])
      modifies this
      ensures (W(), o) == RemoveSynch(old(W()), env, k, vlan, failIfPvid)
      decreases Copies(feed[k].Addl(), vlan)
    {
      var b := feed[k];
      ghost var w0 := W();
      if HasPvid(b.Addl(), vlan) {
        var free := FindNewArbitraryVid(b.vswitch, [vlan] + env.Orphans(b.vswitch));
        assert UsedOn(feed, b.vswitch) + ([vlan] + env.Orphans(b.vswitch)) == Reserved(feed, env, b.vswitch, [vlan]);
        if free.None? {
          return VidsExhausted;
        }
        var _ := ReassignArbitraryVid(k, vlan, free.value);
        return Done;
      }
      if !Supports(b, vlan) {
        return Done;
      }
      if failIfPvid && b.first.primary.pvid == vlan {
        return PvidOfBridge(vlan);
      }
      if b.first.primary.pvid == vlan || vlan in b.first.primary.tags || |b.Addl()| == 0 {
        return Done;
      }
      WithoutOff(b, vlan);
      WithoutEffect(b, vlan);
      RemoveVlanFromNb(k, vlan);
      var accepted := Update(k);
      if !accepted {
        o := RemoveVlanSynch(k, vlan, failIfPvid);
        assert W() == w0.Post(k, Purge(b, vlan));
      } else {
        o := Done;
      }
    }

    /** GET of the network bridges. */
    method Refetch()
      modifies this`feed, this`posted
      ensures W() == Fetch(server)
    {
      feed := server;
      posted := {};
    }

    /** `remove_vlan_from_nb` without wrappers from the caller. */
    method RemoveVlan(k: nat, vlan: int, failIfPvid: bool) returns (o: Outcome)
      requires k < |server| && AllLocal(server)
      modifies this
      ensures (server, o) == Remove(old(server), env, k, vlan, failIfPvid)
    {
      Refetch();
      o := RemoveVlanSynch(k, vlan, failIfPvid);
    }

    /** The peers of bridge r are asked in turn, until one gives up the VLAN. */
    method RemoveFromPeers(r: nat, vlan: int) returns (o: Outcome)
      requires r < |server| == |feed| && AllLocal(feed)
      modifies this
      ensures (W(), o) == TakeFromPeer(old(W()), env, r, vlan)
    {
      var p := 0;
      while p < |feed|
        invariant 0 <= p <= |feed| && W() == old(W())
        invariant FirstPeer(feed, r, vlan, p) == FirstPeer(feed, r, vlan, 0)
      {
        if IsPeer(feed, r, p) && Supports(feed[p], vlan) {
          o := RemoveVlanSynch(p, vlan, true);
          return o;
        }
        p := p + 1;
      }
      return Done;
    }

    /** A requested VLAN is in use as an arbitrary PVID: that trunk gets another one. */
    method MoveArbitraryVid(r: nat, vlan: int, vlanIds: seq<int>) returns (verdict: Verdict)
      requires r < |server| == |feed| && Local(feed[r])
      modifies this
      ensures var free := FreeVid(Reserved(old(feed), env, old(feed)[r].vswitch, vlanIds));
        if free.None? then verdict == GaveUp(VidsExhausted) && W() == old(W())
        else if !HasPvid(old(feed)[r].Addl(), vlan) then verdict == GaveUp(NoTrunkToReassign) && W() == old(W())
        else verdict == Moved && W() == old(W()).Post(r, Reassign(old(feed)[r], vlan, free.value))
    {
      var vswitch := feed[r].vswitch;
      var free := FindNewArbitraryVid(vswitch, vlanIds + env.Orphans(vswitch));
      assert UsedOn(feed, vswitch) + (vlanIds + env.Orphans(vswitch)) == Reserved(feed, env, vswitch, vlanIds);
      if free.None? {
        return GaveUp(VidsExhausted);
      }
      var found := ReassignArbitraryVid(r, vlan, free.value);
      return if found then Moved else GaveUp(NoTrunkToReassign);
    }

    /** One turn of the loop over the requested VLANs. */
    method EvaluateVlan(r: nat, vlanIds: seq<int>, i: nat, ghost server0: seq<Bridge>, ghost newVlans: seq<int>)
      returns (verdict: Verdict)
      requires i < |vlanIds| && ScanInv(server0, W(), r, vlanIds)
      requires Placeable(feed, env, server0[r].vswitch, newVlans)
      modifies this
      ensures verdict.Present? ==>
        && W() == old(W())
        && Scan(old(W()), env, r, vlanIds, i, newVlans) == Scan(W(), env, r, vlanIds, i + 1, newVlans)
      ensures verdict.Absent? ==>
        && ScanInv(server0, W(), r, vlanIds)
        && Placeable(feed, env, server0[r].vswitch, newVlans + [vlanIds[i]])
        && Scan(old(W()), env, r, vlanIds, i, newVlans) == Scan(W(), env, r, vlanIds, i + 1, newVlans + [vlanIds[i]])
      ensures verdict.Moved? ==> Scan(old(W()), env, r, vlanIds, i, newVlans) == Reassigned(W())
      ensures verdict.GaveUp? ==> Scan(old(W()), env, r, vlanIds, i, newVlans) == Failed(W(), verdict.why)
    {
      ghost var w := W();
      var vlan := vlanIds[i];
      if Supports(feed[r], vlan) {
        return Present;
      }
      FeedIsLocal(server0, w, r, vlanIds);
      var outcome := RemoveFromPeers(r, vlan);
      TakeKeeps(server0, w, env, r, vlan, vlanIds);
      if outcome != Done {
        return GaveUp(outcome);
      }
      if ArbitraryOn(feed, feed[r].vswitch, vlan) {
        verdict := MoveArbitraryVid(r, vlan, vlanIds);
        return;
      }
      if vlan in env.Orphans(feed[r].vswitch) {
        return GaveUp(OrphanFound(vlan));
      }
      ScanGoesOn(server0, w, env, r, vlanIds, i, newVlans);
      return Absent;
    }

    /** The loop over the requested VLANs: Absent with the VLANs to be placed, or
        the verdict that ended it. */
    method EvaluateVlans(r: nat, vlanIds: seq<int>) returns (verdict: Verdict, newVlans: seq<int>)
      requires r < |server| && AllLocal(server) && W() == Fetch(server)
      modifies this
      ensures !verdict.Present?
      ensures Scan(old(W()), env, r, vlanIds, 0, []) == Result(verdict, W(), newVlans)
    {
      ghost var server0 := server;
      FetchInv(server0, r, vlanIds);
      newVlans := [];
      var i := 0;
      while i < |vlanIds|
        invariant 0 <= i <= |vlanIds|
        invariant ScanInv(server0, W(), r, vlanIds) && Placeable(feed, env, server0[r].vswitch, newVlans)
        invariant Scan(W(), env, r, vlanIds, i, newVlans) == Scan(old(W()), env, r, vlanIds, 0, [])
      {
        verdict := EvaluateVlan(r, vlanIds, i, server0, newVlans);
        if verdict.Absent? {
          newVlans := newVlans + [vlanIds[i]];
        } else if !verdict.Present? {
          return;
        }
        i := i + 1;
      }
      verdict := Absent;
    }

    static ghost function Result(verdict: Verdict, w: World, newVlans: seq<int>): ScanResult
      requires !verdict.Present?
    {
      match verdict
      case Absent => Scanned(w, newVlans)
      case Moved => Reassigned(w)
      case GaveUp(why) => Failed(w, why)
    }

    /** `_ensure_vlans_on_nb_synch` for the bridge at index r, with its restart
        after a throw-away PVID was moved. */
    method EnsureVlans(r: nat, vlanIds: seq<int>) returns (o: Outcome)
      requires r < |server| && AllLocal(server)
      modifies this
      ensures (server, o) == Ensure(old(server), env, r, vlanIds)
      decreases TotalWanted(server, vlanIds)
    {
      Refetch();
      ScanFromServer(server, env, r, vlanIds);
      var verdict, newVlans := EvaluateVlans(r, vlanIds);
      match verdict
      case Moved =>
        o := EnsureVlans(r, vlanIds);
      case GaveUp(why) =>
        o := why;
      case Absent =>
        o := Done;
        if newVlans != [] {
          FeedIsLocal(old(server), W(), r, vlanIds);
          var ok := AddVlansToNb(r, newVlans);
          if ok {
            var _ := Update(r);
          } else {
            o := VidsExhausted;
          }
        }
    }

    lemma FeedIsLocal(o: seq<Bridge>, w: World, r: nat, vlans: seq<int>)
      requires ScanInv(o, w, r, vlans)
      ensures AllLocal(w.feed)
    {
      forall k | 0 <= k < |o| ensures Local(w.feed[k]) { assert Stripped(o[k], w.feed[k], vlans); }
    }
  }
}
