/** One pass of a call to ensure VLANs, exactly: what it takes off the peers, on the
    server and in memory, and where it ends.  A call is a number of passes. */
module VlanPasses {
  import opened Options
  import opened VlanBridges
  import opened VlanSafety
  import opened VlanResults

  // ---- What a call leaves on the peers ----

  /** Requested VLAN v is taken off peer p: the bridge lacks it, p is the first
      peer that has it, and it is not on p's primary trunk. */
  ghost predicate Hit(o: seq<Bridge>, r: nat, v: int, p: int)
    requires r < |o|
  {
    IsPeer(o, r, p) && !Supports(o[r], v) && FirstPeer(o, r, v, 0) == p && Removable(o[p], v)
  }

  /** The first of the first n requested VLANs that is taken off p, or n. */
  ghost function FirstHit(o: seq<Bridge>, r: nat, vlans: seq<int>, p: int, n: nat): (f: nat)
    requires r < |o| && n <= |vlans|
    ensures f <= n
    ensures f < n ==> Hit(o, r, vlans[f], p)
    ensures forall j | 0 <= j < f :: !Hit(o, r, vlans[j], p)
  {
    if n == 0 then 0
    else
      var f := FirstHit(o, r, vlans, p, n - 1);
      if f < n - 1 then f else if Hit(o, r, vlans[n - 1], p) then n - 1 else n
  }

  /** What the wrapper of peer p is after the first n requested VLANs: the first
      that is taken off it goes once, as on the server; for the others every tag
      goes, by redriving the refused update. */
  ghost function InMemory(o: seq<Bridge>, r: nat, vlans: seq<int>, p: nat, n: nat): Bridge
    requires r < |o| && p < |o| && n <= |vlans|
  {
    if n == 0 then o[p]
    else
      var b := InMemory(o, r, vlans, p, n - 1);
      if !Hit(o, r, vlans[n - 1], p) then b
      else if FirstHit(o, r, vlans, p, n - 1) == n - 1 then Without(b, vlans[n - 1])
      else Purge(b, vlans[n - 1])
  }

  /** Peer p on the server after the first n requested VLANs. */
  ghost function OnServer(o: seq<Bridge>, r: nat, vlans: seq<int>, p: nat, n: nat): Bridge
    requires r < |o| && p < |o| && n <= |vlans|
  {
    var f := FirstHit(o, r, vlans, p, n);
    if f == n then o[p] else Without(o[p], vlans[f])
  }

  predicate Distinct(s: seq<int>) { forall i, j | 0 <= i < j < |s| :: s[i] != s[j] }

  /** After the first i VLANs, peers are as described on the server and in memory;
      VLANs not looked at yet are where they were. */
  ghost predicate PeersAt(o: seq<Bridge>, w: World, r: nat, vlans: seq<int>, i: nat) {
    && r < |o| == |w.server| == |w.feed| && i <= |vlans|
    && (forall p | IsPeer(o, r, p) ::
          && w.server[p] == OnServer(o, r, vlans, p, i) && w.feed[p] == InMemory(o, r, vlans, p, i)
          && (p in w.posted <==> FirstHit(o, r, vlans, p, i) < i))
    && (forall k, j | 0 <= k < |o| && i <= j < |vlans| :: Alike(o[k], w.feed[k], vlans[j]))
  }

  ghost predicate Alike(o: Bridge, b: Bridge, v: int) {
    (Supports(b, v) <==> Supports(o, v)) && (Removable(b, v) <==> Removable(o, v))
  }

  lemma {:induction false} SameFirstPeer(o: seq<Bridge>, feed: seq<Bridge>, r: nat, v: int, p: nat)
    requires r < |o| == |feed| && p <= |o|
    requires forall k | 0 <= k < |o| :: feed[k].vswitch == o[k].vswitch && Alike(o[k], feed[k], v)
    ensures FirstPeer(feed, r, v, p) == FirstPeer(o, r, v, p)
    decreases |o| - p
  {
    if p < |o| {
      assert Alike(o[p], feed[p], v);
      assert IsPeer(o, r, p) <==> IsPeer(feed, r, p);
      SameFirstPeer(o, feed, r, v, p + 1);
    }
  }

  /** Which wrapper a removal changes, and how. */
  ghost function Changed(w: World, p: nat, v: int): Bridge
    requires p < |w.server| == |w.feed|
  {
    if !Removable(w.feed[p], v) then w.feed[p]
    else if p in w.posted then Purge(w.feed[p], v)
    else Without(w.feed[p], v)
  }

  lemma ChangedAlike(w: World, p: nat, v: int)
    requires p < |w.server| == |w.feed| && Local(w.feed[p])
    ensures forall u | u != v :: Alike(w.feed[p], Changed(w, p, v), u)
  {
    var b := w.feed[p];
    if Removable(b, v) {
      WithoutOff(b, v);
      PurgeOff(b, v);
    }
  }

  lemma TakeIs(o: seq<Bridge>, w: World, env: Env, r: nat, v: int, vlans: seq<int>)
    requires ScanInv(o, w, r, vlans) && TakeFromPeer(w, env, r, v).1 == Done
    ensures var p := FirstPeer(w.feed, r, v, 0);
      TakeFromPeer(w, env, r, v).0 == if p < |o| && Removable(w.feed[p], v) then w.Post(p, Changed(w, p, v)) else w
  {
    var p := FirstPeer(w.feed, r, v, 0);
    if p < |w.feed| {
      assert Stripped(o[p], w.feed[p], vlans);
      RemoveCases(w, env, p, v);
    }
  }

  lemma TakeLeavesOthers(o: seq<Bridge>, w: World, env: Env, r: nat, v: int, vlans: seq<int>)
    requires ScanInv(o, w, r, vlans) && TakeFromPeer(w, env, r, v).1 == Done
    ensures forall k, u | 0 <= k < |o| && u != v :: Alike(w.feed[k], TakeFromPeer(w, env, r, v).0.feed[k], u)
  {
    TakeIs(o, w, env, r, v, vlans);
    var p := FirstPeer(w.feed, r, v, 0);
    if p < |o| {
      SameBridges(o, w, r, vlans, p);
      ChangedAlike(w, p, v);
      PostAlike(w, p, Changed(w, p, v), v);
    }
  }

  lemma PostAlike(w: World, p: nat, c: Bridge, v: int)
    requires p < |w.server| == |w.feed| && forall u | u != v :: Alike(w.feed[p], c, u)
    ensures forall k, u | 0 <= k < |w.feed| && u != v :: Alike(w.feed[k], w.Post(p, c).feed[k], u)
  {
  }

  lemma SamePeerAt(o: seq<Bridge>, w: World, r: nat, vlans: seq<int>, i: nat)
    requires ScanInv(o, w, r, vlans) && i < |vlans| && PeersAt(o, w, r, vlans, i)
    ensures FirstPeer(w.feed, r, vlans[i], 0) == FirstPeer(o, r, vlans[i], 0)
  {
    forall k | 0 <= k < |o| ensures w.feed[k].vswitch == o[k].vswitch && Alike(o[k], w.feed[k], vlans[i]) {
      assert Stripped(o[k], w.feed[k], vlans);
    }
    SameFirstPeer(o, w.feed, r, vlans[i], 0);
  }

  /** How one requested VLAN is taken off its peer, seen from the start. */
  lemma PeersTake(o: seq<Bridge>, w: World, env: Env, r: nat, vlans: seq<int>, i: nat)
    requires ScanInv(o, w, r, vlans) && i < |vlans| && PeersAt(o, w, r, vlans, i) && Distinct(vlans)
    requires !Supports(o[r], vlans[i]) && TakeFromPeer(w, env, r, vlans[i]).1 == Done
    ensures PeersAt(o, TakeFromPeer(w, env, r, vlans[i]).0, r, vlans, i + 1)
  {
    var v := vlans[i];
    SamePeerAt(o, w, r, vlans, i);
    TakeLeavesOthers(o, w, env, r, v, vlans);
    TakeIs(o, w, env, r, v, vlans);
    var w1 := TakeFromPeer(w, env, r, v).0;
    forall k, j | 0 <= k < |o| && i + 1 <= j < |vlans| ensures Alike(o[k], w1.feed[k], vlans[j]) {
      assert Alike(o[k], w.feed[k], vlans[j]) && Alike(w.feed[k], w1.feed[k], vlans[j]);
    }
    forall q | IsPeer(o, r, q)
      ensures w1.server[q] == OnServer(o, r, vlans, q, i + 1) && w1.feed[q] == InMemory(o, r, vlans, q, i + 1)
      ensures q in w1.posted <==> FirstHit(o, r, vlans, q, i + 1) < i + 1
    {
      PeerTakes(o, w, r, vlans, i, q);
    }
  }

  lemma NotHit(o: seq<Bridge>, r: nat, vlans: seq<int>, p: nat, i: nat)
    requires r < |o| && p < |o| && i < |vlans| && !Hit(o, r, vlans[i], p)
    ensures OnServer(o, r, vlans, p, i + 1) == OnServer(o, r, vlans, p, i)
    ensures InMemory(o, r, vlans, p, i + 1) == InMemory(o, r, vlans, p, i)
    ensures FirstHit(o, r, vlans, p, i + 1) < i + 1 <==> FirstHit(o, r, vlans, p, i) < i
  {
  }

  lemma IsHit(o: seq<Bridge>, r: nat, vlans: seq<int>, p: nat, i: nat)
    requires r < |o| && p < |o| && i < |vlans| && Hit(o, r, vlans[i], p)
    ensures FirstHit(o, r, vlans, p, i + 1) < i + 1
    ensures var b := InMemory(o, r, vlans, p, i);
      if FirstHit(o, r, vlans, p, i) == i
      then b == o[p] && OnServer(o, r, vlans, p, i + 1) == InMemory(o, r, vlans, p, i + 1) == Without(b, vlans[i])
      else OnServer(o, r, vlans, p, i + 1) == OnServer(o, r, vlans, p, i) && InMemory(o, r, vlans, p, i + 1) == Purge(b, vlans[i])
  {
    if FirstHit(o, r, vlans, p, i) == i { UntouchedInMemory(o, r, vlans, p, i); }
  }

  lemma PeerTakes(o: seq<Bridge>, w: World, r: nat, vlans: seq<int>, i: nat, q: nat)
    requires ScanInv(o, w, r, vlans) && i < |vlans| && PeersAt(o, w, r, vlans, i) && IsPeer(o, r, q) && !Supports(o[r], vlans[i])
    ensures var p := FirstPeer(o, r, vlans[i], 0);
      var w1 := if p < |o| && Removable(w.feed[p], vlans[i]) then w.Post(p, Changed(w, p, vlans[i])) else w;
      && w1.server[q] == OnServer(o, r, vlans, q, i + 1) && w1.feed[q] == InMemory(o, r, vlans, q, i + 1)
      && (q in w1.posted <==> FirstHit(o, r, vlans, q, i + 1) < i + 1)
  {
    assert Alike(o[q], w.feed[q], vlans[i]);
    if Hit(o, r, vlans[i], q) {
      IsHit(o, r, vlans, q, i);
      PostedOrNot(w, q, vlans[i]);
    } else {
      NotHit(o, r, vlans, q, i);
    }
  }

  lemma PostedOrNot(w: World, p: nat, v: int)
    requires p < |w.server| == |w.feed| && Removable(w.feed[p], v)
    ensures var w1 := w.Post(p, Changed(w, p, v));
      && p in w1.posted
      && w1.feed[p] == Changed(w, p, v) == (if p in w.posted then Purge(w.feed[p], v) else Without(w.feed[p], v))
      && w1.server[p] == if p in w.posted then w.server[p] else w1.feed[p]
  {
  }

  lemma {:induction false} UntouchedInMemory(o: seq<Bridge>, r: nat, vlans: seq<int>, p: nat, n: nat)
    requires r < |o| && p < |o| && n <= |vlans| && FirstHit(o, r, vlans, p, n) == n
    ensures InMemory(o, r, vlans, p, n) == o[p]
  {
    if n > 0 { UntouchedInMemory(o, r, vlans, p, n - 1); }
  }

  // ---- Where a pass ends ----

  /** All bridges in memory, and all on the server, after the first n VLANs. */
  ghost function MemoryAt(o: seq<Bridge>, r: nat, vlans: seq<int>, n: nat): (bs: seq<Bridge>)
    requires r < |o| && n <= |vlans|
    ensures |bs| == |o| && bs[r] == o[r]
  {
    seq(|o|, k requires 0 <= k < |o| => if IsPeer(o, r, k) then InMemory(o, r, vlans, k, n) else o[k])
  }

  ghost function ServerAt(o: seq<Bridge>, r: nat, vlans: seq<int>, n: nat): (bs: seq<Bridge>)
    requires r < |o| && n <= |vlans|
    ensures |bs| == |o| && bs[r] == o[r]
  {
    seq(|o|, k requires 0 <= k < |o| => if IsPeer(o, r, k) then OnServer(o, r, vlans, k, n) else o[k])
  }

  lemma WorldAt(o: seq<Bridge>, w: World, r: nat, vlans: seq<int>, n: nat)
    requires ScanInv(o, w, r, vlans) && n <= |vlans| && PeersAt(o, w, r, vlans, n)
    ensures w.server == ServerAt(o, r, vlans, n) && w.feed == MemoryAt(o, r, vlans, n)
  {
  }

  /** VLAN v is the primary PVID of the first peer that has it. */
  ghost predicate Blocked(o: seq<Bridge>, r: nat, v: int)
    requires r < |o|
  {
    var p := FirstPeer(o, r, v, 0);
    !Supports(o[r], v) && p < |o| && o[p].first.primary.pvid == v
  }

  /** VLAN i is a throw-away PVID in memory, when it has been taken off its peer. */
  ghost predicate InTheWay(o: seq<Bridge>, r: nat, vlans: seq<int>, i: nat)
    requires r < |o| && i < |vlans|
  {
    !Supports(o[r], vlans[i]) && ArbitraryOn(MemoryAt(o, r, vlans, i + 1), o[r].vswitch, vlans[i])
  }

  ghost predicate Orphaned(o: seq<Bridge>, env: Env, r: nat, v: int)
    requires r < |o|
  {
    !Supports(o[r], v) && v in env.Orphans(o[r].vswitch)
  }

  ghost predicate EndsAt(o: seq<Bridge>, env: Env, r: nat, vlans: seq<int>, i: nat)
    requires r < |o| && i < |vlans|
  {
    Blocked(o, r, vlans[i]) || InTheWay(o, r, vlans, i) || Orphaned(o, env, r, vlans[i])
  }

  /** The first of the first n requested VLANs that ends the pass, or n. */
  ghost function FirstStop(o: seq<Bridge>, env: Env, r: nat, vlans: seq<int>, n: nat): (s: nat)
    requires r < |o| && n <= |vlans|
    ensures s <= n
    ensures s < n ==> EndsAt(o, env, r, vlans, s)
    ensures forall j | 0 <= j < s :: !EndsAt(o, env, r, vlans, j)
  {
    if n == 0 then 0
    else
      var s := FirstStop(o, env, r, vlans, n - 1);
      if s < n - 1 then s else if EndsAt(o, env, r, vlans, n - 1) then n - 1 else n
  }

  /** The VLAN that ends the pass, or |vlans|. */
  ghost function Stop(o: seq<Bridge>, env: Env, r: nat, vlans: seq<int>): (s: nat)
    requires r < |o|
    ensures s <= |vlans|
  {
    FirstStop(o, env, r, vlans, |vlans|)
  }

  /** How many VLANs have been taken off peers when the pass is over: the checks for
      throw-away PVIDs and orphans come after the removal. */
  ghost function Looked(o: seq<Bridge>, env: Env, r: nat, vlans: seq<int>): (n: nat)
    requires r < |o|
    ensures n <= |vlans|
  {
    var s := Stop(o, env, r, vlans);
    if s < |vlans| && !Blocked(o, r, vlans[s]) then s + 1 else s
  }

  /** The VID for the throw-away PVID that VLAN i is to replace. */
  ghost function NewVid(o: seq<Bridge>, env: Env, r: nat, vlans: seq<int>, i: nat): Option<int>
    requires r < |o| && i < |vlans|
  {
    FreeVid(Reserved(MemoryAt(o, r, vlans, i + 1), env, o[r].vswitch, vlans))
  }

  /** The pass ends by moving a throw-away PVID of bridge r, and the call starts over. */
  ghost predicate Restarts(o: seq<Bridge>, env: Env, r: nat, vlans: seq<int>)
    requires r < |o|
  {
    var s := Stop(o, env, r, vlans);
    && s < |vlans| && !Blocked(o, r, vlans[s]) && InTheWay(o, r, vlans, s)
    && NewVid(o, env, r, vlans, s).Some? && HasPvid(o[r].Addl(), vlans[s])
  }

  /** The server when the call starts over. */
  ghost function Restarted(o: seq<Bridge>, env: Env, r: nat, vlans: seq<int>): seq<Bridge>
    requires r < |o| && Restarts(o, env, r, vlans)
  {
    var s := Stop(o, env, r, vlans);
    ServerAt(o, r, vlans, s + 1)[r := Reassign(o[r], vlans[s], NewVid(o, env, r, vlans, s).value)]
  }

  /** The error of a pass that VLAN i ends for good.  A throw-away PVID of a peer has
      no trunk on bridge r that could be moved. */
  ghost function StopOutcome(o: seq<Bridge>, env: Env, r: nat, vlans: seq<int>, i: nat): Outcome
    requires r < |o| && i < |vlans|
  {
    if Blocked(o, r, vlans[i]) then PvidOfBridge(vlans[i])
    else if !InTheWay(o, r, vlans, i) then OrphanFound(vlans[i])
    else if NewVid(o, env, r, vlans, i).None? then VidsExhausted
    else NoTrunkToReassign
  }

  // ---- One pass ----

  /** What a pass comes to. */
  ghost predicate PassIs(o: seq<Bridge>, env: Env, r: nat, vlans: seq<int>, res: ScanResult)
    requires r < |o|
  {
    var s := Stop(o, env, r, vlans);
    if s == |vlans| then
      res.Scanned? && res.w.server == ServerAt(o, r, vlans, s) && res.w.feed == MemoryAt(o, r, vlans, s)
    else if Restarts(o, env, r, vlans) then res.Reassigned? && res.w.server == Restarted(o, env, r, vlans)
    else res.Failed? && res.why == StopOutcome(o, env, r, vlans, s) && res.w.server == ServerAt(o, r, vlans, Looked(o, env, r, vlans))
  }

  /** The scan has come to VLAN i without an end. */
  ghost predicate Scanning(o: seq<Bridge>, w: World, env: Env, r: nat, vlans: seq<int>, i: nat, added: seq<int>) {
    && ScanInv(o, w, r, vlans) && i <= |vlans| && PeersAt(o, w, r, vlans, i) && Distinct(vlans)
    && Placeable(w.feed, env, o[r].vswitch, added)
    && forall j | 0 <= j < i :: !EndsAt(o, env, r, vlans, j)
  }

  lemma TakeOutcome(o: seq<Bridge>, w: World, env: Env, r: nat, vlans: seq<int>, i: nat)
    requires ScanInv(o, w, r, vlans) && i < |vlans| && PeersAt(o, w, r, vlans, i) && !Supports(o[r], vlans[i])
    ensures var (w1, out) := TakeFromPeer(w, env, r, vlans[i]);
      if Blocked(o, r, vlans[i]) then out == PvidOfBridge(vlans[i]) && w1 == w else out == Done
  {
    SamePeerAt(o, w, r, vlans, i);
    var p := FirstPeer(o, r, vlans[i], 0);
    if p < |o| {
      assert Stripped(o[p], w.feed[p], vlans);
      RemoveCases(w, env, p, vlans[i]);
    }
  }

  /** The world after VLAN i has been taken off its peer. */
  lemma TakeWorld(o: seq<Bridge>, w: World, env: Env, r: nat, vlans: seq<int>, i: nat)
    requires ScanInv(o, w, r, vlans) && i < |vlans| && PeersAt(o, w, r, vlans, i) && Distinct(vlans)
    requires !Supports(o[r], vlans[i]) && !Blocked(o, r, vlans[i])
    ensures var (w1, out) := TakeFromPeer(w, env, r, vlans[i]);
      && out == Done && ScanInv(o, w1, r, vlans) && PeersAt(o, w1, r, vlans, i + 1)
      && w1.server == ServerAt(o, r, vlans, i + 1) && w1.feed == MemoryAt(o, r, vlans, i + 1)
  {
    TakeOutcome(o, w, env, r, vlans, i);
    TakeKeeps(o, w, env, r, vlans[i], vlans);
    PeersTake(o, w, env, r, vlans, i);
    WorldAt(o, TakeFromPeer(w, env, r, vlans[i]).0, r, vlans, i + 1);
  }

  lemma StopIs(o: seq<Bridge>, env: Env, r: nat, vlans: seq<int>, i: nat)
    requires r < |o| && i < |vlans| && EndsAt(o, env, r, vlans, i) && forall j | 0 <= j < i :: !EndsAt(o, env, r, vlans, j)
    ensures Stop(o, env, r, vlans) == i && Looked(o, env, r, vlans) == if Blocked(o, r, vlans[i]) then i else i + 1
  {
  }

  /** One VLAN of the scan, when the removal from its peer has gone well. */
  lemma ScanUnfolds(w: World, env: Env, r: nat, vlans: seq<int>, i: nat, added: seq<int>, w1: World)
    requires r < |w.server| == |w.feed| && i < |vlans| && !Supports(w.feed[r], vlans[i])
    requires TakeFromPeer(w, env, r, vlans[i]) == (w1, Done)
    ensures var v, vs := vlans[i], w1.feed[r].vswitch;
      var free := FreeVid(Reserved(w1.feed, env, vs, vlans));
      Scan(w, env, r, vlans, i, added) ==
        if ArbitraryOn(w1.feed, vs, v) then
          if free.None? then Failed(w1, VidsExhausted)
          else if !HasPvid(w1.feed[r].Addl(), v) then Failed(w1, NoTrunkToReassign)
          else Reassigned(w1.Post(r, Reassign(w1.feed[r], v, free.value)))
        else if v in env.Orphans(vs) then Failed(w1, OrphanFound(v))
        else Scan(w1, env, r, vlans, i + 1, added + [v])
  {
  }

  lemma PassEnds(o: seq<Bridge>, w: World, env: Env, r: nat, vlans: seq<int>, i: nat, added: seq<int>)
    requires Scanning(o, w, env, r, vlans, i, added) && i < |vlans| && EndsAt(o, env, r, vlans, i)
    ensures PassIs(o, env, r, vlans, Scan(w, env, r, vlans, i, added))
  {
    StopIs(o, env, r, vlans, i);
    if Blocked(o, r, vlans[i]) {
      TakeOutcome(o, w, env, r, vlans, i);
      WorldAt(o, w, r, vlans, i);
    } else {
      TakeWorld(o, w, env, r, vlans, i);
      ScanUnfolds(w, env, r, vlans, i, added, TakeFromPeer(w, env, r, vlans[i]).0);
    }
  }

  lemma PassGoesOn(o: seq<Bridge>, w: World, env: Env, r: nat, vlans: seq<int>, i: nat, added: seq<int>)
    requires Scanning(o, w, env, r, vlans, i, added) && i < |vlans| && !Supports(o[r], vlans[i]) && !EndsAt(o, env, r, vlans, i)
    ensures var w1 := TakeFromPeer(w, env, r, vlans[i]).0;
      && Scanning(o, w1, env, r, vlans, i + 1, added + [vlans[i]])
      && Scan(w, env, r, vlans, i, added) == Scan(w1, env, r, vlans, i + 1, added + [vlans[i]])
  {
    TakeWorld(o, w, env, r, vlans, i);
    ScanUnfolds(w, env, r, vlans, i, added, TakeFromPeer(w, env, r, vlans[i]).0);
    ScanGoesOn(o, w, env, r, vlans, i, added);
  }

  lemma PassSkips(o: seq<Bridge>, w: World, env: Env, r: nat, vlans: seq<int>, i: nat, added: seq<int>)
    requires Scanning(o, w, env, r, vlans, i, added) && i < |vlans| && Supports(o[r], vlans[i])
    ensures Scanning(o, w, env, r, vlans, i + 1, added)
  {
    forall p | IsPeer(o, r, p)
      ensures w.server[p] == OnServer(o, r, vlans, p, i + 1) && w.feed[p] == InMemory(o, r, vlans, p, i + 1)
      ensures p in w.posted <==> FirstHit(o, r, vlans, p, i + 1) < i + 1
    {
      NotHit(o, r, vlans, p, i);
    }
  }

  lemma {:induction false} ScanPasses(o: seq<Bridge>, w: World, env: Env, r: nat, vlans: seq<int>, i: nat, added: seq<int>)
    requires Scanning(o, w, env, r, vlans, i, added)
    ensures PassIs(o, env, r, vlans, Scan(w, env, r, vlans, i, added))
    decreases |vlans| - i
  {
    if i == |vlans| {
      assert Stop(o, env, r, vlans) == |vlans|;
      WorldAt(o, w, r, vlans, i);
    } else if EndsAt(o, env, r, vlans, i) {
      PassEnds(o, w, env, r, vlans, i, added);
    } else if Supports(o[r], vlans[i]) {
      PassSkips(o, w, env, r, vlans, i, added);
      ScanPasses(o, w, env, r, vlans, i + 1, added);
    } else {
      PassGoesOn(o, w, env, r, vlans, i, added);
      ScanPasses(o, TakeFromPeer(w, env, r, vlans[i]).0, env, r, vlans, i + 1, added + [vlans[i]]);
    }
  }

  /** A call that names no VLAN twice. */
  ghost predicate Request(o: seq<Bridge>, r: nat, vlans: seq<int>) { r < |o| && AllLocal(o) && Distinct(vlans) }

  lemma FirstPass(o: seq<Bridge>, env: Env, r: nat, vlans: seq<int>)
    requires Request(o, r, vlans)
    ensures PassIs(o, env, r, vlans, Scan(Fetch(o), env, r, vlans, 0, []))
  {
    FetchInv(o, r, vlans);
    ScanPasses(o, Fetch(o), env, r, vlans, 0, []);
  }

  // ---- The last pass ----

  /** A call that starts over is that call on the server as the pass left it. */
  lemma StartsOver(o: seq<Bridge>, env: Env, r: nat, vlans: seq<int>)
    requires Request(o, r, vlans) && Restarts(o, env, r, vlans)
    ensures var t := Restarted(o, env, r, vlans);
      && Request(t, r, vlans) && |t| == |o| && (forall k | 0 <= k < |o| :: t[k].vswitch == o[k].vswitch)
      && TotalWanted(t, vlans) < TotalWanted(o, vlans)
      && Ensure(o, env, r, vlans) == Ensure(t, env, r, vlans)
  {
    FirstPass(o, env, r, vlans);
    ScanFromServer(o, env, r, vlans);
  }

  /** The server before the last pass of a call. */
  ghost function LastPass(o: seq<Bridge>, env: Env, r: nat, vlans: seq<int>): (f: seq<Bridge>)
    requires Request(o, r, vlans)
    ensures |f| == |o| && Request(f, r, vlans) && !Restarts(f, env, r, vlans)
    ensures forall k | 0 <= k < |o| :: f[k].vswitch == o[k].vswitch
    ensures Ensure(f, env, r, vlans) == Ensure(o, env, r, vlans)
    decreases TotalWanted(o, vlans)
  {
    if Restarts(o, env, r, vlans) then
      StartsOver(o, env, r, vlans);
      LastPass(Restarted(o, env, r, vlans), env, r, vlans)
    else o
  }

  /** The last pass: an error leaves the server as the removals did; otherwise the
      missing VLANs are placed, on what is in memory. */
  lemma LastPassIs(o: seq<Bridge>, env: Env, r: nat, vlans: seq<int>)
    requires Request(o, r, vlans) && !Restarts(o, env, r, vlans)
    ensures var s, m := Stop(o, env, r, vlans), Missing(o[r], vlans);
      Ensure(o, env, r, vlans) ==
        if s < |vlans| then (ServerAt(o, r, vlans, Looked(o, env, r, vlans)), StopOutcome(o, env, r, vlans, s))
        else match PlaceAll(MemoryAt(o, r, vlans, s), env, r, m, m)
             case None => (ServerAt(o, r, vlans, s), VidsExhausted)
             case Some(b) => (ServerAt(o, r, vlans, s)[r := b], Done)
  {
    FirstPass(o, env, r, vlans);
    ScanFromServer(o, env, r, vlans);
    var res := Scan(Fetch(o), env, r, vlans, 0, []);
    if Stop(o, env, r, vlans) == |vlans| {
      assert res.added == Missing(o[r], vlans);
      assert res.w.server[r := o[r]] == res.w.server;
    }
  }

  // ---- What a call comes to ----

  /** What a call leaves on every peer: of what its last pass found there, the first
      requested VLAN that is taken off goes once, and nothing else, whatever is taken
      off in memory. */
  lemma PeersAfter(o: seq<Bridge>, env: Env, r: nat, vlans: seq<int>, p: int)
    requires Request(o, r, vlans) && IsPeer(o, r, p)
    ensures var f := LastPass(o, env, r, vlans);
      var t := Ensure(o, env, r, vlans).0;
      |t| == |o| && t[p] == OnServer(f, r, vlans, p, Looked(f, env, r, vlans))
  {
    var f := LastPass(o, env, r, vlans);
    LastPassIs(f, env, r, vlans);
    assert IsPeer(f, r, p);
  }

  /** How a call ends, by the first VLAN that ends its last pass: with the primary PVID
      of the first peer that has it, with a throw-away PVID of a peer, or with an
      orphan; a VLAN merely tagged on a primary trunk never ends it. */
  lemma OutcomeIs(o: seq<Bridge>, env: Env, r: nat, vlans: seq<int>)
    requires Request(o, r, vlans)
    ensures var f, out := LastPass(o, env, r, vlans), Ensure(o, env, r, vlans).1;
      var s := Stop(f, env, r, vlans);
      if s < |vlans| then out == StopOutcome(f, env, r, vlans, s) else out == Done || out == VidsExhausted
  {
    LastPassIs(LastPass(o, env, r, vlans), env, r, vlans);
  }

  /** When a call crashes: the first VLAN that ends its last pass is a throw-away PVID
      of a peer and none of this bridge, while VIDs are left. */
  lemma CrashIff(o: seq<Bridge>, env: Env, r: nat, vlans: seq<int>)
    requires Request(o, r, vlans)
    ensures var f := LastPass(o, env, r, vlans);
      var s := Stop(f, env, r, vlans);
      Ensure(o, env, r, vlans).1 == NoTrunkToReassign <==>
        && s < |vlans| && !Blocked(f, r, vlans[s]) && InTheWay(f, r, vlans, s)
        && NewVid(f, env, r, vlans, s).Some? && !HasPvid(f[r].Addl(), vlans[s])
  {
    OutcomeIs(o, env, r, vlans);
  }

  lemma {:induction false} NoFirstPeer(bs: seq<Bridge>, r: nat, v: int, p: nat)
    requires r < |bs| && p <= |bs| && forall k | p <= k < |bs| && IsPeer(bs, r, k) :: !Supports(bs[k], v)
    ensures FirstPeer(bs, r, v, p) == |bs|
    decreases |bs| - p
  {
    if p < |bs| { NoFirstPeer(bs, r, v, p + 1); }
  }

  /** Asking for a throw-away PVID of a peer alone crashes whenever PVIDs are apart and
      a VID is left. */
  lemma PeerPvidCrashes(o: seq<Bridge>, env: Env, r: nat, v: int, p: int)
    requires r < |o| && PvidsApart(o, env) && IsPeer(o, r, p) && HasPvid(o[p].Addl(), v)
    requires FreeVid(Reserved(o, env, o[r].vswitch, [v])).Some?
    ensures Ensure(o, env, r, [v]) == (o, NoTrunkToReassign)
  {
    assert !Supports(o[r], v) && !HasPvid(o[r].Addl(), v);
    forall k | 0 <= k < |o| && IsPeer(o, r, k) ensures !Supports(o[k], v) { assert !Supports(o[k], v); }
    NoFirstPeer(o, r, v, 0);
    Untouched(o, r, [v]);
    assert ArbitraryOn(MemoryAt(o, r, [v], 1), o[r].vswitch, v);
    StopIs(o, env, r, [v], 0);
    LastPassIs(o, env, r, [v]);
  }

  lemma Untouched(o: seq<Bridge>, r: nat, vlans: seq<int>)
    requires r < |o| && |vlans| == 1 && FirstPeer(o, r, vlans[0], 0) == |o|
    ensures MemoryAt(o, r, vlans, 1) == o && ServerAt(o, r, vlans, 1) == o
  {
    forall k: nat | k < |o| && IsPeer(o, r, k)
      ensures InMemory(o, r, vlans, k, 1) == o[k] && OnServer(o, r, vlans, k, 1) == o[k]
    {
      NotHit(o, r, vlans, k, 0);
    }
  }

  /** A bridge without additional trunks, and a peer's throw-away PVID. */
  lemma CrashExample(env: Env)
    requires env.orphanMap == map[]
    ensures var req := Bridge(1, 0, false, Sea(Trunk(1, []), []), None);
      var peer := Bridge(2, 0, false, Sea(Trunk(2, []), [Trunk(4094, [10])]), None);
      Ensure([req, peer], env, 0, [4094]) == ([req, peer], NoTrunkToReassign)
  {
    var req := Bridge(1, 0, false, Sea(Trunk(1, []), []), None);
    var peer := Bridge(2, 0, false, Sea(Trunk(2, []), [Trunk(4094, [10])]), None);
    var o := [req, peer];
    assert forall u :: Supports(req, u) ==> u == 1;
    assert forall u :: Supports(peer, u) ==> u in {2, 10};
    assert forall q :: HasPvid(peer.Addl(), q) <==> q == 4094 by { assert peer.Addl()[0].pvid == 4094; }
    assert forall q :: !HasPvid(req.Addl(), q);
    assert PvidsApart(o, env);
    UsedOnMembers(o, 0, 4093);
    assert 4093 !in Reserved(o, env, 0, [4094]);
    PeerPvidCrashes(o, env, 0, 4094, 1);
  }

  /** Requested VLAN i goes from peer p in the last pass exactly if the pass came to it
      and p had it tagged once, on an additional trunk only, was the first peer with
      it, and had no other requested VLAN taken off before. */
  lemma LeftBehindIff(o: seq<Bridge>, env: Env, r: nat, vlans: seq<int>, i: nat, p: int)
    requires Request(o, r, vlans) && IsPeer(o, r, p) && i < |vlans|
    ensures var f := LastPass(o, env, r, vlans);
      var t := Ensure(o, env, r, vlans).0;
      |t| == |o| &&
      (Supports(t[p], vlans[i]) <==>
         Supports(f[p], vlans[i]) && !(i < Looked(f, env, r, vlans) && TakenForGood(f, r, vlans, i, p)))
  {
    PeersAfter(o, env, r, vlans, p);
    var f := LastPass(o, env, r, vlans);
    LeftOnServer(f, r, vlans, i, p, Looked(f, env, r, vlans));
  }

  lemma LeftOnServer(o: seq<Bridge>, r: nat, vlans: seq<int>, i: nat, p: nat, n: nat)
    requires r < |o| && p < |o| && Local(o[p]) && Distinct(vlans) && i < |vlans| && n <= |vlans|
    ensures Supports(OnServer(o, r, vlans, p, n), vlans[i]) <==>
      Supports(o[p], vlans[i]) && !(i < n && TakenForGood(o, r, vlans, i, p))
  {
    var f := FirstHit(o, r, vlans, p, n);
    if f < n {
      WithoutOff(o[p], vlans[f]);
      WithoutDropsOne(o[p].Addl(), o[p].loadBalance, vlans[f]);
      CopiesTagged(Without(o[p], vlans[f]).Addl(), vlans[i]);
      CopiesTagged(o[p].Addl(), vlans[i]);
    }
  }

  ghost predicate TakenForGood(o: seq<Bridge>, r: nat, vlans: seq<int>, i: nat, p: int)
    requires r < |o| && i < |vlans|
  {
    && Hit(o, r, vlans[i], p)
    && Copies(o[p].Addl(), vlans[i]) == 1
    && forall j | 0 <= j < i :: !Hit(o, r, vlans[j], p)
  }

  /** After a call that succeeds, the bridge is the only one on its virtual switch
      with requested VLAN i exactly if every peer on which the last pass found it lost
      it for good. */
  lemma OnlyCarrierIff(o: seq<Bridge>, env: Env, r: nat, vlans: seq<int>, i: nat)
    requires Request(o, r, vlans) && i < |vlans| && Ensure(o, env, r, vlans).1 == Done
    ensures var f := LastPass(o, env, r, vlans);
      var t := Ensure(o, env, r, vlans).0;
      && |t| == |o| && Supports(t[r], vlans[i])
      && ((forall p | IsPeer(o, r, p) :: !Supports(t[p], vlans[i])) <==>
          (forall p | IsPeer(o, r, p) && Supports(f[p], vlans[i]) :: TakenForGood(f, r, vlans, i, p)))
  {
    OutcomeIs(o, env, r, vlans);
    EnsureDelivers(o, env, r, vlans, vlans[i]);
    var f := LastPass(o, env, r, vlans);
    var t := Ensure(o, env, r, vlans).0;
    forall p | IsPeer(o, r, p) ensures Supports(t[p], vlans[i]) <==> Supports(f[p], vlans[i]) && !TakenForGood(f, r, vlans, i, p) {
      LeftBehindIff(o, env, r, vlans, i, p);
    }
  }
}
