/** Which physical Fibre Channel port backs each new client port: round-robin over
    the Virtual I/O Servers, the least-used port on each, at most 128 uses a port. */
module NpivMapper {
  import opened Options
  import opened RoundRobin

  const MAX_USES := 128
  const ANY_WWPN := "-1"

  datatype Port = Port(wwpn: string, npivAvailable: int)

  /** A client mapping: the client adapter's WWPNs and the backing port's WWPN, each
      possibly absent. */
  datatype VfcMapping = VfcMapping(clientWwpns: Option<set<string>>, backing: Option<string>)

  datatype Vios = Vios(ports: seq<Port>, vfcMappings: seq<VfcMapping>)

  /** Two fused client WWPNs. */
  datatype Fused = Fused(first: string, second: string)

  datatype Mapping = Mapping(port: string, client: Fused)

  datatype Error = NoVioses | UnableToFindFCPortMap | PortNotFound

  // ---- WWPNs ----

  function Upper(c: char): char { if 'a' <= c <= 'z' then (c as int - 32) as char else c }

  function Sanitize(w: string): string {
    if w == "" then "" else (if w[0] == ':' then "" else [Upper(w[0])]) + Sanitize(w[1..])
  }

  function SanitizeAll(ws: seq<string>): (r: seq<string>)
    ensures |r| == |ws| && forall i | 0 <= i < |ws| :: r[i] == Sanitize(ws[i])
  {
    if ws == [] then [] else [Sanitize(ws[0])] + SanitizeAll(ws[1..])
  }

  /** `_fuse_vfc_ports`: an odd one at the end is dropped. */
  function FuseVfcPorts(ws: seq<string>): (r: seq<Fused>)
    ensures |r| == |ws| / 2
    ensures forall i | 0 <= i < |r| :: r[i] == Fused(Sanitize(ws[2 * i]), Sanitize(ws[2 * i + 1]))
  {
    if |ws| < 2 then [] else [Fused(Sanitize(ws[0]), Sanitize(ws[1]))] + FuseVfcPorts(ws[2..])
  }

  /** `_find_ports_on_vio`. */
  function PortsOn(ports: seq<Port>, sel: seq<string>): (r: seq<Port>)
    ensures forall p :: p in r <==> p in ports && Sanitize(p.wwpn) in sel
    ensures |r| <= |ports|
  {
    if ports == [] then []
    else (if Sanitize(ports[0].wwpn) in sel then [ports[0]] else []) + PortsOn(ports[1..], sel)
  }

  /** World-wide port names are unique. */
  ghost predicate Distinct(ports: seq<Port>) {
    forall i, j | 0 <= i < j < |ports| :: ports[i].wwpn != ports[j].wwpn
  }

  ghost predicate Names(ports: seq<Port>, w: string) { exists i | 0 <= i < |ports| :: ports[i].wwpn == w }

  ghost predicate PortsApart(vioses: seq<Vios>) {
    && (forall k | 0 <= k < |vioses| :: Distinct(vioses[k].ports))
    && (forall k, l, w | 0 <= k < |vioses| && 0 <= l < |vioses| && Names(vioses[k].ports, w) && Names(vioses[l].ports, w)
        :: k == l)
  }

  lemma {:induction false} PortsOnDistinct(ports: seq<Port>, sel: seq<string>)
    requires Distinct(ports)
    ensures Distinct(PortsOn(ports, sel))
    ensures forall w :: Names(PortsOn(ports, sel), w) ==> Names(ports, w)
  {
    if ports != [] {
      PortsOnDistinct(ports[1..], sel);
      var rest := PortsOn(ports[1..], sel);
      forall i | 0 <= i < |rest| ensures rest[i].wwpn != ports[0].wwpn {
        assert rest[i] in ports[1..];
      }
      forall w | Names(PortsOn(ports, sel), w) ensures Names(ports, w) {
        var i :| 0 <= i < |PortsOn(ports, sel)| && PortsOn(ports, sel)[i].wwpn == w;
        assert PortsOn(ports, sel)[i] in ports;
      }
    }
  }

  // ---- The port for one mapping: `_find_map_port` ----

  /** How many mappings use port w. */
  ghost function Uses(maps: seq<Mapping>, w: string): nat {
    if maps == [] then 0
    else Uses(maps[..|maps| - 1], w) + if maps[|maps| - 1].port == w then 1 else 0
  }

  /** Least used, below the cap, and of those the one with the most free NPIV ports. */
  ghost predicate Best(ports: seq<Port>, maps: seq<Mapping>, p: Port) {
    && p in ports && Uses(maps, p.wwpn) < MAX_USES
    && forall q | q in ports ::
         Uses(maps, p.wwpn) <= Uses(maps, q.wwpn)
         && (Uses(maps, p.wwpn) == Uses(maps, q.wwpn) ==> q.npivAvailable <= p.npivAvailable)
  }

  ghost predicate HasRoom(ports: seq<Port>, maps: seq<Mapping>) { exists p | p in ports :: Uses(maps, p.wwpn) < MAX_USES }

  /** The uses of the candidate ports, by WWPN; mappings on other ports do not count. */
  method CountUses(ports: seq<Port>, maps: seq<Mapping>) returns (uses: map<string, nat>)
    ensures forall p | p in ports :: p.wwpn in uses && uses[p.wwpn] == Uses(maps, p.wwpn)
  {
    uses := map[];
    for i := 0 to |ports|
      invariant forall j | 0 <= j < i :: ports[j].wwpn in uses
      invariant forall w | w in uses :: uses[w] == 0
    {
      uses := uses[ports[i].wwpn := 0];
    }
    ghost var keys := uses.Keys;
    for i := 0 to |maps|
      invariant uses.Keys == keys
      invariant forall w | w in uses :: uses[w] == Uses(maps[..i], w)
    {
      assert maps[..i + 1][..i] == maps[..i];
      if maps[i].port in uses {
        uses := uses[maps[i].port := uses[maps[i].port] + 1];
      }
    }
    assert maps[..|maps|] == maps;
  }

  /** The ports with the lowest number of uses, if that is below the cap. */
  method LeastUsed(ports: seq<Port>, uses: map<string, nat>) returns (candidates: seq<Port>)
    requires forall p | p in ports :: p.wwpn in uses
    ensures candidates == [] ==> forall p | p in ports :: uses[p.wwpn] >= MAX_USES
    ensures forall p | p in candidates ::
      p in ports && uses[p.wwpn] < MAX_USES
      && forall q | q in ports :: uses[p.wwpn] <= uses[q.wwpn] && (uses[p.wwpn] == uses[q.wwpn] ==> q in candidates)
  {
    var count: nat := 0;
    candidates := [];
    while |candidates| == 0 && count < MAX_USES
      invariant count <= MAX_USES
      invariant |candidates| == 0 ==> forall p | p in ports :: uses[p.wwpn] >= count
      invariant |candidates| > 0 ==> forall p | p in ports :: uses[p.wwpn] >= count - 1
      invariant |candidates| > 0 ==> count > 0
      invariant forall p :: p in candidates <==> |candidates| > 0 && p in ports && uses[p.wwpn] == count - 1
    {
      for i := 0 to |ports|
        invariant forall p :: p in candidates <==> p in ports[..i] && uses[p.wwpn] == count
      {
        if uses[ports[i].wwpn] == count {
          candidates := candidates + [ports[i]];
        }
      }
      assert ports[..|ports|] == ports;
      count := count + 1;
    }
  }

  method FindMapPort(ports: seq<Port>, maps: seq<Mapping>) returns (best: Option<Port>)
    ensures best.Some? <==> HasRoom(ports, maps)
    ensures best.Some? ==> Best(ports, maps, best.value)
  {
    var uses := CountUses(ports, maps);
    var candidates := LeastUsed(ports, uses);
    best := None;
    for i := 0 to |candidates|
      invariant best.None? <==> i == 0
      invariant best.Some? ==> best.value in candidates
      invariant best.Some? ==> forall p | p in candidates[..i] :: p.npivAvailable <= best.value.npivAvailable
    {
      if best.None? || best.value.npivAvailable < candidates[i].npivAvailable {
        best := Some(candidates[i]);
      }
    }
    assert candidates[..|candidates|] == candidates;
  }

  // ---- The loop over the servers: `_derive_npiv_map` ----

  /** From server `start`, going round, server k comes before server `end`. */
  predicate Between(k: nat, start: nat, end: nat) {
    if start <= end then start <= k < end else k >= start || k < end
  }

  /** The first server from `start` on, going round, that has room is server `at`. */
  ghost predicate Turn(vioses: seq<Vios>, sel: seq<string>, maps: seq<Mapping>, start: nat, at: nat) {
    && at < |vioses| && HasRoom(PortsOn(vioses[at].ports, sel), maps)
    && forall k | 0 <= k < |vioses| && Between(k, start, at) :: !HasRoom(PortsOn(vioses[k].ports, sel), maps)
  }

  /** Where the search for mapping number |at| begins. */
  function Start(n: nat, at: seq<nat>): (r: nat)
    requires n > 0
    ensures r < n
  {
    if at == [] || at[|at| - 1] >= n then 0 else Next(at[|at| - 1], n)
  }

  /** Mapping i goes to the next server with room, and there to its best port. */
  ghost predicate Placed(vioses: seq<Vios>, sel: seq<string>, existing: seq<Mapping>, built: seq<Mapping>, at: seq<nat>, i: nat)
    requires i < |built| == |at| && vioses != []
  {
    var maps := built[..i] + existing;
    && Turn(vioses, sel, maps, Start(|vioses|, at[..i]), at[i])
    && exists p :: Best(PortsOn(vioses[at[i]].ports, sel), maps, p) && built[i].port == p.wwpn
  }

  ghost predicate Run(vioses: seq<Vios>, sel: seq<string>, existing: seq<Mapping>, built: seq<Mapping>, at: seq<nat>) {
    && |built| == |at| && (built != [] ==> vioses != [])
    && forall i | 0 <= i < |built| :: Placed(vioses, sel, existing, built, at, i)
  }

  ghost predicate NoRoom(vioses: seq<Vios>, sel: seq<string>, maps: seq<Mapping>) {
    forall k | 0 <= k < |vioses| :: !HasRoom(PortsOn(vioses[k].ports, sel), maps)
  }

  lemma RunGrows(vioses: seq<Vios>, sel: seq<string>, existing: seq<Mapping>, built: seq<Mapping>, at: seq<nat>, m: Mapping, k: nat)
    requires Run(vioses, sel, existing, built, at) && vioses != []
    requires Turn(vioses, sel, built + existing, Start(|vioses|, at), k)
    requires exists p :: Best(PortsOn(vioses[k].ports, sel), built + existing, p) && m.port == p.wwpn
    ensures Run(vioses, sel, existing, built + [m], at + [k])
  {
    var built', at' := built + [m], at + [k];
    forall i | 0 <= i < |built'| ensures Placed(vioses, sel, existing, built', at', i) {
      if i < |built| {
        assert built'[..i] == built[..i] && at'[..i] == at[..i];
        assert Placed(vioses, sel, existing, built, at, i);
      } else {
        assert built'[..i] == built && at'[..i] == at;
      }
    }
  }

  /** The search from `start` has passed `idle` servers without room and is at `pos`. */
  ghost predicate Searched(vioses: seq<Vios>, sel: seq<string>, maps: seq<Mapping>, start: nat, idle: nat, pos: nat) {
    && start < |vioses| && idle <= |vioses| && pos < |vioses|
    && pos == (if start + idle < |vioses| then start + idle else start + idle - |vioses|)
    && forall k | 0 <= k < |vioses| && (pos - idle <= k < pos || pos - idle + |vioses| <= k)
         :: !HasRoom(PortsOn(vioses[k].ports, sel), maps)
  }

  lemma SearchedNext(vioses: seq<Vios>, sel: seq<string>, maps: seq<Mapping>, start: nat, idle: nat, pos: nat)
    requires Searched(vioses, sel, maps, start, idle, pos) && idle < |vioses|
    ensures HasRoom(PortsOn(vioses[pos].ports, sel), maps) ==> Turn(vioses, sel, maps, start, pos)
    ensures !HasRoom(PortsOn(vioses[pos].ports, sel), maps) ==>
      Searched(vioses, sel, maps, start, idle + 1, Next(pos, |vioses|))
  {
  }

  /** `_derive_npiv_map`.  `built` and `at` tell the run, also of a call that fails. */
  method DeriveNew(vioses: seq<Vios>, newPairs: seq<Fused>, sel: seq<string>, existing: seq<Mapping>)
    returns (res: Result<seq<Mapping>, Error>, built: seq<Mapping>, ghost at: seq<nat>)
    ensures Run(vioses, sel, existing, built, at)
    ensures |built| <= |newPairs| && forall i | 0 <= i < |built| :: built[i].client == newPairs[i]
    ensures res.Ok? ==> |built| == |newPairs| && res.value == built + existing
    ensures res.Err? ==> |built| < |newPairs| && NoRoom(vioses, sel, built + existing)
    ensures res.Err? ==> res.error == if vioses == [] then NoVioses else UnableToFindFCPortMap
  {
    built, at := [], [];
    var n, pos: nat, idle: nat := |vioses|, 0, 0;
    while |built| < |newPairs|
      invariant Run(vioses, sel, existing, built, at)
      invariant |built| <= |newPairs| && forall i | 0 <= i < |built| :: built[i].client == newPairs[i]
      invariant n > 0 ==> Searched(vioses, sel, built + existing, Start(n, at), idle, pos)
      decreases |newPairs| - |built|, n - idle
    {
      if n == 0 {
        return Err(NoVioses), built, at;
      }
      var vio := vioses[pos];
      if idle + 1 > n {
        return Err(UnableToFindFCPortMap), built, at;
      }
      SearchedNext(vioses, sel, built + existing, Start(n, at), idle, pos);
      ghost var here := pos;
      idle := idle + 1;
      pos := Next(pos, n);
      var ports := PortsOn(vio.ports, sel);
      if |ports| == 0 {
        continue;
      }
      var port := FindMapPort(ports, built + existing);
      if port.None? {
        continue;
      }
      var m := Mapping(port.value.wwpn, newPairs[|built|]);
      RunGrows(vioses, sel, existing, built, at, m, here);
      built, at := built + [m], at + [here];
      idle := 0;
    }
    return Ok(built + existing), built, at;
  }

  // ---- When it succeeds ----

  /** Free uses below the cap. */
  ghost function PortRoom(ports: seq<Port>, maps: seq<Mapping>): nat {
    if ports == [] then 0
    else
      var used := Uses(maps, ports[0].wwpn);
      PortRoom(ports[1..], maps) + if used < MAX_USES then MAX_USES - used else 0
  }

  /** The free uses of all selected ports. */
  ghost function Room(vioses: seq<Vios>, sel: seq<string>, maps: seq<Mapping>): nat {
    if vioses == [] then 0 else PortRoom(PortsOn(vioses[0].ports, sel), maps) + Room(vioses[1..], sel, maps)
  }

  ghost predicate OneMore(a: seq<Mapping>, b: seq<Mapping>, w: string) {
    forall x :: Uses(b, x) == Uses(a, x) + if x == w then 1 else 0
  }

  lemma {:induction false} UsesSplit(a: seq<Mapping>, b: seq<Mapping>, w: string)
    ensures Uses(a + b, w) == Uses(a, w) + Uses(b, w)
  {
    if b == [] {
      assert a + b == a;
    } else {
      UsesSplit(a, b[..|b| - 1], w);
      assert (a + b)[..|a + b| - 1] == a + b[..|b| - 1];
    }
  }

  lemma AddIsOneMore(built: seq<Mapping>, existing: seq<Mapping>, m: Mapping)
    ensures OneMore(built + existing, built + [m] + existing, m.port)
  {
    forall x ensures Uses(built + [m] + existing, x) == Uses(built + existing, x) + if x == m.port then 1 else 0 {
      UsesSplit(built + [m], existing, x);
      UsesSplit(built, existing, x);
      assert (built + [m])[..|built|] == built;
    }
  }

  lemma {:induction false} PortRoomStays(ports: seq<Port>, a: seq<Mapping>, b: seq<Mapping>, w: string)
    requires OneMore(a, b, w) && !Names(ports, w)
    ensures PortRoom(ports, b) == PortRoom(ports, a)
  {
    if ports != [] {
      assert ports[0].wwpn != w;
      forall i | 0 <= i < |ports[1..]| ensures ports[1..][i].wwpn != w { assert ports[1..][i] == ports[i + 1]; }
      PortRoomStays(ports[1..], a, b, w);
    }
  }

  lemma {:induction false} PortRoomDrops(ports: seq<Port>, a: seq<Mapping>, b: seq<Mapping>, p: Port)
    requires OneMore(a, b, p.wwpn) && Distinct(ports) && p in ports && Uses(a, p.wwpn) < MAX_USES
    ensures PortRoom(ports, b) == PortRoom(ports, a) - 1
  {
    if ports[0] == p {
      forall i | 0 <= i < |ports[1..]| ensures ports[1..][i].wwpn != p.wwpn { assert ports[1..][i] == ports[i + 1]; }
      PortRoomStays(ports[1..], a, b, p.wwpn);
    } else {
      var i :| 0 <= i < |ports| && ports[i] == p;
      assert ports[0].wwpn != ports[i].wwpn && ports[1..][i - 1] == p;
      PortRoomDrops(ports[1..], a, b, p);
    }
  }

  lemma {:induction false} RoomStays(vioses: seq<Vios>, sel: seq<string>, a: seq<Mapping>, b: seq<Mapping>, w: string)
    requires OneMore(a, b, w) && forall k | 0 <= k < |vioses| :: !Names(PortsOn(vioses[k].ports, sel), w)
    ensures Room(vioses, sel, b) == Room(vioses, sel, a)
  {
    if vioses != [] {
      PortRoomStays(PortsOn(vioses[0].ports, sel), a, b, w);
      forall k | 0 <= k < |vioses[1..]| ensures !Names(PortsOn(vioses[1..][k].ports, sel), w) {
        assert vioses[1..][k] == vioses[k + 1];
      }
      RoomStays(vioses[1..], sel, a, b, w);
    }
  }

  lemma {:induction false} RoomDrops(vioses: seq<Vios>, sel: seq<string>, a: seq<Mapping>, b: seq<Mapping>, k: nat, p: Port)
    requires k < |vioses| && p in PortsOn(vioses[k].ports, sel) && OneMore(a, b, p.wwpn) && Uses(a, p.wwpn) < MAX_USES
    requires Distinct(PortsOn(vioses[k].ports, sel))
    requires forall l | 0 <= l < |vioses| && l != k :: !Names(PortsOn(vioses[l].ports, sel), p.wwpn)
    ensures Room(vioses, sel, b) == Room(vioses, sel, a) - 1
  {
    forall l | 0 <= l < |vioses[1..]| ensures vioses[1..][l] == vioses[l + 1] {}
    if k == 0 {
      PortRoomDrops(PortsOn(vioses[0].ports, sel), a, b, p);
      RoomStays(vioses[1..], sel, a, b, p.wwpn);
    } else {
      PortRoomStays(PortsOn(vioses[0].ports, sel), a, b, p.wwpn);
      RoomDrops(vioses[1..], sel, a, b, k - 1, p);
    }
  }

  lemma OnlyServer(vioses: seq<Vios>, sel: seq<string>, k: nat, p: Port)
    requires PortsApart(vioses) && k < |vioses| && p in PortsOn(vioses[k].ports, sel)
    ensures Distinct(PortsOn(vioses[k].ports, sel)) && Names(PortsOn(vioses[k].ports, sel), p.wwpn)
    ensures forall l | 0 <= l < |vioses| && l != k :: !Names(PortsOn(vioses[l].ports, sel), p.wwpn)
  {
    var i :| 0 <= i < |PortsOn(vioses[k].ports, sel)| && PortsOn(vioses[k].ports, sel)[i] == p;
    assert Names(PortsOn(vioses[k].ports, sel), p.wwpn);
    forall l | 0 <= l < |vioses| { PortsOnDistinct(vioses[l].ports, sel); }
    assert Names(vioses[k].ports, p.wwpn);
  }

  lemma RunShorter(vioses: seq<Vios>, sel: seq<string>, existing: seq<Mapping>, built: seq<Mapping>, at: seq<nat>, j: nat)
    requires Run(vioses, sel, existing, built, at) && j <= |built|
    ensures Run(vioses, sel, existing, built[..j], at[..j])
  {
    forall i | 0 <= i < j ensures Placed(vioses, sel, existing, built[..j], at[..j], i) {
      assert Placed(vioses, sel, existing, built, at, i);
      assert built[..j][..i] == built[..i] && at[..j][..i] == at[..i];
    }
  }

  /** Every new mapping takes exactly one of the free uses. */
  lemma {:induction false} RunTakesRoom(vioses: seq<Vios>, sel: seq<string>, existing: seq<Mapping>, built: seq<Mapping>, at: seq<nat>)
    requires PortsApart(vioses) && Run(vioses, sel, existing, built, at)
    ensures Room(vioses, sel, built + existing) == Room(vioses, sel, existing) - |built|
    decreases |built|
  {
    if built == [] {
      assert built + existing == existing;
    } else {
      var n := |built| - 1;
      RunShorter(vioses, sel, existing, built, at, n);
      RunTakesRoom(vioses, sel, existing, built[..n], at[..n]);
      assert Placed(vioses, sel, existing, built, at, n);
      var p :| Best(PortsOn(vioses[at[n]].ports, sel), built[..n] + existing, p) && built[n].port == p.wwpn;
      AddIsOneMore(built[..n], existing, built[n]);
      assert built[..n] + [built[n]] == built;
      OnlyServer(vioses, sel, at[n], p);
      RoomDrops(vioses, sel, built[..n] + existing, built + existing, at[n], p);
    }
  }

  lemma {:induction false} NoRoomIsZero(vioses: seq<Vios>, sel: seq<string>, maps: seq<Mapping>)
    requires NoRoom(vioses, sel, maps)
    ensures Room(vioses, sel, maps) == 0
  {
    if vioses != [] {
      assert !HasRoom(PortsOn(vioses[0].ports, sel), maps);
      FullPorts(PortsOn(vioses[0].ports, sel), maps);
      forall k | 0 <= k < |vioses[1..]| ensures !HasRoom(PortsOn(vioses[1..][k].ports, sel), maps) {
        assert vioses[1..][k] == vioses[k + 1];
      }
      NoRoomIsZero(vioses[1..], sel, maps);
    }
  }

  lemma {:induction false} FullPorts(ports: seq<Port>, maps: seq<Mapping>)
    requires !HasRoom(ports, maps)
    ensures PortRoom(ports, maps) == 0
  {
    if ports != [] {
      assert ports[0] in ports;
      forall p | p in ports[1..] ensures Uses(maps, p.wwpn) >= MAX_USES { assert p in ports; }
      FullPorts(ports[1..], maps);
    }
  }

  /** A run that goes on as long as it can and no further than `needed` reaches
      `needed` exactly if the selected ports had that many free uses. */
  lemma RoomDecides(vioses: seq<Vios>, sel: seq<string>, existing: seq<Mapping>, built: seq<Mapping>, at: seq<nat>, needed: nat)
    requires PortsApart(vioses) && Run(vioses, sel, existing, built, at) && |built| <= needed
    requires |built| < needed ==> NoRoom(vioses, sel, built + existing)
    ensures |built| == needed <==> needed <= Room(vioses, sel, existing)
  {
    RunTakesRoom(vioses, sel, existing, built, at);
    if |built| < needed { NoRoomIsZero(vioses, sel, built + existing); }
  }

  // ---- Balance ----

  /** Mappings on any of these ports. */
  ghost function Total(maps: seq<Mapping>, ports: seq<Port>): nat {
    if maps == [] then 0
    else Total(maps[..|maps| - 1], ports) + if Names(ports, maps[|maps| - 1].port) then 1 else 0
  }

  ghost predicate BelowCap(vioses: seq<Vios>, sel: seq<string>, maps: seq<Mapping>) {
    forall k, p | 0 <= k < |vioses| && p in PortsOn(vioses[k].ports, sel) :: Uses(maps, p.wwpn) < MAX_USES
  }

  /** Servers that have selected ports got c mappings each, those before `start` one more. */
  ghost predicate Round(vioses: seq<Vios>, sel: seq<string>, built: seq<Mapping>, start: nat, c: nat) {
    forall k | 0 <= k < |vioses| && PortsOn(vioses[k].ports, sel) != [] ::
      Total(built, PortsOn(vioses[k].ports, sel)) == c + if k < start then 1 else 0
  }

  lemma RoundStep(vioses: seq<Vios>, sel: seq<string>, built: seq<Mapping>, m: Mapping, start: nat, c: nat, at: nat) returns (c': nat)
    requires start < |vioses| && Round(vioses, sel, built, start, c) && Turn(vioses, sel, built, start, at)
    requires BelowCap(vioses, sel, built)
    requires forall k | 0 <= k < |vioses| :: Names(PortsOn(vioses[k].ports, sel), m.port) <==> k == at
    ensures Round(vioses, sel, built + [m], Next(at, |vioses|), c')
  {
    assert (built + [m])[..|built|] == built;
    forall k | 0 <= k < |vioses| && Between(k, start, at) ensures PortsOn(vioses[k].ports, sel) == [] {
      var ports := PortsOn(vioses[k].ports, sel);
      if ports != [] {
        assert ports[0] in ports;
        assert HasRoom(ports, built);
      }
    }
    c' := if at < start || at + 1 == |vioses| then c + 1 else c;
  }

  lemma {:induction false} RunRounds(vioses: seq<Vios>, sel: seq<string>, built: seq<Mapping>, at: seq<nat>) returns (c: nat)
    requires PortsApart(vioses) && vioses != [] && Run(vioses, sel, [], built, at) && BelowCap(vioses, sel, built)
    ensures Round(vioses, sel, built, Start(|vioses|, at), c)
    decreases |built|
  {
    if built == [] {
      c := 0;
    } else {
      var n := |built| - 1;
      var before, m := built[..n], built[n];
      assert before + [m] == built && before + [] == before;
      RunShorter(vioses, sel, [], built, at, n);
      AddIsOneMore(before, [], m);
      assert before + [m] + [] == built;
      assert BelowCap(vioses, sel, before) by {
        forall k, p | 0 <= k < |vioses| && p in PortsOn(vioses[k].ports, sel) ensures Uses(before, p.wwpn) < MAX_USES {
          assert Uses(built, p.wwpn) < MAX_USES;
        }
      }
      c := RunRounds(vioses, sel, before, at[..n]);
      assert Placed(vioses, sel, [], built, at, n);
      var p :| Best(PortsOn(vioses[at[n]].ports, sel), before, p) && m.port == p.wwpn;
      OnlyServer(vioses, sel, at[n], p);
      c := RoundStep(vioses, sel, before, m, Start(|vioses|, at[..n]), c, at[n]);
    }
  }

  /** Uses of two selected ports of one server. */
  lemma {:induction false} PortsEven(vioses: seq<Vios>, sel: seq<string>, built: seq<Mapping>, at: seq<nat>, k: nat, p: Port, q: Port)
    requires PortsApart(vioses) && Run(vioses, sel, [], built, at) && k < |vioses|
    requires p in PortsOn(vioses[k].ports, sel) && q in PortsOn(vioses[k].ports, sel)
    ensures Uses(built, p.wwpn) <= Uses(built, q.wwpn) + 1
    decreases |built|
  {
    if built != [] {
      var n := |built| - 1;
      var before, m := built[..n], built[n];
      assert before + [m] == built && before + [] == before && before + [m] + [] == built;
      RunShorter(vioses, sel, [], built, at, n);
      AddIsOneMore(before, [], m);
      PortsEven(vioses, sel, before, at[..n], k, p, q);
      if m.port == p.wwpn {
        assert Placed(vioses, sel, [], built, at, n);
        var best :| Best(PortsOn(vioses[at[n]].ports, sel), before, best) && m.port == best.wwpn;
        OnlyServer(vioses, sel, at[n], best);
        OnlyServer(vioses, sel, k, p);
        assert k == at[n];
      }
    }
  }

  /** Without existing mappings, as long as no selected port is at its cap, after
      every mapping the servers' totals differ by at most one, and so do the uses of
      the ports of one server. */
  lemma RunIsBalanced(vioses: seq<Vios>, sel: seq<string>, built: seq<Mapping>, at: seq<nat>, j: nat)
    requires PortsApart(vioses) && Run(vioses, sel, [], built, at) && j <= |built| && BelowCap(vioses, sel, built[..j])
    ensures forall k, l | 0 <= k < |vioses| && 0 <= l < |vioses| && PortsOn(vioses[k].ports, sel) != [] && PortsOn(vioses[l].ports, sel) != [] ::
      Total(built[..j], PortsOn(vioses[k].ports, sel)) <= Total(built[..j], PortsOn(vioses[l].ports, sel)) + 1
    ensures forall k, p, q | 0 <= k < |vioses| && p in PortsOn(vioses[k].ports, sel) && q in PortsOn(vioses[k].ports, sel) ::
      Uses(built[..j], p.wwpn) <= Uses(built[..j], q.wwpn) + 1
  {
    RunShorter(vioses, sel, [], built, at, j);
    if vioses != [] { var c := RunRounds(vioses, sel, built[..j], at[..j]); }
    forall k, p, q | 0 <= k < |vioses| && p in PortsOn(vioses[k].ports, sel) && q in PortsOn(vioses[k].ports, sel)
      ensures Uses(built[..j], p.wwpn) <= Uses(built[..j], q.wwpn) + 1
    {
      PortsEven(vioses, sel, built[..j], at[..j], k, p, q);
    }
  }

  // ---- Existing mappings: `derive_npiv_map` ----

  predicate Matches(m: VfcMapping, client: Fused) {
    && m.clientWwpns.Some?
    && (set w | w in m.clientWwpns.value :: Sanitize(w)) == {Sanitize(client.first), Sanitize(client.second)}
  }

  function FirstMatchOn(maps: seq<VfcMapping>, client: Fused): (m: Option<VfcMapping>)
    ensures m.Some? ==> m.value in maps && Matches(m.value, client)
    ensures m.None? ==> forall x | x in maps :: !Matches(x, client)
  {
    if maps == [] then None else if Matches(maps[0], client) then Some(maps[0]) else FirstMatchOn(maps[1..], client)
  }

  /** `has_client_wwpns`. */
  function FirstMatch(vioses: seq<Vios>, client: Fused): (m: Option<VfcMapping>)
    ensures m.Some? ==> exists k | 0 <= k < |vioses| :: m.value in vioses[k].vfcMappings && Matches(m.value, client)
    ensures m.None? ==> forall k, x | 0 <= k < |vioses| && x in vioses[k].vfcMappings :: !Matches(x, client)
  {
    if vioses == [] then None
    else
      var here := FirstMatchOn(vioses[0].vfcMappings, client);
      if here.Some? then here else
        var m := FirstMatch(vioses[1..], client);
        assert m.Some? ==> exists k | 0 <= k < |vioses[1..]| ::
          m.value in vioses[1..][k].vfcMappings && Matches(m.value, client) && vioses[1..][k] == vioses[k + 1];
        assert m.None? ==> forall k, x | 1 <= k < |vioses| && x in vioses[k].vfcMappings ::
          vioses[k] == vioses[1..][k - 1] && !Matches(x, client);
        m
  }

  /** Client pairs for which mappings are to be built, and the mappings that are kept. */
  function NewPairs(vioses: seq<Vios>, fused: seq<Fused>, preserve: bool): seq<Fused> {
    if fused == [] then []
    else
      var n := |fused| - 1;
      NewPairs(vioses, fused[..n], preserve) + if preserve && FirstMatch(vioses, fused[n]).Some? then [] else [fused[n]]
  }

  /** The pair's mapping exists, has a backing port and is to be preserved. */
  predicate Backed(vioses: seq<Vios>, preserve: bool, client: Fused) {
    preserve && FirstMatch(vioses, client).Some? && FirstMatch(vioses, client).value.backing.Some?
  }

  function Kept(vioses: seq<Vios>, fused: seq<Fused>, preserve: bool): seq<Mapping> {
    if fused == [] then []
    else
      var n := |fused| - 1;
      Kept(vioses, fused[..n], preserve)
        + if Backed(vioses, preserve, fused[n]) then [Mapping(FirstMatch(vioses, fused[n]).value.backing.value, fused[n])] else []
  }

  /** The pair's mapping exists but has lost its backing port, and is to be preserved. */
  predicate Stale(vioses: seq<Vios>, preserve: bool, client: Fused) {
    preserve && FirstMatch(vioses, client).Some? && FirstMatch(vioses, client).value.backing.None?
  }

  ghost function Count(fused: seq<Fused>, client: Fused): nat {
    if fused == [] then 0 else Count(fused[..|fused| - 1], client) + if fused[|fused| - 1] == client then 1 else 0
  }

  ghost function ClientCount(maps: seq<Mapping>, client: Fused): nat {
    if maps == [] then 0 else ClientCount(maps[..|maps| - 1], client) + if maps[|maps| - 1].client == client then 1 else 0
  }

  lemma {:induction false} ClientCountSplit(a: seq<Mapping>, b: seq<Mapping>, client: Fused)
    ensures ClientCount(a + b, client) == ClientCount(a, client) + ClientCount(b, client)
  {
    if b == [] {
      assert a + b == a;
    } else {
      ClientCountSplit(a, b[..|b| - 1], client);
      assert (a + b)[..|a + b| - 1] == a + b[..|b| - 1];
    }
  }

  lemma {:induction false} BuiltCount(built: seq<Mapping>, todo: seq<Fused>, client: Fused)
    requires |built| == |todo| && forall i | 0 <= i < |built| :: built[i].client == todo[i]
    ensures ClientCount(built, client) == Count(todo, client)
  {
    if built != [] { BuiltCount(built[..|built| - 1], todo[..|todo| - 1], client); }
  }

  lemma {:induction false} NewCount(vioses: seq<Vios>, fused: seq<Fused>, preserve: bool, client: Fused)
    ensures Count(NewPairs(vioses, fused, preserve), client)
      == if preserve && FirstMatch(vioses, client).Some? then 0 else Count(fused, client)
  {
    if fused != [] {
      var n := |fused| - 1;
      NewCount(vioses, fused[..n], preserve, client);
      var before := NewPairs(vioses, fused[..n], preserve);
      assert (before + [fused[n]])[..|before|] == before;
      assert before + [] == before;
    }
  }

  lemma OneMoreClient(maps: seq<Mapping>, m: Mapping, client: Fused)
    ensures ClientCount(maps + [m], client) == ClientCount(maps, client) + if m.client == client then 1 else 0
  {
    assert (maps + [m])[..|maps|] == maps;
  }

  lemma {:induction false} KeptCount(vioses: seq<Vios>, fused: seq<Fused>, preserve: bool, client: Fused)
    ensures ClientCount(Kept(vioses, fused, preserve), client) == if Backed(vioses, preserve, client) then Count(fused, client) else 0
  {
    if fused != [] {
      var n := |fused| - 1;
      KeptCount(vioses, fused[..n], preserve, client);
      var before := Kept(vioses, fused[..n], preserve);
      if Backed(vioses, preserve, fused[n]) {
        OneMoreClient(before, Mapping(FirstMatch(vioses, fused[n]).value.backing.value, fused[n]), client);
      } else {
        assert Kept(vioses, fused, preserve) == before;
      }
    }
  }

  /** New mappings for the new pairs and the kept ones: a client pair whose mapping is
      stale gets none, and every other pair gets one for each time it was asked for. */
  lemma PairsAccounted(vioses: seq<Vios>, fused: seq<Fused>, preserve: bool, built: seq<Mapping>, client: Fused)
    requires var todo := NewPairs(vioses, fused, preserve);
      |built| == |todo| && forall i | 0 <= i < |built| :: built[i].client == todo[i]
    ensures ClientCount(built + Kept(vioses, fused, preserve), client)
      == if Stale(vioses, preserve, client) then 0 else Count(fused, client)
  {
    ClientCountSplit(built, Kept(vioses, fused, preserve), client);
    BuiltCount(built, NewPairs(vioses, fused, preserve), client);
    NewCount(vioses, fused, preserve, client);
    KeptCount(vioses, fused, preserve, client);
  }

  method SplitPairs(vioses: seq<Vios>, fused: seq<Fused>, preserve: bool) returns (existing: seq<Mapping>, todo: seq<Fused>)
    ensures existing == Kept(vioses, fused, preserve) && todo == NewPairs(vioses, fused, preserve)
  {
    existing, todo := [], [];
    for i := 0 to |fused|
      invariant existing == Kept(vioses, fused[..i], preserve)
      invariant todo == NewPairs(vioses, fused[..i], preserve)
    {
      assert fused[..i + 1][..i] == fused[..i];
      var vfcMap := FirstMatch(vioses, fused[i]);
      if vfcMap.Some? && preserve {
        if vfcMap.value.backing.Some? {
          existing := existing + [Mapping(vfcMap.value.backing.value, fused[i])];
        }
      } else {
        todo := todo + [fused[i]];
      }
    }
    assert fused[..|fused|] == fused;
  }

  /** `derive_npiv_map`: new mappings first, then the preserved ones. */
  method DeriveNpivMap(vioses: seq<Vios>, pPorts: seq<string>, vPorts: seq<string>, preserve: bool)
    returns (res: Result<seq<Mapping>, Error>, built: seq<Mapping>, ghost at: seq<nat>)
    requires PortsApart(vioses)
    ensures var fused, sel := FuseVfcPorts(vPorts), SanitizeAll(pPorts);
      var kept, todo := Kept(vioses, fused, preserve), NewPairs(vioses, fused, preserve);
      && Run(vioses, sel, kept, built, at)
      && (res.Ok? <==> |todo| <= Room(vioses, sel, kept))
      && (res.Ok? ==> res.value == built + kept && |built| == |todo|)
      && (res.Ok? ==> forall i | 0 <= i < |built| :: built[i].client == todo[i])
      && (res.Err? ==> res.error == if vioses == [] then NoVioses else UnableToFindFCPortMap)
    ensures res.Ok? ==> forall client ::
      ClientCount(res.value, client) == if Stale(vioses, preserve, client) then 0 else Count(FuseVfcPorts(vPorts), client)
  {
    var fused, sel := FuseVfcPorts(vPorts), SanitizeAll(pPorts);
    var existing, todo := SplitPairs(vioses, fused, preserve);
    res, built, at := DeriveNew(vioses, todo, sel, existing);
    RoomDecides(vioses, sel, existing, built, at, |todo|);
    if res.Ok? {
      forall client ensures ClientCount(res.value, client) == if Stale(vioses, preserve, client) then 0 else Count(fused, client) {
        PairsAccounted(vioses, fused, preserve, built, client);
      }
    }
  }

  const ANY := Fused(ANY_WWPN, ANY_WWPN)

  ghost predicate All<T>(s: seq<T>, x: T) { forall i | 0 <= i < |s| :: s[i] == x }

  lemma {:induction false} AnyOnly(vioses: seq<Vios>, fused: seq<Fused>)
    requires All(fused, ANY)
    ensures var m, todo, kept := FirstMatch(vioses, ANY), NewPairs(vioses, fused, true), Kept(vioses, fused, true);
      && |todo| == (if m.None? then |fused| else 0)
      && |kept| == (if m.Some? && m.value.backing.Some? then |fused| else 0)
      && (m.Some? && m.value.backing.Some? ==> All(kept, Mapping(m.value.backing.value, ANY)))
  {
    if fused != [] { AnyOnly(vioses, fused[..|fused| - 1]); }
  }

  lemma AnyIsSanitized()
    ensures Sanitize(ANY_WWPN) == ANY_WWPN
  {
    assert ANY_WWPN[1..] == "1";
    assert Sanitize("1") == ['1'] + Sanitize("");
  }

  /** The list [-1] * 2n, fused. */
  method Markers(n: nat) returns (markers: seq<string>)
    ensures |FuseVfcPorts(markers)| == n && All(FuseVfcPorts(markers), ANY)
  {
    AnyIsSanitized();
    markers := seq(2 * n, _ => ANY_WWPN);
  }

  /** `derive_base_npiv_map`.  A client that already is mapped under the marker -1
      makes all the mappings copies of its own, or none at all. */
  method DeriveBaseNpivMap(vioses: seq<Vios>, pPorts: seq<string>, n: nat)
    returns (res: Result<seq<Mapping>, Error>, ghost at: seq<nat>)
    requires PortsApart(vioses)
    ensures FirstMatch(vioses, ANY).None? ==> (res.Ok? <==> n <= Room(vioses, SanitizeAll(pPorts), []))
    ensures FirstMatch(vioses, ANY).None? && res.Ok? ==> Run(vioses, SanitizeAll(pPorts), [], res.value, at) && |res.value| == n
    ensures FirstMatch(vioses, ANY).Some? ==> res.Ok?
    ensures var m := FirstMatch(vioses, ANY);
      m.Some? && m.value.backing.Some? ==> |res.value| == n && All(res.value, Mapping(m.value.backing.value, ANY))
    ensures var m := FirstMatch(vioses, ANY);
      m.Some? && m.value.backing.None? ==> res.value == []
  {
    var markers := Markers(n);
    var built: seq<Mapping>;
    res, built, at := DeriveNpivMap(vioses, pPorts, markers, true);
    AnyOnly(vioses, FuseVfcPorts(markers));
    if FirstMatch(vioses, ANY).None? {
      assert Kept(vioses, FuseVfcPorts(markers), true) == [] && built + [] == built;
    }
  }
}
