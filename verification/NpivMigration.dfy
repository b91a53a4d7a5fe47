/** Which server and port host each client slot of a migrating partition: the slots
    of a peer group go to one server, and different groups to different servers. */
module NpivMigration {
  import opened Options
  import opened NpivMapper
  import FirstFits

  /** A fabric: its name, its client slots and the WWPNs of its physical ports. */
  datatype Fabric = Fabric(name: string, slots: seq<int>, ports: seq<string>)

  /** A migration mapping: client slot, index of the server, port. */
  datatype Item = Item(slot: int, vios: nat, port: Port)

  // ---- Groups and fabrics ----

  function SlotsIn(slots: seq<int>, group: seq<int>): (r: seq<int>)
    ensures forall s :: s in r <==> s in slots && s in group
  {
    if slots == [] then []
    else
      var n := |slots| - 1;
      SlotsIn(slots[..n], group) + if slots[n] in group then [slots[n]] else []
  }

  /** `_split_ports_per_fabric`. */
  function SplitPerFabric(group: seq<int>, fabrics: seq<Fabric>): (r: seq<Fabric>)
    ensures forall f | f in r :: f.slots != []
    ensures forall f | f in r :: exists g | g in fabrics :: f == g.(slots := SlotsIn(g.slots, group))
  {
    if fabrics == [] then []
    else
      var n := |fabrics| - 1;
      var slots := SlotsIn(fabrics[n].slots, group);
      SplitPerFabric(group, fabrics[..n]) + if slots == [] then [] else [fabrics[n].(slots := slots)]
  }

  /** `_does_vios_support_split_map`. */
  predicate SupportsSplit(vios: Vios, split: seq<Fabric>) {
    forall f | f in split :: |f.slots| <= |PortsOn(vios.ports, f.ports)|
  }

  predicate Supports(vios: Vios, fabrics: seq<Fabric>, group: seq<int>) {
    SupportsSplit(vios, SplitPerFabric(group, fabrics))
  }

  ghost predicate LargestFirst(groups: seq<seq<int>>) { forall i, j | 0 <= i < j < |groups| :: |groups[i]| >= |groups[j]| }

  function InsertByLength(groups: seq<seq<int>>, g: seq<int>): seq<seq<int>> {
    if groups == [] || |groups[|groups| - 1]| >= |g| then groups + [g]
    else InsertByLength(groups[..|groups| - 1], g) + [groups[|groups| - 1]]
  }

  /** The groups with the most peers first, in order otherwise. */
  function SortByLength(groups: seq<seq<int>>): seq<seq<int>> {
    if groups == [] then [] else InsertByLength(SortByLength(groups[..|groups| - 1]), groups[|groups| - 1])
  }

  lemma {:induction false} InsertSorted(groups: seq<seq<int>>, g: seq<int>, least: nat)
    requires LargestFirst(groups) && |g| >= least && forall i | 0 <= i < |groups| :: |groups[i]| >= least
    ensures var r := InsertByLength(groups, g); LargestFirst(r) && forall i | 0 <= i < |r| :: |r[i]| >= least
  {
    var n := |groups| - 1;
    if groups != [] && |groups[n]| < |g| {
      forall i | 0 <= i < n ensures |groups[..n][i]| >= |groups[n]| { assert groups[..n][i] == groups[i]; }
      InsertSorted(groups[..n], g, |groups[n]|);
    }
  }

  lemma {:induction false} SortSorted(groups: seq<seq<int>>)
    ensures LargestFirst(SortByLength(groups))
  {
    if groups != [] {
      SortSorted(groups[..|groups| - 1]);
      InsertSorted(SortByLength(groups[..|groups| - 1]), groups[|groups| - 1], 0);
    }
  }

  /** The groups that slot s belongs to. */
  ghost function GroupCount(groups: seq<seq<int>>, s: int): nat {
    if groups == [] then 0 else GroupCount(groups[..|groups| - 1], s) + if s in groups[|groups| - 1] then 1 else 0
  }

  lemma {:induction false} InsertCounts(groups: seq<seq<int>>, g: seq<int>, s: int)
    ensures GroupCount(InsertByLength(groups, g), s) == GroupCount(groups, s) + if s in g then 1 else 0
  {
    var n := |groups| - 1;
    if groups == [] || |groups[n]| >= |g| {
      assert (groups + [g])[..|groups|] == groups;
    } else {
      InsertCounts(groups[..n], g, s);
      var r := InsertByLength(groups[..n], g);
      assert (r + [groups[n]])[..|r|] == r;
    }
  }

  lemma {:induction false} SortCounts(groups: seq<seq<int>>, s: int)
    ensures GroupCount(SortByLength(groups), s) == GroupCount(groups, s)
  {
    if groups != [] {
      SortCounts(groups[..|groups| - 1], s);
      InsertCounts(SortByLength(groups[..|groups| - 1]), groups[|groups| - 1], s);
    }
  }

  // ---- A server for every group ----

  /** v is the first server that is not taken and supports the group. */
  ghost predicate Fits(vioses: seq<Vios>, fabrics: seq<Fabric>, group: seq<int>, taken: seq<nat>, v: nat) {
    && v < |vioses| && v !in taken && Supports(vioses[v], fabrics, group)
    && forall k: nat | k < v :: k in taken || !Supports(vioses[k], fabrics, group)
  }

  ghost predicate FirstFit(vioses: seq<Vios>, fabrics: seq<Fabric>, groups: seq<seq<int>>, at: seq<nat>) {
    |at| == |groups| && forall i | 0 <= i < |groups| :: Fits(vioses, fabrics, groups[i], at[..i], at[i])
  }

  ghost predicate Stuck(vioses: seq<Vios>, fabrics: seq<Fabric>, group: seq<int>, taken: seq<nat>) {
    forall k: nat | k < |vioses| :: k in taken || !Supports(vioses[k], fabrics, group)
  }

  method FindServer(vioses: seq<Vios>, fabrics: seq<Fabric>, group: seq<int>, taken: seq<nat>) returns (v: Option<nat>)
    ensures v.Some? ==> Fits(vioses, fabrics, group, taken, v.value)
    ensures v.None? ==> Stuck(vioses, fabrics, group, taken)
  {
    var split := SplitPerFabric(group, fabrics);
    for k := 0 to |vioses|
      invariant forall l: nat | l < k :: l in taken || !Supports(vioses[l], fabrics, group)
    {
      if k !in taken && SupportsSplit(vioses[k], split) {
        return Some(k);
      }
    }
    return None;
  }

  method AssignServers(vioses: seq<Vios>, fabrics: seq<Fabric>, groups: seq<seq<int>>) returns (at: seq<nat>, ok: bool)
    ensures |at| <= |groups| && FirstFit(vioses, fabrics, groups[..|at|], at)
    ensures ok <==> |at| == |groups|
    ensures !ok ==> Stuck(vioses, fabrics, groups[|at|], at)
  {
    at := [];
    for i := 0 to |groups|
      invariant |at| == i && FirstFit(vioses, fabrics, groups[..i], at)
    {
      var v := FindServer(vioses, fabrics, groups[i], at);
      if v.None? {
        return at, false;
      }
      forall j | 0 <= j < i + 1 ensures Fits(vioses, fabrics, groups[..i + 1][j], (at + [v.value])[..j], (at + [v.value])[j]) {
        assert (at + [v.value])[..j] == at[..j];
        if j < i { assert groups[..i][j] == groups[..i + 1][j]; }
        assert at[..i] == at;
      }
      at := at + [v.value];
    }
    return at, true;
  }

  lemma FirstFitDistinct(vioses: seq<Vios>, fabrics: seq<Fabric>, groups: seq<seq<int>>, at: seq<nat>)
    requires FirstFit(vioses, fabrics, groups, at)
    ensures forall i, j | 0 <= i < j < |at| :: at[i] != at[j]
  {
    forall i, j | 0 <= i < j < |at| ensures at[i] != at[j] {
      assert Fits(vioses, fabrics, groups[j], at[..j], at[j]);
      assert at[..j][i] == at[i];
    }
  }

  lemma OnePort(w: string, sel: seq<string>)
    requires |w| == 1 && w[0] != ':' && Upper(w[0]) == w[0]
    ensures PortsOn([Port(w, 0)], sel) == if w in sel then [Port(w, 0)] else []
  {
    assert w[1..] == "" && Sanitize(w) == [w[0]] + Sanitize(w[1..]) == w;
    assert [Port(w, 0)][1..] == [];
  }

  lemma OneSlot(s: int, group: seq<int>)
    ensures SlotsIn([s], group) == if s in group then [s] else []
  {
    var slots := [s];
    var n := |slots| - 1;
    assert SlotsIn(slots[..n], group) == [] && slots[n] == s;
  }

  lemma OneSupports(vios: Vios, f: Fabric, other: Fabric, group: seq<int>)
    requires |f.slots| == 1 && |other.slots| == 1 && f.slots[0] in group && other.slots[0] !in group
    ensures Supports(vios, [f, other], group) <==> PortsOn(vios.ports, f.ports) != []
    ensures Supports(vios, [other, f], group) <==> PortsOn(vios.ports, f.ports) != []
  {
    SplitOfTwo(f, other, group);
    SplitOfTwo(other, f, group);
    assert f in [f];
  }

  lemma SplitOfTwo(a: Fabric, b: Fabric, group: seq<int>)
    requires |a.slots| == 1 && |b.slots| == 1
    ensures SplitPerFabric(group, [a, b]) == (if a.slots[0] in group then [a] else []) + if b.slots[0] in group then [b] else []
  {
    OneSlot(a.slots[0], group);
    OneSlot(b.slots[0], group);
    assert a.slots == [a.slots[0]] && b.slots == [b.slots[0]];
    assert [a, b][..1] == [a] && [a][..0] == [];
    assert SplitPerFabric(group, []) == [];
    assert SplitPerFabric(group, [a]) == if a.slots[0] in group then [a] else [];
  }

  lemma OneFits(vioses: seq<Vios>, fabrics: seq<Fabric>, g: seq<int>, v: nat)
    requires Fits(vioses, fabrics, g, [], v)
    ensures FirstFit(vioses, fabrics, [g], [v])
  {
    forall i | 0 <= i < |[g]| ensures Fits(vioses, fabrics, [g][i], [v][..i], [v][i]) {
      assert [v][..i] == [];
    }
  }

  lemma FirstTaken(vioses: seq<Vios>, fabrics: seq<Fabric>, g: seq<int>, h: seq<int>)
    requires |vioses| == 2 && Supports(vioses[0], fabrics, g) && !Supports(vioses[1], fabrics, h)
    ensures Fits(vioses, fabrics, g, [], 0) && Stuck(vioses, fabrics, h, [0])
  {
    forall k: nat | k < |vioses| ensures k in [0] || !Supports(vioses[k], fabrics, h) {
      if k == 0 { assert [0][0] == k; } else { assert k == 1; }
    }
  }

  /** Taking the first server that fits is not optimal: slot 1 takes the only server
      for slot 2, although the second server would have done for it. */
  lemma FirstFitCanMiss() returns (vioses: seq<Vios>, fabrics: seq<Fabric>, g: seq<int>, h: seq<int>)
    ensures FirstFit(vioses, fabrics, [g], [0]) && Stuck(vioses, fabrics, h, [0])
    ensures |g| >= |h| && |vioses| == 2 && Supports(vioses[1], fabrics, g) && Supports(vioses[0], fabrics, h)
  {
    var a, b := Fabric("A", [1], ["0", "1"]), Fabric("B", [2], ["0"]);
    var first, second := Vios([Port("0", 0)], []), Vios([Port("1", 0)], []);
    vioses, fabrics, g, h := [first, second], [a, b], [1], [2];
    OnePort("0", a.ports);
    OnePort("1", a.ports);
    OnePort("0", b.ports);
    OnePort("1", b.ports);
    OneSupports(first, a, b, [1]);
    OneSupports(second, a, b, [1]);
    OneSupports(first, b, a, [2]);
    OneSupports(second, b, a, [2]);
    FirstTaken(vioses, fabrics, [1], [2]);
    OneFits(vioses, fabrics, [1], 0);
  }

  // ---- When first fit is right ----

  ghost function Able(vioses: seq<Vios>, fabrics: seq<Fabric>, group: seq<int>): set<nat> {
    set k: nat | k < |vioses| && Supports(vioses[k], fabrics, group)
  }

  /** The servers that support each group. */
  ghost function Table(vioses: seq<Vios>, fabrics: seq<Fabric>, groups: seq<seq<int>>): (t: seq<set<nat>>)
    ensures |t| == |groups| && forall i | 0 <= i < |groups| :: t[i] == Able(vioses, fabrics, groups[i])
  {
    seq(|groups|, i requires 0 <= i < |groups| => Able(vioses, fabrics, groups[i]))
  }

  /** Group i on server a[i], which supports it and has no other group. */
  ghost predicate Assigned(vioses: seq<Vios>, fabrics: seq<Fabric>, groups: seq<seq<int>>, a: seq<nat>) {
    && |a| == |groups| && (forall i, j | 0 <= i < j < |a| :: a[i] != a[j])
    && forall i | 0 <= i < |groups| :: a[i] < |vioses| && Supports(vioses[a[i]], fabrics, groups[i])
  }

  ghost predicate Assignable(vioses: seq<Vios>, fabrics: seq<Fabric>, groups: seq<seq<int>>) {
    exists a :: Assigned(vioses, fabrics, groups, a)
  }

  lemma AssignedInTable(vioses: seq<Vios>, fabrics: seq<Fabric>, groups: seq<seq<int>>, a: seq<nat>)
    requires Assigned(vioses, fabrics, groups, a)
    ensures FirstFits.Assignment(Table(vioses, fabrics, groups), a)
  {
  }

  lemma FirstFitAssigns(vioses: seq<Vios>, fabrics: seq<Fabric>, groups: seq<seq<int>>, at: seq<nat>)
    requires FirstFit(vioses, fabrics, groups, at)
    ensures Assigned(vioses, fabrics, groups, at)
  {
    FirstFitDistinct(vioses, fabrics, groups, at);
    forall i | 0 <= i < |groups| ensures at[i] < |vioses| && Supports(vioses[at[i]], fabrics, groups[i]) {
      assert Fits(vioses, fabrics, groups[i], at[..i], at[i]);
    }
  }

  lemma FitsInTable(vioses: seq<Vios>, fabrics: seq<Fabric>, group: seq<int>, taken: seq<nat>, v: nat)
    ensures Fits(vioses, fabrics, group, taken, v) ==> FirstFits.TakesFirst(Able(vioses, fabrics, group), taken, v)
    ensures FirstFits.TakesFirst(Able(vioses, fabrics, group), taken, v) ==> Fits(vioses, fabrics, group, taken, v)
  {
    var able := Able(vioses, fabrics, group);
    forall k: nat | k < |vioses| ensures k in able <==> Supports(vioses[k], fabrics, group) {}
  }

  lemma FailsInTable(vioses: seq<Vios>, fabrics: seq<Fabric>, groups: seq<seq<int>>, at: seq<nat>)
    requires |at| < |groups| && FirstFit(vioses, fabrics, groups[..|at|], at) && Stuck(vioses, fabrics, groups[|at|], at)
    ensures FirstFits.Fails(Table(vioses, fabrics, groups), at)
  {
    forall i | 0 <= i < |at| ensures FirstFits.TakesFirst(Table(vioses, fabrics, groups)[i], at[..i], at[i]) {
      assert Fits(vioses, fabrics, groups[..|at|][i], at[..i], at[i]);
      FitsInTable(vioses, fabrics, groups[i], at[..i], at[i]);
    }
  }

  /** If wherever a group and a later one have a server in common the later one can use
      all servers of the earlier one, the search fails exactly where no assignment of
      servers to groups exists. */
  lemma NestedFirstFitDecides(vioses: seq<Vios>, fabrics: seq<Fabric>, groups: seq<seq<int>>, at: seq<nat>)
    requires FirstFits.Nested(Table(vioses, fabrics, groups))
    requires |at| <= |groups| && FirstFit(vioses, fabrics, groups[..|at|], at)
    requires |at| < |groups| ==> Stuck(vioses, fabrics, groups[|at|], at)
    ensures |at| == |groups| <==> Assignable(vioses, fabrics, groups)
  {
    if |at| == |groups| {
      assert groups[..|at|] == groups;
      FirstFitAssigns(vioses, fabrics, groups, at);
    } else {
      FailsInTable(vioses, fabrics, groups, at);
      FirstFits.NestedIsRight(Table(vioses, fabrics, groups));
      forall a ensures !Assigned(vioses, fabrics, groups, a) {
        if Assigned(vioses, fabrics, groups, a) { AssignedInTable(vioses, fabrics, groups, a); }
      }
    }
  }

  // ---- Distinct ports ----

  lemma {:induction false} EmptyRoom(ports: seq<Port>)
    ensures PortRoom(ports, []) == MAX_USES * |ports|
  {
    if ports != [] { EmptyRoom(ports[1..]); }
  }

  lemma {:induction false} UsedRoom(ports: seq<Port>, maps: seq<Mapping>)
    requires forall p | p in ports :: Uses(maps, p.wwpn) > 0
    ensures PortRoom(ports, maps) <= (MAX_USES - 1) * |ports|
  {
    if ports != [] {
      assert ports[0] in ports;
      forall p | p in ports[1..] ensures Uses(maps, p.wwpn) > 0 { assert p in ports; }
      UsedRoom(ports[1..], maps);
    }
  }

  lemma {:induction false} UnusedPort(maps: seq<Mapping>, w: string)
    ensures Uses(maps, w) == 0 <==> forall i | 0 <= i < |maps| :: maps[i].port != w
  {
    if maps != [] {
      var n := |maps| - 1;
      UnusedPort(maps[..n], w);
      assert forall i | 0 <= i < n :: maps[..n][i] == maps[i];
    }
  }

  ghost predicate DistinctPorts(maps: seq<Mapping>) { forall i, j | 0 <= i < j < |maps| :: maps[i].port != maps[j].port }

  lemma UnusedExists(vios: Vios, sel: seq<string>, built: seq<Mapping>, at: seq<nat>)
    requires Distinct(vios.ports) && Run([vios], sel, [], built, at) && |built| < |PortsOn(vios.ports, sel)|
    ensures exists p | p in PortsOn(vios.ports, sel) :: Uses(built, p.wwpn) == 0
  {
    var ports := PortsOn(vios.ports, sel);
    assert PortsApart([vios]);
    RunTakesRoom([vios], sel, [], built, at);
    assert built + [] == built;
    assert Room([vios], sel, built) == PortRoom(ports, built) && Room([vios], sel, []) == PortRoom(ports, []);
    EmptyRoom(ports);
    if forall p | p in ports :: Uses(built, p.wwpn) > 0 { UsedRoom(ports, built); }
  }

  ghost predicate OnPorts(maps: seq<Mapping>, ports: seq<Port>) {
    forall i | 0 <= i < |maps| :: Names(ports, maps[i].port)
  }

  lemma NextIsDistinct(ports: seq<Port>, before: seq<Mapping>, m: Mapping)
    requires DistinctPorts(before) && OnPorts(before, ports)
    requires exists p :: Best(ports, before, p) && m.port == p.wwpn
    requires exists p | p in ports :: Uses(before, p.wwpn) == 0
    ensures DistinctPorts(before + [m]) && OnPorts(before + [m], ports)
  {
    var p :| Best(ports, before, p) && m.port == p.wwpn;
    var i :| 0 <= i < |ports| && ports[i] == p;
    assert Names(ports, m.port);
    UnusedPort(before, p.wwpn);
  }

  lemma LastIsBest(vios: Vios, sel: seq<string>, built: seq<Mapping>, at: seq<nat>, n: nat)
    requires Run([vios], sel, [], built, at) && |built| == n + 1
    ensures exists p :: Best(PortsOn(vios.ports, sel), built[..n], p) && built[n].port == p.wwpn
  {
    assert Placed([vios], sel, [], built, at, n);
    assert built[..n] + [] == built[..n];
  }

  lemma NextUseDistinct(vios: Vios, sel: seq<string>, built: seq<Mapping>, at: seq<nat>, n: nat)
    requires Distinct(vios.ports) && Run([vios], sel, [], built, at) && |built| == n + 1 <= |PortsOn(vios.ports, sel)|
    requires DistinctPorts(built[..n]) && OnPorts(built[..n], PortsOn(vios.ports, sel))
    ensures DistinctPorts(built) && OnPorts(built, PortsOn(vios.ports, sel))
  {
    RunShorter([vios], sel, [], built, at, n);
    UnusedExists(vios, sel, built[..n], at[..n]);
    LastIsBest(vios, sel, built, at, n);
    assert built == built[..n] + [built[n]];
    NextIsDistinct(PortsOn(vios.ports, sel), built[..n], built[n]);
  }

  /** On one server, the first mappings take different ports, as long as there are any. */
  lemma {:induction false} FirstUsesDistinct(vios: Vios, sel: seq<string>, built: seq<Mapping>, at: seq<nat>)
    requires Distinct(vios.ports) && Run([vios], sel, [], built, at) && |built| <= |PortsOn(vios.ports, sel)|
    ensures DistinctPorts(built) && OnPorts(built, PortsOn(vios.ports, sel))
    decreases |built|
  {
    if built != [] {
      var n := |built| - 1;
      RunShorter([vios], sel, [], built, at, n);
      FirstUsesDistinct(vios, sel, built[..n], at[..n]);
      NextUseDistinct(vios, sel, built, at, n);
    }
  }

  // ---- WWPNs as the API reports them ----

  /** The servers' port names are in the form `sanitize_wwpn_for_api` gives. */
  ghost predicate FromApi(vioses: seq<Vios>) {
    forall k, p | 0 <= k < |vioses| && p in vioses[k].ports :: Sanitize(p.wwpn) == p.wwpn
  }

  lemma {:induction false} SanitizeTwice(w: string)
    ensures Sanitize(Sanitize(w)) == Sanitize(w)
  {
    if w != "" {
      SanitizeTwice(w[1..]);
      var c := Upper(w[0]);
      if w[0] != ':' {
        assert c != ':' && Upper(c) == c;
        assert ([c] + Sanitize(w[1..]))[1..] == Sanitize(w[1..]);
      } else {
        assert [] + Sanitize(w[1..]) == Sanitize(w[1..]);
      }
    }
  }

  /** Ports that a fabric lists in another notation only. */
  function OtherNotation(ports: seq<Port>, sel: seq<string>): (n: nat)
    ensures n == 0 <==> forall p | p in ports && Sanitize(p.wwpn) in SanitizeAll(sel) :: Sanitize(p.wwpn) in sel
  {
    if ports == [] then 0
    else
      (if Sanitize(ports[0].wwpn) in SanitizeAll(sel) && Sanitize(ports[0].wwpn) !in sel then 1 else 0)
        + OtherNotation(ports[1..], sel)
  }

  lemma {:induction false} NotationCounts(ports: seq<Port>, sel: seq<string>)
    requires forall p | p in ports :: Sanitize(p.wwpn) == p.wwpn
    ensures |PortsOn(ports, SanitizeAll(sel))| == |PortsOn(ports, sel)| + OtherNotation(ports, sel)
    ensures OtherNotation(ports, sel) == 0 ==> PortsOn(ports, SanitizeAll(sel)) == PortsOn(ports, sel)
  {
    if ports != [] {
      assert ports[0] in ports;
      forall p | p in ports[1..] ensures Sanitize(p.wwpn) == p.wwpn { assert p in ports; }
      NotationCounts(ports[1..], sel);
      ListedSanitized(ports[0].wwpn, sel);
    }
  }

  lemma ListedSanitized(w: string, sel: seq<string>)
    requires Sanitize(w) == w
    ensures w in sel ==> w in SanitizeAll(sel)
  {
    if w in sel {
      var i :| 0 <= i < |sel| && sel[i] == w;
      assert SanitizeAll(sel)[i] == w;
    }
  }

  /** The support check compares with the fabric's WWPNs as they were given, although
      the mapping itself accepts any notation.  It sees the ports that the mapping can
      use exactly if no port of the server is listed in another notation only. */
  lemma NotationMatters(ports: seq<Port>, sel: seq<string>)
    requires forall p | p in ports :: Sanitize(p.wwpn) == p.wwpn
    ensures PortsOn(ports, sel) == PortsOn(ports, SanitizeAll(sel)) <==>
      forall p | p in ports && p.wwpn in SanitizeAll(sel) :: p.wwpn in sel
  {
    NotationCounts(ports, sel);
    forall p | p in ports ensures Sanitize(p.wwpn) == p.wwpn {}
  }

  /** A server supports a group exactly if for every fabric of it there are ports enough
      without those that the fabric lists in another notation only. */
  lemma SupportsIff(vioses: seq<Vios>, v: nat, fabrics: seq<Fabric>, group: seq<int>)
    requires FromApi(vioses) && v < |vioses|
    ensures Supports(vioses[v], fabrics, group) <==> forall f | f in SplitPerFabric(group, fabrics) ::
      |f.slots| <= |PortsOn(vioses[v].ports, SanitizeAll(f.ports))| - OtherNotation(vioses[v].ports, f.ports)
  {
    forall f | f in SplitPerFabric(group, fabrics)
      ensures |PortsOn(vioses[v].ports, SanitizeAll(f.ports))| == |PortsOn(vioses[v].ports, f.ports)| + OtherNotation(vioses[v].ports, f.ports)
    {
      NotationCounts(vioses[v].ports, f.ports);
    }
  }

  /** In particular, WWPNs that are all in another notation never fit. */
  lemma OtherNotationNeverFits(vios: Vios, fabrics: seq<Fabric>, group: seq<int>, f: Fabric)
    requires f in SplitPerFabric(group, fabrics) && forall w | w in f.ports :: w != Sanitize(w)
    ensures !Supports(vios, fabrics, group)
  {
    var ports := PortsOn(vios.ports, f.ports);
    if ports != [] {
      assert ports[0] in ports;
      SanitizeTwice(ports[0].wwpn);
    }
  }

  /** `find_vios_for_wwpn` on one server. */
  function FindPort(ports: seq<Port>, w: string): (p: Option<Port>)
    ensures p.Some? ==> p.value in ports && Sanitize(p.value.wwpn) == Sanitize(w)
    ensures p.None? ==> forall q | q in ports :: Sanitize(q.wwpn) != Sanitize(w)
  {
    if ports == [] then None
    else if Sanitize(ports[0].wwpn) == Sanitize(w) then Some(ports[0])
    else FindPort(ports[1..], w)
  }

  // ---- The slots of one fabric on one server ----

  /** Slot i gets its own port of the fabric on server v. */
  ghost predicate FabricPlaced(vioses: seq<Vios>, v: nat, f: Fabric, items: seq<Item>) {
    && v < |vioses| && |items| == |f.slots|
    && (forall i | 0 <= i < |items| :: items[i].slot == f.slots[i] && items[i].vios == v
          && items[i].port in PortsOn(vioses[v].ports, SanitizeAll(f.ports)))
    && forall i, j | 0 <= i < j < |items| :: items[i].port.wwpn != items[j].port.wwpn
  }

  /** A client on server v that is mapped under the marker -1. */
  function Squatter(vioses: seq<Vios>, v: nat): Option<VfcMapping>
    requires v < |vioses|
  {
    FirstMatch([vioses[v]], ANY)
  }

  /** The client's backing port is not a port of its server. */
  predicate Lost(vioses: seq<Vios>, v: nat)
    requires v < |vioses|
  {
    && Squatter(vioses, v).Some? && Squatter(vioses, v).value.backing.Some?
    && FindPort(vioses[v].ports, Squatter(vioses, v).value.backing.value).None?
  }

  /** The rows of a fabric's slots: each on its own port; or all on the port of the
      client that is mapped under the marker -1; or none. */
  ghost predicate FabricRows(vioses: seq<Vios>, v: nat, f: Fabric, items: seq<Item>)
    requires v < |vioses|
  {
    var m := Squatter(vioses, v);
    if m.None? then FabricPlaced(vioses, v, f, items)
    else if m.value.backing.None? then items == []
    else
      && |items| == |f.slots|
      && forall i | 0 <= i < |items| ::
           && items[i].slot == f.slots[i] && items[i].vios == v
           && Some(items[i].port) == FindPort(vioses[v].ports, m.value.backing.value)
  }

  ghost predicate AreRows(vioses: seq<Vios>, v: nat, slots: seq<int>, maps: seq<Mapping>, items: seq<Item>)
    requires v < |vioses|
  {
    && |items| == |maps| <= |slots|
    && forall i | 0 <= i < |maps| ::
         FindPort(vioses[v].ports, maps[i].port) == Some(items[i].port) && items[i].slot == slots[i] && items[i].vios == v
  }

  /** The rows for one list of mappings: slot i on the port of mapping i. */
  method Rows(vioses: seq<Vios>, v: nat, slots: seq<int>, maps: seq<Mapping>) returns (res: Result<seq<Item>, Error>)
    requires v < |vioses| && |maps| <= |slots|
    ensures res.Ok? <==> forall i | 0 <= i < |maps| :: FindPort(vioses[v].ports, maps[i].port).Some?
    ensures res.Ok? ==> AreRows(vioses, v, slots, maps, res.value)
    ensures res.Err? ==> res.error == PortNotFound
  {
    var items: seq<Item> := [];
    for i := 0 to |maps|
      invariant |items| == i && forall j | 0 <= j < i ::
        FindPort(vioses[v].ports, maps[j].port) == Some(items[j].port) && items[j].slot == slots[j] && items[j].vios == v
    {
      var port := FindPort(vioses[v].ports, maps[i].port);
      if port.None? {
        return Err(PortNotFound);
      }
      items := items + [Item(slots[i], v, port.value)];
    }
    return Ok(items);
  }

  lemma PortsFound(vioses: seq<Vios>, v: nat, sel: seq<string>, w: string)
    requires PortsApart(vioses) && FromApi(vioses) && v < |vioses|
    requires Names(PortsOn(vioses[v].ports, sel), w)
    ensures var found := FindPort(vioses[v].ports, w);
      found.Some? && found.value in PortsOn(vioses[v].ports, sel) && found.value.wwpn == w
  {
    var x :| 0 <= x < |PortsOn(vioses[v].ports, sel)| && PortsOn(vioses[v].ports, sel)[x].wwpn == w;
    var p := PortsOn(vioses[v].ports, sel)[x];
    var found := FindPort(vioses[v].ports, w);
    assert found.Some?;
    var ports := vioses[v].ports;
    var i, j :| 0 <= i < |ports| && ports[i] == p && 0 <= j < |ports| && ports[j] == found.value;
    assert ports[i].wwpn == ports[j].wwpn;
    assert i == j;
  }

  lemma DistinctRows(vioses: seq<Vios>, v: nat, f: Fabric, maps: seq<Mapping>, items: seq<Item>)
    requires PortsApart(vioses) && FromApi(vioses) && v < |vioses|
    requires DistinctPorts(maps) && OnPorts(maps, PortsOn(vioses[v].ports, SanitizeAll(f.ports)))
    requires AreRows(vioses, v, f.slots, maps, items) && |maps| == |f.slots|
    ensures FabricPlaced(vioses, v, f, items)
  {
    var sel := SanitizeAll(f.ports);
    forall i | 0 <= i < |maps|
      ensures items[i].port in PortsOn(vioses[v].ports, sel) && items[i].port.wwpn == maps[i].port
    {
      PortsFound(vioses, v, sel, maps[i].port);
    }
  }

  lemma EnoughPorts(vioses: seq<Vios>, v: nat, f: Fabric)
    requires PortsApart(vioses) && FromApi(vioses) && v < |vioses|
    requires |f.slots| <= |PortsOn(vioses[v].ports, f.ports)|
    ensures PortsApart([vioses[v]])
    ensures |f.slots| <= |PortsOn(vioses[v].ports, SanitizeAll(f.ports))| && |f.slots| <= Room([vioses[v]], SanitizeAll(f.ports), [])
  {
    var ports := PortsOn(vioses[v].ports, SanitizeAll(f.ports));
    NotationCounts(vioses[v].ports, f.ports);
    EmptyRoom(ports);
    assert Room([vioses[v]], SanitizeAll(f.ports), []) == PortRoom(ports, []) + Room([], SanitizeAll(f.ports), []);
  }

  /** The inner loop of `build_migration_mappings`.  Without a client that is mapped
      under the marker -1, every slot gets its own port.  With one that has a backing
      port all slots share that port, and with one that has none they get no row. */
  method PlaceFabric(vioses: seq<Vios>, v: nat, f: Fabric) returns (res: Result<seq<Item>, Error>)
    requires PortsApart(vioses) && FromApi(vioses) && v < |vioses|
    requires |f.slots| <= |PortsOn(vioses[v].ports, f.ports)|
    ensures res.Err? <==> Lost(vioses, v) && f.slots != []
    ensures res.Err? ==> res.error == PortNotFound
    ensures res.Ok? ==> FabricRows(vioses, v, f, res.value)
  {
    EnoughPorts(vioses, v, f);
    ghost var at;
    var maps: Result<seq<Mapping>, Error>;
    maps, at := DeriveBaseNpivMap([vioses[v]], f.ports, |f.slots|);
    assert maps.Ok?;
    res := Rows(vioses, v, f.slots, maps.value);
    if Squatter(vioses, v).None? {
      FirstUsesDistinct(vioses[v], SanitizeAll(f.ports), maps.value, at);
      RowsFound(vioses, v, f, maps.value);
      DistinctRows(vioses, v, f, maps.value, res.value);
    } else if Squatter(vioses, v).value.backing.Some? {
      assert forall i | 0 <= i < |maps.value| :: maps.value[i].port == Squatter(vioses, v).value.backing.value;
      assert f.slots != [] ==> maps.value[0].port == Squatter(vioses, v).value.backing.value;
    }
  }

  lemma RowsFound(vioses: seq<Vios>, v: nat, f: Fabric, maps: seq<Mapping>)
    requires PortsApart(vioses) && FromApi(vioses) && v < |vioses|
    requires OnPorts(maps, PortsOn(vioses[v].ports, SanitizeAll(f.ports)))
    ensures forall i | 0 <= i < |maps| :: FindPort(vioses[v].ports, maps[i].port).Some?
  {
    forall i | 0 <= i < |maps| ensures FindPort(vioses[v].ports, maps[i].port).Some? {
      PortsFound(vioses, v, SanitizeAll(f.ports), maps[i].port);
    }
  }

  // ---- `build_migration_mappings` ----

  /** Fabric names are the keys of a dictionary. */
  ghost predicate NamesApart(fabrics: seq<Fabric>) {
    forall i, j | 0 <= i < j < |fabrics| :: fabrics[i].name != fabrics[j].name
  }

  ghost function Occurrences(slots: seq<int>, s: int): nat {
    if slots == [] then 0 else Occurrences(slots[..|slots| - 1], s) + if slots[|slots| - 1] == s then 1 else 0
  }

  ghost function FabricCount(fabrics: seq<Fabric>, s: int): nat {
    if fabrics == [] then 0
    else FabricCount(fabrics[..|fabrics| - 1], s) + Occurrences(fabrics[|fabrics| - 1].slots, s)
  }

  ghost function RowCount(items: seq<Item>, s: int): nat {
    if items == [] then 0 else RowCount(items[..|items| - 1], s) + if items[|items| - 1].slot == s then 1 else 0
  }

  lemma OneMoreSlot(slots: seq<int>, x: int, s: int)
    ensures Occurrences(slots + [x], s) == Occurrences(slots, s) + if x == s then 1 else 0
  {
    assert (slots + [x])[..|slots|] == slots;
  }

  lemma {:induction false} SlotsInCount(slots: seq<int>, group: seq<int>, s: int)
    ensures Occurrences(SlotsIn(slots, group), s) == if s in group then Occurrences(slots, s) else 0
  {
    if slots != [] {
      var n := |slots| - 1;
      SlotsInCount(slots[..n], group, s);
      var rest := SlotsIn(slots[..n], group);
      if slots[n] in group { OneMoreSlot(rest, slots[n], s); } else { assert SlotsIn(slots, group) == rest; }
    }
  }

  lemma OneMoreFabric(fabrics: seq<Fabric>, f: Fabric, s: int)
    ensures FabricCount(fabrics + [f], s) == FabricCount(fabrics, s) + Occurrences(f.slots, s)
  {
    assert (fabrics + [f])[..|fabrics|] == fabrics;
  }

  /** The split map of a group has the group's slots, as often as the fabrics have them. */
  lemma {:induction false} SplitCount(group: seq<int>, fabrics: seq<Fabric>, s: int)
    ensures FabricCount(SplitPerFabric(group, fabrics), s) == if s in group then FabricCount(fabrics, s) else 0
  {
    if fabrics != [] {
      var n := |fabrics| - 1;
      var f := fabrics[n].(slots := SlotsIn(fabrics[n].slots, group));
      SplitCount(group, fabrics[..n], s);
      SlotsInCount(fabrics[n].slots, group, s);
      var rest := SplitPerFabric(group, fabrics[..n]);
      if f.slots == [] { assert SplitPerFabric(group, fabrics) == rest; } else { OneMoreFabric(rest, f, s); }
    }
  }

  lemma {:induction false} SplitNames(group: seq<int>, fabrics: seq<Fabric>)
    requires NamesApart(fabrics)
    ensures NamesApart(SplitPerFabric(group, fabrics))
  {
    if fabrics != [] {
      var n := |fabrics| - 1;
      SplitNames(group, fabrics[..n]);
      var rest := SplitPerFabric(group, fabrics[..n]);
      forall i | 0 <= i < |rest| ensures rest[i].name != fabrics[n].name {
        assert rest[i] in rest;
      }
    }
  }

  lemma {:induction false} RowCountSplit(a: seq<Item>, b: seq<Item>, s: int)
    ensures RowCount(a + b, s) == RowCount(a, s) + RowCount(b, s)
  {
    if b == [] {
      assert a + b == a;
    } else {
      RowCountSplit(a, b[..|b| - 1], s);
      assert (a + b)[..|a + b| - 1] == a + b[..|b| - 1];
    }
  }

  lemma {:induction false} BlockCount(items: seq<Item>, slots: seq<int>, s: int)
    requires |items| == |slots| && forall i | 0 <= i < |items| :: items[i].slot == slots[i]
    ensures RowCount(items, s) == Occurrences(slots, s)
  {
    if items != [] { BlockCount(items[..|items| - 1], slots[..|slots| - 1], s); }
  }

  /** The item's slot is in the fabric of that name, and so is its port. */
  ghost predicate InFabric(vioses: seq<Vios>, fabrics: seq<Fabric>, name: string, item: Item) {
    exists f | f in fabrics ::
      f.name == name && item.slot in f.slots
      && item.vios < |vioses| && item.port in PortsOn(vioses[item.vios].ports, SanitizeAll(f.ports))
  }

  /** Rows of one fabric on one server have different ports. */
  ghost predicate OwnPorts(items: seq<Item>, fab: seq<string>)
    requires |fab| == |items|
  {
    forall x, y | 0 <= x < y < |items| && fab[x] == fab[y] && items[x].vios == items[y].vios ::
      items[x].port.wwpn != items[y].port.wwpn
  }

  /** Rows for these fabrics on server v; `fab` names the fabric of each row. */
  ghost predicate GroupPlaced(vioses: seq<Vios>, v: nat, fabrics: seq<Fabric>, items: seq<Item>, fab: seq<string>) {
    && |fab| == |items| && OwnPorts(items, fab)
    && (forall x | 0 <= x < |items| :: items[x].vios == v && InFabric(vioses, fabrics, fab[x], items[x]))
    && forall s :: RowCount(items, s) == FabricCount(fabrics, s)
  }

  lemma GroupGrows(vioses: seq<Vios>, v: nat, split: seq<Fabric>, items: seq<Item>, fab: seq<string>,
                   f: Fabric, rows: seq<Item>, names: seq<string>)
    requires GroupPlaced(vioses, v, split, items, fab) && FabricPlaced(vioses, v, f, rows) && NamesApart(split + [f])
    requires |names| == |rows| && All(names, f.name)
    ensures GroupPlaced(vioses, v, split + [f], items + rows, fab + names)
  {
    forall s ensures RowCount(items + rows, s) == FabricCount(split + [f], s) {
      RowCountSplit(items, rows, s);
      BlockCount(rows, f.slots, s);
      OneMoreFabric(split, f, s);
    }
    forall x | 0 <= x < |items| ensures fab[x] != f.name && InFabric(vioses, split + [f], fab[x], items[x]) {
      var g :| g in split && g.name == fab[x] && items[x].slot in g.slots
        && items[x].port in PortsOn(vioses[items[x].vios].ports, SanitizeAll(g.ports));
      var i :| 0 <= i < |split| && split[i] == g;
      assert (split + [f])[i] == g && (split + [f])[|split|] == f;
    }
    forall x | 0 <= x < |rows| ensures InFabric(vioses, split + [f], f.name, rows[x]) {
      assert f in split + [f];
    }
  }

  lemma FabricAdds(vioses: seq<Vios>, v: nat, split: seq<Fabric>, i: nat, items: seq<Item>, fab: seq<string>, rows: seq<Item>)
    returns (names: seq<string>)
    requires NamesApart(split) && i < |split|
    requires GroupPlaced(vioses, v, split[..i], items, fab) && FabricPlaced(vioses, v, split[i], rows)
    ensures GroupPlaced(vioses, v, split[..i + 1], items + rows, fab + names)
  {
    names := seq(|rows|, _ => split[i].name);
    assert split[..i + 1] == split[..i] + [split[i]];
    GroupGrows(vioses, v, split[..i], items, fab, split[i], rows, names);
  }

  ghost function SameRows(slots: seq<int>, v: nat, port: Port): (r: seq<Item>)
    ensures |r| == |slots| && forall i | 0 <= i < |slots| :: r[i] == Item(slots[i], v, port)
  {
    if slots == [] then [] else SameRows(slots[..|slots| - 1], v, port) + [Item(slots[|slots| - 1], v, port)]
  }

  ghost function SlotsOf(split: seq<Fabric>): seq<int> {
    if split == [] then [] else SlotsOf(split[..|split| - 1]) + split[|split| - 1].slots
  }

  /** The rows of a group: its slots on their own ports; or all on the port of the client
      that is mapped under the marker -1; or none. */
  ghost predicate GroupRows(vioses: seq<Vios>, v: nat, split: seq<Fabric>, items: seq<Item>, fab: seq<string>)
    requires v < |vioses|
  {
    var m := Squatter(vioses, v);
    if m.None? then GroupPlaced(vioses, v, split, items, fab)
    else if m.value.backing.None? then items == []
    else
      var port := FindPort(vioses[v].ports, m.value.backing.value);
      if port.None? then split == [] && items == [] else items == SameRows(SlotsOf(split), v, port.value)
  }

  lemma SameRowsAdd(a: seq<int>, b: seq<int>, v: nat, port: Port)
    ensures SameRows(a + b, v, port) == SameRows(a, v, port) + SameRows(b, v, port)
  {
  }

  lemma GroupRowsAdd(vioses: seq<Vios>, v: nat, split: seq<Fabric>, i: nat, items: seq<Item>, fab: seq<string>, rows: seq<Item>)
    returns (names: seq<string>)
    requires v < |vioses| && NamesApart(split) && i < |split| && split[i].slots != []
    requires GroupRows(vioses, v, split[..i], items, fab) && FabricRows(vioses, v, split[i], rows)
    ensures GroupRows(vioses, v, split[..i + 1], items + rows, fab + names)
  {
    names := [];
    assert split[..i + 1][..i] == split[..i];
    var m := Squatter(vioses, v);
    if m.None? {
      names := FabricAdds(vioses, v, split, i, items, fab, rows);
    } else if m.value.backing.Some? {
      var port := FindPort(vioses[v].ports, m.value.backing.value);
      SameRowsAdd(SlotsOf(split[..i]), split[i].slots, v, port.value);
      assert rows == SameRows(split[i].slots, v, port.value);
    }
  }

  /** Fails exactly if the port of a client that is mapped under -1 is not on the server. */
  method PlaceGroup(vioses: seq<Vios>, v: nat, fabrics: seq<Fabric>, group: seq<int>)
    returns (res: Result<seq<Item>, Error>, ghost fab: seq<string>)
    requires PortsApart(vioses) && FromApi(vioses) && NamesApart(fabrics)
    requires v < |vioses| && Supports(vioses[v], fabrics, group)
    ensures res.Err? <==> Lost(vioses, v) && SplitPerFabric(group, fabrics) != []
    ensures res.Err? ==> res.error == PortNotFound
    ensures res.Ok? ==> GroupRows(vioses, v, SplitPerFabric(group, fabrics), res.value, fab)
  {
    var split := SplitPerFabric(group, fabrics);
    SplitNames(group, fabrics);
    var items: seq<Item> := [];
    fab := [];
    for i := 0 to |split|
      invariant GroupRows(vioses, v, split[..i], items, fab) && (i > 0 ==> !Lost(vioses, v))
    {
      assert split[i] in split;
      var rows := PlaceFabric(vioses, v, split[i]);
      if rows.Err? {
        return rows, fab;
      }
      ghost var names := GroupRowsAdd(vioses, v, split, i, items, fab, rows.value);
      items, fab := items + rows.value, fab + names;
    }
    assert split[..|split|] == split;
    return Ok(items), fab;
  }

  /** The item's slot is in a group on the item's server. */
  ghost predicate OnItsServer(groups: seq<seq<int>>, at: seq<nat>, item: Item)
    requires |at| == |groups|
  {
    exists i | 0 <= i < |groups| :: item.slot in groups[i] && item.vios == at[i]
  }

  /** `each` rows for every group that slot s is in. */
  ghost function Wanted(groups: seq<seq<int>>, s: int, each: nat): nat {
    if groups == [] then 0 else Wanted(groups[..|groups| - 1], s, each) + if s in groups[|groups| - 1] then each else 0
  }

  /** Rows for these groups, group i on server at[i]. */
  ghost predicate AllPlaced(vioses: seq<Vios>, fabrics: seq<Fabric>, groups: seq<seq<int>>, at: seq<nat>,
                            items: seq<Item>, fab: seq<string>)
    requires |at| == |groups|
  {
    && |fab| == |items| && OwnPorts(items, fab)
    && (forall x | 0 <= x < |items| :: OnItsServer(groups, at, items[x]) && InFabric(vioses, fabrics, fab[x], items[x]))
    && forall s :: RowCount(items, s) == Wanted(groups, s, FabricCount(fabrics, s))
  }

  lemma CountGrows(fabrics: seq<Fabric>, groups: seq<seq<int>>, items: seq<Item>, group: seq<int>, rows: seq<Item>, s: int)
    requires RowCount(items, s) == Wanted(groups, s, FabricCount(fabrics, s))
    requires RowCount(rows, s) == FabricCount(SplitPerFabric(group, fabrics), s)
    ensures RowCount(items + rows, s) == Wanted(groups + [group], s, FabricCount(fabrics, s))
  {
    RowCountSplit(items, rows, s);
    SplitCount(group, fabrics, s);
    assert (groups + [group])[..|groups|] == groups;
  }

  lemma InWholeFabric(vioses: seq<Vios>, fabrics: seq<Fabric>, group: seq<int>, name: string, item: Item)
    requires InFabric(vioses, SplitPerFabric(group, fabrics), name, item)
    ensures InFabric(vioses, fabrics, name, item) && item.slot in group
  {
    var f :| f in SplitPerFabric(group, fabrics) && f.name == name && item.slot in f.slots
      && item.port in PortsOn(vioses[item.vios].ports, SanitizeAll(f.ports));
    var g :| g in fabrics && f == g.(slots := SlotsIn(g.slots, group));
  }

  lemma ServersGrow(groups: seq<seq<int>>, at: seq<nat>, item: Item, group: seq<int>, v: nat)
    requires |at| == |groups| && OnItsServer(groups, at, item)
    ensures OnItsServer(groups + [group], at + [v], item) && item.vios in at
  {
    var i :| 0 <= i < |groups| && item.slot in groups[i] && item.vios == at[i];
    assert item.slot in (groups + [group])[i] && item.vios == (at + [v])[i];
  }

  lemma ServersEnd(groups: seq<seq<int>>, at: seq<nat>, item: Item, group: seq<int>, v: nat)
    requires |at| == |groups| && item.slot in group && item.vios == v
    ensures OnItsServer(groups + [group], at + [v], item)
  {
    assert item.slot in (groups + [group])[|groups|] && item.vios == (at + [v])[|groups|];
  }

  lemma PortsGrow(items: seq<Item>, fab: seq<string>, v: nat, rows: seq<Item>, names: seq<string>)
    requires |fab| == |items| && OwnPorts(items, fab) && |names| == |rows| && OwnPorts(rows, names)
    requires forall x | 0 <= x < |items| :: items[x].vios != v
    requires forall x | 0 <= x < |rows| :: rows[x].vios == v
    ensures OwnPorts(items + rows, fab + names)
  {
    var all, tags := items + rows, fab + names;
    forall x, y | 0 <= x < y < |all| && tags[x] == tags[y] && all[x].vios == all[y].vios
      ensures all[x].port.wwpn != all[y].port.wwpn
    {
      if x < |items| {
        assert y < |items|;
      } else {
        assert all[x] == rows[x - |items|] && tags[x] == names[x - |items|];
        assert all[y] == rows[y - |items|] && tags[y] == names[y - |items|];
      }
    }
  }

  lemma RowsGrow(vioses: seq<Vios>, fabrics: seq<Fabric>, groups: seq<seq<int>>, at: seq<nat>, items: seq<Item>, fab: seq<string>,
                 group: seq<int>, v: nat, rows: seq<Item>, names: seq<string>, x: nat)
    requires |at| == |groups| && AllPlaced(vioses, fabrics, groups, at, items, fab)
    requires GroupPlaced(vioses, v, SplitPerFabric(group, fabrics), rows, names)
    requires x < |items| + |rows|
    ensures OnItsServer(groups + [group], at + [v], (items + rows)[x])
    ensures InFabric(vioses, fabrics, (fab + names)[x], (items + rows)[x])
    ensures x < |items| ==> items[x].vios in at
  {
    if x < |items| {
      ServersGrow(groups, at, items[x], group, v);
    } else {
      var y := x - |items|;
      InWholeFabric(vioses, fabrics, group, names[y], rows[y]);
      ServersEnd(groups, at, rows[y], group, v);
    }
  }

  lemma AllGrows(vioses: seq<Vios>, fabrics: seq<Fabric>, groups: seq<seq<int>>, at: seq<nat>, items: seq<Item>, fab: seq<string>,
                 group: seq<int>, v: nat, rows: seq<Item>, names: seq<string>)
    requires |at| == |groups| && v !in at && AllPlaced(vioses, fabrics, groups, at, items, fab)
    requires GroupPlaced(vioses, v, SplitPerFabric(group, fabrics), rows, names)
    ensures AllPlaced(vioses, fabrics, groups + [group], at + [v], items + rows, fab + names)
  {
    forall s ensures RowCount(items + rows, s) == Wanted(groups + [group], s, FabricCount(fabrics, s)) {
      CountGrows(fabrics, groups, items, group, rows, s);
    }
    forall x | 0 <= x < |items + rows|
      ensures OnItsServer(groups + [group], at + [v], (items + rows)[x]) && InFabric(vioses, fabrics, (fab + names)[x], (items + rows)[x])
      ensures x < |items| ==> items[x].vios in at
    {
      RowsGrow(vioses, fabrics, groups, at, items, fab, group, v, rows, names, x);
    }
    PortsGrow(items, fab, v, rows, names);
  }

  /** No client on the servers is mapped under the marker -1. */
  ghost predicate NoSquatter(vioses: seq<Vios>, at: seq<nat>) {
    forall i | 0 <= i < |at| :: at[i] < |vioses| && Squatter(vioses, at[i]).None?
  }

  lemma NotTaken(vioses: seq<Vios>, fabrics: seq<Fabric>, groups: seq<seq<int>>, at: seq<nat>, i: nat)
    requires i < |at| && FirstFit(vioses, fabrics, groups, at)
    ensures at[i] !in at[..i]
  {
    assert Fits(vioses, fabrics, groups[i], at[..i], at[i]);
  }

  lemma GroupAdds(vioses: seq<Vios>, fabrics: seq<Fabric>, groups: seq<seq<int>>, at: seq<nat>, i: nat,
                  items: seq<Item>, fab: seq<string>, rows: seq<Item>, names: seq<string>)
    requires i < |at| == |groups| && FirstFit(vioses, fabrics, groups, at)
    requires AllPlaced(vioses, fabrics, groups[..i], at[..i], items, fab)
    requires GroupPlaced(vioses, at[i], SplitPerFabric(groups[i], fabrics), rows, names)
    ensures AllPlaced(vioses, fabrics, groups[..i + 1], at[..i + 1], items + rows, fab + names)
  {
    NotTaken(vioses, fabrics, groups, at, i);
    assert groups[..i + 1] == groups[..i] + [groups[i]] && at[..i + 1] == at[..i] + [at[i]];
    AllGrows(vioses, fabrics, groups[..i], at[..i], items, fab, groups[i], at[i], rows, names);
  }

  ghost function Flatten<T>(blocks: seq<seq<T>>): seq<T> {
    if blocks == [] then [] else Flatten(blocks[..|blocks| - 1]) + blocks[|blocks| - 1]
  }

  lemma FlattenMore<T>(blocks: seq<seq<T>>, b: seq<T>)
    ensures Flatten(blocks + [b]) == Flatten(blocks) + b
  {
    assert (blocks + [b])[..|blocks|] == blocks;
  }

  /** Block i has the rows of group i on server at[i]. */
  ghost predicate BlockOk(vioses: seq<Vios>, fabrics: seq<Fabric>, groups: seq<seq<int>>, at: seq<nat>,
                          blocks: seq<seq<Item>>, fabs: seq<seq<string>>, i: nat)
    requires i < |blocks| == |fabs| && |blocks| <= |groups| && |blocks| <= |at|
  {
    at[i] < |vioses| && GroupRows(vioses, at[i], SplitPerFabric(groups[i], fabrics), blocks[i], fabs[i])
  }

  ghost predicate BlocksOk(vioses: seq<Vios>, fabrics: seq<Fabric>, groups: seq<seq<int>>, at: seq<nat>,
                           blocks: seq<seq<Item>>, fabs: seq<seq<string>>)
  {
    && |blocks| == |fabs| && |blocks| <= |groups| && |blocks| <= |at|
    && forall i | 0 <= i < |blocks| :: BlockOk(vioses, fabrics, groups, at, blocks, fabs, i)
  }

  lemma BlocksMore(vioses: seq<Vios>, fabrics: seq<Fabric>, groups: seq<seq<int>>, at: seq<nat>,
                   blocks: seq<seq<Item>>, fabs: seq<seq<string>>, rows: seq<Item>, fab: seq<string>)
    requires BlocksOk(vioses, fabrics, groups, at, blocks, fabs) && |blocks| < |groups| && |blocks| < |at|
    requires at[|blocks|] < |vioses| && GroupRows(vioses, at[|blocks|], SplitPerFabric(groups[|blocks|], fabrics), rows, fab)
    ensures BlocksOk(vioses, fabrics, groups, at, blocks + [rows], fabs + [fab])
  {
    var blocks', fabs' := blocks + [rows], fabs + [fab];
    forall i | 0 <= i < |blocks'| ensures BlockOk(vioses, fabrics, groups, at, blocks', fabs', i) {
      if i < |blocks| { assert BlockOk(vioses, fabrics, groups, at, blocks, fabs, i); }
    }
  }

  lemma BlockPlaced(vioses: seq<Vios>, fabrics: seq<Fabric>, groups: seq<seq<int>>, at: seq<nat>,
                    blocks: seq<seq<Item>>, fabs: seq<seq<string>>, n: nat)
    requires BlocksOk(vioses, fabrics, groups, at, blocks, fabs) && n < |blocks| && at[n] < |vioses| && Squatter(vioses, at[n]).None?
    ensures GroupPlaced(vioses, at[n], SplitPerFabric(groups[n], fabrics), blocks[n], fabs[n])
  {
    assert BlockOk(vioses, fabrics, groups, at, blocks, fabs, n);
  }

  lemma FlattenTo<T>(blocks: seq<seq<T>>, n: nat)
    requires n < |blocks|
    ensures Flatten(blocks[..n + 1]) == Flatten(blocks[..n]) + blocks[n]
  {
    assert blocks[..n + 1] == blocks[..n] + [blocks[n]];
    FlattenMore(blocks[..n], blocks[n]);
  }

  lemma {:induction false} BlocksPlaced(vioses: seq<Vios>, fabrics: seq<Fabric>, groups: seq<seq<int>>, at: seq<nat>,
                                        blocks: seq<seq<Item>>, fabs: seq<seq<string>>, n: nat)
    requires |at| == |groups| && FirstFit(vioses, fabrics, groups, at) && NoSquatter(vioses, at)
    requires BlocksOk(vioses, fabrics, groups, at, blocks, fabs) && n <= |blocks|
    ensures AllPlaced(vioses, fabrics, groups[..n], at[..n], Flatten(blocks[..n]), Flatten(fabs[..n]))
  {
    if n > 0 {
      var m := n - 1;
      BlocksPlaced(vioses, fabrics, groups, at, blocks, fabs, m);
      BlockPlaced(vioses, fabrics, groups, at, blocks, fabs, m);
      FlattenTo(blocks, m);
      FlattenTo(fabs, m);
      GroupAdds(vioses, fabrics, groups, at, m, Flatten(blocks[..m]), Flatten(fabs[..m]), blocks[m], fabs[m]);
    }
  }

  /** Group i has rows to get, and the lookup of the client's port fails. */
  predicate LostAt(vioses: seq<Vios>, fabrics: seq<Fabric>, groups: seq<seq<int>>, at: seq<nat>, i: nat)
    requires i < |at| == |groups|
  {
    at[i] < |vioses| && Lost(vioses, at[i]) && SplitPerFabric(groups[i], fabrics) != []
  }

  predicate AnyLost(vioses: seq<Vios>, fabrics: seq<Fabric>, groups: seq<seq<int>>, at: seq<nat>)
    requires |at| == |groups|
  {
    exists i | 0 <= i < |at| :: LostAt(vioses, fabrics, groups, at, i)
  }

  lemma RowsPlaced(vioses: seq<Vios>, fabrics: seq<Fabric>, groups: seq<seq<int>>, at: seq<nat>,
                   blocks: seq<seq<Item>>, fabs: seq<seq<string>>)
    requires |at| == |groups| && FirstFit(vioses, fabrics, groups, at) && NoSquatter(vioses, at)
    ensures !AnyLost(vioses, fabrics, groups, at)
    ensures |blocks| == |groups| && BlocksOk(vioses, fabrics, groups, at, blocks, fabs) ==>
      AllPlaced(vioses, fabrics, groups, at, Flatten(blocks), Flatten(fabs))
  {
    if |blocks| == |groups| && BlocksOk(vioses, fabrics, groups, at, blocks, fabs) {
      BlocksPlaced(vioses, fabrics, groups, at, blocks, fabs, |blocks|);
      assert at[..|at|] == at && groups[..|at|] == groups && blocks[..|blocks|] == blocks && fabs[..|fabs|] == fabs;
    }
  }

  /** The rows of the first i groups. */
  ghost predicate Done(vioses: seq<Vios>, fabrics: seq<Fabric>, groups: seq<seq<int>>, at: seq<nat>, i: nat,
                       items: seq<Item>, blocks: seq<seq<Item>>, fabs: seq<seq<string>>)
    requires i <= |at| == |groups|
  {
    && |blocks| == i && BlocksOk(vioses, fabrics, groups, at, blocks, fabs) && items == Flatten(blocks)
    && forall j | 0 <= j < i :: !LostAt(vioses, fabrics, groups, at, j)
  }

  method PlaceNextGroup(vioses: seq<Vios>, fabrics: seq<Fabric>, groups: seq<seq<int>>, at: seq<nat>, i: nat, before: seq<Item>,
                        ghost blocks0: seq<seq<Item>>, ghost fabs0: seq<seq<string>>)
    returns (res: Result<seq<Item>, Error>, ghost blocks: seq<seq<Item>>, ghost fabs: seq<seq<string>>)
    requires PortsApart(vioses) && FromApi(vioses) && NamesApart(fabrics) && FirstFit(vioses, fabrics, groups, at)
    requires i < |at| && Done(vioses, fabrics, groups, at, i, before, blocks0, fabs0)
    ensures res.Err? <==> LostAt(vioses, fabrics, groups, at, i)
    ensures res.Err? ==> res.error == PortNotFound
    ensures res.Ok? ==> Done(vioses, fabrics, groups, at, i + 1, res.value, blocks, fabs)
  {
    blocks, fabs := blocks0, fabs0;
    assert Fits(vioses, fabrics, groups[i], at[..i], at[i]);
    ghost var fab;
    res, fab := PlaceGroup(vioses, at[i], fabrics, groups[i]);
    if res.Ok? {
      BlocksMore(vioses, fabrics, groups, at, blocks, fabs, res.value, fab);
      FlattenMore(blocks, res.value);
      blocks, fabs := blocks + [res.value], fabs + [fab];
      res := Ok(before + res.value);
    }
  }

  method PlaceGroups(vioses: seq<Vios>, fabrics: seq<Fabric>, groups: seq<seq<int>>, at: seq<nat>)
    returns (res: Result<seq<Item>, Error>, ghost blocks: seq<seq<Item>>, ghost fabs: seq<seq<string>>)
    requires PortsApart(vioses) && FromApi(vioses) && NamesApart(fabrics) && FirstFit(vioses, fabrics, groups, at)
    ensures res.Err? <==> AnyLost(vioses, fabrics, groups, at)
    ensures res.Err? ==> res.error == PortNotFound
    ensures res.Ok? ==> |blocks| == |groups| && BlocksOk(vioses, fabrics, groups, at, blocks, fabs) && res.value == Flatten(blocks)
  {
    var items: seq<Item> := [];
    blocks, fabs := [], [];
    for i := 0 to |at|
      invariant Done(vioses, fabrics, groups, at, i, items, blocks, fabs)
    {
      res, blocks, fabs := PlaceNextGroup(vioses, fabrics, groups, at, i, items, blocks, fabs);
      if res.Err? {
        return;
      }
      items := res.value;
    }
    return Ok(items), blocks, fabs;
  }

  /** `build_migration_mappings`.  `at` are the servers found for the sorted groups,
      `blocks` the rows of each group and `fabs` the fabrics of these rows. */
  method BuildMigrationMappings(vioses: seq<Vios>, fabrics: seq<Fabric>, slotPeers: seq<seq<int>>)
    returns (res: Result<seq<Item>, Error>, at: seq<nat>, ghost blocks: seq<seq<Item>>, ghost fabs: seq<seq<string>>)
    requires PortsApart(vioses) && FromApi(vioses) && NamesApart(fabrics)
    ensures var groups := SortByLength(slotPeers);
      && |at| <= |groups| && FirstFit(vioses, fabrics, groups[..|at|], at)
      && (|at| < |groups| ==> res == Err(UnableToFindFCPortMap) && Stuck(vioses, fabrics, groups[|at|], at))
      && (|at| == |groups| ==> (res.Err? <==> AnyLost(vioses, fabrics, groups, at)))
      && (|at| == |groups| && res.Err? ==> res.error == PortNotFound)
      && (FirstFits.Nested(Table(vioses, fabrics, groups)) ==> (|at| == |groups| <==> Assignable(vioses, fabrics, groups)))
    ensures var groups := SortByLength(slotPeers);
      res.Ok? ==> |blocks| == |groups| && BlocksOk(vioses, fabrics, groups, at, blocks, fabs) && res.value == Flatten(blocks)
    ensures var groups := SortByLength(slotPeers);
      |at| == |groups| && NoSquatter(vioses, at) ==> res.Ok? && AllPlaced(vioses, fabrics, groups, at, res.value, Flatten(fabs))
  {
    var groups := SortByLength(slotPeers);
    var ok: bool;
    blocks, fabs := [], [];
    at, ok := AssignServers(vioses, fabrics, groups);
    if FirstFits.Nested(Table(vioses, fabrics, groups)) { NestedFirstFitDecides(vioses, fabrics, groups, at); }
    if !ok {
      return Err(UnableToFindFCPortMap), at, blocks, fabs;
    }
    assert groups[..|at|] == groups;
    res, blocks, fabs := PlaceGroups(vioses, fabrics, groups, at);
    if NoSquatter(vioses, at) { RowsPlaced(vioses, fabrics, groups, at, blocks, fabs); }
  }

  // ---- What the rows say ----

  /** Every slot is in at most one peer group. */
  ghost predicate GroupsApart(groups: seq<seq<int>>) {
    forall i, j, s | 0 <= i < |groups| && 0 <= j < |groups| && s in groups[i] && s in groups[j] :: i == j
  }

  /** Rows are on one server exactly if their slots are in one group. */
  lemma GroupsStayTogether(vioses: seq<Vios>, fabrics: seq<Fabric>, groups: seq<seq<int>>, at: seq<nat>,
                           items: seq<Item>, fab: seq<string>, x: nat, y: nat, i: nat)
    requires |at| == |groups| && AllPlaced(vioses, fabrics, groups, at, items, fab) && FirstFit(vioses, fabrics, groups, at)
    requires GroupsApart(groups) && x < |items| && y < |items| && i < |groups| && items[x].slot in groups[i]
    ensures items[y].slot in groups[i] <==> items[x].vios == items[y].vios
  {
    FirstFitDistinct(vioses, fabrics, groups, at);
    assert OnItsServer(groups, at, items[x]) && OnItsServer(groups, at, items[y]);
    var j :| 0 <= j < |groups| && items[y].slot in groups[j] && items[y].vios == at[j];
    assert i < j ==> at[i] != at[j];
    assert j < i ==> at[j] != at[i];
  }

  /** Every slot is in one fabric. */
  ghost predicate FabricsApart(fabrics: seq<Fabric>) {
    forall f, g, s | f in fabrics && g in fabrics && s in f.slots && s in g.slots :: f == g
  }

  /** Two slots of one fabric on one server have different ports of that fabric. */
  lemma FabricSlotsHaveOwnPorts(vioses: seq<Vios>, fabrics: seq<Fabric>, groups: seq<seq<int>>, at: seq<nat>,
                                items: seq<Item>, fab: seq<string>, f: Fabric, x: nat, y: nat)
    requires |at| == |groups| && AllPlaced(vioses, fabrics, groups, at, items, fab) && FabricsApart(fabrics)
    requires x < y < |items| && items[x].vios == items[y].vios
    requires f in fabrics && items[x].slot in f.slots && items[y].slot in f.slots
    ensures items[x].port.wwpn != items[y].port.wwpn
    ensures items[x].vios < |vioses| && items[x].port in PortsOn(vioses[items[x].vios].ports, SanitizeAll(f.ports))
  {
    assert InFabric(vioses, fabrics, fab[x], items[x]) && InFabric(vioses, fabrics, fab[y], items[y]);
  }

  lemma {:induction false} WantedOnce(groups: seq<seq<int>>, s: int, each: nat)
    requires GroupCount(groups, s) <= 1
    ensures Wanted(groups, s, each) == if GroupCount(groups, s) == 1 then each else 0
  {
    if groups != [] { WantedOnce(groups[..|groups| - 1], s, each); }
  }

  /** A slot of one group has a row for each time it is in a fabric: exactly one, if it
      is once in one fabric.  A slot of no group has none. */
  lemma OneRowPerSlot(vioses: seq<Vios>, fabrics: seq<Fabric>, slotPeers: seq<seq<int>>, at: seq<nat>,
                      items: seq<Item>, fab: seq<string>, s: int)
    requires |at| == |SortByLength(slotPeers)| && AllPlaced(vioses, fabrics, SortByLength(slotPeers), at, items, fab)
    requires GroupCount(slotPeers, s) <= 1
    ensures RowCount(items, s) == if GroupCount(slotPeers, s) == 1 then FabricCount(fabrics, s) else 0
  {
    SortCounts(slotPeers, s);
    WantedOnce(SortByLength(slotPeers), s, FabricCount(fabrics, s));
  }
}
