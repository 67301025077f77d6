/** The front end of the library (src/index.js): it validates and orders
    the caller's descriptors, derives the names of VLAN interfaces,
    rejects conflicting descriptors with fixed messages, hands the ordered
    list to the netplan configuration tree, and selects the renderer. */
module Engine {
  import opened Values
  import opened Descriptors
  import Netplan

  /** The two exported renderer names. */
  const NetworkManagerBackend := "NetworkManager"
  const SystemdNetworkdBackend := "networkd"

  /** The exported names are the two renderers netplan knows, and the
      tree starts with the networkd one. */
  lemma BackendNames()
    ensures NetworkManagerBackend != SystemdNetworkdBackend
    ensures Netplan.InitialNetwork.renderer == SystemdNetworkdBackend
  {
  }

  /** configure accepts one descriptor or a list of them. */
  datatype Input = One(d: Descriptor) | Many(ds: seq<Descriptor>)

  function AsList(input: Input): seq<Descriptor>
  {
    match input
    case One(d) => [d]
    case Many(ds) => ds
  }

  // ---------------------------------------------------------------------
  // Conflicts

  /** A rejected descriptor list, with what the message names. */
  datatype Conflict =
    | DuplicateVlan(iface: string)
    | PortBridgedTwice(port: string, first: string, second: string)
    | VlanWithBridge(id: VlanId, vlanIface: string)

  function Message(c: Conflict): string
  {
    match c
    case DuplicateVlan(iface) => "Can't have same VLAN ID on interface " + iface
    case PortBridgedTwice(port, first, second) =>
      "Interface \"" + port + "\" is bridged in \"" + first + "\" and \"" + second + "\""
    case VlanWithBridge(id, iface) =>
      "VLAN " + NatToString(id) + " in \"" + iface + "\" cannot have bridged interfaces"
  }

  /** A descriptor with both a vlanid and bridge_ports. */
  predicate BothKinds(d: Descriptor)
  {
    d.vlanid.Some? && d.bridgePorts.Some?
  }

  /** Two descriptors of the same VLAN id on the same interface. */
  predicate SameVlan(a: Descriptor, b: Descriptor)
  {
    a.vlanid.Some? && a.vlanid == b.vlanid && a.interface == b.interface
  }

  /** Descriptor d lists port p in its bridge_ports. */
  predicate HasPort(d: Descriptor, p: string)
  {
    d.bridgePorts.Some? && p in d.bridgePorts.value
  }

  /** Two differently named bridges both list port p. Two descriptors of
      one bridge are the same bridge: the later one's ports replace the
      earlier one's when the tree merges them. */
  predicate BridgedBoth(a: Descriptor, b: Descriptor, p: string)
  {
    HasPort(a, p) && HasPort(b, p) && a.interface != b.interface
  }

  /** The descriptors of a list that are free of all three conflicts. */
  ghost predicate NoConflicts(ds: seq<Descriptor>)
  {
    && (forall i :: 0 <= i < |ds| ==> !BothKinds(ds[i]))
    && (forall i, j :: 0 <= i < j < |ds| ==> !SameVlan(ds[i], ds[j]))
    && (forall i, j, p :: 0 <= i < j < |ds| ==> !BridgedBoth(ds[i], ds[j], p))
  }

  /** Descriptor i conflicts with no descriptor before it. */
  ghost predicate LocallyFine(ds: seq<Descriptor>, i: nat)
    requires i < |ds|
  {
    && !BothKinds(ds[i])
    && (forall j :: 0 <= j < i ==> !SameVlan(ds[j], ds[i]))
    && (forall j, p :: 0 <= j < i ==> !BridgedBoth(ds[j], ds[i], p))
  }

  /** Descriptor d is a bridge other than `name` that lists port p. */
  predicate OtherBridge(d: Descriptor, p: string, name: string)
  {
    HasPort(d, p) && d.interface != name
  }

  /** The first descriptor of `prev` that is a bridge other than `name`
      listing port p. */
  function FirstBridgeWith(prev: seq<Descriptor>, p: string, name: string): (r: Option<nat>)
    ensures r.Some? ==> r.value < |prev| && OtherBridge(prev[r.value], p, name)
    ensures r.Some? ==> forall j :: 0 <= j < r.value ==> !OtherBridge(prev[j], p, name)
    ensures r.None? ==> forall j :: 0 <= j < |prev| ==> !OtherBridge(prev[j], p, name)
  {
    if prev == [] then None
    else if OtherBridge(prev[0], p, name) then Some(0)
    else match FirstBridgeWith(prev[1..], p, name)
      case None => None
      case Some(j) => Some(j + 1)
  }

  /** The first port, in list order, that a bridge of `prev` other than
      `name` already lists, with the first such bridge. */
  function SharedPort(prev: seq<Descriptor>, ports: seq<string>, name: string): (r: Option<(string, nat)>)
    ensures r.None? <==> forall j, q :: 0 <= j < |prev| && q in ports ==> !OtherBridge(prev[j], q, name)
    ensures r.Some? ==> r.value.0 in ports && r.value.1 < |prev| && OtherBridge(prev[r.value.1], r.value.0, name)
    ensures r.Some? ==> forall j :: 0 <= j < r.value.1 ==> !OtherBridge(prev[j], r.value.0, name)
    ensures r.Some? ==> exists m :: (0 <= m < |ports| && ports[m] == r.value.0
      && forall m', j :: 0 <= m' < m && 0 <= j < |prev| ==> !OtherBridge(prev[j], ports[m'], name))
  {
    if ports == [] then None
    else match FirstBridgeWith(prev, ports[0], name)
      case Some(j) =>
        assert ports[0] in ports;
        Some((ports[0], j))
      case None =>
        var r := SharedPort(prev, ports[1..], name);
        assert forall q :: q in ports <==> q == ports[0] || q in ports[1..];
        if r.Some? then
          var m :| 0 <= m < |ports[1..]| && ports[1..][m] == r.value.0
            && forall m', j :: 0 <= m' < m && 0 <= j < |prev| ==> !OtherBridge(prev[j], ports[1..][m'], name);
          assert ports[m + 1] == r.value.0;
          assert forall m', j :: 0 <= m' < m + 1 && 0 <= j < |prev| ==> !OtherBridge(prev[j], ports[m'], name) by {
            forall m', j | 0 <= m' < m + 1 && 0 <= j < |prev| ensures !OtherBridge(prev[j], ports[m'], name) {
              if m' > 0 { assert ports[m'] == ports[1..][m' - 1]; }
            }
          }
          r
        else r
  }

  /** The conflict of descriptor i with the descriptors before it, checked
      in this order: a vlanid together with bridge_ports; a VLAN that an
      earlier descriptor already declares on the same interface; a port
      that an earlier, differently named bridge already lists. */
  function ConflictAt(ds: seq<Descriptor>, i: nat): (r: Option<Conflict>)
    requires i < |ds|
    ensures r.None? <==> LocallyFine(ds, i)
  {
    var d := ds[i];
    if BothKinds(d) then Some(VlanWithBridge(d.vlanid.value, d.interface))
    else if d.vlanid.Some? && exists j :: 0 <= j < i && SameVlan(ds[j], d) then Some(DuplicateVlan(d.interface))
    else if d.bridgePorts.Some? then
      match SharedPort(ds[..i], d.bridgePorts.value, d.interface)
      case Some((p, j)) =>
        assert ds[..i][j] == ds[j] && BridgedBoth(ds[j], ds[i], p);
        Some(PortBridgedTwice(p, ds[j].interface, d.interface))
      case None =>
        assert forall j :: 0 <= j < i ==> ds[..i][j] == ds[j];
        None
    else None
  }

  /** The first conflict of descriptors i, i+1, ... */
  function FirstConflictFrom(ds: seq<Descriptor>, i: nat): Option<Conflict>
    decreases |ds| - i
  {
    if i >= |ds| then None
    else match ConflictAt(ds, i)
      case Some(c) => Some(c)
      case None => FirstConflictFrom(ds, i + 1)
  }

  /** The first conflict of the list, scanning it in input order. */
  function FirstConflict(ds: seq<Descriptor>): Option<Conflict>
  {
    FirstConflictFrom(ds, 0)
  }

  lemma {:induction false} FirstConflictFromNone(ds: seq<Descriptor>, i: nat)
    ensures FirstConflictFrom(ds, i).None? <==> forall k :: i <= k < |ds| ==> LocallyFine(ds, k)
    decreases |ds| - i
  {
    if i < |ds| {
      FirstConflictFromNone(ds, i + 1);
    }
  }

  /** The scan finds no conflict exactly when the list has none. */
  lemma FirstConflictNone(ds: seq<Descriptor>)
    ensures FirstConflict(ds).None? <==> NoConflicts(ds)
  {
    FirstConflictFromNone(ds, 0);
    if NoConflicts(ds) {
      assert forall k :: 0 <= k < |ds| ==> LocallyFine(ds, k);
    }
    if forall k :: 0 <= k < |ds| ==> LocallyFine(ds, k) {
      forall i | 0 <= i < |ds| ensures !BothKinds(ds[i]) {
        assert LocallyFine(ds, i);
      }
      forall i, j, p | 0 <= i < j < |ds| ensures !BridgedBoth(ds[i], ds[j], p) {
        assert LocallyFine(ds, j);
      }
      forall i, j | 0 <= i < j < |ds| ensures !SameVlan(ds[i], ds[j]) {
        assert LocallyFine(ds, j);
      }
    }
  }

  /** The conflict describes descriptors of the list: for a duplicate VLAN
      two descriptors with the same interface and id; for a doubly bridged
      port the first bridge that lists it and the first bridge of another
      name that lists it after that; for a VLAN with bridge ports that
      descriptor. */
  ghost predicate Witnessed(ds: seq<Descriptor>, c: Conflict)
  {
    match c
    case DuplicateVlan(x) =>
      exists i, j :: 0 <= i < j < |ds| && SameVlan(ds[i], ds[j]) && ds[j].interface == x
    case PortBridgedTwice(p, a, b) =>
      exists i, j :: 0 <= i < j < |ds| && BridgedBoth(ds[i], ds[j], p)
                  && ds[i].interface == a && ds[j].interface == b
                  && (forall k :: 0 <= k < i ==> !HasPort(ds[k], p))
                  && (forall k :: i < k < j && HasPort(ds[k], p) ==> ds[k].interface == a)
    case VlanWithBridge(v, x) =>
      exists i :: 0 <= i < |ds| && BothKinds(ds[i]) && ds[i].vlanid == Some(v) && ds[i].interface == x
  }

  lemma {:induction false} FirstConflictFromWitnessed(ds: seq<Descriptor>, i: nat)
    requires FirstConflictFrom(ds, i).Some?
    requires forall k :: 0 <= k < i && k < |ds| ==> LocallyFine(ds, k)
    ensures Witnessed(ds, FirstConflictFrom(ds, i).value)
    decreases |ds| - i
  {
    match ConflictAt(ds, i)
    case None => FirstConflictFromWitnessed(ds, i + 1);
    case Some(c) =>
      var d := ds[i];
      if !BothKinds(d) && !(d.vlanid.Some? && exists j :: 0 <= j < i && SameVlan(ds[j], d)) {
        var pj := SharedPort(ds[..i], d.bridgePorts.value, d.interface).value;
        var p, j := pj.0, pj.1;
        assert ds[..i][j] == ds[j];
        assert forall k :: 0 <= k < j ==> ds[..i][k] == ds[k];
        assert BridgedBoth(ds[j], ds[i], p);
        forall k | 0 <= k < j ensures !HasPort(ds[k], p) {
          assert ds[..i][k] == ds[k];
          assert !OtherBridge(ds[k], p, d.interface);
          assert LocallyFine(ds, j);
          assert !BridgedBoth(ds[k], ds[j], p);
        }
        forall k | j < k < i && HasPort(ds[k], p) ensures ds[k].interface == ds[j].interface {
          assert LocallyFine(ds, k);
          assert !BridgedBoth(ds[j], ds[k], p);
        }
      }
  }

  /** A reported conflict is a real one. */
  lemma FirstConflictWitnessed(ds: seq<Descriptor>)
    requires FirstConflict(ds).Some?
    ensures Witnessed(ds, FirstConflict(ds).value)
  {
    FirstConflictFromWitnessed(ds, 0);
  }

  // ---------------------------------------------------------------------
  // Ordering

  /** A VLAN descriptor that carries the ifname derived from its
      interface and id. */
  predicate IsEnriched(d: Descriptor)
  {
    d.vlanid.Some? ==> d.ifname == Some(VlanIfname(d.interface, d.vlanid.value))
  }

  /** A VLAN descriptor receives its derived ifname; every other
      descriptor is passed on unchanged. */
  function Enrich(d: Descriptor): (r: Descriptor)
    ensures KindOf(r) == KindOf(d)
    ensures r == d.(ifname := r.ifname)
    ensures d.vlanid.None? ==> r == d
  {
    if d.vlanid.Some? then d.(ifname := Some(VlanIfname(d.interface, d.vlanid.value))) else d
  }

  lemma EnrichIsEnriched(d: Descriptor)
    ensures IsEnriched(Enrich(d))
  {
  }

  function EnrichAll(ds: seq<Descriptor>): (r: seq<Descriptor>)
    ensures |r| == |ds|
    ensures forall i :: 0 <= i < |ds| ==> r[i] == Enrich(ds[i])
  {
    if ds == [] then [] else [Enrich(ds[0])] + EnrichAll(ds[1..])
  }

  /** The descriptors of one kind, in input order. */
  function OfKind(ds: seq<Descriptor>, k: Kind): (r: seq<Descriptor>)
    ensures |r| <= |ds|
    ensures forall i :: 0 <= i < |r| ==> KindOf(r[i]) == k
  {
    if ds == [] then [] else (if KindOf(ds[0]) == k then [ds[0]] else []) + OfKind(ds[1..], k)
  }

  /** The processing order: physical interfaces, then VLANs, then bridges. */
  function Order(ds: seq<Descriptor>): seq<Descriptor>
  {
    EnrichAll(OfKind(ds, Physical)) + EnrichAll(OfKind(ds, Vlan)) + EnrichAll(OfKind(ds, Bridge))
  }

  /** configure's validation step: the ordered, enriched list, or the
      message of the first conflict. */
  function Validate(input: Input): Result<seq<Descriptor>, string>
  {
    var ds := AsList(input);
    match FirstConflict(ds)
    case Some(c) => Err(Message(c))
    case None => Ok(Order(ds))
  }

  function Rank(k: Kind): nat
  {
    match k
    case Physical => 0
    case Vlan => 1
    case Bridge => 2
  }

  lemma {:induction false} OfKindAppend(a: seq<Descriptor>, b: seq<Descriptor>, k: Kind)
    ensures OfKind(a + b, k) == OfKind(a, k) + OfKind(b, k)
  {
    if a == [] {
      assert a + b == b;
    } else {
      assert (a + b)[0] == a[0];
      assert (a + b)[1..] == a[1..] + b;
      OfKindAppend(a[1..], b, k);
    }
  }

  /** Every descriptor of the list has kind k. */
  predicate AllOfKind(xs: seq<Descriptor>, k: Kind)
  {
    forall i :: 0 <= i < |xs| ==> KindOf(xs[i]) == k
  }

  lemma GroupOfKind(ds: seq<Descriptor>, k: Kind)
    ensures AllOfKind(EnrichAll(OfKind(ds, k)), k)
  {
    var g := OfKind(ds, k);
    forall i | 0 <= i < |g| ensures KindOf(EnrichAll(g)[i]) == k {
      assert KindOf(g[i]) == k;
    }
  }

  /** Filtering a list whose descriptors all have kind k' by kind k keeps
      all of it or none of it. */
  lemma {:induction false} OfKindUniform(xs: seq<Descriptor>, k: Kind, k': Kind)
    requires AllOfKind(xs, k')
    ensures OfKind(xs, k) == if k == k' then xs else []
  {
    if xs != [] {
      assert KindOf(xs[0]) == k';
      assert AllOfKind(xs[1..], k') by {
        forall i | 0 <= i < |xs[1..]| ensures KindOf(xs[1..][i]) == k' {
          assert xs[1..][i] == xs[i + 1];
        }
      }
      OfKindUniform(xs[1..], k, k');
      if k == k' {
        assert xs == [xs[0]] + xs[1..];
      }
    }
  }

  /** Stability: the descriptors of each kind leave in the order in which
      they came. */
  lemma OrderStable(ds: seq<Descriptor>, k: Kind)
    ensures OfKind(Order(ds), k) == EnrichAll(OfKind(ds, k))
  {
    var p, v, b := EnrichAll(OfKind(ds, Physical)), EnrichAll(OfKind(ds, Vlan)), EnrichAll(OfKind(ds, Bridge));
    OfKindAppend(p + v, b, k);
    OfKindAppend(p, v, k);
    GroupOfKind(ds, Physical);
    GroupOfKind(ds, Vlan);
    GroupOfKind(ds, Bridge);
    OfKindUniform(p, k, Physical);
    OfKindUniform(v, k, Vlan);
    OfKindUniform(b, k, Bridge);
  }

  /** Physical descriptors come first, VLANs next, bridges last. */
  predicate SortedByKind(out: seq<Descriptor>)
  {
    forall i, j :: 0 <= i < j < |out| ==> Rank(KindOf(out[i])) <= Rank(KindOf(out[j]))
  }

  /** Every descriptor of the list is enriched. */
  predicate AllEnriched(out: seq<Descriptor>)
  {
    forall i :: 0 <= i < |out| ==> IsEnriched(out[i])
  }

  /** Within each kind, the list keeps the order of the input. */
  predicate StableFor(out: seq<Descriptor>, ds: seq<Descriptor>)
  {
    forall k :: OfKind(out, k) == EnrichAll(OfKind(ds, k))
  }

  /** Three lists holding physical descriptors, VLANs and bridges, one
      after the other, are sorted by kind. */
  lemma ConcatSorted(p: seq<Descriptor>, v: seq<Descriptor>, b: seq<Descriptor>)
    requires AllOfKind(p, Physical) && AllOfKind(v, Vlan) && AllOfKind(b, Bridge)
    ensures SortedByKind(p + v + b)
  {
    var o := p + v + b;
    forall i | 0 <= i < |o|
      ensures Rank(KindOf(o[i])) == if i < |p| then 0 else if i < |p| + |v| then 1 else 2
    {
      if i < |p| {
        assert o[i] == p[i];
      } else if i < |p| + |v| {
        assert o[i] == v[i - |p|];
      } else {
        assert o[i] == b[i - |p| - |v|];
      }
    }
  }

  lemma OrderByKind(ds: seq<Descriptor>)
    ensures SortedByKind(Order(ds))
  {
    GroupOfKind(ds, Physical);
    GroupOfKind(ds, Vlan);
    GroupOfKind(ds, Bridge);
    ConcatSorted(EnrichAll(OfKind(ds, Physical)), EnrichAll(OfKind(ds, Vlan)), EnrichAll(OfKind(ds, Bridge)));
  }

  /** Every descriptor of the ordered list is enriched. */
  lemma OrderEnriched(ds: seq<Descriptor>)
    ensures AllEnriched(Order(ds))
  {
    var p, v, b := EnrichAll(OfKind(ds, Physical)), EnrichAll(OfKind(ds, Vlan)), EnrichAll(OfKind(ds, Bridge));
    var o := Order(ds);
    assert o == p + v + b;
    forall i | 0 <= i < |o| ensures IsEnriched(o[i]) {
      var x := if i < |p| then OfKind(ds, Physical)[i]
               else if i < |p| + |v| then OfKind(ds, Vlan)[i - |p|]
               else OfKind(ds, Bridge)[i - |p| - |v|];
      assert o[i] == Enrich(x);
      EnrichIsEnriched(x);
    }
  }

  lemma {:induction false} GroupStep(ds: seq<Descriptor>, k: Kind)
    requires ds != []
    ensures multiset(EnrichAll(OfKind(ds, k)))
         == (if KindOf(ds[0]) == k then multiset{Enrich(ds[0])} else multiset{}) + multiset(EnrichAll(OfKind(ds[1..], k)))
  {
    if KindOf(ds[0]) == k {
      assert OfKind(ds, k) == [ds[0]] + OfKind(ds[1..], k);
      assert EnrichAll(OfKind(ds, k)) == [Enrich(ds[0])] + EnrichAll(OfKind(ds[1..], k));
    } else {
      assert OfKind(ds, k) == OfKind(ds[1..], k);
    }
  }

  lemma MultisetCons<T>(s: seq<T>)
    requires s != []
    ensures multiset(s) == multiset{s[0]} + multiset(s[1..])
  {
    assert s == [s[0]] + s[1..];
  }

  /** The three groups together hold every enriched descriptor once. */
  lemma {:induction false} GroupsPartition(ds: seq<Descriptor>)
    ensures multiset(EnrichAll(OfKind(ds, Physical))) + multiset(EnrichAll(OfKind(ds, Vlan)))
          + multiset(EnrichAll(OfKind(ds, Bridge))) == multiset(EnrichAll(ds))
  {
    if ds != [] {
      var d, rest := ds[0], ds[1..];
      MultisetCons(EnrichAll(ds));
      assert EnrichAll(ds)[1..] == EnrichAll(rest);
      GroupsPartition(rest);
      GroupStep(ds, Physical);
      GroupStep(ds, Vlan);
      GroupStep(ds, Bridge);
      var p, v, b := multiset(EnrichAll(OfKind(rest, Physical))), multiset(EnrichAll(OfKind(rest, Vlan))),
                     multiset(EnrichAll(OfKind(rest, Bridge)));
      var p', v', b' := multiset(EnrichAll(OfKind(ds, Physical))), multiset(EnrichAll(OfKind(ds, Vlan))),
                        multiset(EnrichAll(OfKind(ds, Bridge)));
      var one := multiset{Enrich(d)};
      assert multiset(EnrichAll(ds)) == one + (p + v + b);
      match KindOf(d)
      case Physical =>
        assert p' == one + p && v' == v && b' == b;
        UnionRegroup(one, p, v, b);
      case Vlan =>
        assert p' == p && v' == one + v && b' == b;
        UnionRegroup(one, p, v, b);
      case Bridge =>
        assert p' == p && v' == v && b' == one + b;
        UnionRegroup(one, p, v, b);
    }
  }

  /** Adding one element to any of three groups adds it to their union. */
  lemma UnionRegroup<T>(one: multiset<T>, p: multiset<T>, v: multiset<T>, b: multiset<T>)
    ensures (one + p) + v + b == one + (p + v + b)
    ensures p + (one + v) + b == one + (p + v + b)
    ensures p + v + (one + b) == one + (p + v + b)
  {
  }

  /** The ordered list is a permutation of the enriched input. */
  lemma OrderPermutes(ds: seq<Descriptor>)
    ensures multiset(Order(ds)) == multiset(EnrichAll(ds))
  {
    GroupsPartition(ds);
  }

  // ---------------------------------------------------------------------
  // What configure promises

  /** configure accepts exactly the lists without conflicts. */
  lemma ValidateAccepts(input: Input)
    ensures Validate(input).Ok? <==> NoConflicts(AsList(input))
  {
    FirstConflictNone(AsList(input));
  }

  /** On success the list is ordered by kind, stable within each kind, a
      permutation of the input with VLAN names derived, and every VLAN
      carries the name derived from its interface and id. */
  lemma ValidateOrders(input: Input)
    requires Validate(input).Ok?
    ensures SortedByKind(Validate(input).value)
    ensures StableFor(Validate(input).value, AsList(input))
    ensures multiset(Validate(input).value) == multiset(EnrichAll(AsList(input)))
    ensures AllEnriched(Validate(input).value)
  {
    var ds := AsList(input);
    assert Validate(input).value == Order(ds);
    OrderByKind(ds);
    OrderPermutes(ds);
    forall k ensures OfKind(Order(ds), k) == EnrichAll(OfKind(ds, k)) {
      OrderStable(ds, k);
    }
    OrderEnriched(ds);
  }

  /** On failure the message is that of a conflict the list really has. */
  lemma ValidateRejects(input: Input)
    requires Validate(input).Err?
    ensures exists c :: Witnessed(AsList(input), c) && Validate(input).error == Message(c)
  {
    FirstConflictWitnessed(AsList(input));
  }

  /** A single descriptor is handled as the list holding it. */
  lemma SingleIsList(d: Descriptor)
    ensures Validate(One(d)) == Validate(Many([d]))
  {
  }

  // ---------------------------------------------------------------------
  // The test vectors
  //
  // Each expected error text is spelled as the template literal of its
  // message: the fixed parts and the interpolated values, in order.

  function Plain(iface: string, fields: map<string, Value>): Descriptor
  {
    Descriptor(iface, None, None, None, fields)
  }

  function VlanOf(iface: string, id: VlanId, fields: map<string, Value>): Descriptor
  {
    Descriptor(iface, Some(id), None, None, fields)
  }

  function BridgeOf(iface: string, ports: seq<string>, fields: map<string, Value>): Descriptor
  {
    Descriptor(iface, None, Some(ports), None, fields)
  }

  const Dhcp: map<string, Value> := map["dhcp" := Bool(true)]

  /** Mixed kinds, listed out of order. */
  const MixedKinds := [Plain("eth0", map[]), VlanOf("eth0", 10, map[]), BridgeOf("br0", ["eth0"], map[]),
                       Plain("eth1", map[]), VlanOf("eth1", 10, map[])]

  /** The same VLAN id twice on eth0. */
  const TwiceVlan10 := [Plain("eth0", map[]), VlanOf("eth0", 10, map[]).(ifname := Some("eth0.1")),
                        Plain("eth1", map[]), VlanOf("eth0", 10, map[]).(ifname := Some("eth0.1"))]

  /** Port eth0 in br0 and in br1. */
  const OverlappingBridges := [BridgeOf("br0", ["eth0"], Dhcp), BridgeOf("br1", ["eth0"], Dhcp), Plain("eth1", Dhcp)]

  /** A VLAN of eth1 that also lists bridge ports. */
  const BridgedVlan := [Plain("eth0", Dhcp), Descriptor("eth1", Some(10), Some(["eth0"]), None, Dhcp)]

  /** VLANs of eth0 and of an enx interface. */
  const TwoVlans := [VlanOf("eth0", 10, Dhcp), VlanOf("enx00e04c534458", 10, Dhcp)]

  lemma MixedKindsAccepted()
    ensures FirstConflict(MixedKinds).None?
  {
    var ds := MixedKinds;
    assert ConflictAt(ds, 0).None? && ConflictAt(ds, 1).None?;
    assert ds[..2] == [ds[0], ds[1]];
    assert SharedPort(ds[..2], ["eth0"], "br0").None?;
    assert ConflictAt(ds, 2).None? && ConflictAt(ds, 3).None?;
    assert !SameVlan(ds[1], ds[4]);
    assert ConflictAt(ds, 4).None?;
    assert FirstConflictFrom(ds, 4).None? && FirstConflictFrom(ds, 3).None? && FirstConflictFrom(ds, 2).None?;
  }

  lemma MixedKindsSuffixes()
    ensures MixedKinds[4..][1..] == [] && MixedKinds[3..][1..] == MixedKinds[4..]
    ensures MixedKinds[2..][1..] == MixedKinds[3..] && MixedKinds[1..][1..] == MixedKinds[2..]
  {
  }

  lemma MixedKindsGroups()
    ensures OfKind(MixedKinds, Physical) == [MixedKinds[0], MixedKinds[3]]
    ensures OfKind(MixedKinds, Vlan) == [MixedKinds[1], MixedKinds[4]]
    ensures OfKind(MixedKinds, Bridge) == [MixedKinds[2]]
  {
    MixedKindsSuffixes();
    MixedKindsPhysical();
    MixedKindsVlans();
    MixedKindsBridges();
  }

  lemma MixedKindsPhysical()
    ensures OfKind(MixedKinds, Physical) == [MixedKinds[0], MixedKinds[3]]
  {
    var ds := MixedKinds;
    MixedKindsSuffixes();
    assert OfKind(ds[4..], Physical) == [];
    assert OfKind(ds[3..], Physical) == [ds[3]];
    assert OfKind(ds[2..], Physical) == [ds[3]];
    assert OfKind(ds[1..], Physical) == [ds[3]];
  }

  lemma MixedKindsVlans()
    ensures OfKind(MixedKinds, Vlan) == [MixedKinds[1], MixedKinds[4]]
  {
    var ds := MixedKinds;
    MixedKindsSuffixes();
    assert OfKind(ds[4..], Vlan) == [ds[4]];
    assert OfKind(ds[3..], Vlan) == [ds[4]];
    assert OfKind(ds[2..], Vlan) == [ds[4]];
    assert OfKind(ds[1..], Vlan) == [ds[1], ds[4]];
  }

  lemma MixedKindsBridges()
    ensures OfKind(MixedKinds, Bridge) == [MixedKinds[2]]
  {
    var ds := MixedKinds;
    MixedKindsSuffixes();
    assert OfKind(ds[4..], Bridge) == [];
    assert OfKind(ds[3..], Bridge) == [];
    assert OfKind(ds[2..], Bridge) == [ds[2]];
    assert OfKind(ds[1..], Bridge) == [ds[2]];
  }

  lemma MixedKindsOrder()
    ensures Order(MixedKinds)
         == [MixedKinds[0], MixedKinds[3], Enrich(MixedKinds[1]), Enrich(MixedKinds[4]), MixedKinds[2]]
  {
    MixedKindsGroups();
    var ds := MixedKinds;
    assert EnrichAll([ds[0], ds[3]]) == [ds[0], ds[3]];
    assert EnrichAll([ds[1], ds[4]]) == [Enrich(ds[1]), Enrich(ds[4])];
    assert EnrichAll([ds[2]]) == [ds[2]];
  }

  lemma MixedKindsNames()
    ensures Enrich(MixedKinds[1]) == VlanOf("eth0", 10, map[]).(ifname := Some("eth0.10"))
    ensures Enrich(MixedKinds[4]) == VlanOf("eth1", 10, map[]).(ifname := Some("eth1.10"))
  {
    VlanIfnameExamples();
    assert VlanIfname("eth1", 10) == "eth1.10" by {
      assert "eth1"[..|EnxPrefix|][1] != EnxPrefix[1];
    }
  }

  /** Physical interfaces first, then the VLANs with their names, then the
      bridge. */
  lemma OrderingExample()
    ensures Validate(Many(MixedKinds))
         == Ok([Plain("eth0", map[]), Plain("eth1", map[]),
                VlanOf("eth0", 10, map[]).(ifname := Some("eth0.10")),
                VlanOf("eth1", 10, map[]).(ifname := Some("eth1.10")),
                BridgeOf("br0", ["eth0"], map[])])
  {
    MixedKindsAccepted();
    MixedKindsOrder();
    MixedKindsNames();
  }

  /** The second VLAN 10 of eth0 is rejected. */
  lemma DuplicateVlanExample()
    ensures Validate(Many(TwiceVlan10)) == Err("Can't have same VLAN ID on interface " + "eth0")
  {
    var ds := TwiceVlan10;
    assert ConflictAt(ds, 0).None?;
    assert ConflictAt(ds, 1).None?;
    assert ConflictAt(ds, 2).None?;
    assert SameVlan(ds[1], ds[3]);
    assert ConflictAt(ds, 3) == Some(DuplicateVlan("eth0"));
    assert FirstConflictFrom(ds, 3) == Some(DuplicateVlan("eth0"));
    assert FirstConflictFrom(ds, 2) == Some(DuplicateVlan("eth0"));
    assert FirstConflictFrom(ds, 1) == Some(DuplicateVlan("eth0"));
    assert FirstConflict(ds) == Some(DuplicateVlan("eth0"));
    assert Message(DuplicateVlan("eth0")) == "Can't have same VLAN ID on interface " + "eth0";
  }

  lemma OverlappingBridgesConflict()
    ensures FirstConflict(OverlappingBridges) == Some(PortBridgedTwice("eth0", "br0", "br1"))
  {
    var ds := OverlappingBridges;
    assert ConflictAt(ds, 0).None?;
    assert ds[..1] == [ds[0]];
    assert SharedPort(ds[..1], ["eth0"], "br1") == Some(("eth0", 0));
    assert ConflictAt(ds, 1) == Some(PortBridgedTwice("eth0", "br0", "br1"));
    assert FirstConflictFrom(ds, 1) == Some(PortBridgedTwice("eth0", "br0", "br1"));
  }

  /** The second bridge over eth0 is rejected, naming both bridges. */
  lemma OverlappingBridgesExample()
    ensures Validate(Many(OverlappingBridges))
         == Err("Interface \"" + "eth0" + "\" is bridged in \"" + "br0" + "\" and \"" + "br1" + "\"")
  {
    OverlappingBridgesConflict();
    assert Message(PortBridgedTwice("eth0", "br0", "br1"))
        == "Interface \"" + "eth0" + "\" is bridged in \"" + "br0" + "\" and \"" + "br1" + "\"";
  }

  /** Two descriptors of one bridge listing the same port are the same
      bridge, not a conflict. */
  lemma SameBridgeTwiceAccepted()
    ensures Validate(Many([BridgeOf("br0", ["eth0"], map[]), BridgeOf("br0", ["eth0", "eth1"], map[])])).Ok?
  {
    var ds := [BridgeOf("br0", ["eth0"], map[]), BridgeOf("br0", ["eth0", "eth1"], map[])];
    assert ConflictAt(ds, 0).None?;
    assert ds[..1] == [ds[0]];
    assert ConflictAt(ds, 1).None?;
    assert FirstConflictFrom(ds, 1).None?;
  }

  /** A VLAN with bridge ports is rejected, naming its id and interface. */
  lemma VlanWithBridgeExample()
    ensures Validate(Many(BridgedVlan)) == Err("VLAN " + "10" + " in \"" + "eth1" + "\" cannot have bridged interfaces")
  {
    var ds := BridgedVlan;
    assert NatToString(10) == "10";
    assert ConflictAt(ds, 0).None?;
    assert ConflictAt(ds, 1) == Some(VlanWithBridge(10, "eth1"));
    assert FirstConflictFrom(ds, 1) == Some(VlanWithBridge(10, "eth1"));
    assert FirstConflict(ds) == Some(VlanWithBridge(10, "eth1"));
    assert Message(VlanWithBridge(10, "eth1")) == "VLAN " + "10" + " in \"" + "eth1" + "\" cannot have bridged interfaces";
  }

  /** The VLAN of an enx interface is named after its hexadecimal token. */
  lemma VlanNamesExample()
    ensures Validate(Many(TwoVlans))
         == Ok([VlanOf("eth0", 10, Dhcp).(ifname := Some("eth0.10")),
                VlanOf("enx00e04c534458", 10, Dhcp).(ifname := Some("00e04c534458.10"))])
  {
    VlanIfnameExamples();
    var ds := TwoVlans;
    assert ConflictAt(ds, 0).None?;
    assert !SameVlan(ds[0], ds[1]);
    assert ConflictAt(ds, 1).None?;
    assert FirstConflictFrom(ds, 1).None?;
    assert FirstConflict(ds).None?;
    assert OfKind(ds[1..], Physical) == [] && OfKind(ds[1..], Bridge) == [];
    assert OfKind(ds, Physical) == [] && OfKind(ds, Bridge) == [];
    assert OfKind(ds[1..], Vlan) == ds[1..];
    assert OfKind(ds, Vlan) == ds;
    assert EnrichAll(ds) == [Enrich(ds[0]), Enrich(ds[1])];
    assert Order(ds) == EnrichAll(ds);
  }

  // ---------------------------------------------------------------------
  // The operations on the shared configuration tree

  /** setBackend: sets the renderer, whatever string it is given. */
  method SetBackend(stack: Netplan.CfgStack, backend: string)
    requires stack.Valid()
    modifies stack
    ensures stack.Valid() && stack.View() == old(stack.View()).(renderer := backend)
  {
    stack.renderer := backend;
  }

  /** configure: a rejected list leaves the tree untouched and writes
      nothing; an accepted one is handed, ordered, to the tree's
      configure. The service is not restarted. */
  method Configure(stack: Netplan.CfgStack, input: Input, files: seq<string>)
    returns (r: Result<Netplan.WriteOutcome, string>)
    requires stack.Valid()
    modifies stack
    ensures stack.Valid()
    ensures Validate(input).Err? ==> r == Err(Validate(input).error) && stack.View() == old(stack.View())
    ensures Validate(input).Ok? ==>
      && stack.View() == Netplan.Configured(old(stack.View()), Validate(input).value)
      && r == Ok(Netplan.Written(stack.View(), files))
  {
    match Validate(input)
    case Err(msg) =>
      r := Err(msg);
    case Ok(ordered) =>
      var out := stack.Configure(ordered, files);
      r := Ok(out);
  }
}
