/** Interface descriptors as callers supply them, their kinds, and the
    name a VLAN interface receives. */
module Descriptors {
  import opened Values

  /** A VLAN id is a positive integer. */
  type VlanId = n: nat | n > 0 witness 1

  /** One caller-supplied interface descriptor. The properties the engine
      reads are typed fields; every other property (dhcp, ip_address,
      mac_address, ...) is kept verbatim in `fields`, which therefore never
      holds the keys interface, vlanid, bridge_ports or ifname. */
  datatype Descriptor = Descriptor(
    interface: string,
    vlanid: Option<VlanId>,
    bridgePorts: Option<seq<string>>,
    ifname: Option<string>,
    fields: map<string, Value>)

  datatype Kind = Physical | Vlan | Bridge

  /** The kind of a descriptor: a VLAN when it has a vlanid, else a bridge
      when it has bridge_ports, else a physical interface. A descriptor
      with both is a conflict that validation rejects. */
  function KindOf(d: Descriptor): Kind
  {
    if d.vlanid.Some? then Vlan else if d.bridgePorts.Some? then Bridge else Physical
  }

  predicate IsHexDigit(c: char)
  {
    '0' <= c <= '9' || 'a' <= c <= 'f' || 'A' <= c <= 'F'
  }

  predicate IsHexToken(s: string)
  {
    |s| > 0 && forall i :: 0 <= i < |s| ==> IsHexDigit(s[i])
  }

  const EnxPrefix := "enx"

  /** True when the name is "enx" followed by a hexadecimal token. */
  predicate IsEnxName(iface: string)
  {
    |iface| > |EnxPrefix| && iface[..|EnxPrefix|] == EnxPrefix && IsHexToken(iface[|EnxPrefix|..])
  }

  /** The base of a VLAN's name: the hexadecimal token of an "enx" name,
      otherwise the interface name itself. */
  function BaseName(iface: string): (b: string)
    ensures IsEnxName(iface) ==> iface == EnxPrefix + b && IsHexToken(b)
    ensures !IsEnxName(iface) ==> b == iface
  {
    if IsEnxName(iface) then iface[|EnxPrefix|..] else iface
  }

  /** The ifname of a VLAN on `iface` with id `id`: base, dot, decimal id. */
  function VlanIfname(iface: string, id: VlanId): string
  {
    BaseName(iface) + "." + NatToString(id)
  }

  /** Index of the last '.' in s, if any. */
  function LastDot(s: string): (r: Option<nat>)
    ensures r.Some? ==> r.value < |s| && s[r.value] == '.'
    ensures r.Some? ==> forall j :: r.value < j < |s| ==> s[j] != '.'
    ensures r.None? ==> forall j :: 0 <= j < |s| ==> s[j] != '.'
  {
    if s == [] then None
    else if s[|s| - 1] == '.' then Some(|s| - 1)
    else LastDot(s[..|s| - 1])
  }

  /** Splits a VLAN ifname back into its base name and its id; the
      partner of VlanIfname. */
  function VlanParts(ifname: string): Option<(string, nat)>
  {
    match LastDot(ifname)
    case None => None
    case Some(i) =>
      match ParseNat(ifname[i + 1..])
      case None => None
      case Some(id) => Some((ifname[..i], id))
  }

  /** A VLAN ifname splits back into the base name and the VLAN id. */
  lemma VlanIfnameRoundTrip(iface: string, id: VlanId)
    ensures VlanParts(VlanIfname(iface, id)) == Some((BaseName(iface), id as nat))
  {
    var b, t := BaseName(iface), NatToString(id);
    var s := VlanIfname(iface, id);
    assert s == b + "." + t;
    assert s[|b|] == '.';
    assert forall j :: |b| < j < |s| ==> s[j] == t[j - |b| - 1];
    assert LastDot(s) == Some(|b|);
    assert s[|b| + 1..] == t && s[..|b|] == b;
    NatToStringRoundTrip(id);
  }

  /** Two VLANs of one interface get the same ifname only if their ids
      agree. */
  lemma VlanIfnameInjective(iface: string, a: VlanId, b: VlanId)
    requires VlanIfname(iface, a) == VlanIfname(iface, b)
    ensures a == b
  {
    VlanIfnameRoundTrip(iface, a);
    VlanIfnameRoundTrip(iface, b);
  }

  /** The two examples of the test suite: "eth0" and
      "enx00e04c534458" with VLAN id 10. */
  lemma VlanIfnameExamples()
    ensures VlanIfname("eth0", 10) == "eth0.10"
    ensures VlanIfname("enx00e04c534458", 10) == "00e04c534458.10"
  {
    assert NatToString(10) == "10";
    assert IsEnxName("enx00e04c534458");
    assert "eth0"[..|EnxPrefix|][1] != EnxPrefix[1];
  }
}
