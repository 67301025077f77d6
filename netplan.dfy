/** The netplan configuration tree (src/netplan/index.js): the
    session-wide document `cfg_stack.network`, its reset-and-fold
    `configure`, the merge `config.generate`, the choice of the YAML file
    name and the collection of udev rules from the ethernets section. */
module Netplan {
  import opened Values
  import opened Descriptors
  import Udev

  /** The properties of one configuration entry. */
  type Fields = map<string, Value>

  /** One section of the document (ethernets, vlans or bridges): a
      JavaScript object, whose keys are enumerated in the order in which
      they were first set. */
  datatype Section = Section(order: seq<string>, entries: map<string, Fields>)

  const EmptySection := Section([], map[])

  /** The key order lists every key of the section exactly once. */
  ghost predicate WellFormed(s: Section)
  {
    && (forall i, j :: 0 <= i < j < |s.order| ==> s.order[i] != s.order[j])
    && (forall k :: k in s.entries <==> k in s.order)
  }

  /** `cfg_stack.network`. */
  datatype Network = Network(
    version: int,
    renderer: string,
    ethernets: Section,
    vlans: Section,
    bridges: Section)

  /** The document before any call: version 2, the networkd renderer and
      no interfaces. */
  const InitialNetwork := Network(2, "networkd", EmptySection, EmptySection, EmptySection)

  ghost predicate NetworkWellFormed(n: Network)
  {
    WellFormed(n.ethernets) && WellFormed(n.vlans) && WellFormed(n.bridges)
  }

  function SectionOf(n: Network, k: Kind): Section
  {
    match k
    case Physical => n.ethernets
    case Vlan => n.vlans
    case Bridge => n.bridges
  }

  function WithSection(n: Network, k: Kind, s: Section): (r: Network)
    ensures SectionOf(r, k) == s
    ensures forall k' :: k' != k ==> SectionOf(r, k') == SectionOf(n, k')
    ensures r.version == n.version && r.renderer == n.renderer
  {
    match k
    case Physical => n.(ethernets := s)
    case Vlan => n.(vlans := s)
    case Bridge => n.(bridges := s)
  }

  /** Merges `f` into the entry `k` of a section, property by property:
      the properties of `f` overwrite, the others stay. A new key goes to
      the end of the key order. */
  function Put(s: Section, k: string, f: Fields): (r: Section)
    ensures WellFormed(s) ==> WellFormed(r)
    ensures r.entries.Keys == s.entries.Keys + {k}
    ensures forall k' :: k' in s.entries && k' != k ==> r.entries[k'] == s.entries[k']
    ensures forall p :: p in f ==> p in r.entries[k] && r.entries[k][p] == f[p]
    ensures forall p :: p in r.entries[k] && p !in f ==>
      k in s.entries && p in s.entries[k] && r.entries[k][p] == s.entries[k][p]
    ensures forall p :: k in s.entries && p in s.entries[k] && p !in f ==>
      p in r.entries[k] && r.entries[k][p] == s.entries[k][p]
    ensures r.entries[k] == (if k in s.entries then s.entries[k] else map[]) + f
    ensures r.order == if k in s.entries then s.order else s.order + [k]
  {
    if k in s.entries then Section(s.order, s.entries[k := s.entries[k] + f])
    else Section(s.order + [k], s.entries[k := f])
  }

  /** The key of a VLAN entry: its ifname, or the derived name when the
      descriptor carries none. */
  function VlanKey(d: Descriptor): string
    requires d.vlanid.Some?
  {
    match d.ifname
    case Some(name) => name
    case None => VlanIfname(d.interface, d.vlanid.value)
  }

  /** The key under which a descriptor's entry is stored in its section. */
  function KeyOf(d: Descriptor): string
  {
    if KindOf(d) == Vlan then VlanKey(d) else d.interface
  }

  /** The properties a descriptor contributes to its entry: its
      pass-through fields, and for a VLAN its id and link, for a bridge
      its ports. */
  function EntryOf(d: Descriptor): Fields
  {
    match KindOf(d)
    case Physical => d.fields
    case Vlan => d.fields["id" := Int(d.vlanid.value)]["link" := Str(d.interface)]
    case Bridge => d.fields["ports" := Strs(d.bridgePorts.value)]
  }

  /** True when descriptor d writes the entry `key` of section `kind`. */
  predicate Writes(d: Descriptor, kind: Kind, key: string)
  {
    KindOf(d) == kind && KeyOf(d) == key
  }

  /** config.generate: merges one descriptor into the section of its kind,
      under its key. */
  function Generate(n: Network, d: Descriptor): (r: Network)
    ensures r.version == n.version && r.renderer == n.renderer
    ensures NetworkWellFormed(n) ==> NetworkWellFormed(r)
  {
    WithSection(n, KindOf(d), Put(SectionOf(n, KindOf(d)), KeyOf(d), EntryOf(d)))
  }

  /** The three interface sections emptied; version and renderer kept. */
  function Reset(n: Network): Network
  {
    n.(ethernets := EmptySection, vlans := EmptySection, bridges := EmptySection)
  }

  /** The descriptors merged one at a time, in list order. */
  function ApplyAll(n: Network, cs: seq<Descriptor>): Network
    decreases |cs|
  {
    if cs == [] then n else Generate(ApplyAll(n, cs[..|cs| - 1]), cs[|cs| - 1])
  }

  /** The document after configure(cs). */
  function Configured(n: Network, cs: seq<Descriptor>): Network
  {
    ApplyAll(Reset(n), cs)
  }

  /** Merging never changes the version or the renderer. */
  lemma {:induction false} ApplyAllKeepsHeader(n: Network, cs: seq<Descriptor>)
    ensures ApplyAll(n, cs).version == n.version
    ensures ApplyAll(n, cs).renderer == n.renderer
    ensures NetworkWellFormed(n) ==> NetworkWellFormed(ApplyAll(n, cs))
  {
    if cs != [] {
      ApplyAllKeepsHeader(n, cs[..|cs| - 1]);
    }
  }

  /** configure keeps version and renderer and yields a well-formed
      document. */
  lemma ConfiguredKeepsHeader(n: Network, cs: seq<Descriptor>)
    ensures Configured(n, cs).version == n.version
    ensures Configured(n, cs).renderer == n.renderer
    ensures NetworkWellFormed(Configured(n, cs))
  {
    ApplyAllKeepsHeader(Reset(n), cs);
  }

  /** A second configure call builds on nothing of the first but its
      version and renderer. */
  lemma ConfigureForgetsEarlierCalls(n: Network, first: seq<Descriptor>, second: seq<Descriptor>)
    ensures Configured(Configured(n, first), second) == Configured(n, second)
  {
    ConfiguredKeepsHeader(n, first);
    assert Reset(Configured(n, first)) == Reset(n);
  }

  /** Folding a + b is folding a, then folding b into the result: the
      descriptors are merged one after the other, in list order. */
  lemma {:induction false} ApplyAllAppend(n: Network, a: seq<Descriptor>, b: seq<Descriptor>)
    ensures ApplyAll(n, a + b) == ApplyAll(ApplyAll(n, a), b)
    decreases |b|
  {
    if b == [] {
      assert a + b == a;
    } else {
      var m := |b| - 1;
      ApplyAllAppend(n, a, b[..m]);
      assert (a + b)[..|a + b| - 1] == a + b[..m];
      assert (a + b)[|a + b| - 1] == b[m];
    }
  }

  /** configure(cs) is configure of all but the last descriptor, then the
      last one merged. */
  lemma ConfiguredStep(n: Network, cs: seq<Descriptor>)
    requires cs != []
    ensures Configured(n, cs) == Generate(Configured(n, cs[..|cs| - 1]), cs[|cs| - 1])
  {
  }

  /** One merge, entry by entry: the entry the descriptor writes gains its
      properties over the old ones; every other entry stays as it was. */
  lemma GenerateEntry(n: Network, d: Descriptor, kind: Kind, key: string)
    ensures var before, after := SectionOf(n, kind).entries, SectionOf(Generate(n, d), kind).entries;
      && (key in after <==> key in before || Writes(d, kind, key))
      && (!Writes(d, kind, key) && key in before ==> after[key] == before[key])
      && (Writes(d, kind, key) ==> forall p :: p in EntryOf(d) ==> p in after[key] && after[key][p] == EntryOf(d)[p])
      && (Writes(d, kind, key) ==> forall p :: p in after[key] && p !in EntryOf(d) ==>
            key in before && p in before[key] && after[key][p] == before[key][p])
      && (Writes(d, kind, key) ==> forall p :: key in before && p in before[key] && p !in EntryOf(d) ==>
            p in after[key] && after[key][p] == before[key][p])
      && (Writes(d, kind, key) ==> after[key] == (if key in before then before[key] else map[]) + EntryOf(d))
  {
  }

  /** One merge, seen from one property p of one entry: the descriptor's
      value when it writes p there, otherwise the old value. */
  lemma GenerateProperty(n: Network, d: Descriptor, kind: Kind, key: string, p: string)
    ensures var before, after := SectionOf(n, kind).entries, SectionOf(Generate(n, d), kind).entries;
      && (Writes(d, kind, key) && p in EntryOf(d) ==>
            key in after && p in after[key] && after[key][p] == EntryOf(d)[p])
      && (!(Writes(d, kind, key) && p in EntryOf(d)) && key in before && p in before[key] ==>
            key in after && p in after[key] && after[key][p] == before[key][p])
  {
    GenerateEntry(n, d, kind, key);
  }

  /** The last descriptor of a configure call, seen from one property p of
      one entry: its value when it writes p there, otherwise the value the
      earlier descriptors left. */
  lemma ConfiguredPropertyStep(n: Network, cs: seq<Descriptor>, kind: Kind, key: string, p: string)
    requires cs != []
    ensures var d := cs[|cs| - 1];
      var before, after := SectionOf(Configured(n, cs[..|cs| - 1]), kind).entries, SectionOf(Configured(n, cs), kind).entries;
      && (Writes(d, kind, key) && p in EntryOf(d) ==>
            key in after && p in after[key] && after[key][p] == EntryOf(d)[p])
      && (!(Writes(d, kind, key) && p in EntryOf(d)) && key in before && p in before[key] ==>
            key in after && p in after[key] && after[key][p] == before[key][p])
  {
    ConfiguredStep(n, cs);
    GenerateProperty(Configured(n, cs[..|cs| - 1]), cs[|cs| - 1], kind, key, p);
  }

  /** After configure(cs) a section holds exactly the keys that the
      descriptors of cs write; nothing of an earlier call survives. */
  lemma {:induction false} ConfiguredKeys(n: Network, cs: seq<Descriptor>, kind: Kind, key: string)
    ensures key in SectionOf(Configured(n, cs), kind).entries
        <==> exists i :: 0 <= i < |cs| && Writes(cs[i], kind, key)
  {
    if cs != [] {
      var m := |cs| - 1;
      ConfiguredKeys(n, cs[..m], kind, key);
      ConfiguredStep(n, cs);
      GenerateEntry(Configured(n, cs[..m]), cs[m], kind, key);
      assert forall i :: 0 <= i < m ==> cs[..m][i] == cs[i];
    }
  }

  /** Last write wins, property by property: the value of property p of
      an entry comes from the last descriptor that wrote p to the entry. */
  lemma {:induction false} LastWriteWins(n: Network, cs: seq<Descriptor>, kind: Kind, key: string, p: string, i: nat)
    requires i < |cs| && Writes(cs[i], kind, key) && p in EntryOf(cs[i])
    requires forall j :: i < j < |cs| && Writes(cs[j], kind, key) ==> p !in EntryOf(cs[j])
    ensures key in SectionOf(Configured(n, cs), kind).entries
    ensures p in SectionOf(Configured(n, cs), kind).entries[key]
    ensures SectionOf(Configured(n, cs), kind).entries[key][p] == EntryOf(cs[i])[p]
  {
    var m := |cs| - 1;
    ConfiguredPropertyStep(n, cs, kind, key, p);
    if i < m {
      assert cs[..m][i] == cs[i];
      assert forall j :: i < j < m ==> cs[..m][j] == cs[j];
      LastWriteWins(n, cs[..m], kind, key, p, i);
      assert Writes(cs[m], kind, key) ==> p !in EntryOf(cs[m]);
    }
  }

  /** Every property of an entry after configure(cs) was written by some
      descriptor of cs under that entry's key. */
  lemma {:induction false} ConfiguredProvenance(n: Network, cs: seq<Descriptor>, kind: Kind, key: string, p: string)
    requires key in SectionOf(Configured(n, cs), kind).entries
    requires p in SectionOf(Configured(n, cs), kind).entries[key]
    ensures exists j :: 0 <= j < |cs| && Writes(cs[j], kind, key) && p in EntryOf(cs[j])
                     && SectionOf(Configured(n, cs), kind).entries[key][p] == EntryOf(cs[j])[p]
  {
    var m := |cs| - 1;
    var before := Configured(n, cs[..m]);
    ConfiguredStep(n, cs);
    GenerateEntry(before, cs[m], kind, key);
    var e := SectionOf(Configured(n, cs), kind).entries[key];
    if Writes(cs[m], kind, key) && p in EntryOf(cs[m]) {
      assert e[p] == EntryOf(cs[m])[p];
    } else {
      assert key in SectionOf(before, kind).entries && p in SectionOf(before, kind).entries[key];
      ConfiguredProvenance(n, cs[..m], kind, key, p);
      var j :| 0 <= j < m && Writes(cs[..m][j], kind, key) && p in EntryOf(cs[..m][j])
             && SectionOf(before, kind).entries[key][p] == EntryOf(cs[..m][j])[p];
      assert cs[..m][j] == cs[j];
    }
  }

  const NetplanDir := "/etc/netplan/"
  const DefaultYamlName := "01-networkcfg.yaml"

  /** getYamlFileName: the first entry of the directory listing, or the
      default name when the listing is empty (or its first name is the
      empty string, which JavaScript treats as false). */
  function YamlFileName(files: seq<string>): (path: string)
    ensures |path| >= |NetplanDir| && path[..|NetplanDir|] == NetplanDir
    ensures var name := path[|NetplanDir|..];
      || (|files| > 0 && files[0] != "" && name == files[0])
      || ((files == [] || files[0] == "") && name == DefaultYamlName)
  {
    var name := if |files| > 0 && files[0] != "" then files[0] else DefaultYamlName;
    assert (NetplanDir + name)[|NetplanDir|..] == name;
    NetplanDir + name
  }

  /** An entry that yields a udev rule: it has a truthy mac_address. */
  predicate HasMac(e: Fields)
  {
    "mac_address" in e && Truthy(e["mac_address"])
  }

  function RuleFor(key: string, entries: map<string, Fields>): seq<Udev.Rule>
  {
    if key in entries && HasMac(entries[key]) then [Udev.Rule(key, entries[key]["mac_address"])] else []
  }

  /** The rules for the given keys of a section, in key order. */
  function RulesOf(keys: seq<string>, entries: map<string, Fields>): seq<Udev.Rule>
    decreases |keys|
  {
    if keys == [] then [] else RulesOf(keys[..|keys| - 1], entries) + RuleFor(keys[|keys| - 1], entries)
  }

  lemma RulesOfSnoc(keys: seq<string>, i: nat, entries: map<string, Fields>)
    requires i < |keys|
    ensures RulesOf(keys[..i + 1], entries) == RulesOf(keys[..i], entries) + RuleFor(keys[i], entries)
  {
    assert keys[..i + 1][..i] == keys[..i];
  }

  /** The udev rules of the ethernets section. */
  function CollectRules(s: Section): seq<Udev.Rule>
  {
    RulesOf(s.order, s.entries)
  }

  lemma {:induction false} RulesOfExact(keys: seq<string>, entries: map<string, Fields>)
    requires forall i, j :: 0 <= i < j < |keys| ==> keys[i] != keys[j]
    ensures forall r :: r in RulesOf(keys, entries) ==>
      r.name in keys && r.name in entries && HasMac(entries[r.name]) && r.mac == entries[r.name]["mac_address"]
    ensures forall k :: k in keys && k in entries && HasMac(entries[k]) ==>
      exists i :: 0 <= i < |RulesOf(keys, entries)| && RulesOf(keys, entries)[i].name == k
    ensures forall i, j :: 0 <= i < j < |RulesOf(keys, entries)| ==>
      RulesOf(keys, entries)[i].name != RulesOf(keys, entries)[j].name
  {
    if keys != [] {
      var m := |keys| - 1;
      var init := keys[..m];
      RulesOfExact(init, entries);
      var before := RulesOf(init, entries);
      var rs := RulesOf(keys, entries);
      assert forall r :: r in before ==> r.name in init;
      assert keys == init + [keys[m]];
      assert keys[m] !in init;
      forall k | k in keys && k in entries && HasMac(entries[k])
        ensures exists i :: 0 <= i < |rs| && rs[i].name == k
      {
        if k == keys[m] {
          assert rs[|rs| - 1].name == k;
        } else {
          assert k in init;
          var i :| 0 <= i < |before| && before[i].name == k;
          assert rs[i] == before[i];
        }
      }
      forall i, j | 0 <= i < j < |rs| ensures rs[i].name != rs[j].name {
        if j == |before| {
          assert rs[i] in before;
        } else {
          assert rs[i] == before[i] && rs[j] == before[j];
        }
      }
    }
  }

  /** writeConfig collects exactly one rule {name: key, mac: mac_address}
      per ethernets entry with a truthy mac_address, and no other. */
  lemma CollectRulesExact(s: Section)
    requires WellFormed(s)
    ensures forall r :: r in CollectRules(s) ==>
      r.name in s.entries && HasMac(s.entries[r.name]) && r.mac == s.entries[r.name]["mac_address"]
    ensures forall k :: k in s.entries && HasMac(s.entries[k]) ==>
      exists i :: 0 <= i < |CollectRules(s)| && CollectRules(s)[i].name == k
    ensures forall i, j :: 0 <= i < j < |CollectRules(s)| ==> CollectRules(s)[i].name != CollectRules(s)[j].name
  {
    RulesOfExact(s.order, s.entries);
  }

  /** What writeConfig produces: the YAML file it writes and the document
      it serialises, the collected rules and the udev file write. */
  datatype WriteOutcome = WriteOutcome(
    yamlPath: string,
    document: Network,
    rules: seq<Udev.Rule>,
    udev: Option<Udev.FileWrite>)

  function Written(n: Network, files: seq<string>): WriteOutcome
  {
    var rules := CollectRules(n.ethernets);
    WriteOutcome(YamlFileName(files), n, rules,
      if rules == [] then None else Some(Udev.FileWrite(Udev.RulesPath, Udev.Rendered(rules))))
  }

  /** Every udev rule written after configure(cs) comes from a physical
      descriptor of cs with that name and that mac_address, and no name
      has two rules. */
  lemma ConfiguredRulesSound(n: Network, cs: seq<Descriptor>)
    ensures forall r :: r in CollectRules(Configured(n, cs).ethernets) ==>
      exists j :: 0 <= j < |cs| && Writes(cs[j], Physical, r.name)
               && "mac_address" in cs[j].fields && cs[j].fields["mac_address"] == r.mac
    ensures var rules := CollectRules(Configured(n, cs).ethernets);
      forall i, j :: 0 <= i < j < |rules| ==> rules[i].name != rules[j].name
  {
    var t := Configured(n, cs);
    ConfiguredKeepsHeader(n, cs);
    CollectRulesExact(t.ethernets);
    forall r | r in CollectRules(t.ethernets)
      ensures exists j :: 0 <= j < |cs| && Writes(cs[j], Physical, r.name)
                       && "mac_address" in cs[j].fields && cs[j].fields["mac_address"] == r.mac
    {
      ConfiguredProvenance(n, cs, Physical, r.name, "mac_address");
    }
  }

  /** A physical descriptor with a truthy mac_address that no later
      descriptor of the same interface overrides yields a udev rule with
      its name and address. */
  lemma ConfiguredRulesComplete(n: Network, cs: seq<Descriptor>, i: nat)
    requires i < |cs| && KindOf(cs[i]) == Physical && HasMac(cs[i].fields)
    requires forall j :: i < j < |cs| && Writes(cs[j], Physical, cs[i].interface) ==> "mac_address" !in cs[j].fields
    ensures var rules := CollectRules(Configured(n, cs).ethernets);
      exists k :: 0 <= k < |rules| && rules[k] == Udev.Rule(cs[i].interface, cs[i].fields["mac_address"])
  {
    var t := Configured(n, cs);
    var key := cs[i].interface;
    ConfiguredKeepsHeader(n, cs);
    CollectRulesExact(t.ethernets);
    LastWriteWins(n, cs, Physical, key, "mac_address", i);
    var rules := CollectRules(t.ethernets);
    var k :| 0 <= k < |rules| && rules[k].name == key;
    assert rules[k] in rules;
  }

  /** The module state `exports.cfg_stack`: the session-wide document that
      configure resets and rebuilds and setBackend updates. */
  class CfgStack {
    var version: int
    var renderer: string
    var ethernets: Section
    var vlans: Section
    var bridges: Section

    ghost predicate Valid()
      reads this
    {
      NetworkWellFormed(View())
    }

    /** The document as a value. */
    function View(): Network
      reads this
    {
      Network(version, renderer, ethernets, vlans, bridges)
    }

    constructor ()
      ensures Valid() && View() == InitialNetwork
    {
      version := 2;
      renderer := "networkd";
      ethernets, vlans, bridges := EmptySection, EmptySection, EmptySection;
    }

    /** setInterface: replaces the document by config.generate's merge of
        one descriptor. */
    method SetInterface(cfg: Descriptor)
      requires Valid()
      modifies this
      ensures Valid() && View() == Generate(old(View()), cfg)
    {
      var n := Generate(View(), cfg);
      version, renderer, ethernets, vlans, bridges := n.version, n.renderer, n.ethernets, n.vlans, n.bridges;
    }

    /** writeConfig: the YAML file name, the document to serialise, and
        the udev rules collected from the ethernets section in key order,
        handed to the udev writer. */
    method WriteConfig(files: seq<string>) returns (out: WriteOutcome)
      requires Valid()
      ensures out == Written(View(), files)
    {
      var document := View();
      var filename := YamlFileName(files);
      var udevRules: seq<Udev.Rule> := [];
      var keys := ethernets.order;
      for i := 0 to |keys|
        invariant udevRules == RulesOf(keys[..i], ethernets.entries)
      {
        var eth := keys[i];
        RulesOfSnoc(keys, i, ethernets.entries);
        assert eth in ethernets.order;
        var cfg := ethernets.entries[eth];
        if HasMac(cfg) {
          udevRules := udevRules + [Udev.Rule(eth, cfg["mac_address"])];
        }
      }
      assert keys[..|keys|] == keys;
      var udev := Udev.WriteNetworkRules(Some(udevRules));
      out := WriteOutcome(filename, document, udevRules, udev);
    }

    /** configure: empties the three interface sections, merges a copy of
        each descriptor in list order, then writes the configuration. */
    method Configure(configs: seq<Descriptor>, files: seq<string>) returns (out: WriteOutcome)
      requires Valid()
      modifies this
      ensures Valid() && View() == Configured(old(View()), configs)
      ensures out == Written(View(), files)
    {
      ethernets, vlans, bridges := EmptySection, EmptySection, EmptySection;
      for i := 0 to |configs|
        invariant Valid() && View() == ApplyAll(Reset(old(View())), configs[..i])
      {
        // Object.assign({}, c): descriptors are values, so the merge
        // cannot change the caller's descriptor.
        var cfg := configs[i];
        assert configs[..i + 1][..i] == configs[..i];
        SetInterface(cfg);
      }
      assert configs[..|configs|] == configs;
      out := WriteConfig(files);
    }
  }
}
