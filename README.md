# node-netplan in Dafny

This is a model of the core of node-netplan, a JavaScript library. The
library turns a list of network-interface descriptors into a netplan
configuration document plus udev device-naming rules. The model has three
parts:

- **The front end** (`configure`, `setBackend`, the two backend constants)
  takes one descriptor or a list of them. It rejects a list that has one
  of three conflicts, each with a fixed message:
  - the same VLAN id twice on one interface;
  - a port listed by two differently named bridges;
  - a VLAN that also lists bridge ports.

  It puts physical interfaces first, then VLANs, then bridges, keeping the
  input order within each kind. It gives every VLAN the name
  `<base>.<vlanid>`, where the base drops the `enx` of an `enx<hex>`
  interface name. The ordered list then goes to the configuration tree.
  The implementation file of the front end (`src/index.js`) is not part of
  this model. Its behaviour is taken from the assertions of
  `test/index_test.js` and is modelled as the function `Engine.Validate`.
- **The configuration tree** (`src/netplan/index.js`). The session-wide
  document `cfg_stack` is the class `Netplan.CfgStack`.
  - `configure` empties the `ethernets`, `vlans` and `bridges` sections,
    keeps `version` and `renderer`, merges each descriptor in list order
    through `setInterface`, and then runs `writeConfig`.
  - `writeConfig` chooses the YAML file name. It collects one udev rule
    `{name, mac}` for each `ethernets` entry with a truthy `mac_address`,
    in key order.
- **The udev writer** (`src/helpers/udev.js`). `writeNetworkRules` writes
  nothing for a missing or empty list. Otherwise it writes one line
  `SUBSYSTEM=="net", ACTION=="add", ATTR{address}=="<mac>", NAME="<name>"`
  per rule to `/etc/udev/rules.d/70-persistent-net.rules`.

Files and modules:

- `values.dfy` (`Values`) holds:
  - `Option` and `Result`;
  - the JSON-like values of pass-through fields;
  - JavaScript truthiness and template-literal string conversion;
  - decimal formatting and its inverse.
- `descriptors.dfy` (`Descriptors`): descriptors, their kinds, and VLAN interface names.
- `udev.dfy` (`Udev`): the rules writer, and a reader of the rules file used to state its round trip.
- `netplan.dfy` (`Netplan`): the tree as a value, the merge, the fold, the rule collection, and the class `CfgStack`.
- `engine.dfy` (`Engine`): validation, ordering, the test vectors, `setBackend` and `configure`.

Effects are values in the model:

- The directory listing of `/etc/netplan` is a parameter (`files`).
- The YAML write and the udev write are returned as a `WriteOutcome` and
  not performed: the YAML path, the document, the rules, and the udev
  `FileWrite` or none.
- A rejected `configure` returns `Err(message)` instead of throwing.

## Model

| member | source | states |
|---|---|---|
| Values.NatToStringRoundTrip | test/index_test.js:112-124 | the decimal text of a VLAN id (used in names and messages) reads back as the same number |
| Values.NatToStringInjective | test/index_test.js:126-144 | two different ids never print the same |
| Descriptors.KindOf | test/index_test.js:57-71 | a descriptor is a VLAN when it has a vlanid, else a bridge when it has bridge_ports, else a physical interface; `Engine.OfKind`, `Engine.OrderByKind` and `Netplan.KeyOf` build on it |
| Descriptors.BaseName | test/index_test.js:126-144 | an `enx`+hex interface name is `enx` followed by the base, and the base is a hex token; any other name is its own base |
| Descriptors.VlanIfname | test/index_test.js:126-144 | a VLAN's ifname is its base name, a dot and the decimal id; `VlanIfnameRoundTrip`, `VlanIfnameInjective` and `VlanIfnameExamples` state its properties |
| Descriptors.VlanIfnameRoundTrip | test/index_test.js:126-144 | a VLAN name splits at its last dot back into the base name and the VLAN id |
| Descriptors.VlanIfnameInjective | test/index_test.js:126-144 | two VLANs of one interface share a name only if their ids are equal |
| Descriptors.VlanIfnameExamples | test/index_test.js:139-140 | `eth0` with id 10 gives `eth0.10`; `enx00e04c534458` with id 10 gives `00e04c534458.10` |
| Udev.Line | src/helpers/udev.js:11 | one rule line: the fixed text, the rule's address as a template literal stringifies it, the name, and a newline; `ParseLineBody` reads it back and `NewlineCount` counts its newline |
| Udev.WriteNetworkRules | src/helpers/udev.js:5-14 | no write exactly when the list is missing or empty; otherwise one write to the rules path whose contents are the lines of the rules in list order |
| Udev.RenderedAppend | src/helpers/udev.js:9-12 | the text of a concatenation of rule lists is the concatenation of their texts |
| Udev.NewlineCount | src/helpers/udev.js:10-12 | the rules file holds exactly one newline per rule, when no name or address holds one |
| Udev.RenderedLines | src/helpers/udev.js:9-12 | line i of the rules file is the line of rule i |
| Udev.ParseLineBody | src/helpers/udev.js:11 | a rule line reads back as the rule's address text and name, when the address holds no double quote |
| Udev.RulesFileRoundTrip | src/helpers/udev.js:9-12 | the file has one line per rule, and line i reads back as the address and name of rule i |
| Udev.RenderedExample | test/helpers/udev_test.js:32-38 | the rule for eth0 at 00:11:22:33:44:55 renders as the exact line of the test |
| Netplan.WithSection | src/netplan/index.js:26 | replacing one section changes that section only, and never version or renderer |
| Netplan.Put | src/netplan/index.js:25-27 | merging into an entry keeps the section well formed, adds the key, leaves every other entry alone, gives each merged property its new value, keeps every old property the merge does not name, and creates a missing entry from the merged properties alone, appended to the key order (an existing key keeps its place) |
| Netplan.Generate | src/netplan/index.js:25-27 | a merge keeps version and renderer and a well-formed document |
| Netplan.GenerateEntry | src/netplan/index.js:25-27 | after one merge an entry exists iff it existed or the descriptor writes it; unwritten entries are unchanged; a written entry is its old properties (none if it was new) overridden by the descriptor's, so every old property the descriptor does not set survives |
| Netplan.Configured | src/netplan/index.js:51-58 | configure's document: the three sections emptied, then each descriptor merged in list order; `ConfiguredKeys`, `LastWriteWins`, `ConfiguredProvenance` and `ConfigureForgetsEarlierCalls` state what it holds |
| Netplan.ApplyAllKeepsHeader | src/netplan/index.js:55-58 | folding descriptors never changes version or renderer and keeps the document well formed |
| Netplan.ConfiguredKeepsHeader | src/netplan/index.js:51-58 | configure keeps version and renderer (as set by setBackend or initially) and yields a well-formed document |
| Netplan.ApplyAllAppend | src/netplan/index.js:55-58 | configure folds the descriptors in list order: merging a + b is merging a and then merging b into the result |
| Netplan.ConfigureForgetsEarlierCalls | src/netplan/index.js:52-54 | a second configure gives the same document as configure on the first document, so nothing of the first call's sections survives |
| Netplan.ConfiguredKeys | src/netplan/index.js:52-58 | after configure a section holds a key iff some descriptor of this call writes it |
| Netplan.LastWriteWins | src/netplan/index.js:55-58 | a property of an entry holds the value from the last descriptor of the call that wrote it |
| Netplan.ConfiguredProvenance | src/netplan/index.js:55-58 | every property of every entry after configure was written by a descriptor of this call, under that entry's key |
| Netplan.YamlFileName | src/netplan/index.js:19-23 | the path is `/etc/netplan/` followed by the first listed name, or by `01-networkcfg.yaml` when the listing is empty or its first name is empty |
| Netplan.HasMac | src/netplan/index.js:40 | an entry yields a rule when it has a `mac_address` whose value is truthy in JavaScript; `RulesOfExact` and `CollectRulesExact` use it |
| Netplan.RulesOfExact | src/netplan/index.js:36-46 | for distinct keys, every rule names a key whose entry has a truthy mac_address and carries that address; every such key has a rule; no name has two rules |
| Netplan.CollectRulesExact | src/netplan/index.js:36-46 | the same for the ethernets section: exactly one rule per entry with a truthy mac_address, and none for any other entry |
| Netplan.ConfiguredRulesSound | src/netplan/index.js:36-58 | every rule after configure comes from a physical descriptor of the call with that name and mac_address (never from a VLAN or bridge), and names are distinct |
| Netplan.ConfiguredRulesComplete | src/netplan/index.js:36-58 | a physical descriptor with a truthy mac_address that no later descriptor of the same interface overrides has a rule with its name and address |
| Netplan.CfgStack.constructor | src/netplan/index.js:12-17 | the initial document is version 2, renderer `networkd`, with empty sections |
| Netplan.CfgStack.SetInterface | src/netplan/index.js:25-27 | the document becomes the merge of the descriptor into the old document |
| Netplan.CfgStack.WriteConfig | src/netplan/index.js:29-49 | returns the YAML path, the document, the rules collected by the key loop, and the udev write of those rules |
| Netplan.CfgStack.Configure | src/netplan/index.js:51-60 | the document becomes the fold of the descriptors into the reset document, and the result is what writeConfig produces for it |
| Engine.Message | test/index_test.js:80-124 | the three rejection texts, with the interface, the two bridges, or the decimal VLAN id and its interface spliced in; the example lemmas prove the exact texts of the tests |
| Engine.FirstBridgeWith | test/index_test.js:97-110 | finds the first earlier bridge of another name listing the port, or reports that none does |
| Engine.SharedPort | test/index_test.js:97-110 | no result iff no earlier bridge of another name lists any of the ports; otherwise the first port, in list order, that one does, with the first such bridge |
| Engine.ConflictAt | test/index_test.js:80-124 | descriptor i has no conflict iff it has no vlanid with bridge ports, no earlier VLAN with the same interface and id, and no port shared with an earlier bridge of another name |
| Engine.FirstConflictNone | test/index_test.js:80-124 | the scan finds no conflict iff the whole list has none of the three conflicts |
| Engine.FirstConflictWitnessed | test/index_test.js:80-124 | a reported conflict names descriptors the list really has: a duplicate VLAN pair, the first bridge of a port and the first bridge of another name listing it after that, or the VLAN with bridge ports |
| Engine.Enrich | test/index_test.js:126-144 | deriving the name never changes a descriptor's kind and touches only `ifname`: every other property, dhcp and the rest of the pass-through fields included, survives, and a descriptor without a vlanid is returned unchanged |
| Engine.EnrichIsEnriched | test/index_test.js:126-144 | after enrichment a VLAN carries the name derived from its interface and id |
| Engine.EnrichAll | test/index_test.js:57-78 | enrichment keeps length and works element by element |
| Engine.OfKind | test/index_test.js:57-78 | the filter keeps only descriptors of the kind and never lengthens the list |
| Engine.OfKindAppend | test/index_test.js:57-78 | filtering by kind distributes over concatenation |
| Engine.OfKindUniform | test/index_test.js:57-78 | filtering a list all of one kind keeps all of it or none of it |
| Engine.OrderStable | test/index_test.js:57-78 | in the ordered list each kind appears in input order, enriched |
| Engine.ConcatSorted | test/index_test.js:57-78 | physical, then VLAN, then bridge lists, concatenated, are sorted by kind |
| Engine.OrderByKind | test/index_test.js:57-78 | in the ordered list physical descriptors precede VLANs, which precede bridges |
| Engine.OrderEnriched | test/index_test.js:126-144 | every VLAN of the ordered list carries its derived name |
| Engine.GroupsPartition | test/index_test.js:57-78 | the three kind groups together hold every enriched descriptor exactly once |
| Engine.OrderPermutes | test/index_test.js:57-78 | the ordered list is a permutation of the enriched input |
| Engine.Order | test/index_test.js:57-78 | the enriched physical interfaces, then the enriched VLANs, then the enriched bridges, each group in input order; `OrderByKind`, `OrderStable`, `OrderPermutes` and `OrderEnriched` state its properties |
| Engine.Validate | test/index_test.js:57-152 | the message of the first conflict in input order, or the ordered list; `ValidateAccepts`, `ValidateOrders`, `ValidateRejects` and `SingleIsList` state its properties |
| Engine.ValidateAccepts | test/index_test.js:57-124 | configure's validation succeeds iff the list has none of the three conflicts |
| Engine.ValidateOrders | test/index_test.js:57-78 | on success the list is sorted by kind, stable per kind, a permutation of the enriched input, and every VLAN carries its derived name |
| Engine.ValidateRejects | test/index_test.js:80-124 | on failure the message is that of a conflict the list really has |
| Engine.SingleIsList | test/index_test.js:146-152 | one descriptor is validated exactly as the one-element list |
| Engine.BackendNames | test/index_test.js:26-30 | the two exported renderer names differ, and the tree starts with the networkd one |
| Engine.OrderingExample | test/index_test.js:57-78 | the mixed list of the test comes out as eth0, eth1, eth0.10, eth1.10, br0 |
| Engine.DuplicateVlanExample | test/index_test.js:80-95 | the second VLAN 10 on eth0 is rejected with `Can't have same VLAN ID on interface eth0` |
| Engine.OverlappingBridgesExample | test/index_test.js:97-110 | eth0 in br0 and br1 is rejected with `Interface "eth0" is bridged in "br0" and "br1"` |
| Engine.SameBridgeTwiceAccepted | test/index_test.js:97-110 | two descriptors of one bridge, br0, both listing eth0 are accepted: the conflict needs two differently named bridges |
| Engine.VlanWithBridgeExample | test/index_test.js:112-124 | VLAN 10 of eth1 with bridge ports is rejected with `VLAN 10 in "eth1" cannot have bridged interfaces` |
| Engine.VlanNamesExample | test/index_test.js:126-144 | VLANs of eth0 and enx00e04c534458 are named eth0.10 and 00e04c534458.10 |
| Engine.SetBackend | test/index_test.js:33-41 | the renderer becomes the given string and nothing else changes |
| Engine.Configure | test/index_test.js:80-152 | a rejected list returns its message and leaves the tree untouched (nothing is written); an accepted one replaces the tree by the tree's configure of the ordered list and returns its writes |

## Left out

- YAML serialisation (`yaml.safeDump`, src/netplan/index.js:30) comes from
  a foreign library. The model returns the document itself as the value
  that would be serialised.
- Filesystem effects are not performed. These are `ensureDir`, `readdir`
  and `writeFile` in src/netplan/index.js:20-34 and `fs.writeFile` in
  src/helpers/udev.js:13. The listing is a parameter, the writes are
  returned values, and their errors are not modelled.
- `restartService`, a concurrent race over external processes, is not
  modelled. `Engine.Configure` never restarts anything, matching
  test/index_test.js:77 and 151.
- The internals of `config.generate` (`config.js`) are not part of this
  model. `Netplan.Generate` stands in for them. It merges the descriptor's
  properties into the entry of its kind, property by property, with the
  last write winning. The entry is keyed by interface for physical
  interfaces and bridges and by ifname for VLANs. A VLAN entry also gets
  `id` and `link`, and a bridge entry gets `ports`.
- `src/index.js` is not part of this model; the test assertions decide
  the front end's behaviour. Three choices follow from that:
  - Conflicts are looked for descriptor by descriptor, in input order, and
    the first one found is reported. For each descriptor the checks come in
    this order: vlanid together with bridge_ports, then an earlier VLAN with
    the same interface and id, then a port an earlier bridge of another
    name already lists. The tests show one conflict per list, so they do
    not fix this order.
  - Two descriptors with the same bridge name that list the same port are
    one bridge, not a conflict: the tree keeps the later one's ports. The
    tests only use distinct bridge names.
  - A derived VLAN name replaces any ifname the caller gave.
- JavaScript enumerates integer-like object keys first, in numeric order.
  This reordering of `for...in` is not modelled: section keys come out in
  the order they were first set.
- The `enx` rule takes "hexadecimal token" as one or more hex digits of
  either case.
- A vlanid is a positive integer. Other JavaScript values for it are not
  modelled. The model's integers are unbounded, while JavaScript numbers
  are doubles: an id above 2^53 loses precision there, and from 10^21 on
  a template literal prints it in exponent form ("1e+21"). `NatToString`
  prints every digit, so names and messages of such ids differ.
- Pass-through values (`Values.Value`) are strings, integers, booleans,
  lists of strings, null and nested objects. Non-integer numbers,
  `undefined` and lists holding anything but strings are not modelled, as
  none of the cited code inspects them. An object stringifies as
  `[object Object]`, as it does without a custom `toString`. An `Int` is
  unbounded; the precision and exponent-form differences of the vlanid
  line apply to it and to `IntToString` too.
- A descriptor's `fields` never hold the keys `interface`, `vlanid`,
  `bridge_ports` or `ifname`: those are its typed fields. This is a
  convention of the data model, not a checked predicate.
- Before the first `configure` the sections are absent in JavaScript
  (src/netplan/index.js:12-17). The model starts them empty. The rule loop
  of `writeConfig` (line 38) treats both alike, but the serialised document
  (line 30) does not: in JavaScript it has no `ethernets`, `vlans` or
  `bridges` keys, while the document of `Netplan.Written` carries three
  empty sections.
- The shallow copy at src/netplan/index.js:56 needs no counterpart.
  Descriptors are values, so the tree cannot alias the caller's objects.
