# FAUCET ACL compiler of DAQ's `FaucetTopology`, in Dafny

DAQ drives a two-switch FAUCET network: an uplink switch (`pri`) and an access switch
(`sec`). `FaucetTopology` (daq/topology.py) keeps a table of MAC bindings (`_mac_map`:
MAC to access port and port range). From that table it compiles the ACL files the
FAUCET controller loads:

- **fabric ACLs** on the uplink switch. The incoming ACL steers a bound MAC's
  traffic to its port range and drops the rest. The portset ACL sends traffic for a
  bound MAC back over the uplink and allows the rest.
- **one ACL file per access port.** It holds the device-type template rules of the MACs
  bound to that port, followed by the `baseline` template. The file is removed when no
  MAC is bound to the port.

At start-up the class also splices `acl_in` references and include entries into the
network document, and it answers two read-only queries on that document.

The project is organised as follows:

- `wrappers.dfy`: Option and Result.
- `strings.dfy`: the `%d` formatting used in file and ACL names.
- `pydict.dfy`: Python dictionaries as sequences of entries, iterated in insertion order.
- `acl.dfy`: rules, names and file names, and `_add_acl_pri_rule`.
- `templates.dfy`: template loading and placeholder resolution.
- `classifier.dfy`: device type, device group and `_sanitize_mac`.
- `topo.dfy`: the network document, its queries and the start-up splicing.
- `fabric.dfy`: the binding table, the fabric ACLs, and their first-match verdicts.
- `portacls.dfy`: per-port ACLs, and which files a regeneration writes or removes.
- `faucet.dfy`: the class `FaucetTopology`. Its methods update the bindings, the
  document and the files step by step. Each is proved against the functions above.

External data is modelled as values:

- The template files form a `Library`. It maps a template path to the file's `acls`
  mapping. A missing or empty file is an absent path.
- The device specs are `NoSpecs` (no file, or an empty one) or the `macAddrs` table.
- The generated ACL files form a map from path to the file's `acls` mapping. Writing a
  file is a map update, and removing it is a map removal.
- The network document written at start-up is the field `written`.

A Python exception is an `Error` value. This covers a failed `assert` (an `acl_in` or an
ACL already defined, a missing baseline template, a stack not pointing at `pri`) and a
`KeyError` on a missing topology or template key. The error ends the operation, and the
state reached so far stays as it was.

Three behaviours of the code that the model keeps:

- A device type whose template file is missing is skipped silently, because
  `_add_acl_port_rules` ignores the result of `_append_acl_template`. It is not an
  error (`PortAcls.DeviceRulesWithoutTemplates`).
- A port's ACL collects the rules of every MAC bound to that port, in binding order.
- Port 0, like no port, regenerates every access port, because the code tests the port
  with `if port:`.

## Model

| member | source | states |
|---|---|---|
| Strings.NatToString | daq/topology.py:16-19 | `%d` of a natural number is a non-empty string of digits, one digit exactly below ten |
| Strings.IntToString | daq/topology.py:16-19 | `%d` of an integer is non-empty and starts with '-' exactly for negatives |
| Strings.NatToStringInjective | daq/topology.py:16-19 | different numbers format differently |
| Strings.IntToStringInjective | daq/topology.py:16-19 | different integers format differently, so port numbers name files uniquely |
| Strings.StartsWith | daq/topology.py:304-306 | definition: Python's `str.startswith`: the prefix is no longer than the string and is its beginning |
| Strings.CancelAround | daq/topology.py:16-19 | equal formatted names with a common prefix and suffix have equal middles |
| PyDict.Keys | daq/topology.py:176 | dictionary keys in iteration order, one per entry |
| PyDict.IndexOf | daq/topology.py:103-106 | the position of a key is its first occurrence |
| PyDict.Get | daq/topology.py:103 | a lookup succeeds exactly for present keys |
| PyDict.GetAt | daq/topology.py:177 | in a dictionary without duplicate keys, the entry at a position is what its key looks up |
| PyDict.Set | daq/topology.py:106 | assignment keeps the key order for a present key and appends a new key; the key then maps to the value; keys stay distinct |
| PyDict.Delete | daq/topology.py:104 | `del` removes exactly the key's entry: the entries before it stay in place, the ones after it move up one in the same order, and the key is gone from a dictionary |
| PyDict.IndexOfFirst | daq/topology.py:103-106 | a key's first position is the one `IndexOf` finds |
| PyDict.GetAfterSet | daq/topology.py:106 | assigning one key leaves every other key's lookup unchanged |
| PyDict.GetAfterDelete | daq/topology.py:104 | deleting one key leaves every other key's lookup unchanged |
| Acl.IncomingAclName | daq/topology.py:23 | definition: `dp_<switch>_incoming_acl` |
| Acl.PortsetAclName | daq/topology.py:24 | definition: `dp_<switch>_portset_acl` |
| Acl.DpAclInclude | daq/topology.py:18 | definition: `dp_<switch>_port_acls.yaml`, the fabric ACL file as the topology includes it |
| Acl.DpAclFile | daq/topology.py:17-18 | definition: the fabric ACL file under `inst/`, where it is written |
| Acl.PortAclName | daq/topology.py:16 | definition: `dp_<switch>_port_<port>_acl`, with the port in `%d` form |
| Acl.PortAclInclude | daq/topology.py:19 | definition: `port_acls/dp_<switch>_port_<port>_acl.yaml`, a port's ACL file as the topology includes it |
| Acl.PortAclFile | daq/topology.py:17-19 | definition: a port's ACL file under `inst/`, where it is written or removed |
| Acl.TemplateFile | daq/topology.py:20 | definition: `inst/acl_templates/template_<name>_acl.yaml` |
| Acl.RulesKey | daq/topology.py:21 | definition: `@acl:template_<name>_acl`, the key of a template's rule list |
| Acl.FabricAclNamesDistinct | daq/topology.py:23-24 | the incoming and portset ACLs of a switch never share a name |
| Acl.PortAclFileInjective | daq/topology.py:19 | different ports never share an ACL file |
| Acl.PortAclNameInjective | daq/topology.py:16 | different ports never share an ACL name |
| Acl.DpAclFileIsNoPortAclFile | daq/topology.py:17-19 | the fabric ACL file is never a port ACL file |
| Acl.PortRange | daq/topology.py:178 | Python 2 `range(lo, hi)`: hi - lo elements (none if hi <= lo), the i-th being lo + i |
| Acl.Supplied | daq/topology.py:197-200 | `_maybe_apply`: a keyword becomes a field exactly when it was passed, never a null |
| Acl.PriRule | daq/topology.py:202-228 | exactly the supplied keywords become fields; `in_vlan` both matches the VLAN and pops it; `output` is left out exactly when nothing would go in it, and otherwise carries port, ports and the out VLAN |
| Templates.ResolveField | daq/topology.py:300-307 | an absent field stays absent; a MAC placeholder becomes the MAC (null without one); a DNS placeholder is deleted; any other value is untouched |
| Templates.ResolveRule | daq/topology.py:294-296 | only `dl_src` (with the MAC) and `nw_dst` (without one) are resolved; every other modelled part of the rule is kept |
| Templates.ResolveAll | daq/topology.py:293-297 | every template rule is appended, in order, resolved |
| Templates.TemplateRules | daq/topology.py:287-298 | nothing (False) exactly when the template file is missing; a KeyError exactly when the file exists but lacks the template's rule list; otherwise the rule list, resolved rule by rule |
| Templates.ResolveForDevice | daq/topology.py:295-296 | for a device MAC, a `@src_mac:` source becomes that MAC and an `@dns:` destination is dropped |
| Templates.NoDnsPlaceholderLeft | daq/topology.py:295-296 | after resolution for a MAC no rule has a null source or a DNS placeholder in `nw_dst` |
| Templates.PlaceholdersDiffer | daq/topology.py:14-15 | no value starts with both placeholders, so the order of the two tests does not matter |
| Classifier.SanitizeMac | daq/topology.py:275-276 | the result has no ':' and is no longer than the MAC |
| Classifier.SanitizeMacAppend | daq/topology.py:275-276 | removing ':' distributes over concatenation |
| Classifier.SanitizeMacIdempotent | daq/topology.py:275-276 | sanitising twice is sanitising once |
| Classifier.SanitizeMacKeeps | daq/topology.py:275-276 | a string without ':' is unchanged |
| Classifier.SanitizeMacStep | daq/topology.py:275-276 | one separator followed by a colon-free group is dropped |
| Classifier.SanitizeMacColon | daq/topology.py:275-276 | a lone ':' disappears |
| Classifier.SanitizeMacOctets | daq/topology.py:275-276 | a colon-separated MAC of six colon-free octets becomes their concatenation |
| Classifier.DeviceGroupFor | daq/topology.py:278-285 | the spec's group exactly when specs are loaded and the MAC's entry has one; otherwise the MAC without ':' |
| Classifier.DeviceType | daq/topology.py:265-271 | the spec's type when the MAC's entry has one; otherwise "default" |
| Topo.FirstWhere | daq/topology.py:74-75 | the first position satisfying a test, or the length when none does |
| Topo.IsStacked | daq/topology.py:75 | definition: `'stack' in` an interface: the interface has a `stack` entry |
| Topo.HasAclIn | daq/topology.py:128 | definition: `'acl_in' in` an interface: the interface already has an `acl_in` |
| Topo.StackPort | daq/topology.py:71-79 | a missing `sec` switch is a KeyError and no other error but the stack assertion can occur; otherwise the first stacking interface's number when it stacks to `pri`, the assertion failure when it stacks elsewhere, None exactly when no interface stacks |
| Topo.IntfOf | daq/topology.py:88-93 | definition: the entry listed for a non-stacking interface, with its port and its name or `sec-<port>` |
| Topo.DeviceIntfs | daq/topology.py:81-94 | exactly the non-stacking interfaces, each with its name or `sec-<port>` |
| Topo.DeviceIntfsAppend | daq/topology.py:85-93 | the list follows interface order: two stretches of the table give their lists one after the other |
| Topo.DeviceIntfsOne | daq/topology.py:86-93 | an empty table gives an empty list; a stacking interface gives nothing and any other gives one entry with its name or `sec-<port>` |
| Topo.EnsureEntry | daq/topology.py:112-115 | the existing value when present, otherwise the default |
| Topo.SetAllAclIn | daq/topology.py:131-134 | every range keeps its label and gets `acl_in` set |
| Topo.PriSpliceError | daq/topology.py:122-134 | definition: the first failure in source order: no `pri` switch or interface 1 (KeyError), `acl_in` on interface 1 (assertion), no `interface_ranges` (KeyError), `acl_in` on the first range that has one (assertion); none otherwise |
| Topo.PriSpliced | daq/topology.py:122-134 | definition: the document after a successful `_add_pri_includes`: fabric file appended to `include` (created if absent), interface 1 given the incoming ACL, every range given the portset ACL |
| Topo.PriSplicedEffect | daq/topology.py:122-134 | on success, interface 1 and every range had no `acl_in` before; the fabric ACL file is included; interface 1 gets the incoming ACL and every range the portset ACL; nothing else changes |
| Topo.PortSpliceError | daq/topology.py:143-149 | definition: the first failure in source order: no `sec` switch or interface for the port (KeyError), `acl_in` on it (assertion), an ACL of the port's name already defined (assertion); none otherwise |
| Topo.PortSpliced | daq/topology.py:140-150 | definition: the document after a successful `_add_port_include`: the port file appended to `include-optional`, the interface's `acl_in` set to the port's ACL, and that ACL defined as the raw rules |
| Topo.PortInclude | daq/topology.py:136-150 | definition: `_add_port_include` on a document: unchanged without a raw template, the raw template's KeyError, the first splice failure, or the spliced document |
| Topo.PortIncludes | daq/topology.py:119-120 | definition: `_add_port_include` over a list of ports in order, stopping at the first failure |
| Topo.AclIncludes | daq/topology.py:117-120 | definition: `_add_acl_includes`: the uplink splice, then access ports 1..6 in order |
| Topo.PortSplicedEffect | daq/topology.py:136-150 | on success, the port's interface had no `acl_in` and the ACL name was undefined; the interface gets the port's ACL, the ACL is defined as the raw rules and its file is included optionally; no other interface or switch changes |
| Topo.PortAclIncludes | daq/topology.py:140-142 | one optional include per port, in port order |
| Topo.PortAclIncludesLast | daq/topology.py:140-142 | the includes of a port list are those of its prefix plus the last port's |
| Topo.PortIncludesLast | daq/topology.py:119-120 | a successful run over the ports is the last port spliced into the run over the ones before it |
| Topo.PortIncludesFrame | daq/topology.py:117-150 | splicing ports changes no switch but `sec`, and no `sec` interface outside the ports |
| Topo.PortIncludesEffect | daq/topology.py:119-120 | for distinct ports, every port's interface points at its own ACL, which holds the raw rules |
| Topo.PortIncludesFiles | daq/topology.py:140-142 | the optional includes grow by one file per port, in port order |
| Topo.PortIncludesWithoutRaw | daq/topology.py:137-139 | without a raw template, splicing ports leaves the document unchanged |
| Topo.PortIncludesStopsAtError | daq/topology.py:119-120 | after a failing port, the ports after it are not spliced and the error stands |
| Topo.AclIncludesEffect | daq/topology.py:117-150 | start-up splicing as a whole: the uplink is spliced; with a raw template, every access port 1..6 points at its own ACL holding the raw rules; without one, the access ports are untouched |
| Fabric.UpdateBinding | daq/topology.py:100-109 | a change happens exactly when an unbound MAC gets a target or a bound MAC gets none; a bind appends the MAC and its target at the end; an unbind removes the MAC's entry and keeps the other bindings in order; keys stay distinct and the MAC is bound afterwards exactly when a target was given |
| Fabric.UpdateBindingLookup | daq/topology.py:103-106 | after a change, the MAC looks up its new target (or nothing) and every other MAC is unchanged |
| Fabric.UnbindAfterBind | daq/topology.py:103-106 | binding an unbound MAC and then unbinding it restores the table exactly |
| Fabric.IncomingRule | daq/topology.py:178-179 | matches source MAC and VLAN 10 and pops the VLAN; outputs to the ports lo..hi-1; has no other field |
| Fabric.PortsetRule | daq/topology.py:180 | matches the destination MAC; outputs port 1 with VLAN 10; has no other field |
| Fabric.CatchAll | daq/topology.py:182-183 | matches everything and only sets `allow` |
| Fabric.IncomingAcl | daq/topology.py:173-182 | n + 1 rules: rule i is the incoming rule of the i-th bound MAC, and the last is the drop |
| Fabric.PortsetAcl | daq/topology.py:174-183 | n + 1 rules: rule i is the portset rule of the i-th bound MAC, and the last is the allow |
| Fabric.PriAcls | daq/topology.py:185-190 | the fabric file defines exactly the incoming and the portset ACL of the switch |
| Fabric.FieldMatches | daq/topology.py:179-180 | definition: a field the rule leaves out matches any value; a given field matches only its own text |
| Fabric.Matches | daq/topology.py:176-183 | definition: a rule matches a frame when its `dl_src`, `dl_dst` and `vlan_vid` all match |
| Fabric.FirstMatch | daq/topology.py:176-183 | the rule a frame gets under first-match order: it matches, it is in the ACL, and there is none exactly when no rule matches |
| Fabric.FirstMatchAt | daq/topology.py:176-183 | the first matching position decides the verdict |
| Fabric.IncomingVerdict | daq/topology.py:176-182 | a VLAN 10 frame from a bound MAC goes to that MAC's port range; every other frame is dropped |
| Fabric.PortsetVerdict | daq/topology.py:176-183 | a frame for a bound MAC goes to port 1 on VLAN 10; every other frame is allowed |
| Fabric.SteeringFollowsBinding | daq/topology.py:100-110 | after a bind, the MAC's traffic goes to the target's range and traffic for it goes over the uplink; after an unbind, its traffic is dropped and traffic for it passes |
| Fabric.UnbindRemovesRules | daq/topology.py:103-104 | after an unbind, neither fabric ACL has a rule for the MAC |
| PortAcls.HasMapping | daq/topology.py:238-244 | definition: `has_mapping`: some binding is on the port |
| PortAcls.DeviceTemplate | daq/topology.py:264-273 | definition: `_add_acl_port_rules`: the template of the MAC's device type, resolved for that MAC |
| PortAcls.DeviceRules | daq/topology.py:240-244 | the port's device rules succeed exactly when no device template of a MAC on the port fails; on failure, the error is that of a MAC on the port |
| PortAcls.DeviceRulesAppend | daq/topology.py:241-273 | no bindings give no rules; binding one more MAC fails exactly when the earlier bindings fail or the MAC is on the port and its template fails; otherwise the rules grow by that MAC's template rules when it is on the port (nothing for a missing template) and not at all when it is elsewhere |
| PortAcls.AtPort | daq/topology.py:241-242 | definition: the bindings on the port, in binding order |
| PortAcls.AtPortMembers | daq/topology.py:241-242 | the selection of a port keeps exactly the bindings whose port equals it |
| PortAcls.DeviceRulesLocal | daq/topology.py:241-243 | a port's device rules depend only on the bindings at that port |
| PortAcls.DeviceRulesWithoutTemplates | daq/topology.py:273 | a device type without a template adds nothing to the port and is no error |
| PortAcls.DeviceRulesStopsAtError | daq/topology.py:241-244 | once a device template fails, later bindings do not change the error |
| PortAcls.PortAcl | daq/topology.py:237-248 | there is no ACL exactly when specs are missing or no MAC is bound to the port; otherwise it compiles exactly when the device rules succeed and the baseline file has its rule list, and a failing device template's error is passed on unchanged |
| PortAcls.PortAclContents | daq/topology.py:240-250 | for a port with bound MACs whose device rules succeed: a missing baseline file is the assertion failure, a baseline file without its rule list is the KeyError, and otherwise the ACL is the device rules followed by the baseline rules resolved without a MAC |
| PortAcls.PortAclLocal | daq/topology.py:241-242 | only the MACs bound to the port shape its ACL, not their ranges or other ports |
| PortAcls.RegenPort | daq/topology.py:237-253 | definition: `_generate_port_acl` on the files: write the port's ACL file, remove it when the port has no ACL, or fail and leave the files alone |
| PortAcls.RegenPorts | daq/topology.py:230-235 | definition: `_generate_port_acl` over a list of ports in order, stopping at the first failure |
| PortAcls.Regenerate | daq/topology.py:165-168 | definition: `generate_acls`: the fabric file first, then the ports `PortsToRegenerate` selects |
| PortAcls.FileFollows | daq/topology.py:246-253 | definition: a port's file holds exactly its one ACL under the port's ACL name, or is absent when the port has no ACL |
| PortAcls.RegenPortFollows | daq/topology.py:246-253 | one port regenerates without error exactly when its ACL compiles, and then its file holds the ACL or is absent |
| PortAcls.RegenPortKeeps | daq/topology.py:246 | regenerating one port leaves other ports' files as they were |
| PortAcls.RegenPortsStopsAtError | daq/topology.py:234-235 | after a failing port, later ports are not regenerated |
| PortAcls.PortsToRegenerate | daq/topology.py:230-235 | the given port when it is truthy; otherwise ports 1..6 in order |
| PortAcls.RegenPortsScope | daq/topology.py:230-253 | regeneration touches only the regenerated ports' files, even when it fails |
| PortAcls.RegenPortsError | daq/topology.py:230-235 | regeneration fails exactly when some port's ACL fails, with the first such port's error |
| PortAcls.RegenPortsFiles | daq/topology.py:230-253 | after regeneration without error, every regenerated port's file follows its ACL |
| PortAcls.RegenerateEffect | daq/topology.py:165-168 | `generate_acls` rewrites the fabric file from the bindings, touches nothing besides it and the regenerated ports, and leaves those ports following their ACLs |
| PortAcls.RegenerateIdempotent | daq/topology.py:165-168 | regenerating twice with the same bindings gives the files of regenerating once |
| PortAcls.UnbindLeavesNoMapping | daq/topology.py:104 | unbinding the only MAC on a port leaves the port without bindings |
| PortAcls.UnbindClearsPort | daq/topology.py:102-110 | unbinding the only MAC on an access port and regenerating removes that port's file |
| PortAcls.BindWritesPort | daq/topology.py:102-110 | binding a MAC with specs loaded and regenerating its port succeeds exactly when the earlier MACs' device rules, the new MAC's template and the baseline template are well formed; it then writes the port's file with one ACL, named after the port: the earlier MACs' device rules, then the new MAC's template rules, then the baseline rules |
| Faucet.FaucetTopology.constructor | daq/topology.py:26-34 | starts with no bindings, nothing written, and the given specs, templates, document and files |
| Faucet.FaucetTopology.GetSecPort | daq/topology.py:71-79 | the loop returns `StackPort` of the document |
| Faucet.FaucetTopology.GetDeviceIntfs | daq/topology.py:81-94 | the loop returns `DeviceIntfs` of the `sec` interfaces, or the KeyError |
| Faucet.FaucetTopology.AppendAclTemplate | daq/topology.py:287-298 | the loop appends exactly `TemplateRules` to the caller's rules and reports whether the template exists; on a KeyError it appends nothing |
| Faucet.FaucetTopology.AddAclPortRules | daq/topology.py:264-273 | appends the MAC's device-type template, resolved to the MAC; a missing template adds nothing |
| Faucet.FaucetTopology.GeneratePriAcls | daq/topology.py:170-195 | the loop writes the fabric file as `PriAcls` of the bindings and changes no other file |
| Faucet.FaucetTopology.CollectPortRules | daq/topology.py:238-244 | the loop returns the port's `DeviceRules` and whether any MAC is bound there |
| Faucet.FaucetTopology.GeneratePortAcl | daq/topology.py:237-253 | the new files and error are exactly `RegenPort` of the old files |
| Faucet.FaucetTopology.GeneratePortAcls | daq/topology.py:230-235 | the loop's new files and error are exactly `RegenPorts` over `PortsToRegenerate` |
| Faucet.FaucetTopology.GenerateAcls | daq/topology.py:165-168 | the new files and error are exactly `Regenerate` of the old files |
| Faucet.FaucetTopology.DirectPortTraffic | daq/topology.py:100-110 | the bindings become `UpdateBinding`'s result, and then `Regenerate` runs on the target's port (all ports on an unbind); on a no-change nothing changes and no error occurs; no MAC is ever bound twice |
| Faucet.FaucetTopology.AddPriIncludes | daq/topology.py:122-134 | fails exactly with `PriSpliceError`; otherwise the document becomes `PriSpliced` |
| Faucet.FaucetTopology.MarkRanges | daq/topology.py:130-134 | the range loop updates the ranges in place and in order. It fails exactly at the first range that already has an `acl_in`. The ranges before that one keep their portset `acl_in`, and nothing else in the document changes. |
| Faucet.FaucetTopology.AddPortInclude | daq/topology.py:136-150 | fails exactly when `PortInclude` does; otherwise the document becomes its result |
| Faucet.FaucetTopology.AddAclIncludes | daq/topology.py:117-120 | fails exactly when `AclIncludes` does; otherwise the document becomes its result |
| Faucet.FaucetTopology.ConvertNetworkConfig | daq/topology.py:96-98 | the spliced document is written out exactly when splicing succeeds |
| Faucet.FaucetTopology.Initialize | daq/topology.py:36-40 | splices and writes the document, then regenerates every ACL file; nothing is generated when splicing fails |

## Left out

- `start` and `stop` (daq/topology.py:42-53) run shell commands on the controller host. They are process control, outside the compiler.
- `get_sec_intf` and `get_sec_dpid` (daq/topology.py:63-69) are single key lookups that the ACL compiler does not use.
- YAML parsing and dumping, and the file system, are not modelled (`_load_file`, `_load_base_network_topology`, `_write_network_topology`, `_write_port_acl`). Loaded files are parameters. Written files are map entries. The key order of dumped YAML does not matter, because `yaml.safe_dump` sorts keys.
- Logging has no effect on the state and is not modelled.
- The constructor's check that a network document was found (daq/topology.py:34) is not modelled. The constructor takes an already loaded document.
- Malformed input shapes are excluded by the types and not modelled. The code raises on each of them. The model either cannot represent the input or goes on without an error. These are:
  - a template entry without `rule`;
  - a template file without `acls`;
  - a `dl_src` or `nw_dst` that is null or not a string;
  - device specs without `macAddrs`;
  - a target without `port` or `range`;
  - interface keys that are not integers;
  - a `stack` entry without `dp`, which raises a KeyError at daq/topology.py:77;
  - a switch without `interfaces`, which raises a KeyError at daq/topology.py:73, 84, 127 or 143. Every modelled switch has an interface table;
  - any key present with a YAML null value. The model's `Option` treats it as an absent key. So an `include`, `include-optional` or `acls` entry set to null, on which the code raises at daq/topology.py:126, 142 or 149, is created fresh in the model, and the splice succeeds. An `interface_ranges` set to null, on which the code raises at daq/topology.py:131, is a KeyError in the model, which also fails.
- Dictionary iteration order is fixed as insertion order (the `PyDict` module). The code runs on Python 2, where `_mac_map` and the dictionaries `yaml.safe_load` builds iterate in hash order. So the order of the fabric rules, the order of several MACs' rules in one port ACL, which stacking interface `get_sec_port` finds first and the order `get_device_intfs` lists are one possible order, not one the source guarantees. Fabric.IncomingVerdict and Fabric.PortsetVerdict hold for every order of the bindings, because they hold for every binding sequence.
- Acl.Rule carries only the fields the compiler reads or writes (`dl_src`, `dl_dst`, `vlan_vid`, `nw_dst`, and the `output` and `allow` actions). Other match fields and actions of a template rule, such as `dl_type`, `nw_proto` or `tp_dst`, are copied unchanged by the code but are not represented. So "every other part of the rule is kept" covers only the modelled fields.
- YAML anchors that make two interfaces the same object are not modelled. Interfaces are values, so the model has no aliasing between them.
- Template files are read once into the library. The source re-reads them on every call, but they do not change during a run.
- Fabric.Matches models FAUCET's rule matching only on `dl_src`, `dl_dst` and `vlan_vid`, the fields the fabric ACLs use. It is not a general FAUCET matcher.
- Faucet.FaucetTopology.AddPriIncludes: after a failed assertion or KeyError, its own contract does not state the partly changed document. The body changes the document in the source's order, and Faucet.FaucetTopology.MarkRanges states the document after a failing range. The error is fatal at start-up.
- Faucet.FaucetTopology.AddPortInclude: after a failure, the contract does not state the partly changed document. For example, the optional include may already have been appended.
- Faucet.FaucetTopology.AddAclIncludes: after a failure, the contract does not state the partly changed document.
- Faucet.FaucetTopology.ConvertNetworkConfig: after a failure, the contract does not state the document. Nothing is written in that case.
- Faucet.FaucetTopology.Initialize: after a splicing failure, the contract does not state the document.
- The daq.py and docker_test.py files are not part of this model. They are network emulation and container lifecycle code.
