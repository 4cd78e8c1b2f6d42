/**
 * `FaucetTopology`: the object that owns the topology document, the MAC bindings and the
 * generated ACL files, and updates them step by step at start-up and whenever a MAC is
 * steered to (or released from) a set of ports. Each method is proved against the
 * specification functions of the `Topo`, `Fabric` and `PortAcls` modules.
 */
module Faucet {
  import opened Wrappers
  import opened Strings
  import opened PyDict
  import opened Acl
  import opened Templates
  import opened Classifier
  import opened Topo
  import opened Fabric
  import opened PortAcls

  class FaucetTopology {
    /** Name of the uplink switch (`pri.name`), which names the fabric ACLs. */
    const switchName: string
    /** `_device_specs`, loaded once at construction. */
    const deviceSpecs: DeviceSpecs
    /** The ACL template files, by path. */
    const templates: Library
    /** `_mac_map`. */
    var macMap: Bindings
    /** `topology`, the network document being spliced. */
    var topology: Document
    /** The document last written to the output network file, if any. */
    var written: Option<Document>
    /** The generated ACL files currently on disk, by path. */
    var files: Files

    /** The bindings are a dictionary: no MAC is bound twice. */
    ghost predicate Valid()
      reads this
    {
      DistinctKeys(macMap)
    }

    /** A topology over a loaded network document, with no MAC bound yet. */
    constructor (switchName: string, deviceSpecs: DeviceSpecs, templates: Library, topology: Document, files: Files)
      ensures this.switchName == switchName && this.deviceSpecs == deviceSpecs && this.templates == templates
      ensures this.topology == topology && this.files == files
      ensures macMap == [] && written == None
      ensures Valid()
    {
      this.switchName := switchName;
      this.deviceSpecs := deviceSpecs;
      this.templates := templates;
      this.topology := topology;
      this.files := files;
      macMap := [];
      written := None;
    }

    /** `get_sec_port`: scans the secondary switch's interfaces for the first stacking one. */
    method GetSecPort() returns (r: Result<Option<int>, Error>)
      ensures r == StackPort(topology)
    {
      if SecName !in topology.dps {
        return Err(MissingKey("dps.sec"));
      }
      var ifs := topology.dps[SecName].interfaces;
      var i := 0;
      while i < |ifs|
        invariant 0 <= i <= |ifs|
        invariant forall j :: 0 <= j < i ==> !IsStacked(ifs[j])
      {
        if ifs[i].value.stack.Some? {
          assert FirstWhere(ifs, IsStacked) == i;
          if ifs[i].value.stack.value.dp == "pri" {
            return Ok(Some(ifs[i].key));
          }
          return Err(StackNotPri);
        }
        i := i + 1;
      }
      return Ok(None);
    }

    /** `get_device_intfs`: collects the secondary switch's non-stacking interfaces in order. */
    method GetDeviceIntfs() returns (r: Result<seq<DeviceIntf>, Error>)
      ensures SecName !in topology.dps ==> r == Err(MissingKey("dps.sec"))
      ensures SecName in topology.dps ==> r == Ok(DeviceIntfs(topology.dps[SecName].interfaces))
    {
      if SecName !in topology.dps {
        return Err(MissingKey("dps.sec"));
      }
      var ifs := topology.dps[SecName].interfaces;
      var intfs: seq<DeviceIntf> := [];
      var i := 0;
      while i < |ifs|
        invariant 0 <= i <= |ifs|
        invariant intfs == DeviceIntfs(ifs[..i])
      {
        assert ifs[..i + 1][..i] == ifs[..i];
        if ifs[i].value.stack.None? {
          var name := if ifs[i].value.name.Some? then ifs[i].value.name.value else "sec-" + IntToString(ifs[i].key);
          intfs := intfs + [DeviceIntf(ifs[i].key, name)];
        }
        i := i + 1;
      }
      assert ifs[..i] == ifs;
      return Ok(intfs);
    }

    /**
     * `_append_acl_template`: appends the template's rules, resolved for `mac`, and reports
     * whether the template exists; a template without its rule list fails and appends nothing.
     */
    method AppendAclTemplate(rules: seq<Rule>, template: string, mac: Option<string>) returns (found: bool, out: seq<Rule>, err: Option<Error>)
      ensures match TemplateRules(templates, template, mac)
              case Err(e) => err == Some(e) && out == rules
              case Ok(None) => err.None? && !found && out == rules
              case Ok(Some(rs)) => err.None? && found && out == rules + rs
    {
      var file := TemplateFile(template);
      if file !in templates {
        return false, rules, None;
      }
      if RulesKey(template) !in templates[file] {
        return false, rules, Some(TemplateKeyMissing(template));
      }
      var ts := templates[file][RulesKey(template)];
      out := rules;
      var i := 0;
      while i < |ts|
        invariant 0 <= i <= |ts|
        invariant |out| == |rules| + i && out[..|rules|] == rules
        invariant forall j :: 0 <= j < i ==> out[|rules| + j] == ResolveRule(ts[j], mac)
      {
        out := out + [ResolveRule(ts[i], mac)];
        i := i + 1;
      }
      found, err := true, None;
    }

    /** `_add_acl_port_rules`: appends the template of the MAC's device type, resolved to the MAC. */
    method AddAclPortRules(rules: seq<Rule>, mac: string) returns (out: seq<Rule>, err: Option<Error>)
      requires deviceSpecs.Specs?
      ensures match DeviceTemplate(deviceSpecs.macAddrs, templates, mac)
              case Err(e) => err == Some(e)
              case Ok(rs) => err.None? && out == rules + rs.GetOr([])
    {
      var deviceType := DeviceType(deviceSpecs.macAddrs, mac);
      var found;
      found, out, err := AppendAclTemplate(rules, deviceType, Some(mac));
    }

    /** `_generate_pri_acls`: rewrites the fabric ACL file from the bindings. */
    method GeneratePriAcls()
      modifies this`files
      ensures files == old(files)[DpAclFile(switchName) := PriAcls(switchName, macMap)]
    {
      var incoming: seq<Rule> := [];
      var portset: seq<Rule> := [];
      var i := 0;
      while i < |macMap|
        invariant 0 <= i <= |macMap|
        invariant |incoming| == i && |portset| == i
        invariant forall j :: 0 <= j < i ==> incoming[j] == IncomingRule(macMap[j].key, macMap[j].value)
        invariant forall j :: 0 <= j < i ==> portset[j] == PortsetRule(macMap[j].key)
      {
        incoming := incoming + [IncomingRule(macMap[i].key, macMap[i].value)];
        portset := portset + [PortsetRule(macMap[i].key)];
        i := i + 1;
      }
      incoming := incoming + [CatchAll(0)];
      portset := portset + [CatchAll(1)];
      assert incoming == IncomingAcl(macMap) && portset == PortsetAcl(macMap);
      files := files[DpAclFile(switchName) := map[IncomingAclName(switchName) := incoming, PortsetAclName(switchName) := portset]];
    }

    /**
     * The loop of `_generate_port_acl` over the bindings: the device rules of every MAC
     * bound to the port, in binding order, and whether any MAC is bound there.
     */
    method CollectPortRules(port: int) returns (rules: seq<Rule>, hasMapping: bool, err: Option<Error>)
      requires deviceSpecs.Specs?
      ensures hasMapping == HasMapping(macMap, port)
      ensures match DeviceRules(deviceSpecs.macAddrs, templates, macMap, port)
              case Err(e) => err == Some(e)
              case Ok(rs) => err.None? && rules == rs
    {
      hasMapping, rules := false, [];
      assert macMap[..0] == [];
      var i := 0;
      while i < |macMap|
        invariant 0 <= i <= |macMap|
        invariant DeviceRules(deviceSpecs.macAddrs, templates, macMap[..i], port) == Ok(rules)
        invariant hasMapping <==> HasMapping(macMap[..i], port)
      {
        assert macMap[..i + 1][..i] == macMap[..i];
        assert forall j :: 0 <= j < i ==> macMap[..i + 1][j] == macMap[..i][j];
        if macMap[i].value.port == port {
          var e;
          rules, e := AddAclPortRules(rules, macMap[i].key);
          if e.Some? {
            assert DeviceRules(deviceSpecs.macAddrs, templates, macMap[..i + 1], port) == Err(e.value);
            DeviceRulesStopsAtError(deviceSpecs.macAddrs, templates, macMap, i + 1, port);
            return rules, true, e;
          }
          assert macMap[..i + 1][i].value.port == port;
          hasMapping := true;
        }
        i := i + 1;
      }
      assert macMap[..i] == macMap;
      err := None;
    }

    /**
     * `_generate_port_acl`: compiles the port's ACL from the MACs bound to it and writes
     * its file, or removes the file when no MAC is bound there.
     */
    method GeneratePortAcl(port: int) returns (err: Option<Error>)
      modifies this`files
      ensures Outcome(files, err) == RegenPort(old(files), deviceSpecs, templates, macMap, port)
    {
      var hasMapping := false;
      var rules: seq<Rule> := [];
      if deviceSpecs.Specs? {
        rules, hasMapping, err := CollectPortRules(port);
        if err.Some? {
          return;
        }
      }
      var file := PortAclFile(SecName, port);
      if hasMapping {
        var found, e;
        found, rules, e := AppendAclTemplate(rules, "baseline", None);
        if e.Some? {
          return e;
        }
        if !found {
          return Some(BaselineMissing);
        }
        files := files[file := map[PortAclName(SecName, port) := rules]];
      } else if file in files {
        files := files - {file};
      } else {
        assert files - {file} == files;
      }
      err := None;
    }

    /**
     * `_generate_port_acls`: regenerates the given port, or every access port in order
     * when none (or port 0) is given, stopping at the first failure.
     */
    method GeneratePortAcls(port: Option<int>) returns (err: Option<Error>)
      modifies this`files
      ensures Outcome(files, err) == RegenPorts(old(files), deviceSpecs, templates, macMap, PortsToRegenerate(port))
    {
      if port.Some? && port.value != 0 {
        assert PortsToRegenerate(port) == [port.value] && [port.value][..0] == [];
        err := GeneratePortAcl(port.value);
        return;
      }
      var ports := PortRange(1, SecPort);
      err := None;
      var p := 1;
      while p < SecPort
        invariant 1 <= p <= SecPort
        invariant Outcome(files, None) == RegenPorts(old(files), deviceSpecs, templates, macMap, ports[..p - 1])
        invariant err.None?
      {
        assert ports[..p][..p - 1] == ports[..p - 1] && ports[p - 1] == p;
        err := GeneratePortAcl(p);
        if err.Some? {
          RegenPortsStopsAtError(old(files), deviceSpecs, templates, macMap, ports, p);
          return;
        }
        p := p + 1;
      }
      assert ports[..p - 1] == ports;
    }

    /** `generate_acls`: the fabric ACL file, then the port ACL files. */
    method GenerateAcls(port: Option<int>) returns (err: Option<Error>)
      modifies this`files
      ensures Outcome(files, err) == Regenerate(old(files), switchName, deviceSpecs, templates, macMap, port)
    {
      GeneratePriAcls();
      err := GeneratePortAcls(port);
    }

    /**
     * `direct_port_traffic`: binds an unbound MAC to a target or unbinds a bound MAC given
     * no target, then regenerates the fabric ACLs and the target's port (every access port
     * on an unbind); any other call changes nothing.
     */
    method DirectPortTraffic(mac: string, target: Option<Target>) returns (err: Option<Error>)
      requires Valid()
      modifies this`macMap, this`files
      ensures Valid()
      ensures var u := UpdateBinding(old(macMap), mac, target);
              && (u.None? ==> macMap == old(macMap) && files == old(files) && err.None?)
              && (u.Some? ==>
                    && macMap == u.value
                    && Outcome(files, err) == Regenerate(old(files), switchName, deviceSpecs, templates, u.value,
                                                         if target.Some? then Some(target.value.port) else None))
    {
      var portNo := if target.Some? then Some(target.value.port) else None;
      if target.None? && mac in Keys(macMap) {
        macMap := Delete(macMap, mac);
      } else if target.Some? && mac !in Keys(macMap) {
        macMap := Set(macMap, mac, target.value);
      } else {
        return None;
      }
      err := GenerateAcls(portNo);
    }

    /**
     * `_add_pri_includes`: includes the fabric ACL file and points interface 1 of the uplink
     * switch at the incoming ACL and each of its port ranges at the portset ACL, failing
     * when any of them already has an `acl_in`.
     */
    method AddPriIncludes() returns (err: Option<Error>)
      modifies this`topology
      ensures err == PriSpliceError(old(topology))
      ensures err.None? ==> topology == PriSpliced(old(topology), switchName)
    {
      topology := topology.(includes := Some(EnsureEntry(topology.includes, []) + [DpAclInclude(switchName)]));
      if "pri" !in topology.dps {
        return Some(MissingKey("dps.pri"));
      }
      var pri := topology.dps["pri"];
      if 1 !in Keys(pri.interfaces) {
        return Some(MissingKey("dps.pri.interfaces.1"));
      }
      var uplink := Get(pri.interfaces, 1).value;
      if uplink.aclIn.Some? {
        return Some(AclInDefined("pri interface"));
      }
      pri := pri.(interfaces := Set(pri.interfaces, 1, uplink.(aclIn := Some(IncomingAclName(switchName)))));
      topology := topology.(dps := topology.dps["pri" := pri]);
      if pri.interfaceRanges.None? {
        return Some(MissingKey("dps.pri.interface_ranges"));
      }
      err := MarkRanges(pri, PortsetAclName(switchName));
      if err.None? {
        var ranges := pri.interfaceRanges.value;
        assert FirstWhere(ranges, HasAclIn) == |ranges|;
        assert ranges[..|ranges|] == ranges && ranges[|ranges|..] == [];
        assert SetAllAclIn(ranges, PortsetAclName(switchName)) + [] == SetAllAclIn(ranges, PortsetAclName(switchName));
      }
    }

    /**
     * The range loop of `_add_pri_includes`: points each port range of the uplink switch
     * at the portset ACL in place, in order, failing at the first range that already has
     * an `acl_in`; the ranges before it keep their new `acl_in`.
     */
    method MarkRanges(pri: Dp, portset: string) returns (err: Option<Error>)
      requires "pri" in topology.dps && topology.dps["pri"] == pri && pri.interfaceRanges.Some?
      modifies this`topology
      ensures var ranges := pri.interfaceRanges.value;
              var i := FirstWhere(ranges, HasAclIn);
              && err == (if i < |ranges| then Some(AclInDefined(ranges[i].key)) else None)
              && topology == old(topology).(dps := old(topology).dps["pri" :=
                   pri.(interfaceRanges := Some(SetAllAclIn(ranges[..i], portset) + ranges[i..]))])
    {
      var ranges := pri.interfaceRanges.value;
      ghost var base := topology;
      var updated: Dict<string, Interface> := [];
      var i := 0;
      assert updated + ranges[i..] == ranges;
      assert pri.(interfaceRanges := Some(ranges)) == pri && base.dps["pri" := pri] == base.dps;
      assert base.(dps := base.dps) == base;
      while i < |ranges|
        invariant 0 <= i <= |ranges|
        invariant forall j :: 0 <= j < i ==> !HasAclIn(ranges[j])
        invariant updated == SetAllAclIn(ranges[..i], portset)
        invariant topology == base.(dps := base.dps["pri" := pri.(interfaceRanges := Some(updated + ranges[i..]))])
      {
        if ranges[i].value.aclIn.Some? {
          assert FirstWhere(ranges, HasAclIn) == i;
          return Some(AclInDefined(ranges[i].key));
        }
        assert ranges[..i + 1] == ranges[..i] + [ranges[i]];
        updated := updated + [Entry(ranges[i].key, ranges[i].value.(aclIn := Some(portset)))];
        assert updated + ranges[i + 1..] == updated[..i] + [updated[i]] + ranges[i + 1..];
        topology := topology.(dps := topology.dps["pri" := pri.(interfaceRanges := Some(updated + ranges[i + 1..]))]);
        i := i + 1;
      }
      assert FirstWhere(ranges, HasAclIn) == |ranges|;
      assert ranges[..i] == ranges;
      err := None;
    }

    /**
     * `_add_port_include`: when the raw template exists, includes the port's ACL file
     * optionally, points the port's interface at the port's ACL and defines that ACL as
     * the raw template's rules, failing when the interface already has an `acl_in` or the
     * ACL is already defined.
     */
    method AddPortInclude(port: int) returns (err: Option<Error>)
      modifies this`topology
      ensures var r := PortInclude(old(topology), TemplateRules(templates, "raw", None), port);
              && (err.None? <==> r.Ok?) && (r.Err? ==> err == Some(r.error)) && (r.Ok? ==> topology == r.value)
    {
      var found, rules, e := AppendAclTemplate([], "raw", None);
      if e.Some? {
        return e;
      }
      if !found {
        return None;
      }
      assert rules == TemplateRules(templates, "raw", None).value.value;
      topology := topology.(optionalIncludes := Some(EnsureEntry(topology.optionalIncludes, []) + [PortAclInclude(SecName, port)]));
      if SecName !in topology.dps {
        return Some(MissingKey("dps.sec"));
      }
      var sec := topology.dps[SecName];
      if port !in Keys(sec.interfaces) {
        return Some(MissingKey("dps.sec.interfaces." + IntToString(port)));
      }
      var iface := Get(sec.interfaces, port).value;
      if iface.aclIn.Some? {
        return Some(AclInDefined(PortAclInclude(SecName, port)));
      }
      var name := PortAclName(SecName, port);
      topology := topology.(dps := topology.dps[SecName := sec.(interfaces := Set(sec.interfaces, port, iface.(aclIn := Some(name))))]);
      var acls := EnsureEntry(topology.acls, map[]);
      if name in acls {
        return Some(AclDefined(name));
      }
      topology := topology.(acls := Some(acls[name := rules]));
      err := None;
    }

    /** `_add_acl_includes`: splices the uplink switch, then each access port in order. */
    method AddAclIncludes() returns (err: Option<Error>)
      modifies this`topology
      ensures var r := AclIncludes(old(topology), switchName, TemplateRules(templates, "raw", None));
              && (err.None? <==> r.Ok?) && (r.Err? ==> err == Some(r.error)) && (r.Ok? ==> topology == r.value)
    {
      err := AddPriIncludes();
      if err.Some? {
        return;
      }
      ghost var start := topology;
      ghost var raw := TemplateRules(templates, "raw", None);
      var ports := PortRange(1, SecPort);
      var p := 1;
      while p < SecPort
        invariant 1 <= p <= SecPort
        invariant PortIncludes(start, raw, ports[..p - 1]) == Ok(topology)
        invariant err.None?
      {
        assert ports[..p][..p - 1] == ports[..p - 1] && ports[p - 1] == p;
        err := AddPortInclude(p);
        if err.Some? {
          PortIncludesStopsAtError(start, raw, ports, p);
          return;
        }
        p := p + 1;
      }
      assert ports[..p - 1] == ports;
    }

    /** `_convert_network_config`: splices the ACL references in and writes the document out. */
    method ConvertNetworkConfig() returns (err: Option<Error>)
      modifies this`topology, this`written
      ensures var r := AclIncludes(old(topology), switchName, TemplateRules(templates, "raw", None));
              && (err.None? <==> r.Ok?) && (r.Err? ==> err == Some(r.error) && written == old(written))
              && (r.Ok? ==> topology == r.value && written == Some(r.value))
    {
      err := AddAclIncludes();
      if err.Some? {
        return;
      }
      written := Some(topology);
    }

    /**
     * `initialize`: converts the network document, then generates every ACL file; the
     * generation is skipped when the conversion fails.
     */
    method Initialize() returns (err: Option<Error>)
      modifies this`topology, this`written, this`files
      ensures var r := AclIncludes(old(topology), switchName, TemplateRules(templates, "raw", None));
              && (r.Err? ==> err == Some(r.error) && files == old(files) && written == old(written))
              && (r.Ok? ==>
                    && topology == r.value && written == Some(r.value)
                    && Outcome(files, err) == Regenerate(old(files), switchName, deviceSpecs, templates, macMap, None))
    {
      err := ConvertNetworkConfig();
      if err.Some? {
        return;
      }
      err := GenerateAcls(None);
    }
  }
}
