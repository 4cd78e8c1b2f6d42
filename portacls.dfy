/**
 * The per-port ACLs of the access switch and the regeneration of the generated ACL
 * files: which device templates feed a port's ACL, when the port's file is written or
 * removed, and which files one regeneration touches.
 */
module PortAcls {
  import opened Wrappers
  import opened PyDict
  import opened Acl
  import opened Templates
  import opened Classifier
  import opened Fabric
  import opened Topo

  /** The generated ACL files by path, each holding its `acls` mapping. */
  type Files = map<string, AclFile>

  /** The files after a regeneration, and the error that cut it short, if any. */
  datatype Outcome = Outcome(files: Files, error: Option<Error>)

  /** Some MAC is bound to the port. */
  predicate HasMapping(m: Bindings, port: int) {
    exists i :: 0 <= i < |m| && m[i].value.port == port
  }

  /** What `_add_acl_port_rules` appends for a MAC: its device type's template, resolved to that MAC. */
  function DeviceTemplate(macAddrs: map<string, DeviceInfo>, lib: Library, mac: string): Result<Option<seq<Rule>>, Error> {
    TemplateRules(lib, DeviceType(macAddrs, mac), Some(mac))
  }

  /**
   * The device rules of a port: for every MAC bound to it, in binding order, the rules of
   * its device template; the first template that fails aborts the port.
   */
  function DeviceRules(macAddrs: map<string, DeviceInfo>, lib: Library, m: Bindings, port: int): (r: Result<seq<Rule>, Error>)
    ensures r.Ok? <==> forall i :: 0 <= i < |m| && m[i].value.port == port ==> DeviceTemplate(macAddrs, lib, m[i].key).Ok?
    ensures r.Err? ==> exists i :: 0 <= i < |m| && m[i].value.port == port && DeviceTemplate(macAddrs, lib, m[i].key) == Err(r.error)
    decreases |m|
  {
    if |m| == 0 then Ok([])
    else
      var prefix := m[..|m| - 1];
      var last := m[|m| - 1];
      assert forall i :: 0 <= i < |m| - 1 ==> prefix[i] == m[i];
      var prev :- DeviceRules(macAddrs, lib, prefix, port);
      if last.value.port != port then Ok(prev)
      else
        var rs :- DeviceTemplate(macAddrs, lib, last.key);
        Ok(prev + rs.GetOr([]))
  }

  /**
   * Binding one more MAC: the port's device rules grow by that MAC's template rules when it
   * is bound to the port (nothing for a missing template), and fail when its template does.
   */
  lemma DeviceRulesAppend(macAddrs: map<string, DeviceInfo>, lib: Library, m: Bindings, e: Entry<string, Target>, port: int)
    ensures DeviceRules(macAddrs, lib, [], port) == Ok([])
    ensures var r := DeviceRules(macAddrs, lib, m + [e], port);
            var prev := DeviceRules(macAddrs, lib, m, port);
            var t := DeviceTemplate(macAddrs, lib, e.key);
            && (r.Ok? <==> prev.Ok? && (e.value.port == port ==> t.Ok?))
            && (r.Ok? ==> r.value == prev.value + if e.value.port == port then t.value.GetOr([]) else [])
  {
    assert (m + [e])[..|m|] == m;
    assert (m + [e])[|m|] == e;
  }

  /** Only the bindings on the port, in binding order. */
  function AtPort(m: Bindings, port: int): Bindings
    decreases |m|
  {
    if |m| == 0 then []
    else
      var prev := AtPort(m[..|m| - 1], port);
      if m[|m| - 1].value.port == port then prev + [m[|m| - 1]] else prev
  }

  /** The bindings kept are exactly those on the port. */
  lemma {:induction false} AtPortMembers(m: Bindings, port: int)
    ensures forall e :: e in AtPort(m, port) <==> e in m && e.value.port == port
    decreases |m|
  {
    if |m| > 0 {
      AtPortMembers(m[..|m| - 1], port);
      assert forall e :: e in m <==> e in m[..|m| - 1] || e == m[|m| - 1];
    }
  }

  /** A port's device rules come from the MACs bound to it alone, whatever else is bound. */
  lemma {:induction false} DeviceRulesLocal(macAddrs: map<string, DeviceInfo>, lib: Library, m: Bindings, port: int)
    ensures DeviceRules(macAddrs, lib, m, port) == DeviceRules(macAddrs, lib, AtPort(m, port), port)
    decreases |m|
  {
    if |m| > 0 {
      var prefix := m[..|m| - 1];
      var last := m[|m| - 1];
      assert m == prefix + [last];
      DeviceRulesLocal(macAddrs, lib, prefix, port);
      DeviceRulesAppend(macAddrs, lib, prefix, last, port);
      if last.value.port == port {
        assert AtPort(m, port) == AtPort(prefix, port) + [last];
        DeviceRulesAppend(macAddrs, lib, AtPort(prefix, port), last, port);
      } else {
        assert AtPort(m, port) == AtPort(prefix, port);
      }
    }
  }

  /**
   * A device type without a template file adds nothing to the port (its absence is not
   * an error): with no device template present, a port's device rules are empty.
   */
  lemma {:induction false} DeviceRulesWithoutTemplates(macAddrs: map<string, DeviceInfo>, lib: Library, m: Bindings, port: int)
    requires forall i :: 0 <= i < |m| && m[i].value.port == port ==> TemplateFile(DeviceType(macAddrs, m[i].key)) !in lib
    ensures DeviceRules(macAddrs, lib, m, port) == Ok([])
    decreases |m|
  {
    if |m| > 0 {
      var prefix := m[..|m| - 1];
      assert forall i :: 0 <= i < |prefix| ==> prefix[i] == m[i];
      DeviceRulesWithoutTemplates(macAddrs, lib, prefix, port);
      var last := m[|m| - 1];
      if last.value.port == port {
        assert DeviceTemplate(macAddrs, lib, last.key) == Ok(None);
        assert [] + Option<seq<Rule>>.None.GetOr([]) == [];
      }
    }
  }

  /** Once a device template fails, binding more MACs does not change the error. */
  lemma {:induction false} DeviceRulesStopsAtError(macAddrs: map<string, DeviceInfo>, lib: Library, m: Bindings, n: nat, port: int)
    requires n <= |m|
    requires DeviceRules(macAddrs, lib, m[..n], port).Err?
    ensures DeviceRules(macAddrs, lib, m, port) == DeviceRules(macAddrs, lib, m[..n], port)
    decreases |m| - n
  {
    if n < |m| {
      assert m[..n + 1][..n] == m[..n];
      DeviceRulesStopsAtError(macAddrs, lib, m, n + 1, port);
    } else {
      assert m[..n] == m;
    }
  }

  /**
   * The ACL `_generate_port_acl` compiles for a port: none when no device specs are
   * loaded or no MAC is bound to the port; otherwise the device rules followed by the
   * baseline template's rules, failing when a template is malformed or the baseline is
   * missing.
   */
  function PortAcl(specs: DeviceSpecs, lib: Library, m: Bindings, port: int): (r: Result<Option<seq<Rule>>, Error>)
    ensures r == Ok(None) <==> specs.NoSpecs? || !HasMapping(m, port)
    ensures r.Ok? <==> || specs.NoSpecs? || !HasMapping(m, port)
                       || (&& DeviceRules(specs.macAddrs, lib, m, port).Ok?
                           && TemplateFile("baseline") in lib && RulesKey("baseline") in lib[TemplateFile("baseline")])
    ensures r.Ok? && r.value.Some? ==> specs.Specs? && DeviceRules(specs.macAddrs, lib, m, port).Ok?
    ensures specs.Specs? && HasMapping(m, port) && DeviceRules(specs.macAddrs, lib, m, port).Err? ==>
              r == Err(DeviceRules(specs.macAddrs, lib, m, port).error)
  {
    if specs.NoSpecs? || !HasMapping(m, port) then Ok(None)
    else
      var rules :- DeviceRules(specs.macAddrs, lib, m, port);
      var baseline :- TemplateRules(lib, "baseline", None);
      if baseline.None? then Err(BaselineMissing) else Ok(Some(rules + baseline.value))
  }

  /**
   * A compiled port ACL starts with the rules of its MACs' device templates, in binding
   * order, and ends with every baseline rule resolved without a MAC; a port with bound
   * MACs and device specs but no baseline template fails.
   */
  lemma PortAclContents(specs: DeviceSpecs, lib: Library, m: Bindings, port: int)
    requires specs.Specs? && HasMapping(m, port) && DeviceRules(specs.macAddrs, lib, m, port).Ok?
    ensures TemplateFile("baseline") !in lib ==> PortAcl(specs, lib, m, port) == Err(BaselineMissing)
    ensures TemplateFile("baseline") in lib && RulesKey("baseline") !in lib[TemplateFile("baseline")] ==>
              PortAcl(specs, lib, m, port) == Err(TemplateKeyMissing("baseline"))
    ensures TemplateFile("baseline") in lib && RulesKey("baseline") in lib[TemplateFile("baseline")] ==>
              var device := DeviceRules(specs.macAddrs, lib, m, port).value;
              var base := lib[TemplateFile("baseline")][RulesKey("baseline")];
              PortAcl(specs, lib, m, port) == Ok(Some(device + ResolveAll(base, None)))
  {
    if TemplateFile("baseline") in lib && RulesKey("baseline") in lib[TemplateFile("baseline")] {
      var base := lib[TemplateFile("baseline")][RulesKey("baseline")];
      assert TemplateRules(lib, "baseline", None) == Ok(Some(ResolveAll(base, None)));
    }
  }

  /** Only the MACs bound to a port, not their ranges or other ports' bindings, shape its ACL. */
  lemma PortAclLocal(specs: DeviceSpecs, lib: Library, m: Bindings, port: int)
    ensures PortAcl(specs, lib, m, port) == PortAcl(specs, lib, AtPort(m, port), port)
  {
    if specs.Specs? {
      DeviceRulesLocal(specs.macAddrs, lib, m, port);
      AtPortMembers(m, port);
      if HasMapping(m, port) {
        var i :| 0 <= i < |m| && m[i].value.port == port;
        assert m[i] in AtPort(m, port);
      }
      if HasMapping(AtPort(m, port), port) {
        var i :| 0 <= i < |AtPort(m, port)| && AtPort(m, port)[i].value.port == port;
        assert AtPort(m, port)[i] in m;
      }
    }
  }

  /**
   * `_generate_port_acl` on the files: the port's file is written with its ACL, removed
   * when the port has none, or left alone when compiling the ACL fails.
   */
  function RegenPort(files: Files, specs: DeviceSpecs, lib: Library, m: Bindings, port: int): Outcome {
    match PortAcl(specs, lib, m, port)
    case Err(e) => Outcome(files, Some(e))
    case Ok(Some(rules)) => Outcome(files[PortAclFile(SecName, port) := map[PortAclName(SecName, port) := rules]], None)
    case Ok(None) => Outcome(files - {PortAclFile(SecName, port)}, None)
  }

  /** `_generate_port_acl` over `ports` in order; the first failure stops the rest. */
  function RegenPorts(files: Files, specs: DeviceSpecs, lib: Library, m: Bindings, ports: seq<int>): Outcome
    decreases |ports|
  {
    if |ports| == 0 then Outcome(files, None)
    else
      var o := RegenPorts(files, specs, lib, m, ports[..|ports| - 1]);
      if o.error.Some? then o else RegenPort(o.files, specs, lib, m, ports[|ports| - 1])
  }

  /** Once a port fails, the ports after it are not regenerated and the error stands. */
  lemma {:induction false} RegenPortsStopsAtError(files: Files, specs: DeviceSpecs, lib: Library, m: Bindings, ports: seq<int>, n: nat)
    requires n <= |ports|
    requires RegenPorts(files, specs, lib, m, ports[..n]).error.Some?
    ensures RegenPorts(files, specs, lib, m, ports) == RegenPorts(files, specs, lib, m, ports[..n])
    decreases |ports| - n
  {
    if n < |ports| {
      assert ports[..n + 1][..n] == ports[..n];
      RegenPortsStopsAtError(files, specs, lib, m, ports, n + 1);
    } else {
      assert ports[..n] == ports;
    }
  }

  /**
   * The ports `_generate_port_acls` regenerates: the given one, or every access port
   * 1 .. SecPort - 1 when it is given none (or port 0, which Python treats as none).
   */
  function PortsToRegenerate(port: Option<int>): (ps: seq<int>)
    ensures port.Some? && port.value != 0 ==> ps == [port.value]
    ensures !(port.Some? && port.value != 0) ==> |ps| == SecPort - 1 && forall i :: 0 <= i < |ps| ==> ps[i] == i + 1
  {
    if port.Some? && port.value != 0 then [port.value] else PortRange(1, SecPort)
  }

  /** `generate_acls`: the fabric ACL file first, then the port ACL files. */
  function Regenerate(files: Files, sw: string, specs: DeviceSpecs, lib: Library, m: Bindings, port: Option<int>): Outcome {
    RegenPorts(files[DpAclFile(sw) := PriAcls(sw, m)], specs, lib, m, PortsToRegenerate(port))
  }

  /** What a port's file holds once it is regenerated: its ACL, or no file at all. */
  predicate FileFollows(files: Files, specs: DeviceSpecs, lib: Library, m: Bindings, port: int) {
    match PortAcl(specs, lib, m, port)
    case Ok(Some(rules)) => PortAclFile(SecName, port) in files && files[PortAclFile(SecName, port)] == map[PortAclName(SecName, port) := rules]
    case Ok(None) => PortAclFile(SecName, port) !in files
    case Err(_) => false
  }

  /** A regeneration of `ports` touches no file but those ports' files, whether or not it fails. */
  lemma {:induction false} RegenPortsScope(files: Files, specs: DeviceSpecs, lib: Library, m: Bindings, ports: seq<int>, f: string)
    requires forall p :: p in ports ==> f != PortAclFile(SecName, p)
    ensures var o := RegenPorts(files, specs, lib, m, ports);
            (f in o.files <==> f in files) && (f in files ==> o.files[f] == files[f])
    decreases |ports|
  {
    if |ports| > 0 {
      RegenPortsScope(files, specs, lib, m, ports[..|ports| - 1], f);
    }
  }

  /** Regenerating one port makes its file follow its ACL unless that fails. */
  lemma RegenPortFollows(files: Files, specs: DeviceSpecs, lib: Library, m: Bindings, port: int)
    ensures var o := RegenPort(files, specs, lib, m, port);
            (o.error.None? <==> PortAcl(specs, lib, m, port).Ok?) &&
            (o.error.Some? ==> PortAcl(specs, lib, m, port) == Err(o.error.value)) &&
            (o.error.None? ==> FileFollows(o.files, specs, lib, m, port))
  {
  }

  /** Regenerating one port keeps another port's file following that port's ACL. */
  lemma RegenPortKeeps(files: Files, specs: DeviceSpecs, lib: Library, m: Bindings, port: int, q: int)
    requires FileFollows(files, specs, lib, m, q)
    ensures FileFollows(RegenPort(files, specs, lib, m, port).files, specs, lib, m, q)
  {
    if PortAclFile(SecName, q) == PortAclFile(SecName, port) {
      PortAclFileInjective(SecName, q, port);
    }
  }

  /**
   * A regeneration fails exactly when some port's ACL fails, with the error of the first
   * such port.
   */
  lemma {:induction false} RegenPortsError(files: Files, specs: DeviceSpecs, lib: Library, m: Bindings, ports: seq<int>)
    ensures var o := RegenPorts(files, specs, lib, m, ports);
            && (o.error.None? <==> forall p :: p in ports ==> PortAcl(specs, lib, m, p).Ok?)
            && (o.error.Some? ==> exists i :: 0 <= i < |ports| && PortAcl(specs, lib, m, ports[i]) == Err(o.error.value) &&
                                               forall j :: 0 <= j < i ==> PortAcl(specs, lib, m, ports[j]).Ok?)
    decreases |ports|
  {
    if |ports| > 0 {
      var ps := ports[..|ports| - 1];
      var p := ports[|ports| - 1];
      RegenPortsError(files, specs, lib, m, ps);
      assert forall q :: q in ports <==> q in ps || q == p;
      var o1 := RegenPorts(files, specs, lib, m, ps);
      var o := RegenPorts(files, specs, lib, m, ports);
      if o1.error.None? {
        RegenPortFollows(o1.files, specs, lib, m, p);
        assert o == RegenPort(o1.files, specs, lib, m, p);
        if o.error.Some? {
          var i := |ports| - 1;
          assert forall j :: 0 <= j < i ==> ports[j] == ps[j] && ps[j] in ps;
          assert PortAcl(specs, lib, m, ports[i]) == Err(o.error.value);
        }
      } else {
        assert o == o1;
        var i :| 0 <= i < |ps| && PortAcl(specs, lib, m, ps[i]) == Err(o1.error.value) &&
                 forall j :: 0 <= j < i ==> PortAcl(specs, lib, m, ps[j]).Ok?;
        assert ports[i] == ps[i];
        assert forall j :: 0 <= j < i ==> ports[j] == ps[j];
        assert ps[i] in ports;
      }
    }
  }

  /** When a regeneration does not fail, every port's file follows that port's ACL. */
  lemma {:induction false} RegenPortsFiles(files: Files, specs: DeviceSpecs, lib: Library, m: Bindings, ports: seq<int>)
    requires RegenPorts(files, specs, lib, m, ports).error.None?
    ensures forall p :: p in ports ==> FileFollows(RegenPorts(files, specs, lib, m, ports).files, specs, lib, m, p)
    decreases |ports|
  {
    if |ports| > 0 {
      var ps := ports[..|ports| - 1];
      var p := ports[|ports| - 1];
      var o1 := RegenPorts(files, specs, lib, m, ps);
      assert o1.error.None?;
      RegenPortsFiles(files, specs, lib, m, ps);
      RegenPortFollows(o1.files, specs, lib, m, p);
      forall q | q in ports ensures FileFollows(RegenPorts(files, specs, lib, m, ports).files, specs, lib, m, q) {
        if q != p {
          assert q in ps;
          RegenPortKeeps(o1.files, specs, lib, m, p, q);
        }
      }
    }
  }

  /**
   * `generate_acls` always rewrites the fabric ACL file from the bindings, touches no file
   * besides it and the regenerated ports' files, and, when it does not fail, leaves every
   * regenerated port's file following that port's ACL.
   */
  lemma RegenerateEffect(files: Files, sw: string, specs: DeviceSpecs, lib: Library, m: Bindings, port: Option<int>)
    ensures var o := Regenerate(files, sw, specs, lib, m, port);
            && DpAclFile(sw) in o.files && o.files[DpAclFile(sw)] == PriAcls(sw, m)
            && (forall f :: f != DpAclFile(sw) && (forall p :: p in PortsToRegenerate(port) ==> f != PortAclFile(SecName, p)) ==>
                  (f in o.files <==> f in files) && (f in files ==> o.files[f] == files[f]))
            && (o.error.None? ==> forall p :: p in PortsToRegenerate(port) ==> FileFollows(o.files, specs, lib, m, p))
  {
    var ports := PortsToRegenerate(port);
    var f0 := files[DpAclFile(sw) := PriAcls(sw, m)];
    forall p | p in ports ensures DpAclFile(sw) != PortAclFile(SecName, p) {
      DpAclFileIsNoPortAclFile(sw, SecName, p);
    }
    RegenPortsScope(f0, specs, lib, m, ports, DpAclFile(sw));
    forall f | f != DpAclFile(sw) && (forall p :: p in ports ==> f != PortAclFile(SecName, p))
      ensures var o := RegenPorts(f0, specs, lib, m, ports);
              (f in o.files <==> f in files) && (f in files ==> o.files[f] == files[f])
    {
      RegenPortsScope(f0, specs, lib, m, ports, f);
    }
    RegenPortsError(f0, specs, lib, m, ports);
    if RegenPorts(f0, specs, lib, m, ports).error.None? {
      RegenPortsFiles(f0, specs, lib, m, ports);
    }
  }

  /**
   * Regenerating twice with the same bindings gives the same files as regenerating once:
   * the generated files depend on the bindings, not on what the files held before.
   */
  lemma RegenerateIdempotent(files: Files, sw: string, specs: DeviceSpecs, lib: Library, m: Bindings, port: Option<int>)
    requires Regenerate(files, sw, specs, lib, m, port).error.None?
    ensures var once := Regenerate(files, sw, specs, lib, m, port);
            Regenerate(once.files, sw, specs, lib, m, port) == once
  {
    var once := Regenerate(files, sw, specs, lib, m, port);
    var twice := Regenerate(once.files, sw, specs, lib, m, port);
    var ports := PortsToRegenerate(port);
    RegenerateEffect(files, sw, specs, lib, m, port);
    RegenerateEffect(once.files, sw, specs, lib, m, port);
    RegenPortsError(once.files[DpAclFile(sw) := PriAcls(sw, m)], specs, lib, m, ports);
    RegenPortsError(files[DpAclFile(sw) := PriAcls(sw, m)], specs, lib, m, ports);
    assert twice.error.None?;
    forall f ensures (f in twice.files <==> f in once.files) && (f in once.files ==> twice.files[f] == once.files[f]) {
      if f == DpAclFile(sw) {
      } else if p :| p in ports && f == PortAclFile(SecName, p) {
        assert FileFollows(once.files, specs, lib, m, p) && FileFollows(twice.files, specs, lib, m, p);
      } else {
      }
    }
    assert twice.files == once.files;
  }

  /** After unbinding a MAC, no binding is left on a port that only that MAC was bound to. */
  lemma UnbindLeavesNoMapping(m: Bindings, mac: string, p: int)
    requires DistinctKeys(m) && mac in Keys(m)
    requires forall i :: 0 <= i < |m| && m[i].key != mac ==> m[i].value.port != p
    ensures !HasMapping(Delete(m, mac), p)
  {
    var k := IndexOf(m, mac);
    var m' := Delete(m, mac);
    assert m' == m[..k] + m[k + 1..];
    forall j | 0 <= j < |m'| ensures m'[j].value.port != p {
      if j < k {
        assert m'[j] == m[j];
      } else {
        assert m'[j] == m[j + 1];
        assert m[k].key != m[j + 1].key;
      }
    }
  }

  /**
   * Unbinding the only MAC on an access port and regenerating (every access port, since
   * an unbind carries no port) removes that port's ACL file.
   */
  lemma UnbindClearsPort(files: Files, sw: string, specs: DeviceSpecs, lib: Library, m: Bindings, mac: string)
    requires DistinctKeys(m) && mac in Keys(m)
    requires 1 <= Get(m, mac).value.port < SecPort
    requires forall i :: 0 <= i < |m| && m[i].key != mac ==> m[i].value.port != Get(m, mac).value.port
    ensures UpdateBinding(m, mac, None).Some?
    ensures var o := Regenerate(files, sw, specs, lib, UpdateBinding(m, mac, None).value, None);
            o.error.None? ==> PortAclFile(SecName, Get(m, mac).value.port) !in o.files
  {
    var p := Get(m, mac).value.port;
    var m' := Delete(m, mac);
    UnbindLeavesNoMapping(m, mac, p);
    assert UpdateBinding(m, mac, None) == Some(m');
    RegenerateEffect(files, sw, specs, lib, m', None);
    var ports := PortsToRegenerate(None);
    assert ports[p - 1] == p && p in ports;
    assert PortAcl(specs, lib, m', p) == Ok(None);
    var o := Regenerate(files, sw, specs, lib, m', None);
    if o.error.None? {
      assert FileFollows(o.files, specs, lib, m', p);
    }
  }

  /**
   * Binding a MAC to an access port and regenerating that port succeeds exactly when the
   * templates of the port's MACs and the baseline template are well formed, and then writes
   * the port's file with one ACL, named after the port: the device rules of the MACs bound
   * before, then the new MAC's device-template rules, then the baseline rules.
   */
  lemma BindWritesPort(files: Files, sw: string, specs: DeviceSpecs, lib: Library, m: Bindings, mac: string, t: Target)
    requires UpdateBinding(m, mac, Some(t)).Some? && specs.Specs? && t.port != 0
    ensures var m' := UpdateBinding(m, mac, Some(t)).value;
            var o := Regenerate(files, sw, specs, lib, m', Some(t.port));
            var prev := DeviceRules(specs.macAddrs, lib, m, t.port);
            var own := DeviceTemplate(specs.macAddrs, lib, mac);
            && (o.error.None? <==>
                  && prev.Ok? && own.Ok?
                  && TemplateFile("baseline") in lib && RulesKey("baseline") in lib[TemplateFile("baseline")])
            && (o.error.None? ==>
                  var base := lib[TemplateFile("baseline")][RulesKey("baseline")];
                  && PortAclFile(SecName, t.port) in o.files
                  && o.files[PortAclFile(SecName, t.port)]
                     == map[PortAclName(SecName, t.port) := prev.value + own.value.GetOr([]) + ResolveAll(base, None)])
  {
    var e := Entry(mac, t);
    var m' := UpdateBinding(m, mac, Some(t)).value;
    assert m' == m + [e];
    assert m'[|m|] == e;
    assert HasMapping(m', t.port);
    DeviceRulesAppend(specs.macAddrs, lib, m, e, t.port);
    RegenerateEffect(files, sw, specs, lib, m', Some(t.port));
    var ports := PortsToRegenerate(Some(t.port));
    RegenPortsError(files[DpAclFile(sw) := PriAcls(sw, m')], specs, lib, m', ports);
    assert ports == [t.port] && t.port in ports;
    var o := Regenerate(files, sw, specs, lib, m', Some(t.port));
    if DeviceRules(specs.macAddrs, lib, m', t.port).Ok? {
      PortAclContents(specs, lib, m', t.port);
    }
    if o.error.None? {
      assert FileFollows(o.files, specs, lib, m', t.port);
    }
  }
}
