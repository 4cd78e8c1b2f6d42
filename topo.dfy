/**
 * The FAUCET topology document: switches with ordered interfaces, the read-only queries
 * on the secondary switch, and the `acl_in` references spliced in at start-up.
 */
module Topo {
  import opened Wrappers
  import opened Strings
  import opened PyDict
  import opened Acl

  /** The access switch's name, and one past its last device port (`sec_name`, `sec_port`). */
  const SecName := "sec"
  const SecPort := 7

  /** The `stack` entry of an interface; only the switch it stacks to is read. */
  datatype StackRef = StackRef(dp: string)

  /** An interface descriptor, as it appears under `interfaces` or `interface_ranges`. */
  datatype Interface = Interface(name: Option<string>, stack: Option<StackRef>, aclIn: Option<string>)

  /** One switch under `dps`: interfaces by number, and (on the uplink switch) port ranges by label. */
  datatype Dp = Dp(interfaces: Dict<int, Interface>, interfaceRanges: Option<Dict<string, Interface>>)

  /** The parts of the topology document that the compiler reads or changes. */
  datatype Document = Document(
    dps: map<string, Dp>,
    includes: Option<seq<string>>,
    optionalIncludes: Option<seq<string>>,
    acls: Option<map<string, seq<Rule>>>)

  /** Index of the first element satisfying `p`, or `|s|` when there is none. */
  function FirstWhere<T>(s: seq<T>, p: T -> bool): (i: nat)
    ensures i <= |s|
    ensures forall j :: 0 <= j < i ==> !p(s[j])
    ensures i < |s| ==> p(s[i])
    decreases |s|
  {
    if |s| == 0 then 0 else if p(s[0]) then 0 else FirstWhere(s[1..], p) + 1
  }

  predicate IsStacked(e: Entry<int, Interface>) { e.value.stack.Some? }

  predicate HasAclIn<K>(e: Entry<K, Interface>) { e.value.aclIn.Some? }

  /**
   * What `get_sec_port` answers: the number of the first interface of the secondary
   * switch that has a `stack` entry, failing when that entry stacks to a switch other
   * than "pri", and None when no interface stacks.
   */
  function StackPort(doc: Document): (r: Result<Option<int>, Error>)
    ensures SecName !in doc.dps <==> r == Err(MissingKey("dps.sec"))
    ensures r.Err? ==> r.error == MissingKey("dps.sec") || r.error == StackNotPri
    ensures SecName in doc.dps ==>
              var ifs := doc.dps[SecName].interfaces;
              && (r == Ok(None) <==> forall j :: 0 <= j < |ifs| ==> ifs[j].value.stack.None?)
              && (r.Ok? && r.value.Some? ==>
                    exists i :: 0 <= i < |ifs| && ifs[i].key == r.value.value && ifs[i].value.stack == Some(StackRef("pri")) &&
                                forall j :: 0 <= j < i ==> ifs[j].value.stack.None?)
              && (r == Err(StackNotPri) <==>
                    exists i :: 0 <= i < |ifs| && ifs[i].value.stack.Some? && ifs[i].value.stack.value.dp != "pri" &&
                                forall j :: 0 <= j < i ==> ifs[j].value.stack.None?)
  {
    if SecName !in doc.dps then Err(MissingKey("dps.sec"))
    else
      var ifaces := doc.dps[SecName].interfaces;
      var i := FirstWhere(ifaces, IsStacked);
      if i == |ifaces| then Ok(None)
      else if ifaces[i].value.stack.value.dp == "pri" then Ok(Some(ifaces[i].key))
      else Err(StackNotPri)
  }

  /** An entry of the list `get_device_intfs` returns. */
  datatype DeviceIntf = DeviceIntf(port: int, name: string)

  /** A device interface's name: its own, or "sec-<port>" when it has none. */
  function IntfOf(e: Entry<int, Interface>): DeviceIntf {
    DeviceIntf(e.key, e.value.name.GetOr("sec-" + IntToString(e.key)))
  }

  /** The non-stacking interfaces of the secondary switch, in document order. */
  function DeviceIntfs(ifaces: Dict<int, Interface>): (r: seq<DeviceIntf>)
    ensures |r| <= |ifaces|
    ensures forall d :: d in r ==>
              exists i :: 0 <= i < |ifaces| && ifaces[i].value.stack.None? && d == IntfOf(ifaces[i])
    ensures forall i :: 0 <= i < |ifaces| && ifaces[i].value.stack.None? ==> IntfOf(ifaces[i]) in r
    decreases |ifaces|
  {
    if |ifaces| == 0 then []
    else
      var last := ifaces[|ifaces| - 1];
      var prev := DeviceIntfs(ifaces[..|ifaces| - 1]);
      assert forall i :: 0 <= i < |ifaces| - 1 ==> ifaces[..|ifaces| - 1][i] == ifaces[i];
      if last.value.stack.Some? then prev else prev + [IntfOf(last)]
  }

  /** Listing the interfaces of two stretches of the table lists each stretch in turn. */
  lemma {:induction false} DeviceIntfsAppend(a: Dict<int, Interface>, b: Dict<int, Interface>)
    ensures DeviceIntfs(a + b) == DeviceIntfs(a) + DeviceIntfs(b)
    decreases |b|
  {
    if |b| > 0 {
      var b' := b[..|b| - 1];
      assert (a + b)[..|a + b| - 1] == a + b';
      assert (a + b)[|a + b| - 1] == b[|b| - 1];
      DeviceIntfsAppend(a, b');
    } else {
      assert a + b == a;
    }
  }

  /** A stacking interface is not listed; any other is listed once, with its name. */
  lemma DeviceIntfsOne(e: Entry<int, Interface>)
    ensures DeviceIntfs([]) == []
    ensures DeviceIntfs([e]) == if e.value.stack.Some? then [] else [IntfOf(e)]
  {
    assert [e][..0] == [];
  }

  /** `_ensure_entry`: the existing value of an entry, or the default it is created with. */
  function EnsureEntry<T>(entry: Option<T>, default: T): (r: T)
    ensures entry.Some? ==> r == entry.value
    ensures entry.None? ==> r == default
  {
    entry.GetOr(default)
  }

  /** Every interface of a range table with its `acl_in` set to `name`. */
  function SetAllAclIn(d: Dict<string, Interface>, name: string): (r: Dict<string, Interface>)
    ensures Keys(r) == Keys(d)
    ensures forall i :: 0 <= i < |d| ==> r[i].value == d[i].value.(aclIn := Some(name))
  {
    seq(|d|, i requires 0 <= i < |d| => Entry(d[i].key, d[i].value.(aclIn := Some(name))))
  }

  /**
   * The first failure `_add_pri_includes` meets: a missing uplink switch or interface 1,
   * an `acl_in` already on interface 1, missing `interface_ranges`, or an `acl_in`
   * already on a range.
   */
  function PriSpliceError(doc: Document): Option<Error> {
    if "pri" !in doc.dps then Some(MissingKey("dps.pri"))
    else
      var pri := doc.dps["pri"];
      if 1 !in Keys(pri.interfaces) then Some(MissingKey("dps.pri.interfaces.1"))
      else if Get(pri.interfaces, 1).value.aclIn.Some? then Some(AclInDefined("pri interface"))
      else if pri.interfaceRanges.None? then Some(MissingKey("dps.pri.interface_ranges"))
      else
        var ranges := pri.interfaceRanges.value;
        var i := FirstWhere(ranges, HasAclIn);
        if i < |ranges| then Some(AclInDefined(ranges[i].key)) else None
  }

  /** The document after `_add_pri_includes` succeeds for uplink switch `sw`. */
  function PriSpliced(doc: Document, sw: string): Document
    requires PriSpliceError(doc).None?
  {
    var pri := doc.dps["pri"];
    var uplink := Get(pri.interfaces, 1).value.(aclIn := Some(IncomingAclName(sw)));
    var pri' := Dp(Set(pri.interfaces, 1, uplink), Some(SetAllAclIn(pri.interfaceRanges.value, PortsetAclName(sw))));
    doc.(includes := Some(EnsureEntry(doc.includes, []) + [DpAclInclude(sw)]), dps := doc.dps["pri" := pri'])
  }

  /**
   * `_add_pri_includes` includes the fabric ACL file, points interface 1 of the uplink at
   * the incoming ACL and every port range at the portset ACL, and changes nothing else.
   * It succeeds only if none of them had an `acl_in` before.
   */
  lemma PriSplicedEffect(doc: Document, sw: string)
    requires PriSpliceError(doc).None?
    ensures var pri := doc.dps["pri"];
            var d' := PriSpliced(doc, sw);
            var pri' := d'.dps["pri"];
            && Get(pri.interfaces, 1).value.aclIn.None?
            && (forall i :: 0 <= i < |pri.interfaceRanges.value| ==> pri.interfaceRanges.value[i].value.aclIn.None?)
            && d'.includes == Some(doc.includes.GetOr([]) + [DpAclInclude(sw)])
            && Keys(pri'.interfaces) == Keys(pri.interfaces)
            && Get(pri'.interfaces, 1) == Some(Get(pri.interfaces, 1).value.(aclIn := Some(IncomingAclName(sw))))
            && (forall k :: k != 1 ==> Get(pri'.interfaces, k) == Get(pri.interfaces, k))
            && pri'.interfaceRanges.Some?
            && Keys(pri'.interfaceRanges.value) == Keys(pri.interfaceRanges.value)
            && (forall i :: 0 <= i < |pri'.interfaceRanges.value| ==>
                  pri'.interfaceRanges.value[i].value.aclIn == Some(PortsetAclName(sw)))
            && d'.dps.Keys == doc.dps.Keys
            && (forall n :: n in doc.dps && n != "pri" ==> d'.dps[n] == doc.dps[n])
            && d'.optionalIncludes == doc.optionalIncludes && d'.acls == doc.acls
  {
    var pri := doc.dps["pri"];
    var uplink := Get(pri.interfaces, 1).value.(aclIn := Some(IncomingAclName(sw)));
    var ranges := pri.interfaceRanges.value;
    var i := FirstWhere(ranges, HasAclIn);
    assert i == |ranges|;
    forall j | 0 <= j < |ranges| ensures ranges[j].value.aclIn.None? {
      assert !HasAclIn(ranges[j]);
    }
    forall k | k != 1 ensures Get(Set(pri.interfaces, 1, uplink), k) == Get(pri.interfaces, k) {
      GetAfterSet(pri.interfaces, 1, uplink, k);
    }
  }

  /**
   * The first failure `_add_port_include` meets once the raw template exists: a missing
   * access switch or interface, an `acl_in` already on the interface, or an ACL of the
   * port's name already in the document.
   */
  function PortSpliceError(doc: Document, port: int): Option<Error> {
    if SecName !in doc.dps then Some(MissingKey("dps.sec"))
    else
      var ifaces := doc.dps[SecName].interfaces;
      if port !in Keys(ifaces) then Some(MissingKey("dps.sec.interfaces." + IntToString(port)))
      else if Get(ifaces, port).value.aclIn.Some? then Some(AclInDefined(PortAclInclude(SecName, port)))
      else if doc.acls.Some? && PortAclName(SecName, port) in doc.acls.value then Some(AclDefined(PortAclName(SecName, port)))
      else None
  }

  /** The document after `_add_port_include` succeeds for `port`, with the raw template's rules. */
  function PortSpliced(doc: Document, port: int, raw: seq<Rule>): Document
    requires PortSpliceError(doc, port).None?
  {
    var sec := doc.dps[SecName];
    var name := PortAclName(SecName, port);
    var iface := Get(sec.interfaces, port).value.(aclIn := Some(name));
    doc.(optionalIncludes := Some(EnsureEntry(doc.optionalIncludes, []) + [PortAclInclude(SecName, port)]),
         dps := doc.dps[SecName := sec.(interfaces := Set(sec.interfaces, port, iface))],
         acls := Some(EnsureEntry(doc.acls, map[])[name := raw]))
  }

  /**
   * `_add_port_include`: nothing when the raw template is missing, its failure when the
   * template is malformed, otherwise the spliced document or the first failed assertion.
   */
  function PortInclude(doc: Document, raw: Result<Option<seq<Rule>>, Error>, port: int): Result<Document, Error> {
    match raw
    case Err(e) => Err(e)
    case Ok(None) => Ok(doc)
    case Ok(Some(rules)) =>
      var e := PortSpliceError(doc, port);
      if e.Some? then Err(e.value) else Ok(PortSpliced(doc, port, rules))
  }

  /** `_add_port_include` over `ports` in order, stopping at the first failure. */
  function PortIncludes(doc: Document, raw: Result<Option<seq<Rule>>, Error>, ports: seq<int>): Result<Document, Error>
    decreases |ports|
  {
    if |ports| == 0 then Ok(doc)
    else
      var d :- PortIncludes(doc, raw, ports[..|ports| - 1]);
      PortInclude(d, raw, ports[|ports| - 1])
  }

  /** Once a port fails to splice, the ports after it are not spliced and the error stands. */
  lemma {:induction false} PortIncludesStopsAtError(doc: Document, raw: Result<Option<seq<Rule>>, Error>, ports: seq<int>, n: nat)
    requires n <= |ports|
    requires PortIncludes(doc, raw, ports[..n]).Err?
    ensures PortIncludes(doc, raw, ports) == PortIncludes(doc, raw, ports[..n])
    decreases |ports| - n
  {
    if n < |ports| {
      assert ports[..n + 1][..n] == ports[..n];
      PortIncludesStopsAtError(doc, raw, ports, n + 1);
    } else {
      assert ports[..n] == ports;
    }
  }

  /** `_add_acl_includes`: the uplink first, then each access port 1 .. SecPort - 1. */
  function AclIncludes(doc: Document, sw: string, raw: Result<Option<seq<Rule>>, Error>): Result<Document, Error> {
    var e := PriSpliceError(doc);
    if e.Some? then Err(e.value) else PortIncludes(PriSpliced(doc, sw), raw, PortRange(1, SecPort))
  }

  /**
   * `_add_port_include` for one port points that port's interface at its ACL, adds the
   * ACL (the raw template's rules) and the optional include of its file, and leaves every
   * other interface and switch alone. It succeeds only if neither the interface's
   * `acl_in` nor the ACL name existed before.
   */
  lemma PortSplicedEffect(doc: Document, port: int, raw: seq<Rule>)
    requires PortSpliceError(doc, port).None?
    ensures var d' := PortSpliced(doc, port, raw);
            var name := PortAclName(SecName, port);
            var ifs := doc.dps[SecName].interfaces;
            var ifs' := d'.dps[SecName].interfaces;
            && Get(ifs, port).Some? && Get(ifs, port).value.aclIn.None?
            && (doc.acls.None? || name !in doc.acls.value)
            && Keys(ifs') == Keys(ifs)
            && Get(ifs', port) == Some(Get(ifs, port).value.(aclIn := Some(name)))
            && (forall k :: k != port ==> Get(ifs', k) == Get(ifs, k))
            && d'.acls == Some(doc.acls.GetOr(map[])[name := raw])
            && d'.optionalIncludes == Some(doc.optionalIncludes.GetOr([]) + [PortAclInclude(SecName, port)])
            && d'.dps.Keys == doc.dps.Keys
            && (forall n :: n in doc.dps && n != SecName ==> d'.dps[n] == doc.dps[n])
            && d'.includes == doc.includes
  {
    var ifs := doc.dps[SecName].interfaces;
    var iface := Get(ifs, port).value.(aclIn := Some(PortAclName(SecName, port)));
    forall k | k != port ensures Get(Set(ifs, port, iface), k) == Get(ifs, k) {
      GetAfterSet(ifs, port, iface, k);
    }
  }

  /** The optional includes that splicing `ports` appends, in order. */
  function PortAclIncludes(ports: seq<int>): (r: seq<string>)
    ensures |r| == |ports|
    ensures forall i :: 0 <= i < |ports| ==> r[i] == PortAclInclude(SecName, ports[i])
  {
    seq(|ports|, i requires 0 <= i < |ports| => PortAclInclude(SecName, ports[i]))
  }

  lemma PortAclIncludesLast(ports: seq<int>)
    requires |ports| > 0
    ensures PortAclIncludes(ports)
         == PortAclIncludes(ports[..|ports| - 1]) + [PortAclInclude(SecName, ports[|ports| - 1])]
  {
  }

  /** The last port of a successful splice is spliced into the result of the ones before it. */
  lemma PortIncludesLast(doc: Document, rules: seq<Rule>, ports: seq<int>)
    requires |ports| > 0
    requires PortIncludes(doc, Ok(Some(rules)), ports).Ok?
    ensures var ps := ports[..|ports| - 1];
            var p := ports[|ports| - 1];
            && PortIncludes(doc, Ok(Some(rules)), ps).Ok?
            && PortSpliceError(PortIncludes(doc, Ok(Some(rules)), ps).value, p).None?
            && PortIncludes(doc, Ok(Some(rules)), ports)
               == Ok(PortSpliced(PortIncludes(doc, Ok(Some(rules)), ps).value, p, rules))
  {
  }

  /**
   * Splicing ports with the raw template present touches only the access switch, and of
   * its interfaces only those of the spliced ports.
   */
  lemma {:induction false} PortIncludesFrame(doc: Document, rules: seq<Rule>, ports: seq<int>)
    requires PortIncludes(doc, Ok(Some(rules)), ports).Ok?
    ensures var d' := PortIncludes(doc, Ok(Some(rules)), ports).value;
            && (|ports| > 0 ==> SecName in doc.dps)
            && d'.dps.Keys == doc.dps.Keys
            && (forall n :: n in doc.dps && n != SecName ==> d'.dps[n] == doc.dps[n])
            && d'.includes == doc.includes
            && (SecName in doc.dps ==>
                  var ifs := doc.dps[SecName].interfaces;
                  var ifs' := d'.dps[SecName].interfaces;
                  Keys(ifs') == Keys(ifs) && forall k :: k !in ports ==> Get(ifs', k) == Get(ifs, k))
    decreases |ports|
  {
    if |ports| > 0 {
      var ps := ports[..|ports| - 1];
      var p := ports[|ports| - 1];
      PortIncludesFrame(doc, rules, ps);
      PortIncludesLast(doc, rules, ports);
      var d1 := PortIncludes(doc, Ok(Some(rules)), ps).value;
      PortSplicedEffect(d1, p, rules);
      assert forall k :: k !in ports ==> k !in ps && k != p;
    }
  }

  /**
   * Splicing distinct ports with the raw template present: each port's interface, which
   * had no `acl_in`, now names that port's own ACL, and that ACL holds the raw rules.
   */
  lemma {:induction false} PortIncludesEffect(doc: Document, rules: seq<Rule>, ports: seq<int>)
    requires forall i, j :: 0 <= i < j < |ports| ==> ports[i] != ports[j]
    requires PortIncludes(doc, Ok(Some(rules)), ports).Ok?
    ensures var d' := PortIncludes(doc, Ok(Some(rules)), ports).value;
            forall p :: p in ports ==>
              && SecName in doc.dps && SecName in d'.dps
              && (var ifs := doc.dps[SecName].interfaces;
                  Get(ifs, p).Some? && Get(ifs, p).value.aclIn.None? &&
                  Get(d'.dps[SecName].interfaces, p) == Some(Get(ifs, p).value.(aclIn := Some(PortAclName(SecName, p)))))
              && d'.acls.Some? && PortAclName(SecName, p) in d'.acls.value
              && d'.acls.value[PortAclName(SecName, p)] == rules
    decreases |ports|
  {
    if |ports| > 0 {
      var ps := ports[..|ports| - 1];
      var p := ports[|ports| - 1];
      PortIncludesEffect(doc, rules, ps);
      PortIncludesFrame(doc, rules, ps);
      PortIncludesLast(doc, rules, ports);
      var d1 := PortIncludes(doc, Ok(Some(rules)), ps).value;
      PortSplicedEffect(d1, p, rules);
      forall q | q in ps ensures q != p && PortAclName(SecName, q) != PortAclName(SecName, p) {
        if PortAclName(SecName, q) == PortAclName(SecName, p) { PortAclNameInjective(SecName, q, p); }
      }
      assert forall q :: q in ports ==> q in ps || q == p;
    }
  }

  /** Splicing ports appends one optional include per port, in port order. */
  lemma {:induction false} PortIncludesFiles(doc: Document, rules: seq<Rule>, ports: seq<int>)
    requires |ports| > 0
    requires PortIncludes(doc, Ok(Some(rules)), ports).Ok?
    ensures PortIncludes(doc, Ok(Some(rules)), ports).value.optionalIncludes
         == Some(doc.optionalIncludes.GetOr([]) + PortAclIncludes(ports))
    decreases |ports|
  {
    var ps := ports[..|ports| - 1];
    var p := ports[|ports| - 1];
    PortIncludesLast(doc, rules, ports);
    var d1 := PortIncludes(doc, Ok(Some(rules)), ps).value;
    PortSplicedEffect(d1, p, rules);
    PortAclIncludesLast(ports);
    var before := doc.optionalIncludes.GetOr([]);
    var added := [PortAclInclude(SecName, p)];
    if |ps| > 0 {
      PortIncludesFiles(doc, rules, ps);
      var mid := PortAclIncludes(ps);
      assert d1.optionalIncludes.GetOr([]) == before + mid;
      assert (before + mid) + added == before + (mid + added);
    } else {
      assert ps == [];
      assert d1 == doc;
      assert PortAclIncludes(ps) + added == added;
    }
  }

  /** With the raw template missing, `_add_port_include` leaves every port as it was. */
  lemma {:induction false} PortIncludesWithoutRaw(doc: Document, ports: seq<int>)
    ensures PortIncludes(doc, Ok(None), ports) == Ok(doc)
    decreases |ports|
  {
    if |ports| > 0 {
      PortIncludesWithoutRaw(doc, ports[..|ports| - 1]);
    }
  }

  /**
   * Start-up splicing as a whole: the uplink is spliced as `PriSplicedEffect` says, and
   * when the raw template exists every access port 1 .. SecPort - 1 is pointed at its own
   * ACL holding the raw rules; when it does not, the access ports are left untouched.
   */
  lemma AclIncludesEffect(doc: Document, sw: string, raw: Option<seq<Rule>>)
    requires AclIncludes(doc, sw, Ok(raw)).Ok?
    ensures PriSpliceError(doc).None?
    ensures raw.None? ==> AclIncludes(doc, sw, Ok(raw)) == Ok(PriSpliced(doc, sw))
    ensures raw.Some? ==>
              var d' := AclIncludes(doc, sw, Ok(raw)).value;
              && "pri" in d'.dps
              && d'.dps["pri"] == PriSpliced(doc, sw).dps["pri"]
              && SecName in doc.dps
              && (forall p :: 1 <= p < SecPort ==>
                    var ifs := PriSpliced(doc, sw).dps[SecName].interfaces;
                    Get(ifs, p).Some? && Get(ifs, p).value.aclIn.None? &&
                    Get(d'.dps[SecName].interfaces, p) == Some(Get(ifs, p).value.(aclIn := Some(PortAclName(SecName, p)))) &&
                    d'.acls.Some? && PortAclName(SecName, p) in d'.acls.value &&
                    d'.acls.value[PortAclName(SecName, p)] == raw.value)
  {
    var ports := PortRange(1, SecPort);
    PriSplicedEffect(doc, sw);
    if raw.None? {
      PortIncludesWithoutRaw(PriSpliced(doc, sw), ports);
    } else {
      var d0 := PriSpliced(doc, sw);
      PortIncludesEffect(d0, raw.value, ports);
      PortIncludesFrame(d0, raw.value, ports);
      assert "pri" != SecName;
      forall p | 1 <= p < SecPort ensures p in ports {
        assert ports[p - 1] == p;
      }
    }
  }
}
