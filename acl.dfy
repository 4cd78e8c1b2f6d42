/**
 * FAUCET access-control lists: rules with optional match fields and optional actions,
 * the names of the ACLs and of the files they are written to, and the builder that
 * the fabric-wide ACLs are made with.
 */
module Acl {
  import opened Wrappers
  import opened Strings

  /** A string-valued match field: left out of the rule, present with a YAML null, or text. */
  datatype Field = Absent | Null | Text(s: string)

  /** The `output` action; each part is emitted only when present. */
  datatype Output = Output(port: Option<int>, ports: Option<seq<int>>, vlanVid: Option<int>, popVlans: Option<bool>)

  datatype Actions = Actions(output: Option<Output>, allow: Option<int>)

  /** One `{rule: {...}}` entry of an ACL. */
  datatype Rule = Rule(dlSrc: Field, dlDst: Field, vlanVid: Option<int>, nwDst: Field, actions: Actions)

  /** The `acls` mapping of an ACL file: ACL name to its rules, in evaluation order. */
  type AclFile = map<string, seq<Rule>>

  /** The failures that abort an operation: failed assertions and missing dictionary keys. */
  datatype Error =
    | TemplateKeyMissing(template: string)
    | BaselineMissing
    | AclInDefined(location: string)
    | AclDefined(name: string)
    | StackNotPri
    | MissingKey(path: string)

  const InstPrefix := "inst/"

  function IncomingAclName(sw: string): string { "dp_" + sw + "_incoming_acl" }

  function PortsetAclName(sw: string): string { "dp_" + sw + "_portset_acl" }

  /** The fabric ACL file as the topology includes it, and where it is written. */
  function DpAclInclude(sw: string): string { "dp_" + sw + "_port_acls.yaml" }

  function DpAclFile(sw: string): string { InstPrefix + DpAclInclude(sw) }

  function PortAclName(sw: string, port: int): string { "dp_" + sw + "_port_" + IntToString(port) + "_acl" }

  /** A port's ACL file as the topology includes it, and where it is written. */
  function PortAclInclude(sw: string, port: int): string {
    "port_acls/dp_" + sw + "_port_" + IntToString(port) + "_acl.yaml"
  }

  function PortAclFile(sw: string, port: int): string { InstPrefix + PortAclInclude(sw, port) }

  function TemplateFile(template: string): string { "inst/acl_templates/template_" + template + "_acl.yaml" }

  function RulesKey(template: string): string { "@acl:template_" + template + "_acl" }

  /** The two fabric ACLs of a switch never share a name. */
  lemma FabricAclNamesDistinct(sw: string)
    ensures IncomingAclName(sw) != PortsetAclName(sw)
  {
    assert |IncomingAclName(sw)| == |PortsetAclName(sw)| + 1;
  }

  /** Distinct ports get distinct ACL files. */
  lemma PortAclFileInjective(sw: string, p: int, q: int)
    requires PortAclFile(sw, p) == PortAclFile(sw, q)
    ensures p == q
  {
    var x := InstPrefix + "port_acls/dp_" + sw + "_port_";
    assert PortAclFile(sw, p) == x + IntToString(p) + "_acl.yaml";
    assert PortAclFile(sw, q) == x + IntToString(q) + "_acl.yaml";
    CancelAround(x, IntToString(p), IntToString(q), "_acl.yaml");
    IntToStringInjective(p, q);
  }

  /** Distinct ports get distinct ACL names. */
  lemma PortAclNameInjective(sw: string, p: int, q: int)
    requires PortAclName(sw, p) == PortAclName(sw, q)
    ensures p == q
  {
    var x := "dp_" + sw + "_port_";
    assert PortAclName(sw, p) == x + IntToString(p) + "_acl";
    assert PortAclName(sw, q) == x + IntToString(q) + "_acl";
    CancelAround(x, IntToString(p), IntToString(q), "_acl");
    IntToStringInjective(p, q);
  }

  /** Writing a port's ACL file never overwrites the fabric ACL file. */
  lemma DpAclFileIsNoPortAclFile(sw: string, sec: string, port: int)
    ensures DpAclFile(sw) != PortAclFile(sec, port)
  {
    assert DpAclFile(sw)[5] == 'd';
    assert PortAclFile(sec, port)[5] == 'p';
  }

  /** Python 2's `range(lo, hi)`: the list lo, lo + 1, ..., hi - 1. */
  function PortRange(lo: int, hi: int): (r: seq<int>)
    ensures |r| == if lo < hi then hi - lo else 0
    ensures forall i :: 0 <= i < |r| ==> r[i] == lo + i
    decreases hi - lo
  {
    if hi <= lo then [] else PortRange(lo, hi - 1) + [hi - 1]
  }

  /** The keyword arguments `_add_acl_pri_rule` is called with; None is a keyword not passed. */
  datatype PriRuleArgs = PriRuleArgs(
    dlSrc: Option<string>, dlDst: Option<string>, inVlan: Option<int>, outVlan: Option<int>,
    port: Option<int>, ports: Option<seq<int>>, allow: Option<int>)

  /** A string keyword copied into a rule only when it was passed. */
  function Supplied(o: Option<string>): (f: Field)
    ensures f != Null
    ensures f == Absent <==> o.None?
  {
    if o.Some? then Text(o.value) else Absent
  }

  /**
   * The rule `_add_acl_pri_rule` appends: exactly the supplied keywords become fields, an
   * `in_vlan` both matches that VLAN and pops it, and `output` is left out when nothing
   * would go in it.
   */
  function PriRule(kw: PriRuleArgs): (r: Rule)
    ensures r.dlSrc == Supplied(kw.dlSrc) && r.dlDst == Supplied(kw.dlDst) && r.nwDst == Absent
    ensures r.vlanVid == kw.inVlan && r.actions.allow == kw.allow
    ensures r.actions.output.None? <==>
              kw.port.None? && kw.ports.None? && kw.outVlan.None? && kw.inVlan.None?
    ensures r.actions.output.Some? ==>
              var out := r.actions.output.value;
              out.port == kw.port && out.ports == kw.ports && out.vlanVid == kw.outVlan &&
              (out.popVlans == Some(true) <==> kw.inVlan.Some?) && out.popVlans != Some(false)
  {
    var output := Output(kw.port, kw.ports, kw.outVlan, if kw.inVlan.Some? then Some(true) else None);
    var actions := Actions(if output == Output(None, None, None, None) then None else Some(output), kw.allow);
    Rule(Supplied(kw.dlSrc), Supplied(kw.dlDst), kw.inVlan, Absent, actions)
  }
}
