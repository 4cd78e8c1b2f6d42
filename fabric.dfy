/**
 * The fabric ACLs of the uplink switch: which MAC is steered to which set of access
 * ports (the `_mac_map` bindings), the incoming and portset ACLs compiled from them, and
 * what those ACLs do to a frame under FAUCET's first-match rule order.
 */
module Fabric {
  import opened Wrappers
  import opened PyDict
  import opened Acl

  /** The VLAN that carries steered traffic between the two switches. */
  const FabricVlan := 10

  /** The uplink port the portset ACL sends steered traffic back out of. */
  const UplinkPort := 1

  /** Where `direct_port_traffic` points a MAC: its access port and the port range `[lo, hi)`. */
  datatype Target = Target(port: int, lo: int, hi: int)

  /** `_mac_map`: MAC to target, in the order the MACs were bound. */
  type Bindings = Dict<string, Target>

  /**
   * The change `direct_port_traffic` makes to the bindings: a bound MAC given no target is
   * unbound, an unbound MAC given a target is bound at the end, and anything else is a
   * no-change (None), after which nothing is regenerated.
   */
  function UpdateBinding(m: Bindings, mac: string, target: Option<Target>): (r: Option<Bindings>)
    ensures r.Some? <==> (target.None? <==> mac in Keys(m))
    ensures r.Some? && target.Some? ==> r.value == m + [Entry(mac, target.value)]
    ensures r.Some? && target.None? ==>
              && |r.value| == |m| - 1
              && forall j :: 0 <= j < |r.value| ==> r.value[j] == if j < IndexOf(m, mac) then m[j] else m[j + 1]
    ensures r.Some? && DistinctKeys(m) ==> DistinctKeys(r.value) && (mac in Keys(r.value) <==> target.Some?)
  {
    if target.None? && mac in Keys(m) then Some(Delete(m, mac))
    else if target.Some? && mac !in Keys(m) then Some(Set(m, mac, target.value))
    else None
  }

  /** After a change, the MAC looks up its new target (or nothing) and every other MAC is as before. */
  lemma UpdateBindingLookup(m: Bindings, mac: string, target: Option<Target>)
    requires DistinctKeys(m)
    requires UpdateBinding(m, mac, target).Some?
    ensures var m' := UpdateBinding(m, mac, target).value;
            Get(m', mac) == target && forall k :: k != mac ==> Get(m', k) == Get(m, k)
  {
    var m' := UpdateBinding(m, mac, target).value;
    forall k | k != mac ensures Get(m', k) == Get(m, k) {
      if target.None? { GetAfterDelete(m, mac, k); } else { GetAfterSet(m, mac, target.value, k); }
    }
  }

  /** Binding a MAC and then unbinding it gives back the bindings it started from. */
  lemma UnbindAfterBind(m: Bindings, mac: string, t: Target)
    requires mac !in Keys(m)
    ensures UpdateBinding(m, mac, Some(t)).Some?
    ensures UpdateBinding(UpdateBinding(m, mac, Some(t)).value, mac, None) == Some(m)
  {
    var m' := m + [Entry(mac, t)];
    assert Keys(m')[|m|] == mac;
    assert forall j :: 0 <= j < |m| ==> m'[j].key != mac by {
      forall j | 0 <= j < |m| ensures m'[j].key != mac {
        assert Keys(m)[j] == m[j].key;
      }
    }
    IndexOfFirst(m', mac, |m|);
    assert m'[..|m|] + m'[|m| + 1..] == m;
  }

  /** The incoming rule for a bound MAC. */
  function IncomingRule(mac: string, t: Target): (r: Rule)
    ensures r == Rule(Text(mac), Absent, Some(FabricVlan), Absent,
                      Actions(Some(Output(None, Some(PortRange(t.lo, t.hi)), None, Some(true))), None))
  {
    PriRule(PriRuleArgs(Some(mac), None, Some(FabricVlan), None, None, Some(PortRange(t.lo, t.hi)), None))
  }

  /** The portset rule for a bound MAC. */
  function PortsetRule(mac: string): (r: Rule)
    ensures r == Rule(Absent, Text(mac), None, Absent,
                      Actions(Some(Output(Some(UplinkPort), None, Some(FabricVlan), None)), None))
  {
    PriRule(PriRuleArgs(None, Some(mac), None, Some(FabricVlan), Some(UplinkPort), None, None))
  }

  /** The rule that closes each fabric ACL: it matches everything and only allows (1) or drops (0). */
  function CatchAll(allow: int): (r: Rule)
    ensures r == Rule(Absent, Absent, None, Absent, Actions(None, Some(allow)))
  {
    PriRule(PriRuleArgs(None, None, None, None, None, None, Some(allow)))
  }

  /**
   * `dp_<sw>_incoming_acl`: one rule per bound MAC, in binding order, taking frames from
   * that MAC on the fabric VLAN off the VLAN and out to the MAC's port range; then a drop.
   */
  function IncomingAcl(m: Bindings): (r: seq<Rule>)
    ensures |r| == |m| + 1
    ensures forall i :: 0 <= i < |m| ==> r[i] == IncomingRule(m[i].key, m[i].value)
    ensures r[|m|] == CatchAll(0)
  {
    seq(|m|, i requires 0 <= i < |m| => IncomingRule(m[i].key, m[i].value)) + [CatchAll(0)]
  }

  /**
   * `dp_<sw>_portset_acl`: one rule per bound MAC, in binding order, tagging frames for
   * that MAC with the fabric VLAN and sending them out of the uplink port; then an allow.
   */
  function PortsetAcl(m: Bindings): (r: seq<Rule>)
    ensures |r| == |m| + 1
    ensures forall i :: 0 <= i < |m| ==> r[i] == PortsetRule(m[i].key)
    ensures r[|m|] == CatchAll(1)
  {
    seq(|m|, i requires 0 <= i < |m| => PortsetRule(m[i].key)) + [CatchAll(1)]
  }

  /** The `acls` of the fabric ACL file `_generate_pri_acls` writes for switch `sw`. */
  function PriAcls(sw: string, m: Bindings): (f: AclFile)
    ensures f.Keys == {IncomingAclName(sw), PortsetAclName(sw)}
    ensures f[IncomingAclName(sw)] == IncomingAcl(m) && f[PortsetAclName(sw)] == PortsetAcl(m)
  {
    FabricAclNamesDistinct(sw);
    map[IncomingAclName(sw) := IncomingAcl(m), PortsetAclName(sw) := PortsetAcl(m)]
  }

  /** A frame as the fabric ACLs see it: source and destination MAC and VLAN. */
  datatype Frame = Frame(src: string, dst: string, vlan: int)

  /** A field a rule does not mention matches anything; a given one matches only its value. */
  predicate FieldMatches(f: Field, v: string) {
    f.Absent? || f == Text(v)
  }

  /** Whether a rule matches a frame (the fabric rules never match on `nw_dst`). */
  predicate Matches(r: Rule, fr: Frame) {
    FieldMatches(r.dlSrc, fr.src) && FieldMatches(r.dlDst, fr.dst) &&
    (r.vlanVid.None? || r.vlanVid == Some(fr.vlan))
  }

  /** The rule FAUCET applies to a frame: the first in the ACL that matches it. */
  function FirstMatch(acl: seq<Rule>, fr: Frame): (r: Option<Rule>)
    ensures r.None? <==> forall i :: 0 <= i < |acl| ==> !Matches(acl[i], fr)
    ensures r.Some? ==> Matches(r.value, fr) && r.value in acl
    decreases |acl|
  {
    if |acl| == 0 then None
    else if Matches(acl[0], fr) then Some(acl[0])
    else
      var rest := FirstMatch(acl[1..], fr);
      assert forall i :: 1 <= i < |acl| ==> acl[i] == acl[1..][i - 1];
      rest
  }

  /** The rule at the first matching position is the one applied. */
  lemma {:induction false} FirstMatchAt(acl: seq<Rule>, fr: Frame, i: nat)
    requires i < |acl| && Matches(acl[i], fr)
    requires forall j :: 0 <= j < i ==> !Matches(acl[j], fr)
    ensures FirstMatch(acl, fr) == Some(acl[i])
    decreases i
  {
    if i > 0 {
      assert forall j :: 0 <= j < i - 1 ==> acl[1..][j] == acl[j + 1];
      FirstMatchAt(acl[1..], fr, i - 1);
    }
  }

  /**
   * What the incoming ACL does to a frame: a frame on the fabric VLAN from a bound MAC
   * gets that MAC's rule (out to its port range), every other frame is dropped.
   */
  lemma IncomingVerdict(m: Bindings, fr: Frame)
    ensures FirstMatch(IncomingAcl(m), fr)
         == Some(if fr.vlan == FabricVlan && fr.src in Keys(m)
                 then IncomingRule(fr.src, Get(m, fr.src).value) else CatchAll(0))
  {
    var acl := IncomingAcl(m);
    if fr.vlan == FabricVlan && fr.src in Keys(m) {
      var i := IndexOf(m, fr.src);
      FirstMatchAt(acl, fr, i);
    } else {
      forall j | 0 <= j < |m| ensures !Matches(acl[j], fr) {
        assert Keys(m)[j] == m[j].key;
      }
      FirstMatchAt(acl, fr, |m|);
    }
  }

  /**
   * What the portset ACL does to a frame: a frame for a bound MAC is tagged with the
   * fabric VLAN and sent out of the uplink port, every other frame is allowed through.
   */
  lemma PortsetVerdict(m: Bindings, fr: Frame)
    ensures FirstMatch(PortsetAcl(m), fr)
         == Some(if fr.dst in Keys(m) then PortsetRule(fr.dst) else CatchAll(1))
  {
    var acl := PortsetAcl(m);
    if fr.dst in Keys(m) {
      FirstMatchAt(acl, fr, IndexOf(m, fr.dst));
    } else {
      forall j | 0 <= j < |m| ensures !Matches(acl[j], fr) {
        assert Keys(m)[j] == m[j].key;
      }
      FirstMatchAt(acl, fr, |m|);
    }
  }

  /**
   * Binding a MAC to a target steers its fabric-VLAN traffic to exactly the target's port
   * range and draws traffic for it back over the uplink; unbinding it makes the incoming
   * ACL drop its traffic and the portset ACL let traffic for it pass untouched.
   */
  lemma SteeringFollowsBinding(m: Bindings, mac: string, target: Option<Target>, other: string)
    requires DistinctKeys(m)
    requires UpdateBinding(m, mac, target).Some?
    ensures var m' := UpdateBinding(m, mac, target).value;
            && FirstMatch(IncomingAcl(m'), Frame(mac, other, FabricVlan))
               == Some(if target.Some? then IncomingRule(mac, target.value) else CatchAll(0))
            && FirstMatch(PortsetAcl(m'), Frame(other, mac, FabricVlan))
               == Some(if target.Some? then PortsetRule(mac) else CatchAll(1))
  {
    var m' := UpdateBinding(m, mac, target).value;
    UpdateBindingLookup(m, mac, target);
    IncomingVerdict(m', Frame(mac, other, FabricVlan));
    PortsetVerdict(m', Frame(other, mac, FabricVlan));
  }

  /** Once a MAC is unbound, neither fabric ACL has a rule for it. */
  lemma UnbindRemovesRules(m: Bindings, mac: string)
    requires DistinctKeys(m) && mac in Keys(m)
    ensures UpdateBinding(m, mac, None).Some?
    ensures var m' := UpdateBinding(m, mac, None).value;
            && (forall r :: r in IncomingAcl(m') ==> r.dlSrc != Text(mac))
            && (forall r :: r in PortsetAcl(m') ==> r.dlDst != Text(mac))
  {
    var m' := UpdateBinding(m, mac, None).value;
    forall r | r in IncomingAcl(m') ensures r.dlSrc != Text(mac) {
      var j :| 0 <= j < |IncomingAcl(m')| && IncomingAcl(m')[j] == r;
      if j < |m'| { assert Keys(m')[j] == m'[j].key; }
    }
    forall r | r in PortsetAcl(m') ensures r.dlDst != Text(mac) {
      var j :| 0 <= j < |PortsetAcl(m')| && PortsetAcl(m')[j] == r;
      if j < |m'| { assert Keys(m')[j] == m'[j].key; }
    }
  }
}
