/**
 * ACL templates: named rule lists read from `inst/acl_templates/`, whose `dl_src` and
 * `nw_dst` fields may hold placeholders that are resolved as the rules are copied out.
 */
module Templates {
  import opened Wrappers
  import opened Strings
  import opened Acl

  const MacPlaceholder := "@src_mac:"
  const DnsPlaceholder := "@dns:"

  /** A rule as a template file holds it: the two resolvable fields are text or absent. */
  type TemplateRule = r: Rule | r.dlSrc != Null && r.nwDst != Null
    witness Rule(Absent, Absent, None, Absent, Actions(None, None))

  /**
   * The template files, by path, each given by its `acls` mapping. A file that does not
   * exist, or whose document is empty, has no entry.
   */
  type Library = map<string, map<string, seq<TemplateRule>>>

  /**
   * `_resolve_template_field` on one field: a MAC placeholder becomes the caller's MAC
   * (a null when there is none), a DNS placeholder removes the field, and an absent field
   * or any other value is kept.
   */
  function ResolveField(f: Field, mac: Option<string>): (r: Field)
    requires f != Null
    ensures f == Absent ==> r == Absent
    ensures f.Text? && StartsWith(f.s, MacPlaceholder) ==> r == (if mac.Some? then Text(mac.value) else Null)
    ensures f.Text? && StartsWith(f.s, DnsPlaceholder) ==> r == Absent
    ensures f.Text? && !StartsWith(f.s, MacPlaceholder) && !StartsWith(f.s, DnsPlaceholder) ==> r == f
  {
    if f.Absent? then f
    else if StartsWith(f.s, MacPlaceholder) then
      assert !StartsWith(f.s, DnsPlaceholder) by { PlaceholdersDiffer(f.s); }
      if mac.Some? then Text(mac.value) else Null
    else if StartsWith(f.s, DnsPlaceholder) then Absent
    else f
  }

  /** A template rule once resolved: `dl_src` for the caller's MAC, `nw_dst` with no MAC. */
  function ResolveRule(t: TemplateRule, mac: Option<string>): (r: Rule)
    ensures r.dlSrc == ResolveField(t.dlSrc, mac) && r.nwDst == ResolveField(t.nwDst, None)
    ensures r.dlDst == t.dlDst && r.vlanVid == t.vlanVid && r.actions == t.actions
  {
    t.(dlSrc := ResolveField(t.dlSrc, mac), nwDst := ResolveField(t.nwDst, None))
  }

  /** Every template rule resolved, in template order. */
  function ResolveAll(ts: seq<TemplateRule>, mac: Option<string>): (r: seq<Rule>)
    ensures |r| == |ts|
    ensures forall i :: 0 <= i < |ts| ==> r[i] == ResolveRule(ts[i], mac)
    decreases |ts|
  {
    if |ts| == 0 then [] else ResolveAll(ts[..|ts| - 1], mac) + [ResolveRule(ts[|ts| - 1], mac)]
  }

  /**
   * What `_append_acl_template` appends: nothing (and False) when the template file is
   * missing or empty, a KeyError when the file lacks the template's rule list, and
   * otherwise every rule of that list, resolved.
   */
  function TemplateRules(lib: Library, template: string, mac: Option<string>): (r: Result<Option<seq<Rule>>, Error>)
    ensures r == Ok(None) <==> TemplateFile(template) !in lib
    ensures r.Err? <==> TemplateFile(template) in lib && RulesKey(template) !in lib[TemplateFile(template)]
    ensures r.Err? ==> r.error == TemplateKeyMissing(template)
    ensures r.Ok? && r.value.Some? ==>
              TemplateFile(template) in lib && RulesKey(template) in lib[TemplateFile(template)] &&
              var ts := lib[TemplateFile(template)][RulesKey(template)];
              |r.value.value| == |ts| && forall i :: 0 <= i < |ts| ==> r.value.value[i] == ResolveRule(ts[i], mac)
  {
    var file := TemplateFile(template);
    if file !in lib then Ok(None)
    else if RulesKey(template) !in lib[file] then Err(TemplateKeyMissing(template))
    else Ok(Some(ResolveAll(lib[file][RulesKey(template)], mac)))
  }

  /**
   * Resolving for a device MAC: a MAC placeholder in `dl_src` becomes that MAC and a DNS
   * placeholder in `nw_dst` is dropped, whatever else the rule holds.
   */
  lemma ResolveForDevice(t: TemplateRule, mac: string)
    requires t.dlSrc.Text? && StartsWith(t.dlSrc.s, MacPlaceholder)
    requires t.nwDst.Text? && StartsWith(t.nwDst.s, DnsPlaceholder)
    ensures ResolveRule(t, Some(mac)).dlSrc == Text(mac)
    ensures ResolveRule(t, Some(mac)).nwDst == Absent
  {
  }

  /** With a MAC supplied, no DNS placeholder survives resolution and `dl_src` is never null. */
  lemma {:induction false} NoDnsPlaceholderLeft(ts: seq<TemplateRule>, mac: string)
    ensures forall r :: r in ResolveAll(ts, Some(mac)) ==>
              r.dlSrc != Null && !(r.nwDst.Text? && StartsWith(r.nwDst.s, DnsPlaceholder)) &&
              !(r.dlSrc.Text? && StartsWith(r.dlSrc.s, DnsPlaceholder) && !StartsWith(mac, DnsPlaceholder))
  {
    var rs := ResolveAll(ts, Some(mac));
    forall r | r in rs
      ensures r.dlSrc != Null && !(r.nwDst.Text? && StartsWith(r.nwDst.s, DnsPlaceholder))
      ensures !(r.dlSrc.Text? && StartsWith(r.dlSrc.s, DnsPlaceholder) && !StartsWith(mac, DnsPlaceholder))
    {
      var i :| 0 <= i < |rs| && rs[i] == r;
      assert r == ResolveRule(ts[i], Some(mac));
      if ts[i].nwDst.Text? { PlaceholdersDiffer(ts[i].nwDst.s); }
    }
  }

  /** No text starts with both placeholders. */
  lemma PlaceholdersDiffer(s: string)
    ensures !(StartsWith(s, MacPlaceholder) && StartsWith(s, DnsPlaceholder))
  {
    if StartsWith(s, MacPlaceholder) {
      assert s[1] == MacPlaceholder[1] == 's';
      assert DnsPlaceholder[1] == 'd';
      assert s[..|DnsPlaceholder|][1] == s[1];
    }
  }
}
