/**
 * Device classification: the group and the device type of a MAC address, read from the
 * optional device spec table, with the MAC itself as the fallback group and "default"
 * as the fallback type.
 */
module Classifier {
  import opened Wrappers

  /** A `macAddrs` entry of the device spec table. */
  datatype DeviceInfo = DeviceInfo(deviceType: Option<string>, group: Option<string>)

  /**
   * The device spec table: not loaded (the file is missing or its document is empty),
   * or its `macAddrs` mapping.
   */
  datatype DeviceSpecs = NoSpecs | Specs(macAddrs: map<string, DeviceInfo>)

  /** `_sanitize_mac`: the address with every ':' removed. */
  function SanitizeMac(mac: string): (r: string)
    ensures ':' !in r
    ensures |r| <= |mac|
    decreases |mac|
  {
    if |mac| == 0 then ""
    else SanitizeMac(mac[..|mac| - 1]) + (if mac[|mac| - 1] == ':' then "" else [mac[|mac| - 1]])
  }

  /** Removing separators distributes over concatenation, so it keeps the order of what stays. */
  lemma {:induction false} SanitizeMacAppend(a: string, b: string)
    ensures SanitizeMac(a + b) == SanitizeMac(a) + SanitizeMac(b)
    decreases |b|
  {
    if |b| > 0 {
      var b' := b[..|b| - 1];
      assert (a + b)[..|a + b| - 1] == a + b';
      SanitizeMacAppend(a, b');
    } else {
      assert a + b == a;
    }
  }

  /** An address with no ':' is its own sanitized form; so sanitizing twice changes nothing. */
  lemma {:induction false} SanitizeMacIdempotent(mac: string)
    ensures SanitizeMac(SanitizeMac(mac)) == SanitizeMac(mac)
  {
    SanitizeMacKeeps(SanitizeMac(mac));
  }

  lemma {:induction false} SanitizeMacKeeps(s: string)
    requires ':' !in s
    ensures SanitizeMac(s) == s
    decreases |s|
  {
    if |s| > 0 {
      var s' := s[..|s| - 1];
      assert ':' !in s' by { assert forall c :: c in s' ==> c in s; }
      SanitizeMacKeeps(s');
    }
  }

  /** A separator followed by a colon-free group contributes just that group. */
  lemma SanitizeMacStep(x: string, g: string)
    requires ':' !in g
    ensures SanitizeMac(x + ":" + g) == SanitizeMac(x) + g
  {
    var cg := ":" + g;
    assert x + ":" + g == x + cg;
    SanitizeMacAppend(":", g);
    SanitizeMacColon();
    SanitizeMacKeeps(g);
    assert SanitizeMac(cg) == g by {
      assert SanitizeMac(cg) == "" + g;
      assert "" + g == g;
    }
    SanitizeMacAppend(x, cg);
  }

  lemma SanitizeMacColon()
    ensures SanitizeMac(":") == ""
  {
    assert ":"[..0] == "";
  }

  /** A colon-separated address such as AA:BB:CC:DD:EE:FF sanitizes to its octets joined, AABBCCDDEEFF. */
  lemma SanitizeMacOctets(o1: string, o2: string, o3: string, o4: string, o5: string, o6: string)
    requires ':' !in o1 && ':' !in o2 && ':' !in o3 && ':' !in o4 && ':' !in o5 && ':' !in o6
    ensures SanitizeMac(o1 + ":" + o2 + ":" + o3 + ":" + o4 + ":" + o5 + ":" + o6)
         == o1 + o2 + o3 + o4 + o5 + o6
  {
    SanitizeMacKeeps(o1);
    SanitizeMacStep(o1, o2);
    SanitizeMacStep(o1 + ":" + o2, o3);
    SanitizeMacStep(o1 + ":" + o2 + ":" + o3, o4);
    SanitizeMacStep(o1 + ":" + o2 + ":" + o3 + ":" + o4, o5);
    SanitizeMacStep(o1 + ":" + o2 + ":" + o3 + ":" + o4 + ":" + o5, o6);
  }

  /**
   * `device_group_for`: the spec table's `group` for the address when the table is loaded
   * and the address has one; otherwise the address without its separators.
   */
  function DeviceGroupFor(specs: DeviceSpecs, mac: string): (group: string)
    ensures specs.Specs? && mac in specs.macAddrs && specs.macAddrs[mac].group.Some? ==>
              group == specs.macAddrs[mac].group.value
    ensures !(specs.Specs? && mac in specs.macAddrs && specs.macAddrs[mac].group.Some?) ==>
              group == SanitizeMac(mac) && ':' !in group
  {
    if specs.NoSpecs? then SanitizeMac(mac)
    else if mac in specs.macAddrs && specs.macAddrs[mac].group.Some? then specs.macAddrs[mac].group.value
    else SanitizeMac(mac)
  }

  /** The device type `_add_acl_port_rules` picks a template by: the spec's `type`, else "default". */
  function DeviceType(macAddrs: map<string, DeviceInfo>, mac: string): (t: string)
    ensures mac in macAddrs && macAddrs[mac].deviceType.Some? ==> t == macAddrs[mac].deviceType.value
    ensures !(mac in macAddrs && macAddrs[mac].deviceType.Some?) ==> t == "default"
  {
    if mac !in macAddrs then "default" else macAddrs[mac].deviceType.GetOr("default")
  }
}
