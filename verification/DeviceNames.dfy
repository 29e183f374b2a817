/** Names of bridges, bonds and VLAN sub-interfaces of a cluster network, and how they are read back. */
module DeviceNames {
  import opened GoStrings
  import opened VlanIds

  const BRIDGE_SUFFIX := "-br"
  const BOND_SUFFIX := "-bo"
  const MAX_DEVICE_NAME_LEN := 15
  const MAX_CLUSTER_NETWORK_NAME_LEN := MAX_DEVICE_NAME_LEN - 3
  const SPLITTER := '.'
  const MGMT := "mgmt"  // the management cluster network

  predicate IsClusterNetworkNameValid(cn: string) {
    |cn| <= MAX_CLUSTER_NETWORK_NAME_LEN
  }

  predicate IsBridgeNameValid(br: string) {
    |BRIDGE_SUFFIX| < |br| <= MAX_DEVICE_NAME_LEN && br[|br| - |BRIDGE_SUFFIX|..] == BRIDGE_SUFFIX
  }

  function GenerateName(prefix: string, suffix: string): (r: string)
    requires |suffix| <= MAX_DEVICE_NAME_LEN
    ensures |r| <= MAX_DEVICE_NAME_LEN
  {
    var room := MAX_DEVICE_NAME_LEN - |suffix|;
    if |prefix| > room then prefix[..room] + suffix else prefix + suffix
  }

  function GenerateBridgeName(cn: string): (r: string)
  {
    GenerateName(cn, BRIDGE_SUFFIX)
  }

  function GetClusterNetworkFromBridgeName(br: string): (r: Option<string>)
  {
    if IsBridgeNameValid(br) then Some(br[..|br| - |BRIDGE_SUFFIX|]) else None
  }

  /** A bridge name leads back to its cluster network exactly for names of 1 to 12 characters. */
  lemma BridgeNameRoundTrip(cn: string)
    ensures GetClusterNetworkFromBridgeName(GenerateBridgeName(cn)) == Some(cn) <==>
            1 <= |cn| <= MAX_CLUSTER_NETWORK_NAME_LEN
  {
    var br := GenerateBridgeName(cn);
    if |cn| <= MAX_CLUSTER_NETWORK_NAME_LEN {
      assert br[..|br| - 3] == cn && br[|br| - 3..] == BRIDGE_SUFFIX;
    }
  }

  function DevicePrefix(cn: string): (r: string)
  {
    cn + BRIDGE_SUFFIX + [SPLITTER]
  }

  function BridgeVlanDevice(br: string, vid: nat): (r: string)
  {
    br + [SPLITTER] + Itoa(vid)
  }

  function ClusterNetworkVlanDevice(cn: string, vid: nat): (r: string)
  {
    DevicePrefix(cn) + Itoa(vid)
  }

  /** The VID that one link name stands for on a cluster network, if any. */
  function ManualVid(cn: string, link: string): (r: Option<nat>)
    ensures r.Some? ==> Managed(r.value)
  {
    if !(DevicePrefix(cn) <= link) then None
    else
      var parts := Split(link, SPLITTER);
      if |parts| != 2 then None
      else
        var vid := Atoi(parts[1]);
        if vid.Some? && Managed(vid.value) then Some(vid.value) else None
  }

  /** The VIDs of all link names, in the order of the list. */
  function ManualVids(cn: string, links: seq<string>): (r: seq<nat>)
  {
    if links == [] then []
    else
      var rest, last := ManualVids(cn, links[..|links| - 1]), ManualVid(cn, links[|links| - 1]);
      if last.Some? then rest + [last.value] else rest
  }

  lemma {:induction false} ManualVidsMember(cn: string, links: seq<string>, v: nat)
    ensures v in ManualVids(cn, links) <==> exists l :: l in links && ManualVid(cn, l) == Some(v)
  {
    if links != [] {
      var n := |links| - 1;
      ManualVidsMember(cn, links[..n], v);
      assert forall l :: l in links <==> l in links[..n] || l == links[n];
    }
  }

  method GetManuallyConfiguredVlans(cn: string, links: seq<string>) returns (vids: seq<nat>)
    ensures vids == ManualVids(cn, links)
  {
    var prefix := DevicePrefix(cn);
    vids := [];
    var k := 0;
    while k < |links|
      invariant 0 <= k <= |links|
      invariant vids == ManualVids(cn, links[..k])
    {
      assert links[..k + 1][..k] == links[..k];
      if prefix <= links[k] {
        var parts := Split(links[k], SPLITTER);
        if |parts| == 2 {
          var vid := Atoi(parts[1]);
          if vid.Some? && DEFAULT_VLAN_ID < vid.value <= MAX_VLAN_ID {
            vids := vids + [vid.value];
          }
        }
      }
      k := k + 1;
    }
    assert links[..k] == links;
  }

  lemma DigitsHaveNoDot(s: string)
    requires AllDigits(s)
    ensures SPLITTER !in s && '-' !in s
  {
  }

  lemma DeviceOfGeneratedBridge(cn: string, vid: nat)
    requires |cn| <= MAX_CLUSTER_NETWORK_NAME_LEN
    ensures BridgeVlanDevice(GenerateBridgeName(cn), vid) == ClusterNetworkVlanDevice(cn, vid)
  {
  }

  /** A sub-interface is attributed to its own network and to no other one. */
  lemma SubInterfaceAttribution(cn: string, other: string, vid: nat)
    requires |cn| <= MAX_CLUSTER_NETWORK_NAME_LEN && SPLITTER !in cn && Managed(vid)
    ensures ManualVid(other, BridgeVlanDevice(GenerateBridgeName(cn), vid)) == if other == cn then Some(vid) else None
  {
    var digits, head := Itoa(vid), cn + BRIDGE_SUFFIX;
    var link := head + [SPLITTER] + digits;
    assert BridgeVlanDevice(GenerateBridgeName(cn), vid) == link;
    DigitsHaveNoDot(digits);
    if other == cn {
      SplitHead(head, digits, SPLITTER);
      SplitWhole(digits, SPLITTER);
      AtoiItoa(vid);
      assert link[..|DevicePrefix(cn)|] == DevicePrefix(cn);
    } else if SPLITTER !in other {
      assert other == (other + BRIDGE_SUFFIX)[..|other|] && cn == head[..|head| - 3];
      if DevicePrefix(other) <= link {
        PrefixUpToSeparator(other + BRIDGE_SUFFIX, head, digits, SPLITTER);
      }
    } else {
      DottedPrefix(other, head, digits);
    }
  }

  /** A prefix with two dots does not fit a string with one. */
  lemma DottedPrefix(other: string, head: string, digits: string)
    requires SPLITTER in other && SPLITTER !in head && SPLITTER !in digits
    ensures !(DevicePrefix(other) <= head + [SPLITTER] + digits)
  {
    var link, prefix := head + [SPLITTER] + digits, DevicePrefix(other);
    var i :| 0 <= i < |other| && other[i] == SPLITTER;
    assert prefix[i] == SPLITTER && prefix[|other| + 3] == SPLITTER;
    assert forall j :: 0 <= j < |link| && j != |head| ==> link[j] != SPLITTER by {
      assert forall j :: 0 <= j < |head| ==> link[j] == head[j] && head[j] in head;
      assert forall j :: |head| < j < |link| ==> link[j] == digits[j - |head| - 1] && digits[j - |head| - 1] in digits;
    }
  }

  /** The host device of a network is read back exactly when its name is short enough and has no dot. */
  lemma SubInterfaceRecovered(cn: string, vid: nat)
    requires Managed(vid)
    ensures ManualVid(cn, BridgeVlanDevice(GenerateBridgeName(cn), vid)) ==
            if |cn| <= MAX_CLUSTER_NETWORK_NAME_LEN && SPLITTER !in cn then Some(vid) else None
  {
    var digits := Itoa(vid);
    DigitsHaveNoDot(digits);
    if |cn| > MAX_CLUSTER_NETWORK_NAME_LEN {
      var link := BridgeVlanDevice(GenerateBridgeName(cn), vid);
      assert link == cn[..12] + BRIDGE_SUFFIX + [SPLITTER] + digits;
      assert forall j :: 16 <= j < |link| ==> link[j] == digits[j - 16] && digits[j - 16] in digits;
      assert forall j :: 13 <= j < |link| ==> link[j] != '-';
      assert DevicePrefix(cn)[|cn|] == '-';
    } else if SPLITTER in cn {
      TwoDots(cn, BRIDGE_SUFFIX, digits);
      assert cn + BRIDGE_SUFFIX + [SPLITTER] + digits == BridgeVlanDevice(GenerateBridgeName(cn), vid);
    } else {
      SubInterfaceAttribution(cn, cn, vid);
    }
  }

  lemma {:induction false} TwoDots(cn: string, mid: string, digits: string)
    requires SPLITTER in cn && SPLITTER !in mid && SPLITTER !in digits
    ensures |Split(cn + mid + [SPLITTER] + digits, SPLITTER)| > 2
  {
    var s := cn + mid + [SPLITTER] + digits;
    assert s[1..] == cn[1..] + mid + [SPLITTER] + digits;
    if SPLITTER in cn[1..] {
      TwoDots(cn[1..], mid, digits);
    } else {
      assert cn[0] == SPLITTER;
      SplitHead(cn[1..] + mid, digits, SPLITTER);
      assert Split(s, SPLITTER) == [""] + Split(s[1..], SPLITTER);
    }
  }

  /** A cluster network called "a.b" passes the name check, yet its sub-interface on VID 100 is not seen. */
  lemma DottedNameLosesSubInterface()
    ensures IsClusterNetworkNameValid("a.b")
            && ManualVid("a.b", BridgeVlanDevice(GenerateBridgeName("a.b"), 100)) == None
  {
    assert "a.b"[1] == SPLITTER;
    SubInterfaceRecovered("a.b", 100);
  }

  /** Device names determine the cluster network, dotted or not, and the VID. */
  lemma VlanDeviceInjective(cn: string, vid: nat, cn': string, vid': nat)
    requires ClusterNetworkVlanDevice(cn, vid) == ClusterNetworkVlanDevice(cn', vid')
    ensures cn == cn' && vid == vid'
  {
    DigitsHaveNoDot(Itoa(vid));
    DigitsHaveNoDot(Itoa(vid'));
    SuffixAfterSeparator(cn + BRIDGE_SUFFIX, Itoa(vid), cn' + BRIDGE_SUFFIX, Itoa(vid'), SPLITTER);
    assert cn == (cn + BRIDGE_SUFFIX)[..|cn|] && cn' == (cn' + BRIDGE_SUFFIX)[..|cn'|];
    ItoaInjective(vid, vid');
  }
}
