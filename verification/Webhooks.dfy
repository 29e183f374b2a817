/** The admission rules for VlanConfigs and ClusterNetworks, and the virtual machines they protect. */
module Webhooks {
  import opened GoStrings
  import opened Mtus
  import opened Nads
  import opened DeviceNames
  import opened StatusNames

  const KEY_CLUSTER_NETWORK_LABEL := "network.harvesterhci.io/clusternetwork"
  const HARVESTER_SYSTEM_NAMESPACE := "harvester-system"
  const STORAGE_NETWORK_ANNOTATION := "storage-network.settings.harvesterhci.io"
  const STORAGE_NETWORK_PREFIX := "storagenetwork-"
  const RWX_NETWORK_ANNOTATION := "rwx-network.settings.harvesterhci.io"
  const RWX_NETWORK_PREFIX := "rwx-network-"

  /** The uplink of a VlanConfig; `mtu` is None where the link attributes are missing, and `options`
      stands for the bond options and the remaining attributes. */
  datatype Uplink = Uplink(nics: seq<string>, mtu: Option<int>, options: string)

  datatype VlanConfig = VlanConfig(clusterNetwork: string, uplink: Uplink, cnLabel: Option<string>,
                                   matchedNodes: set<string>, deleting: bool)

  datatype ClusterNetwork = ClusterNetwork(mtuAnnotation: Option<string>, mtuSource: Option<string>, ready: bool,
                                           deleting: bool)

  /** A VMI with the names of its Multus networks, None for a network of another source. */
  datatype Vmi = Vmi(namespace: string, name: string, networks: seq<Option<string>>, node: string)

  /** What the validators read besides VlanConfigs and ClusterNetworks: the NADs, the VMIs, and the
      VlanConfig that each stored VlanStatus names, by the name of the status. */
  datatype Env = Env(nads: seq<Nad>, vmis: seq<Vmi>, statusVc: map<string, string>, crc: Checksum)

  type VlanConfigs = map<string, VlanConfig>
  type ClusterNetworks = map<string, ClusterNetwork>

  predicate Live(vc: VlanConfig) {
    !vc.deleting
  }

  function GetMTU(vc: VlanConfig): (r: int)
  {
    if vc.uplink.mtu.Some? then vc.uplink.mtu.value else 0
  }

  /** The MTU of a VlanConfig with unset and invalid values read as the default. */
  function TargetMtu(vc: VlanConfig): (r: nat)
  {
    var mtu := GetMTU(vc);
    if IsValidMTU(mtu) && mtu != 0 then mtu else DEFAULT_MTU
  }

  predicate IsUserRequestForMgmt(fromController: bool, cn: string) {
    cn == MGMT && !fromController
  }

  // ----- Mutator -----

  /** When no node matches the selector, the annotation that came with the request stays. */
  function MatchNodes(vc: VlanConfig, selected: set<string>): (r: VlanConfig)
  {
    if selected == {} then vc else vc.(matchedNodes := selected)
  }

  function MutatedOnCreate(vc: VlanConfig, selected: set<string>): (r: VlanConfig)
    ensures r.clusterNetwork == vc.clusterNetwork && r.uplink == vc.uplink && r.deleting == vc.deleting
    ensures vc.clusterNetwork != MGMT ==> r.cnLabel == Some(r.clusterNetwork)
  {
    if vc.clusterNetwork == MGMT then vc
    else MatchNodes(vc.(cnLabel := Some(vc.clusterNetwork)), selected)
  }

  /** A request that leaves the label of a well-labelled object alone ends up with the right label. */
  function MutatedOnUpdate(before: VlanConfig, vc: VlanConfig, selected: set<string>): (r: VlanConfig)
    ensures r.clusterNetwork == vc.clusterNetwork && r.uplink == vc.uplink && r.deleting == vc.deleting
    ensures !vc.deleting && vc.clusterNetwork != MGMT && vc.cnLabel == before.cnLabel == Some(before.clusterNetwork) ==>
              r.cnLabel == Some(r.clusterNetwork)
  {
    if vc.deleting || vc.clusterNetwork == MGMT then vc
    else
      var moved := vc.clusterNetwork != before.clusterNetwork;
      var labelled := if moved then vc.(cnLabel := Some(vc.clusterNetwork)) else vc;
      MatchNodes(labelled, selected)
  }

  // ----- Virtual machines on a NAD -----

  function QualifiedName(nad: Nad): (r: string)
  {
    nad.namespace + "/" + nad.name
  }

  /** A VMI uses a NAD by its qualified name, or by its bare name from the same namespace. */
  predicate Uses(vmi: Vmi, nad: Nad) {
    Some(QualifiedName(nad)) in vmi.networks || (Some(nad.name) in vmi.networks && vmi.namespace == nad.namespace)
  }

  /** From its own namespace a VMI uses a NAD by either name, from another one by the qualified name only. */
  lemma UsesByName(vmi: Vmi, nad: Nad)
    requires nad.namespace == "default" && nad.name == "vlan1"
    ensures vmi.networks == [None, Some("vlan1")] ==> (Uses(vmi, nad) <==> vmi.namespace == "default")
    ensures vmi.networks == [Some("default/vlan1")] ==> Uses(vmi, nad)
    ensures vmi.networks == [Some("other/vlan1")] ==> !Uses(vmi, nad)
  {
    assert QualifiedName(nad) == "default/vlan1" && |"vlan1"| == 5;
    assert "other/vlan1"[0] != "default/vlan1"[0] && |"other/vlan1"| == 11;
  }

  /** The cache index of VMIs by network name. */
  function ByIndex(vmis: seq<Vmi>, key: string): (r: seq<Vmi>)
    ensures forall v :: v in r <==> v in vmis && Some(key) in v.networks
  {
    if vmis == [] then []
    else
      var rest := ByIndex(vmis[1..], key);
      assert forall v :: v in vmis <==> v == vmis[0] || v in vmis[1..];
      if Some(key) in vmis[0].networks then [vmis[0]] + rest else rest
  }

  method WhoUseNad(vmis: seq<Vmi>, nad: Nad, filter: bool, nodes: set<string>) returns (r: seq<Vmi>)
    ensures forall v :: v in r <==> v in vmis && Uses(v, nad) && (filter ==> v.node in nodes)
  {
    if filter && nodes == {} {
      return [];
    }
    var found := ByIndex(vmis, QualifiedName(nad));
    var byName := ByIndex(vmis, nad.name);
    var k := 0;
    while k < |byName|
      invariant 0 <= k <= |byName|
      invariant forall v :: v in found <==>
                  || (v in vmis && Some(QualifiedName(nad)) in v.networks)
                  || (v in byName[..k] && v.namespace == nad.namespace)
    {
      if byName[k].namespace == nad.namespace {
        found := found + [byName[k]];
      }
      k := k + 1;
    }
    assert byName[..k] == byName;
    if !filter {
      return found;
    }
    r := [];
    k := 0;
    while k < |found|
      invariant 0 <= k <= |found|
      invariant forall v :: v in r <==> v in found[..k] && v.node in nodes
    {
      if found[k].node in nodes {
        r := r + [found[k]];
      }
      k := k + 1;
    }
    assert found[..k] == found;
  }

  method WhoUseNads(vmis: seq<Vmi>, nads: seq<Nad>, filter: bool, nodes: set<string>) returns (r: seq<Vmi>)
    ensures forall v :: v in r <==>
              v in vmis && (filter ==> v.node in nodes) && exists nad :: nad in nads && Uses(v, nad)
  {
    r := [];
    var k := 0;
    while k < |nads|
      invariant 0 <= k <= |nads|
      invariant forall v :: v in r <==>
                  v in vmis && (filter ==> v.node in nodes) && exists nad :: nad in nads[..k] && Uses(v, nad)
    {
      var some := WhoUseNad(vmis, nads[k], filter, nodes);
      assert nads[..k + 1] == nads[..k] + [nads[k]];
      r := r + some;
      k := k + 1;
    }
    assert nads[..k] == nads;
  }

  predicate OnNetwork(nad: Nad, cn: string) {
    KEY_CLUSTER_NETWORK_LABEL in nad.labels && nad.labels[KEY_CLUSTER_NETWORK_LABEL] == cn
  }

  predicate IsSystemNetworkNad(nad: Nad) {
    && nad.namespace == HARVESTER_SYSTEM_NAMESPACE
    && (|| (STORAGE_NETWORK_ANNOTATION in nad.annotations && nad.annotations[STORAGE_NETWORK_ANNOTATION] == "true")
        || STORAGE_NETWORK_PREFIX <= nad.name
        || (RWX_NETWORK_ANNOTATION in nad.annotations && nad.annotations[RWX_NETWORK_ANNOTATION] == "true")
        || RWX_NETWORK_PREFIX <= nad.name)
  }

  /** A VMI uses a NAD of the cluster network, found by scanning its networks. */
  predicate Attached(env: Env, vmi: Vmi, nad: Nad, cn: string) {
    vmi in env.vmis && nad in env.nads && OnNetwork(nad, cn) && Uses(vmi, nad)
  }

  /** Some VMI on one of the nodes uses a NAD of the cluster network. */
  ghost predicate VmOnNetwork(env: Env, cn: string, nodes: set<string>) {
    exists vmi, nad :: Attached(env, vmi, nad, cn) && vmi.node in nodes
  }

  ghost predicate SystemNadOnNetwork(env: Env, cn: string) {
    exists nad :: nad in env.nads && OnNetwork(nad, cn) && !nad.deleting && IsSystemNetworkNad(nad)
  }

  /** The NADs of a cluster network, in the order of the cache. */
  function NadsOn(nads: seq<Nad>, cn: string): (r: seq<Nad>)
    ensures forall nad :: nad in r <==> nad in nads && OnNetwork(nad, cn)
  {
    if nads == [] then []
    else
      var rest := NadsOn(nads[1..], cn);
      assert forall nad :: nad in nads <==> nad == nads[0] || nad in nads[1..];
      if OnNetwork(nads[0], cn) then [nads[0]] + rest else rest
  }

  method CheckVmi(env: Env, cn: string, nodes: set<string>) returns (ok: bool)
    ensures ok <==> !VmOnNetwork(env, cn, nodes)
  {
    if nodes == {} {
      return true;
    }
    var nads := NadsOn(env.nads, cn);
    var users := WhoUseNads(env.vmis, nads, true, nodes);
    assert forall vmi, nad :: Attached(env, vmi, nad, cn) && vmi.node in nodes ==> vmi in users;
    assert forall vmi :: vmi in users ==> exists nad :: nad in nads && Attached(env, vmi, nad, cn);
    ok := users == [];
    assert !ok ==> users[0] in users;
  }

  // ----- VlanConfig validator -----

  /** All live VlanConfigs labelled with the cluster network, other than the one named, have an equal MTU. */
  ghost predicate MtuAgrees(vcs: VlanConfigs, name: string, vc: VlanConfig) {
    vc.clusterNetwork == MGMT ||
    (&& IsValidMTU(GetMTU(vc))
     && forall other :: other in vcs && other != name ==>
          Live(vcs[other]) && vcs[other].cnLabel == Some(vc.clusterNetwork) ==>
            AreEqualMTUs(GetMTU(vc), GetMTU(vcs[other])))
  }

  /** A listing of the VlanConfigs that carry a cluster network label, in some order. */
  ghost predicate Lists(listing: seq<string>, vcs: VlanConfigs, cn: string) {
    forall n :: n in listing <==> n in vcs && vcs[n].cnLabel == Some(cn)
  }

  method ValidateMTU(vcs: VlanConfigs, listing: seq<string>, name: string, vc: VlanConfig) returns (ok: bool)
    requires Lists(listing, vcs, vc.clusterNetwork)
    ensures ok <==> MtuAgrees(vcs, name, vc)
  {
    if vc.clusterNetwork == MGMT {
      return true;
    }
    var mtu := GetMTU(vc);
    if !IsValidMTU(mtu) {
      return false;
    }
    var k := 0;
    while k < |listing|
      invariant 0 <= k <= |listing|
      invariant forall j :: 0 <= j < k && listing[j] != name && Live(vcs[listing[j]]) ==>
                  AreEqualMTUs(mtu, GetMTU(vcs[listing[j]]))
    {
      var other := listing[k];
      assert other in listing;
      if other != name && !vcs[other].deleting && !AreEqualMTUs(mtu, GetMTU(vcs[other])) {
        return false;
      }
      k := k + 1;
    }
    ok := true;
  }

  /** No status stored for the cluster network on one of the nodes belongs to another VlanConfig. */
  ghost predicate NoOverlap(env: Env, name: string, vc: VlanConfig) {
    forall node :: node in vc.matchedNodes ==>
      var status := StatusName(env.crc, vc.clusterNetwork, node);
      status in env.statusVc ==> env.statusVc[status] == name
  }

  ghost predicate CreateAllowed(vcs: VlanConfigs, cns: ClusterNetworks, env: Env, name: string, vc: VlanConfig,
                                fromController: bool) {
    && !IsUserRequestForMgmt(fromController, vc.clusterNetwork)
    && IsClusterNetworkNameValid(vc.clusterNetwork)
    && vc.clusterNetwork in cns
    && MtuAgrees(vcs, name, vc)
    && NoOverlap(env, name, vc)
  }

  method ValidateCreate(vcs: VlanConfigs, cns: ClusterNetworks, env: Env, name: string, vc: VlanConfig,
                        fromController: bool, listing: seq<string>)
    returns (ok: bool)
    requires Lists(listing, vcs, vc.clusterNetwork)
    ensures ok <==> CreateAllowed(vcs, cns, env, name, vc, fromController)
  {
    if IsUserRequestForMgmt(fromController, vc.clusterNetwork) || !IsClusterNetworkNameValid(vc.clusterNetwork)
       || vc.clusterNetwork !in cns {
      return false;
    }
    ok := ValidateMTU(vcs, listing, name, vc);
    if ok {
      ok := CheckOverlaps(env, name, vc);
    }
  }

  /** The nodes whose network an update takes away or rebuilds. */
  function AffectedNodes(before: VlanConfig, after: VlanConfig): (r: set<string>)
  {
    if before.clusterNetwork != after.clusterNetwork || before.uplink != after.uplink then before.matchedNodes
    else before.matchedNodes - after.matchedNodes
  }

  predicate LabelValid(vc: VlanConfig) {
    vc.cnLabel == Some(vc.clusterNetwork) && vc.clusterNetwork != ""
  }

  ghost predicate UpdateAllowed(vcs: VlanConfigs, cns: ClusterNetworks, env: Env, name: string, before: VlanConfig,
                                after: VlanConfig, fromController: bool) {
    after.deleting ||
    (&& !IsUserRequestForMgmt(fromController, after.clusterNetwork)
     && LabelValid(after)
     && after.clusterNetwork in cns
     && MtuAgrees(vcs, name, after)
     && NoOverlap(env, name, after)
     && !VmOnNetwork(env, before.clusterNetwork, AffectedNodes(before, after))
     && (AffectedNodes(before, after) == {} || !SystemNadOnNetwork(env, before.clusterNetwork)))
  }

  ghost predicate DeleteAllowed(env: Env, vc: VlanConfig, fromController: bool) {
    && !IsUserRequestForMgmt(fromController, vc.clusterNetwork)
    && !VmOnNetwork(env, vc.clusterNetwork, vc.matchedNodes)
    && (vc.matchedNodes == {} || !SystemNadOnNetwork(env, vc.clusterNetwork))
  }

  method ValidateUpdate(vcs: VlanConfigs, cns: ClusterNetworks, env: Env, name: string, before: VlanConfig,
                        after: VlanConfig, fromController: bool, listing: seq<string>)
    returns (ok: bool)
    requires Lists(listing, vcs, after.clusterNetwork)
    ensures ok <==> UpdateAllowed(vcs, cns, env, name, before, after, fromController)
    // no VMI on the old network, found by scanning its networks, runs on a node that loses or changes its uplink
    ensures ok && !after.deleting ==>
              forall vmi, nad :: Attached(env, vmi, nad, before.clusterNetwork) && vmi.node in before.matchedNodes ==>
                && vmi.node in after.matchedNodes
                && after.clusterNetwork == before.clusterNetwork && after.uplink == before.uplink
  {
    if after.deleting {
      return true;
    }
    if IsUserRequestForMgmt(fromController, after.clusterNetwork) || !LabelValid(after)
       || after.clusterNetwork !in cns {
      return false;
    }
    var mtuOk := ValidateMTU(vcs, listing, name, after);
    if !mtuOk {
      return false;
    }
    var disjoint := CheckOverlaps(env, name, after);
    if !disjoint {
      return false;
    }
    var affected := AffectedNodes(before, after);
    var vmiOk := CheckVmi(env, before.clusterNetwork, affected);
    if !vmiOk {
      return false;
    }
    ok := CheckNetworkNadsAttached(env, before.clusterNetwork, affected);
  }

  /** What the affected nodes come to: a live update passes exactly if, beside the checks of a creation, every VMI on
      the old network keeps its node, network and uplink, and so does every node if a live system NAD is attached. */
  lemma UpdateAllowedExactly(vcs: VlanConfigs, cns: ClusterNetworks, env: Env, name: string, before: VlanConfig,
                             after: VlanConfig, fromController: bool)
    requires !after.deleting
    ensures var same := after.clusterNetwork == before.clusterNetwork && after.uplink == before.uplink;
            UpdateAllowed(vcs, cns, env, name, before, after, fromController) <==>
            && (after.clusterNetwork == MGMT ==> fromController)
            && after.cnLabel == Some(after.clusterNetwork) && after.clusterNetwork != "" && after.clusterNetwork in cns
            && MtuAgrees(vcs, name, after) && NoOverlap(env, name, after)
            && (forall vmi, nad :: Attached(env, vmi, nad, before.clusterNetwork) && vmi.node in before.matchedNodes ==>
                  same && vmi.node in after.matchedNodes)
            && (SystemNadOnNetwork(env, before.clusterNetwork) && before.matchedNodes != {} ==>
                  same && before.matchedNodes <= after.matchedNodes)
  {
    var same := after.clusterNetwork == before.clusterNetwork && after.uplink == before.uplink;
    var affected := AffectedNodes(before, after);
    assert forall n :: n in affected <==> n in before.matchedNodes && (same ==> n !in after.matchedNodes);
    assert affected == {} <==> before.matchedNodes == {} || (same && before.matchedNodes <= after.matchedNodes) by {
      if affected == {} && before.matchedNodes != {} {
        var n :| n in before.matchedNodes;
        assert n !in affected;
      }
    }
  }

  /** A live storage network NAD of the network keeps its VlanConfigs from being deleted while they match a node. */
  lemma StorageNadBlocksDelete(env: Env, vc: VlanConfig, fromController: bool, nad: Nad)
    requires nad in env.nads && !nad.deleting && OnNetwork(nad, vc.clusterNetwork)
    requires nad.namespace == "harvester-system"
    requires "storagenetwork-" <= nad.name || "rwx-network-" <= nad.name
    ensures DeleteAllowed(env, vc, fromController) ==> vc.matchedNodes == {}
  {
    assert IsSystemNetworkNad(nad);
  }

  /** NADs outside the system namespace never do. */
  lemma OrdinaryNadsDoNotBlock(env: Env, cn: string)
    requires forall nad :: nad in env.nads ==> nad.namespace != "harvester-system"
    ensures !SystemNadOnNetwork(env, cn)
  {
  }

  /** An MTU other than 0 is admitted within 576..9000 only. */
  lemma MtuBounds(vcs: VlanConfigs, cns: ClusterNetworks, env: Env, name: string, vc: VlanConfig, fromController: bool)
    requires vc.clusterNetwork != MGMT && CreateAllowed(vcs, cns, env, name, vc, fromController)
    ensures GetMTU(vc) == 0 || 576 <= GetMTU(vc) <= 9000
  {
  }

  method CheckOverlaps(env: Env, name: string, vc: VlanConfig) returns (ok: bool)
    ensures ok <==> NoOverlap(env, name, vc)
  {
    var todo, overlapping := vc.matchedNodes, {};
    while todo != {}
      invariant todo <= vc.matchedNodes
      invariant overlapping == set node | node in vc.matchedNodes - todo
                                          && Taken(env, name, vc.clusterNetwork, node)
      decreases |todo|
    {
      var node :| node in todo;
      var status := StatusName(env.crc, vc.clusterNetwork, node);
      if status in env.statusVc && env.statusVc[status] != name {
        overlapping := overlapping + {node};
      }
      todo := todo - {node};
    }
    ok := overlapping == {};
    assert !ok ==> exists node :: node in overlapping && Taken(env, name, vc.clusterNetwork, node);
    assert ok ==> forall node :: node in vc.matchedNodes ==> node !in overlapping;
  }

  predicate Taken(env: Env, name: string, cn: string, node: string) {
    var status := StatusName(env.crc, cn, node);
    status in env.statusVc && env.statusVc[status] != name
  }

  method CheckNetworkNadsAttached(env: Env, cn: string, nodes: set<string>) returns (ok: bool)
    ensures ok <==> nodes == {} || !SystemNadOnNetwork(env, cn)
  {
    if nodes == {} {
      return true;
    }
    var nads := NadsOn(env.nads, cn);
    var k := 0;
    while k < |nads|
      invariant 0 <= k <= |nads|
      invariant forall j :: 0 <= j < k ==> nads[j].deleting || !IsSystemNetworkNad(nads[j])
    {
      assert nads[k] in nads;
      if !nads[k].deleting && IsSystemNetworkNad(nads[k]) {
        return false;
      }
      k := k + 1;
    }
    ok := true;
    assert forall nad :: nad in nads ==> nad.deleting || !IsSystemNetworkNad(nad);
  }

  method ValidateDelete(env: Env, vc: VlanConfig, fromController: bool) returns (ok: bool)
    ensures ok <==> DeleteAllowed(env, vc, fromController)
    ensures ok <==>
            && (vc.clusterNetwork == MGMT ==> fromController)
            && (forall vmi, nad :: Attached(env, vmi, nad, vc.clusterNetwork) ==> vmi.node !in vc.matchedNodes)
            && (SystemNadOnNetwork(env, vc.clusterNetwork) ==> vc.matchedNodes == {})
  {
    if IsUserRequestForMgmt(fromController, vc.clusterNetwork) {
      return false;
    }
    var vmiOk := CheckVmi(env, vc.clusterNetwork, vc.matchedNodes);
    if !vmiOk {
      return false;
    }
    ok := CheckNetworkNadsAttached(env, vc.clusterNetwork, vc.matchedNodes);
  }

  // ----- ClusterNetwork validator -----

  /** The MTU of a cluster network: the default without an annotation, None where it does not read as an MTU. */
  function NetworkMtu(cn: ClusterNetwork): (r: Option<int>)
    ensures r.Some? ==> IsValidMTU(r.value)
  {
    if cn.mtuAnnotation.Some? then GetMTUFromString(cn.mtuAnnotation.value) else Some(DEFAULT_MTU)
  }

  predicate CnCreateAllowed(name: string, cn: ClusterNetwork) {
    IsClusterNetworkNameValid(name) && cn.mtuAnnotation.None?
  }

  ghost predicate CnMtuAgrees(vcs: VlanConfigs, name: string, cn: ClusterNetwork) {
    && NetworkMtu(cn).Some?
    && forall n :: n in vcs && Live(vcs[n]) && vcs[n].cnLabel == Some(name) ==>
         AreEqualMTUs(GetMTU(vcs[n]), NetworkMtu(cn).value)
  }

  ghost predicate CnUpdateAllowed(vcs: VlanConfigs, env: Env, name: string, before: ClusterNetwork,
                                  after: ClusterNetwork) {
    after.deleting ||
    (if name != MGMT then CnMtuAgrees(vcs, name, after)
     else
       && NetworkMtu(after).Some? && NetworkMtu(before).Some?
       && (|| AreEqualMTUs(NetworkMtu(before).value, NetworkMtu(after).value)
           || (!SystemNadOnNetwork(env, name)
               && forall vmi, nad :: !Attached(env, vmi, nad, name))))
  }

  method CheckMTUOfUpdatedClusterNetwork(vcs: VlanConfigs, listing: seq<string>, name: string, cn: ClusterNetwork)
    returns (ok: bool)
    requires Lists(listing, vcs, name)
    ensures ok <==> name == MGMT || CnMtuAgrees(vcs, name, cn)
  {
    if name == MGMT {
      return true;
    }
    var newMtu := DEFAULT_MTU;
    if cn.mtuAnnotation.Some? {
      var read := GetMTUFromString(cn.mtuAnnotation.value);
      if read.None? {
        return false;
      }
      newMtu := read.value;
    }
    var k := 0;
    while k < |listing|
      invariant 0 <= k <= |listing|
      invariant forall j :: 0 <= j < k && Live(vcs[listing[j]]) ==> AreEqualMTUs(GetMTU(vcs[listing[j]]), newMtu)
    {
      assert listing[k] in listing;
      if !vcs[listing[k]].deleting && !AreEqualMTUs(GetMTU(vcs[listing[k]]), newMtu) {
        return false;
      }
      k := k + 1;
    }
    ok := true;
  }

  /** The MTU of the management network changes only while no VMI and no system NAD depends on it, and then freely. */
  lemma MgmtMtuExactly(vcs: VlanConfigs, env: Env, before: ClusterNetwork, after: ClusterNetwork)
    requires !after.deleting && NetworkMtu(before).Some? && NetworkMtu(after).Some?
    ensures (exists vmi, nad :: Attached(env, vmi, nad, MGMT)) || SystemNadOnNetwork(env, MGMT) ==>
              (CnUpdateAllowed(vcs, env, MGMT, before, after) <==>
               MTUDefaultTo(NetworkMtu(before).value) == MTUDefaultTo(NetworkMtu(after).value))
    ensures (forall nad :: nad in env.nads ==> !OnNetwork(nad, MGMT)) ==> CnUpdateAllowed(vcs, env, MGMT, before, after)
  {
    EqualMTUsIsEquivalence(NetworkMtu(before).value, NetworkMtu(after).value, 0);
  }

  ghost predicate CnDeleteAllowed(vcs: VlanConfigs, env: Env, name: string) {
    && name != MGMT
    && (forall n :: n in vcs ==> vcs[n].cnLabel != Some(name))
    && (forall nad :: nad in env.nads ==> !OnNetwork(nad, name))
  }
}
