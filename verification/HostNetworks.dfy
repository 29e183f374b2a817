/** HostNetworkConfigs: sub-interfaces that the hosts themselves use on a cluster network. */
module HostNetworks {
  import opened DeviceNames

  /** `options` stands for the mode, the addresses and the node selector. */
  datatype Spec = Spec(clusterNetwork: string, vlanID: nat, underlay: bool, options: string)

  datatype HostNetworkConfig = HostNetworkConfig(spec: Spec, deleting: bool)

  type Store = map<string, HostNetworkConfig>

  /** What the validator finds out from other objects: whether the network exists and its statuses are ready,
      whether the static addresses are right, whether VlanConfig and selector cover all nodes, and whether
      overlay virtual machines exist. */
  datatype Env = Env(networkExists: bool, statusesReady: bool, addressesOk: bool, spansAllNodes: bool, overlayVms: bool)

  datatype Step =
    | Create(name: string, spec: Spec, env: Env)
    | Update(name: string, spec: Spec, env: Env)
    | Delete(name: string)
    | Gone(name: string)

  predicate IsLive(hncs: Store, name: string) {
    name in hncs && !hncs[name].deleting
  }

  predicate SameVlan(a: Spec, b: Spec) {
    a.clusterNetwork == b.clusterNetwork && a.vlanID == b.vlanID
  }

  /** The checks against the other live configurations; an update is compared with its own old version too. */
  ghost predicate Compatible(hncs: Store, spec: Spec, creating: bool) {
    forall n :: IsLive(hncs, n) ==>
      && !(hncs[n].spec.underlay && spec.underlay)
      && !(creating && SameVlan(hncs[n].spec, spec))
  }

  method ValidateHostNetworkConfig(hncs: Store, listing: seq<string>, spec: Spec, creating: bool, env: Env)
    returns (ok: bool)
    requires forall n :: n in listing <==> n in hncs
    ensures ok <==> Compatible(hncs, spec, creating) && env.addressesOk
  {
    var k := 0;
    while k < |listing|
      invariant 0 <= k <= |listing|
      invariant forall j :: 0 <= j < k && IsLive(hncs, listing[j]) ==>
                  && !(hncs[listing[j]].spec.underlay && spec.underlay)
                  && !(creating && SameVlan(hncs[listing[j]].spec, spec))
    {
      assert listing[k] in listing;
      var hnc := hncs[listing[k]];
      k := k + 1;
      if hnc.deleting {
        continue;
      }
      if hnc.spec.underlay && spec.underlay {
        return false;
      }
      if hnc.spec.clusterNetwork != spec.clusterNetwork {
        continue;
      }
      if creating && hnc.spec.vlanID == spec.vlanID {
        return false;
      }
    }
    assert forall n :: IsLive(hncs, n) ==> n in listing;
    ok := env.addressesOk;
  }

  ghost predicate CreateAllowed(hncs: Store, spec: Spec, env: Env) {
    && IsClusterNetworkNameValid(spec.clusterNetwork)
    && |ClusterNetworkVlanDevice(spec.clusterNetwork, spec.vlanID)| <= MAX_DEVICE_NAME_LEN
    && env.networkExists && Compatible(hncs, spec, true) && env.addressesOk && env.statusesReady
    && (spec.underlay ==> env.spansAllNodes)
  }

  ghost predicate UpdateAllowed(hncs: Store, before: Spec, after: Spec, env: Env) {
    after == before ||
    (&& SameVlan(after, before)
     && (before.underlay && !after.underlay ==> !env.overlayVms)
     && Compatible(hncs, after, false) && env.addressesOk
     && (after.underlay ==> env.spansAllNodes))
  }

  ghost function Next(hncs: Store, step: Step): (r: Store)
  {
    match step
    case Create(name, spec, env) =>
      if name !in hncs && CreateAllowed(hncs, spec, env) then hncs[name := HostNetworkConfig(spec, false)] else hncs
    case Update(name, spec, env) =>
      if name in hncs && UpdateAllowed(hncs, hncs[name].spec, spec, env)
      then hncs[name := hncs[name].(spec := spec)] else hncs
    case Delete(name) =>
      if name in hncs && !hncs[name].spec.underlay then hncs[name := hncs[name].(deleting := true)] else hncs
    case Gone(name) =>
      if name in hncs && hncs[name].deleting then hncs - {name} else hncs
  }

  ghost function Run(hncs: Store, steps: seq<Step>): (r: Store)
    decreases |steps|
  {
    if steps == [] then hncs else Run(Next(hncs, steps[0]), steps[1..])
  }

  /** At most one live underlay, and no two live configurations for one VID of one network. */
  ghost predicate Inv(hncs: Store) {
    && (forall n :: n in hncs ==> IsClusterNetworkNameValid(hncs[n].spec.clusterNetwork))
    && (forall a, b :: IsLive(hncs, a) && IsLive(hncs, b) && a != b ==>
          && !(hncs[a].spec.underlay && hncs[b].spec.underlay)
          && !SameVlan(hncs[a].spec, hncs[b].spec))
  }

  lemma StepKeepsInv(hncs: Store, step: Step)
    requires Inv(hncs)
    ensures Inv(Next(hncs, step))
  {
    var hncs', name := Next(hncs, step), step.name;
    assert forall n :: n != name && IsLive(hncs', n) ==> IsLive(hncs, n) && hncs'[n] == hncs[n];
    if step.Update? && IsLive(hncs, name) {
      assert IsLive(hncs', name) && SameVlan(hncs'[name].spec, hncs[name].spec);
    }
  }

  lemma {:induction false} RunKeepsInv(hncs: Store, steps: seq<Step>)
    requires Inv(hncs)
    ensures Inv(Run(hncs, steps))
    decreases |steps|
  {
    if steps != [] {
      StepKeepsInv(hncs, steps[0]);
      RunKeepsInv(Next(hncs, steps[0]), steps[1..]);
    }
  }

  /** The sub-interface of a configuration, which is also the key of its DHCP lease. */
  function Device(hnc: HostNetworkConfig): (r: string)
  {
    BridgeVlanDevice(GenerateBridgeName(hnc.spec.clusterNetwork), hnc.spec.vlanID)
  }

  /** Over every admitted history, two live configurations never share a sub-interface or the underlay role. */
  lemma HostNetworksDisjoint(steps: seq<Step>, a: string, b: string)
    requires a != b
    ensures var hncs := Run(map[], steps);
            IsLive(hncs, a) && IsLive(hncs, b) ==>
              Device(hncs[a]) != Device(hncs[b]) && !(hncs[a].spec.underlay && hncs[b].spec.underlay)
  {
    RunKeepsInv(map[], steps);
    var hncs := Run(map[], steps);
    if IsLive(hncs, a) && IsLive(hncs, b) && Device(hncs[a]) == Device(hncs[b]) {
      DeviceOfGeneratedBridge(hncs[a].spec.clusterNetwork, hncs[a].spec.vlanID);
      DeviceOfGeneratedBridge(hncs[b].spec.clusterNetwork, hncs[b].spec.vlanID);
      var one, two := hncs[a].spec, hncs[b].spec;
      VlanDeviceInjective(one.clusterNetwork, one.vlanID, two.clusterNetwork, two.vlanID);
    }
  }

  /** Where all else is in order, a further configuration is admitted exactly if no live one has its sub-interface or,
      if it is for the underlay, that role; so every VID of a network can have one. */
  lemma CreateExactly(hncs: Store, name: string, spec: Spec, env: Env)
    requires Inv(hncs) && name !in hncs && IsClusterNetworkNameValid(spec.clusterNetwork)
    requires |Device(HostNetworkConfig(spec, false))| <= MAX_DEVICE_NAME_LEN
    requires env.networkExists && env.addressesOk && env.statusesReady && (spec.underlay ==> env.spansAllNodes)
    ensures name in Next(hncs, Create(name, spec, env)) <==>
            forall n :: IsLive(hncs, n) ==>
              Device(hncs[n]) != Device(HostNetworkConfig(spec, false)) && !(hncs[n].spec.underlay && spec.underlay)
  {
    DeviceOfGeneratedBridge(spec.clusterNetwork, spec.vlanID);
    forall n | IsLive(hncs, n)
      ensures Device(hncs[n]) == Device(HostNetworkConfig(spec, false)) <==> SameVlan(hncs[n].spec, spec)
    {
      var other := hncs[n].spec;
      DeviceOfGeneratedBridge(other.clusterNetwork, other.vlanID);
      if Device(hncs[n]) == Device(HostNetworkConfig(spec, false)) {
        VlanDeviceInjective(other.clusterNetwork, other.vlanID, spec.clusterNetwork, spec.vlanID);
      }
    }
  }

  /** A live underlay configuration blocks its own updates: beyond no change at all, exactly those are
      admitted that turn the underlay off. */
  lemma UnderlayBlocksItself(hncs: Store, name: string, spec: Spec, env: Env)
    requires IsLive(hncs, name) && hncs[name].spec.underlay && spec != hncs[name].spec
    ensures Next(hncs, Delete(name)) == hncs
    ensures UpdateAllowed(hncs, hncs[name].spec, spec, env) <==>
            && !spec.underlay && !env.overlayVms && env.addressesOk
            && SameVlan(spec, hncs[name].spec)
  {
  }
}
