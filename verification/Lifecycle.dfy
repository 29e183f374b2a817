/** VlanConfigs and ClusterNetworks as a transition system: admitted requests, the manager's handlers and
    the disappearance of deleted objects. A rejected request and a failed API call leave the state alone. */
module Lifecycle {
  import opened GoStrings
  import opened Mtus
  import opened Webhooks
  import opened DeviceNames

  /** `synced` holds the VlanConfigs that the manager has handled since their last spec change and since
      their cluster network was created. */
  datatype State = State(vcs: VlanConfigs, cns: ClusterNetworks, synced: set<string>)

  datatype Step =
    | CreateVc(name: string, vc: VlanConfig, fromController: bool, selected: set<string>, env: Env)
    | UpdateVc(name: string, vc: VlanConfig, fromController: bool, selected: set<string>, env: Env)
    | DeleteVc(name: string, fromController: bool, env: Env)
    | VcGone(name: string)
    | ManagerChange(name: string, env: Env)
    | ManagerRemove(name: string, candidate: Option<string>, env: Env)
    | CreateCn(name: string, cn: ClusterNetwork)
    | UpdateCn(name: string, cn: ClusterNetwork, env: Env)
    | DeleteCn(name: string, env: Env)
    | CnGone(name: string)

  // ----- The manager's handlers -----

  /** The cluster network that EnsureClusterNetwork writes for a VlanConfig. */
  function SyncedTo(cn: ClusterNetwork, name: string, vc: VlanConfig): (r: ClusterNetwork)
  {
    cn.(mtuAnnotation := Some(Itoa(TargetMtu(vc))), mtuSource := Some(name))
  }

  /** A VlanConfig that may take over as the source of the MTU annotation. */
  predicate Eligible(vcs: VlanConfigs, cn: string, removed: string, name: string) {
    && name in vcs && vcs[name].cnLabel == Some(cn)
    && name != removed && Live(vcs[name]) && IsValidMTU(GetMTU(vcs[name]))
  }

  /** Any eligible VlanConfig with a non-zero MTU, any eligible one otherwise, none only if there is none. */
  ghost predicate IsCandidate(vcs: VlanConfigs, cn: string, removed: string, candidate: Option<string>) {
    match candidate
    case None => forall n :: !Eligible(vcs, cn, removed, n)
    case Some(c) =>
      && Eligible(vcs, cn, removed, c)
      && (GetMTU(vcs[c]) == 0 ==> forall n :: Eligible(vcs, cn, removed, n) ==> GetMTU(vcs[n]) == 0)
  }

  /** The cluster network that OnVlanConfigRemove writes. */
  function HandedOver(cn: ClusterNetwork, vcs: VlanConfigs, candidate: Option<string>): (r: ClusterNetwork)
    requires candidate.Some? ==> candidate.value in vcs && MTUDefaultTo(GetMTU(vcs[candidate.value])) >= 0
  {
    match candidate
    case None => cn.(mtuAnnotation := None, mtuSource := None)
    case Some(c) => cn.(mtuAnnotation := Some(Itoa(MTUDefaultTo(GetMTU(vcs[c])))), mtuSource := Some(c))
  }

  // ----- Transitions -----

  /** The object that a create request stores. */
  function Created(step: Step): (r: VlanConfig)
    requires step.CreateVc?
  {
    MutatedOnCreate(step.vc, step.selected)
  }

  function Updated(s: State, step: Step): (r: VlanConfig)
    requires step.UpdateVc? && step.name in s.vcs
  {
    MutatedOnUpdate(s.vcs[step.name], step.vc, step.selected)
  }

  /** Whether a step takes effect. The API server keeps names unique and deletion marks for ever; the only
      controller that creates VlanConfigs for the management network labels them so. */
  ghost predicate Enabled(s: State, step: Step) {
    match step
    case CreateVc(name, vc, fromController, _, env) =>
      && name !in s.vcs && !vc.deleting && (vc.clusterNetwork == MGMT ==> vc.cnLabel == Some(MGMT))
      && CreateAllowed(s.vcs, s.cns, env, name, Created(step), fromController)
    case UpdateVc(name, vc, fromController, _, env) =>
      && name in s.vcs && vc.deleting == s.vcs[name].deleting
      && UpdateAllowed(s.vcs, s.cns, env, name, s.vcs[name], Updated(s, step), fromController)
    case DeleteVc(name, fromController, env) =>
      name in s.vcs && DeleteAllowed(env, s.vcs[name], fromController)
    case VcGone(name) =>
      name in s.vcs && s.vcs[name].deleting
    case ManagerChange(name, env) =>
      && HandledOnChange(s, name) && s.vcs[name].clusterNetwork in s.cns
      && (|| UpToDate(s, name)
          || CnUpdateAllowed(s.vcs, env, s.vcs[name].clusterNetwork, NetworkOf(s, name), ChangeWrite(s, name)))
    case ManagerRemove(name, candidate, env) =>
      && HandledOnRemove(s, name) && IsCandidate(s.vcs, s.vcs[name].clusterNetwork, name, candidate)
      && CnUpdateAllowed(s.vcs, env, s.vcs[name].clusterNetwork, NetworkOf(s, name),
                         HandedOver(NetworkOf(s, name), s.vcs, candidate))
    case CreateCn(name, cn) =>
      name !in s.cns && !cn.deleting && CnCreateAllowed(name, cn)
    case UpdateCn(name, cn, env) =>
      name in s.cns && cn.deleting == s.cns[name].deleting && CnUpdateAllowed(s.vcs, env, name, s.cns[name], cn)
    case DeleteCn(name, env) =>
      name in s.cns && CnDeleteAllowed(s.vcs, env, name)
    case CnGone(name) =>
      name in s.cns && s.cns[name].deleting
  }

  /** EnsureClusterNetwork passes over deleted VlanConfigs and those of the management network. */
  predicate HandledOnChange(s: State, name: string) {
    name in s.vcs && Live(s.vcs[name]) && s.vcs[name].clusterNetwork != MGMT
  }

  /** OnVlanConfigRemove acts only if the removed VlanConfig is the recorded source of the MTU. */
  predicate HandledOnRemove(s: State, name: string) {
    && name in s.vcs && s.vcs[name].deleting && s.vcs[name].clusterNetwork != MGMT
    && s.vcs[name].clusterNetwork in s.cns && NetworkOf(s, name).mtuSource == Some(name)
  }

  function NetworkOf(s: State, name: string): (r: ClusterNetwork)
    requires name in s.vcs && s.vcs[name].clusterNetwork in s.cns
  {
    s.cns[s.vcs[name].clusterNetwork]
  }

  predicate UpToDate(s: State, name: string)
    requires name in s.vcs && s.vcs[name].clusterNetwork in s.cns
  {
    NetworkOf(s, name).mtuAnnotation == Some(Itoa(TargetMtu(s.vcs[name])))
  }

  function ChangeWrite(s: State, name: string): (r: ClusterNetwork)
    requires name in s.vcs && s.vcs[name].clusterNetwork in s.cns
  {
    SyncedTo(NetworkOf(s, name), name, s.vcs[name])
  }

  ghost function Next(s: State, step: Step): (r: State)
  {
    if !Enabled(s, step) then s
    else match step
      case CreateVc(name, _, _, _, _) =>
        State(s.vcs[name := Created(step)], s.cns, s.synced - {name})
      case UpdateVc(name, _, _, _, _) =>
        var vc := Updated(s, step);
        var same := vc.clusterNetwork == s.vcs[name].clusterNetwork && vc.uplink == s.vcs[name].uplink;
        State(s.vcs[name := vc], s.cns, if same then s.synced else s.synced - {name})
      case DeleteVc(name, _, _) =>
        s.(vcs := s.vcs[name := s.vcs[name].(deleting := true)])
      case VcGone(name) =>
        s.(vcs := s.vcs - {name}, synced := s.synced - {name})
      case ManagerChange(name, _) =>
        var cns := if UpToDate(s, name) then s.cns else s.cns[s.vcs[name].clusterNetwork := ChangeWrite(s, name)];
        s.(cns := cns, synced := s.synced + {name})
      case ManagerRemove(name, candidate, _) =>
        s.(cns := s.cns[s.vcs[name].clusterNetwork := HandedOver(NetworkOf(s, name), s.vcs, candidate)])
      case CreateCn(name, cn) =>
        s.(cns := s.cns[name := cn], synced := set n | n in s.synced && n in s.vcs && s.vcs[n].clusterNetwork != name)
      case UpdateCn(name, cn, _) =>
        s.(cns := s.cns[name := cn])
      case DeleteCn(name, _) =>
        s.(cns := s.cns[name := s.cns[name].(deleting := true)])
      case CnGone(name) =>
        s.(cns := s.cns - {name})
  }

  ghost function Run(s: State, steps: seq<Step>): (r: State)
    decreases |steps|
  {
    if steps == [] then s else Run(Next(s, steps[0]), steps[1..])
  }

  const EMPTY := State(map[], map[], {})

  // ----- Invariant -----

  /** A live VlanConfig carries its own network as label and, off the management network, a valid MTU. */
  predicate Labelled(vc: VlanConfig) {
    Live(vc) ==> vc.cnLabel == Some(vc.clusterNetwork) && (vc.clusterNetwork != MGMT ==> IsValidMTU(GetMTU(vc)))
  }

  ghost predicate AllLabelled(vcs: VlanConfigs) {
    forall n :: n in vcs ==> Labelled(vcs[n])
  }

  ghost predicate OneMtuPerNetwork(vcs: VlanConfigs) {
    forall a, b :: a in vcs && b in vcs && Live(vcs[a]) && Live(vcs[b])
                   && vcs[a].clusterNetwork == vcs[b].clusterNetwork != MGMT ==>
      AreEqualMTUs(GetMTU(vcs[a]), GetMTU(vcs[b]))
  }

  /** The MTU that a cluster network announces is the one of a VlanConfig. */
  predicate Announces(cn: ClusterNetwork, vc: VlanConfig) {
    NetworkMtu(cn).Some? && AreEqualMTUs(NetworkMtu(cn).value, GetMTU(vc))
  }

  /** The network of a VlanConfig exists and is not being deleted. */
  predicate OnLiveNetwork(s: State, name: string)
    requires name in s.vcs
  {
    s.vcs[name].clusterNetwork in s.cns && !NetworkOf(s, name).deleting
  }

  /** A handled VlanConfig sees its MTU on its network, as long as both are live. */
  ghost predicate SyncedAnnounced(s: State) {
    forall n :: n in s.synced && HandledOnChange(s, n) && OnLiveNetwork(s, n) ==>
      Announces(NetworkOf(s, n), s.vcs[n])
  }

  ghost predicate Inv(s: State) {
    AllLabelled(s.vcs) && OneMtuPerNetwork(s.vcs) && SyncedAnnounced(s)
  }

  /** Storing an admitted VlanConfig keeps the labels right and the MTUs of each network equal. */
  lemma AdmittedVc(vcs: VlanConfigs, name: string, vc: VlanConfig)
    requires AllLabelled(vcs) && OneMtuPerNetwork(vcs)
    requires Live(vc) ==> Labelled(vc) && MtuAgrees(vcs, name, vc)
    ensures AllLabelled(vcs[name := vc]) && OneMtuPerNetwork(vcs[name := vc])
  {
    forall a | a in vcs && a != name && Live(vcs[a]) && Live(vc) && vcs[a].clusterNetwork == vc.clusterNetwork != MGMT
      ensures AreEqualMTUs(GetMTU(vc), GetMTU(vcs[a])) && AreEqualMTUs(GetMTU(vcs[a]), GetMTU(vc))
    {
      assert vcs[a].cnLabel == Some(vc.clusterNetwork);
    }
  }

  lemma CreateVcKeepsInv(s: State, step: Step)
    requires Inv(s) && step.CreateVc? && Enabled(s, step)
    ensures Inv(Next(s, step))
  {
    AdmittedVc(s.vcs, step.name, Created(step));
    KeptSync(s, Next(s, step), step.name);
  }

  lemma UpdateVcKeepsInv(s: State, step: Step)
    requires Inv(s) && step.UpdateVc? && Enabled(s, step)
    ensures Inv(Next(s, step))
  {
    AdmittedVc(s.vcs, step.name, Updated(s, step));
    KeptSync(s, Next(s, step), step.name);
  }

  /** Synchronisation survives a change to one VlanConfig that is no longer counted or keeps its spec. */
  lemma KeptSync(s: State, s': State, name: string)
    requires SyncedAnnounced(s) && s'.cns == s.cns && s'.synced <= s.synced
    requires forall n :: n != name ==> (n in s'.vcs <==> n in s.vcs) && (n in s.vcs ==> s'.vcs[n] == s.vcs[n])
    requires name in s'.synced && HandledOnChange(s', name) ==>
               HandledOnChange(s, name) && s'.vcs[name].clusterNetwork == s.vcs[name].clusterNetwork
               && s'.vcs[name].uplink == s.vcs[name].uplink
    ensures SyncedAnnounced(s')
  {
    forall n | n in s'.synced && HandledOnChange(s', n) && OnLiveNetwork(s', n)
      ensures Announces(NetworkOf(s', n), s'.vcs[n])
    {
      assert HandledOnChange(s, n) && NetworkOf(s, n) == NetworkOf(s', n);
    }
  }

  lemma RemoveVcKeepsInv(s: State, step: Step)
    requires Inv(s) && (step.DeleteVc? || step.VcGone?) && Enabled(s, step)
    ensures Inv(Next(s, step))
  {
    KeptSync(s, Next(s, step), step.name);
  }

  /** A write that passes the cluster network webhook announces the MTU of every live VlanConfig there. */
  lemma AcceptedWriteAnnounces(s: State, env: Env, cnName: string, cn: ClusterNetwork, synced: set<string>)
    requires Inv(s) && cnName in s.cns && CnUpdateAllowed(s.vcs, env, cnName, s.cns[cnName], cn)
    requires forall n :: n in synced && n !in s.synced ==> n in s.vcs && s.vcs[n].clusterNetwork == cnName
    ensures SyncedAnnounced(s.(cns := s.cns[cnName := cn], synced := synced))
  {
    var s' := s.(cns := s.cns[cnName := cn], synced := synced);
    forall n | n in synced && HandledOnChange(s', n) && s.vcs[n].clusterNetwork in s'.cns && !NetworkOf(s', n).deleting
      ensures Announces(NetworkOf(s', n), s.vcs[n])
    {
      assert Labelled(s.vcs[n]);
      assert s.vcs[n].clusterNetwork != cnName ==> NetworkOf(s', n) == NetworkOf(s, n) && HandledOnChange(s, n);
    }
  }

  lemma ManagerChangeKeepsInv(s: State, step: Step)
    requires Inv(s) && step.ManagerChange? && Enabled(s, step)
    ensures Inv(Next(s, step))
  {
    var name := step.name;
    var vc := s.vcs[name];
    if UpToDate(s, name) {
      TargetRead(vc);
      assert SyncedAnnounced(Next(s, step));
    } else {
      AcceptedWriteAnnounces(s, step.env, vc.clusterNetwork, ChangeWrite(s, name), s.synced + {name});
    }
  }

  /** The MTU that the manager prints for a VlanConfig reads back as the VlanConfig's own. */
  lemma TargetRead(vc: VlanConfig)
    requires IsValidMTU(GetMTU(vc))
    ensures GetMTUFromString(Itoa(TargetMtu(vc))).Some?
    ensures AreEqualMTUs(GetMTUFromString(Itoa(TargetMtu(vc))).value, GetMTU(vc))
  {
    PrintedMtuReadsBack(TargetMtu(vc));
  }

  lemma CnStepKeepsInv(s: State, step: Step)
    requires Inv(s) && (step.ManagerRemove? || step.UpdateCn?) && Enabled(s, step)
    ensures Inv(Next(s, step))
  {
    if step.UpdateCn? {
      AcceptedWriteAnnounces(s, step.env, step.name, step.cn, s.synced);
    } else {
      var cnName := s.vcs[step.name].clusterNetwork;
      AcceptedWriteAnnounces(s, step.env, cnName, HandedOver(NetworkOf(s, step.name), s.vcs, step.candidate), s.synced);
    }
  }

  lemma CnLifeKeepsInv(s: State, step: Step)
    requires Inv(s) && (step.CreateCn? || step.DeleteCn? || step.CnGone?) && Enabled(s, step)
    ensures Inv(Next(s, step))
  {
    var s' := Next(s, step);
    forall n | n in s'.synced && HandledOnChange(s', n) && OnLiveNetwork(s', n)
      ensures Announces(NetworkOf(s', n), s'.vcs[n])
    {
      assert HandledOnChange(s, n) && NetworkOf(s, n) == NetworkOf(s', n);
    }
  }

  lemma StepKeepsInv(s: State, step: Step)
    requires Inv(s)
    ensures Inv(Next(s, step))
  {
    if Enabled(s, step) {
      match step {
        case CreateVc(_, _, _, _, _) => CreateVcKeepsInv(s, step);
        case UpdateVc(_, _, _, _, _) => UpdateVcKeepsInv(s, step);
        case DeleteVc(_, _, _) => RemoveVcKeepsInv(s, step);
        case VcGone(_) => RemoveVcKeepsInv(s, step);
        case ManagerChange(_, _) => ManagerChangeKeepsInv(s, step);
        case ManagerRemove(_, _, _) => CnStepKeepsInv(s, step);
        case UpdateCn(_, _, _) => CnStepKeepsInv(s, step);
        case CreateCn(_, _) => CnLifeKeepsInv(s, step);
        case DeleteCn(_, _) => CnLifeKeepsInv(s, step);
        case CnGone(_) => CnLifeKeepsInv(s, step);
      }
    }
  }

  lemma {:induction false} RunKeepsInv(s: State, steps: seq<Step>)
    requires Inv(s)
    ensures Inv(Run(s, steps))
    decreases |steps|
  {
    if steps != [] {
      StepKeepsInv(s, steps[0]);
      RunKeepsInv(Next(s, steps[0]), steps[1..]);
    }
  }

  // ----- What every run guarantees -----

  lemma EmptyInv()
    ensures Inv(EMPTY)
  {
  }

  /** Over every history of admitted requests: labels are the networks, so a lookup by label finds exactly
      the live VlanConfigs of a network, all with valid and equal MTUs. */
  lemma AdmissionInvariant(steps: seq<Step>, a: string, b: string)
    ensures var vcs := Run(EMPTY, steps).vcs;
            a in vcs && b in vcs && Live(vcs[a]) && Live(vcs[b]) ==>
              && (vcs[a].clusterNetwork == vcs[b].clusterNetwork <==>
                    vcs[a].cnLabel == vcs[b].cnLabel == Some(vcs[b].clusterNetwork))
              && (vcs[a].clusterNetwork != MGMT ==> IsValidMTU(GetMTU(vcs[a])))
              && (vcs[a].clusterNetwork == vcs[b].clusterNetwork != MGMT ==>
                    AreEqualMTUs(GetMTU(vcs[a]), GetMTU(vcs[b])))
  {
    EmptyInv();
    RunKeepsInv(EMPTY, steps);
    var vcs := Run(EMPTY, steps).vcs;
    if a in vcs && b in vcs {
      assert Labelled(vcs[a]) && Labelled(vcs[b]);
    }
  }

  /** Whatever the order of requests and handlers: once one live VlanConfig of a network has been handled
      since its last spec change and since the network was created, the network announces the common MTU. */
  lemma MtuInSync(steps: seq<Step>, handled: string, other: string)
    ensures var s := Run(EMPTY, steps);
            && handled in s.synced && HandledOnChange(s, handled) && HandledOnChange(s, other)
            && s.vcs[other].clusterNetwork == s.vcs[handled].clusterNetwork && s.vcs[handled].clusterNetwork in s.cns
            && !NetworkOf(s, handled).deleting
            ==> Announces(NetworkOf(s, handled), s.vcs[other])
  {
    EmptyInv();
    RunKeepsInv(EMPTY, steps);
    var s := Run(EMPTY, steps);
    if HandledOnChange(s, handled) && HandledOnChange(s, other)
       && s.vcs[other].clusterNetwork == s.vcs[handled].clusterNetwork
       && s.vcs[handled].clusterNetwork in s.cns && NetworkMtu(NetworkOf(s, handled)).Some? {
      EqualMTUsIsEquivalence(NetworkMtu(NetworkOf(s, handled)).value, GetMTU(s.vcs[handled]), GetMTU(s.vcs[other]));
    }
  }

  /** In every reachable state the cluster network webhook accepts what the change handler writes. */
  lemma ChangeHandlerNeverRefused(steps: seq<Step>, name: string, env: Env)
    ensures var s := Run(EMPTY, steps);
            HandledOnChange(s, name) && s.vcs[name].clusterNetwork in s.cns ==>
              CnUpdateAllowed(s.vcs, env, s.vcs[name].clusterNetwork, NetworkOf(s, name), ChangeWrite(s, name))
  {
    EmptyInv();
    RunKeepsInv(EMPTY, steps);
    var s := Run(EMPTY, steps);
    if HandledOnChange(s, name) && s.vcs[name].clusterNetwork in s.cns {
      ValueAccepted(s, name, ChangeWrite(s, name));
    }
  }

  /** A network that announces the MTU of one live VlanConfig agrees with all of them. */
  lemma ValueAccepted(s: State, name: string, cn: ClusterNetwork)
    requires Inv(s) && HandledOnChange(s, name) && cn.mtuAnnotation == Some(Itoa(TargetMtu(s.vcs[name])))
    ensures CnMtuAgrees(s.vcs, s.vcs[name].clusterNetwork, cn)
  {
    var vc := s.vcs[name];
    assert Labelled(vc);
    TargetRead(vc);
    forall n | n in s.vcs && Live(s.vcs[n]) && s.vcs[n].cnLabel == Some(vc.clusterNetwork)
      ensures AreEqualMTUs(GetMTU(s.vcs[n]), NetworkMtu(cn).value)
    {
      assert Labelled(s.vcs[n]);
      EqualMTUsIsEquivalence(GetMTU(s.vcs[n]), GetMTU(vc), NetworkMtu(cn).value);
    }
  }

  /** The same for the removal handler, whichever candidate its listing order yields. */
  lemma RemoveHandlerNeverRefused(steps: seq<Step>, name: string, candidate: Option<string>, env: Env)
    ensures var s := Run(EMPTY, steps);
            HandledOnRemove(s, name) && IsCandidate(s.vcs, s.vcs[name].clusterNetwork, name, candidate) ==>
              CnUpdateAllowed(s.vcs, env, s.vcs[name].clusterNetwork, NetworkOf(s, name),
                              HandedOver(NetworkOf(s, name), s.vcs, candidate))
  {
    EmptyInv();
    RunKeepsInv(EMPTY, steps);
    var s := Run(EMPTY, steps);
    if HandledOnRemove(s, name) && IsCandidate(s.vcs, s.vcs[name].clusterNetwork, name, candidate) {
      HandOverAccepted(s, name, candidate);
    }
  }

  lemma HandOverAccepted(s: State, name: string, candidate: Option<string>)
    requires Inv(s) && HandledOnRemove(s, name) && IsCandidate(s.vcs, s.vcs[name].clusterNetwork, name, candidate)
    ensures CnMtuAgrees(s.vcs, s.vcs[name].clusterNetwork, HandedOver(NetworkOf(s, name), s.vcs, candidate))
  {
    var cnName := s.vcs[name].clusterNetwork;
    if candidate.Some? {
      assert Labelled(s.vcs[candidate.value]);
      ValueAccepted(s, candidate.value, HandedOver(NetworkOf(s, name), s.vcs, candidate));
    } else {
      forall n | n in s.vcs && Live(s.vcs[n])
        ensures s.vcs[n].cnLabel != Some(cnName)
      {
        assert Labelled(s.vcs[n]) && !Eligible(s.vcs, cnName, name, n);
      }
    }
  }

  /** A VlanConfig whose handling wrote the annotation is its source. When it is deleted and its removal handled,
      annotation and source go over to another live VlanConfig of the network, and are cleared if there is none. */
  lemma HandedOverOnRemoval(s: State, name: string, env: Env, fromController: bool, candidate: Option<string>)
    requires Inv(s) && HandledOnChange(s, name) && s.vcs[name].clusterNetwork in s.cns && !UpToDate(s, name)
    requires DeleteAllowed(env, s.vcs[name], fromController)
    requires IsCandidate(s.vcs, s.vcs[name].clusterNetwork, name, candidate)
    ensures var deleted := Next(Next(s, ManagerChange(name, env)), DeleteVc(name, fromController, env));
            HandedOverTo(s, Next(deleted, ManagerRemove(name, candidate, env)), name, candidate)
  {
    var s2 := Next(Next(s, ManagerChange(name, env)), DeleteVc(name, fromController, env));
    SourceRecorded(s, name, env, fromController);
    assert forall n :: Eligible(s2.vcs, s.vcs[name].clusterNetwork, name, n) <==>
                       Eligible(s.vcs, s.vcs[name].clusterNetwork, name, n);
    RemovalHandsOver(s2, name, env, candidate);
  }

  /** The network of a VlanConfig has another source, which is live there and whose MTU it announces; or it has
      neither source nor annotation, and no other VlanConfig is live there. */
  ghost predicate HandedOverTo(s: State, s': State, name: string, candidate: Option<string>)
    requires name in s.vcs
  {
    var c := s.vcs[name].clusterNetwork;
    && c in s'.cns && s'.cns[c].mtuSource == candidate
    && match candidate
       case None =>
         && s'.cns[c].mtuAnnotation.None?
         && forall n :: n in s'.vcs && n != name && Live(s'.vcs[n]) ==> s'.vcs[n].clusterNetwork != c
       case Some(n) =>
         && n != name && n in s'.vcs && Live(s'.vcs[n]) && s'.vcs[n].clusterNetwork == c
         && s'.cns[c].mtuAnnotation.Some? && Announces(s'.cns[c], s'.vcs[n])
  }

  lemma SourceRecorded(s: State, name: string, env: Env, fromController: bool)
    requires Inv(s) && HandledOnChange(s, name) && s.vcs[name].clusterNetwork in s.cns && !UpToDate(s, name)
    requires DeleteAllowed(env, s.vcs[name], fromController)
    ensures var s2 := Next(Next(s, ManagerChange(name, env)), DeleteVc(name, fromController, env));
            && Inv(s2) && s2.vcs == s.vcs[name := s.vcs[name].(deleting := true)] && HandledOnRemove(s2, name)
  {
    ValueAccepted(s, name, ChangeWrite(s, name));
    StepKeepsInv(s, ManagerChange(name, env));
    StepKeepsInv(Next(s, ManagerChange(name, env)), DeleteVc(name, fromController, env));
  }

  lemma RemovalHandsOver(s: State, name: string, env: Env, candidate: Option<string>)
    requires Inv(s) && HandledOnRemove(s, name) && IsCandidate(s.vcs, s.vcs[name].clusterNetwork, name, candidate)
    ensures HandedOverTo(s, Next(s, ManagerRemove(name, candidate, env)), name, candidate)
  {
    HandOverAccepted(s, name, candidate);
    OthersOnNetwork(s, s.vcs[name].clusterNetwork, name);
    if candidate.Some? {
      PrintedMtuReadsBack(MTUDefaultTo(GetMTU(s.vcs[candidate.value])));
    }
  }

  /** The removal of any other VlanConfig leaves the networks alone. */
  lemma RemovalOfAnother(s: State, name: string, env: Env, candidate: Option<string>)
    requires name in s.vcs && s.vcs[name].clusterNetwork in s.cns && NetworkOf(s, name).mtuSource != Some(name)
    ensures Next(s, ManagerRemove(name, candidate, env)) == s
  {
  }

  /** Under the invariant, the eligible VlanConfigs are the other live ones of the network. */
  lemma OthersOnNetwork(s: State, c: string, removed: string)
    requires Inv(s) && c != MGMT
    ensures forall n :: Eligible(s.vcs, c, removed, n) <==>
              n in s.vcs && n != removed && Live(s.vcs[n]) && s.vcs[n].clusterNetwork == c
  {
    assert forall n :: n in s.vcs && Live(s.vcs[n]) ==> Labelled(s.vcs[n]);
  }

  // ----- Sources of the MTU annotation -----

  predicate SourceStands(s: State, c: string, cn: ClusterNetwork) {
    cn.mtuSource.Some? ==> cn.mtuSource.value in s.vcs && s.vcs[cn.mtuSource.value].clusterNetwork == c
  }

  /** The recorded source of every network is a stored VlanConfig of that network. */
  ghost predicate SourcesStand(s: State) {
    forall c :: c in s.cns ==> SourceStands(s, c, s.cns[c])
  }

  /** The source of a network moves to another one or goes before its removal is handled, or a request writes
      another source. */
  ghost predicate LosesSource(s: State, step: Step) {
    Enabled(s, step) &&
    match step
    case UpdateVc(name, _, _, _, _) => Sources(s, name) && Updated(s, step).clusterNetwork != s.vcs[name].clusterNetwork
    case VcGone(name) => Sources(s, name)
    case CreateCn(name, cn) => !SourceStands(s, name, cn)
    case UpdateCn(name, cn, _) => !SourceStands(s, name, cn)
    case _ => false
  }

  /** A VlanConfig is the recorded source of its own network. */
  predicate Sources(s: State, name: string) {
    name in s.vcs && s.vcs[name].clusterNetwork in s.cns && NetworkOf(s, name).mtuSource == Some(name)
  }

  /** These are the only ways in which the source of a network can be lost. */
  lemma SourcesStandExactly(s: State, step: Step)
    requires Inv(s) && SourcesStand(s)
    ensures SourcesStand(Next(s, step)) <==> !LosesSource(s, step)
  {
    var s' := Next(s, step);
    if Enabled(s, step) {
      match step {
        case UpdateVc(name, _, _, _, _) =>
          if Sources(s, name) {
            assert s'.cns[s.vcs[name].clusterNetwork].mtuSource == Some(name);
          }
        case VcGone(name) =>
          if Sources(s, name) {
            assert s'.cns[s.vcs[name].clusterNetwork].mtuSource == Some(name);
          }
        case CreateCn(name, cn) => assert s'.cns[name] == cn;
        case UpdateCn(name, cn, _) => assert s'.cns[name] == cn;
        case ManagerRemove(name, candidate, _) =>
          if candidate.Some? {
            assert Labelled(s.vcs[candidate.value]);
          }
        case _ =>
      }
    }
  }

  /** A source that moves away leaves its MTU behind: no later handling of it touches the network it has left. */
  lemma MigrationLeavesMtu(s: State, step: Step, env: Env, candidate: Option<string>)
    requires Inv(s) && step.UpdateVc? && Enabled(s, step) && Sources(s, step.name)
    requires Updated(s, step).clusterNetwork != s.vcs[step.name].clusterNetwork
    ensures var c := s.vcs[step.name].clusterNetwork;
            var s' := Next(s, step);
            && s'.cns == s.cns && s'.cns[c].mtuSource == Some(step.name)
            && (var r := Next(s', ManagerChange(step.name, env)); c in r.cns && r.cns[c] == s.cns[c])
            && (var r := Next(s', ManagerRemove(step.name, candidate, env)); c in r.cns && r.cns[c] == s.cns[c])
  {
  }

  /** Writes that leave the MTU annotation of a network alone, such as a new readiness or VID set, are accepted
      exactly while the network announces the MTU of a live VlanConfig there, whichever one is asked. */
  lemma OtherWritesExactly(s: State, name: string, env: Env, cn: ClusterNetwork)
    requires Inv(s) && HandledOnChange(s, name) && s.vcs[name].clusterNetwork in s.cns
    requires cn.mtuAnnotation == NetworkOf(s, name).mtuAnnotation && !cn.deleting
    ensures CnUpdateAllowed(s.vcs, env, s.vcs[name].clusterNetwork, NetworkOf(s, name), cn) <==>
            Announces(NetworkOf(s, name), s.vcs[name])
  {
    var vc := s.vcs[name];
    assert Labelled(vc);
    if NetworkMtu(cn).Some? {
      var mtu := NetworkMtu(cn).value;
      EqualMTUsIsEquivalence(GetMTU(vc), mtu, GetMTU(vc));
      EqualMTUsIsEquivalence(mtu, GetMTU(vc), mtu);
      forall n | n in s.vcs && Live(s.vcs[n]) && s.vcs[n].cnLabel == Some(vc.clusterNetwork)
        ensures AreEqualMTUs(mtu, GetMTU(vc)) ==> AreEqualMTUs(GetMTU(s.vcs[n]), mtu)
      {
        assert Labelled(s.vcs[n]);
        EqualMTUsIsEquivalence(GetMTU(s.vcs[n]), GetMTU(vc), mtu);
      }
    }
  }

  /** They are refused between an admitted MTU change and its handling. */
  lemma MtuChangeBlocksOtherWrites(s: State, step: Step, env: Env, cn: ClusterNetwork)
    requires Inv(s) && step.UpdateVc? && Enabled(s, step) && HandledOnChange(s, step.name)
    requires var before, after := s.vcs[step.name], Updated(s, step);
             && after.clusterNetwork == before.clusterNetwork && after.clusterNetwork in s.cns
             && !AreEqualMTUs(GetMTU(after), GetMTU(before)) && Announces(NetworkOf(s, step.name), before)
    requires cn.mtuAnnotation == NetworkOf(s, step.name).mtuAnnotation && !cn.deleting
    ensures !CnUpdateAllowed(Next(s, step).vcs, env, s.vcs[step.name].clusterNetwork, NetworkOf(s, step.name), cn)
  {
    var s' := Next(s, step);
    StepKeepsInv(s, step);
    OtherWritesExactly(s', step.name, env, cn);
    EqualMTUsIsEquivalence(GetMTU(s'.vcs[step.name]), NetworkMtu(cn).value, GetMTU(s.vcs[step.name]));
    EqualMTUsIsEquivalence(NetworkMtu(cn).value, GetMTU(s'.vcs[step.name]), NetworkMtu(cn).value);
  }

  /** Handling any live VlanConfig of the network unblocks them. */
  lemma HandlingUnblocksOtherWrites(s: State, name: string, env: Env, cn: ClusterNetwork)
    requires Inv(s) && HandledOnChange(s, name) && s.vcs[name].clusterNetwork in s.cns
    requires cn.mtuAnnotation == NetworkOf(Next(s, ManagerChange(name, env)), name).mtuAnnotation
    ensures CnUpdateAllowed(Next(s, ManagerChange(name, env)).vcs, env, s.vcs[name].clusterNetwork,
                            NetworkOf(Next(s, ManagerChange(name, env)), name), cn)
  {
    var s' := Next(s, ManagerChange(name, env));
    HandlingAnnounces(s, name, env);
    if !cn.deleting {
      StepKeepsInv(s, ManagerChange(name, env));
      OtherWritesExactly(s', name, env, cn);
    }
  }

  lemma HandlingAnnounces(s: State, name: string, env: Env)
    requires Inv(s) && HandledOnChange(s, name) && s.vcs[name].clusterNetwork in s.cns
    ensures var s' := Next(s, ManagerChange(name, env));
            && s'.vcs == s.vcs && s'.cns.Keys == s.cns.Keys && name in s'.synced
            && Announces(NetworkOf(s', name), s.vcs[name])
  {
    ValueAccepted(s, name, ChangeWrite(s, name));
    assert Labelled(s.vcs[name]);
    TargetRead(s.vcs[name]);
  }

  /** A cluster network is created, a VlanConfig with MTU 1500 is admitted and handled, and its MTU is changed
      to 9000. */
  function MtuChangeSteps(env: Env): (r: seq<Step>)
  {
    var vc := VlanConfig("c", Uplink([], Some(1500), ""), Some("c"), {}, false);
    var empty := ClusterNetwork(None, None, false, false);
    [CreateCn("c", empty), CreateVc("x", vc, false, {}, env), ManagerChange("x", env),
     UpdateVc("x", vc.(uplink := Uplink([], Some(9000), "")), false, {}, env)]
  }

  /** At the end of these steps the webhook refuses to let the network become Ready; once the VlanConfig is
      handled again, it accepts. */
  lemma ReadinessRefusedRun(env: Env)
    requires env.nads == [] && env.vmis == [] && env.statusVc == map[]
    ensures var s := Run(EMPTY, MtuChangeSteps(env));
            var s' := Next(s, ManagerChange("x", env));
            && "c" in s.cns && !Enabled(s, UpdateCn("c", s.cns["c"].(ready := true), env))
            && "c" in s'.cns && Enabled(s', UpdateCn("c", s'.cns["c"].(ready := true), env))
  {
    var steps := MtuChangeSteps(env);
    AdmittedAt1500(env);
    var s3 := Next(Next(Next(EMPTY, steps[0]), steps[1]), steps[2]);
    ChangedMtuBlocks(s3, steps[3], env);
    RunUnfolds(EMPTY, steps);
    assert steps[4..] == [];
  }

  lemma AdmittedAt1500(env: Env)
    requires env.statusVc == map[]
    ensures var steps := MtuChangeSteps(env);
            var s := Next(Next(Next(EMPTY, steps[0]), steps[1]), steps[2]);
            && Inv(s) && s.vcs == map["x" := steps[1].vc] && s.cns.Keys == {"c"} && !s.cns["c"].deleting
            && Announces(s.cns["c"], s.vcs["x"])
  {
    var steps := MtuChangeSteps(env);
    var vc := steps[1].vc;
    var s1 := Next(EMPTY, steps[0]);
    assert s1 == State(map[], map["c" := steps[0].cn], {});
    assert Created(steps[1]) == vc && "c"[0] != MGMT[0];
    var s2 := Next(s1, steps[1]);
    assert s2 == State(map["x" := vc], s1.cns, {});
    EmptyInv();
    StepKeepsInv(EMPTY, steps[0]);
    StepKeepsInv(s1, steps[1]);
    HandlingAnnounces(s2, "x", env);
    StepKeepsInv(s2, steps[2]);
  }

  lemma ChangedMtuBlocks(s: State, step: Step, env: Env)
    requires env.nads == [] && env.vmis == [] && env.statusVc == map[] && step == MtuChangeSteps(env)[3]
    requires Inv(s) && s.vcs == map["x" := MtuChangeSteps(env)[1].vc] && s.cns.Keys == {"c"} && !s.cns["c"].deleting
    requires Announces(s.cns["c"], s.vcs["x"])
    ensures var s' := Next(s, step);
            var s'' := Next(s', ManagerChange("x", env));
            && "c" in s'.cns && !Enabled(s', UpdateCn("c", s'.cns["c"].(ready := true), env))
            && "c" in s''.cns && Enabled(s'', UpdateCn("c", s''.cns["c"].(ready := true), env))
  {
    var s' := Next(s, step);
    assert "c"[0] != MGMT[0];
    assert Updated(s, step) == step.vc && AffectedNodes(s.vcs["x"], step.vc) == {};
    assert Enabled(s, step);
    StepKeepsInv(s, step);
    MtuChangeBlocksOtherWrites(s, step, env, s.cns["c"].(ready := true));
    HandlingAnnounces(s', "x", env);
    HandlingUnblocksOtherWrites(s', "x", env, NetworkOf(Next(s', ManagerChange("x", env)), "x").(ready := true));
  }

  // ----- Networks that are deleted under a VlanConfig -----

  /** Every live VlanConfig has its cluster network, and that network is not being deleted. */
  ghost predicate NetworksStand(s: State) {
    forall n :: n in s.vcs && Live(s.vcs[n]) ==> OnLiveNetwork(s, n)
  }

  /** The step stores a live VlanConfig on a network that is already marked for deletion. */
  ghost predicate AdmitsIntoDeleting(s: State, step: Step) {
    Enabled(s, step) &&
    match step
    case CreateVc(_, _, _, _, _) =>
      var c := Created(step).clusterNetwork; c in s.cns && s.cns[c].deleting
    case UpdateVc(_, _, _, _, _) =>
      var c := Updated(s, step).clusterNetwork; Live(Updated(s, step)) && c in s.cns && s.cns[c].deleting
    case _ => false
  }

  /** Only a network without live VlanConfigs and without NADs can be deleted, and never the management network;
      once no VlanConfig carries its label either, it can. */
  lemma DeletableNetworks(s: State, name: string, env: Env)
    requires Inv(s) && name in s.cns
    ensures Enabled(s, DeleteCn(name, env)) ==>
              && name != MGMT && (forall nad :: nad in env.nads ==> !OnNetwork(nad, name))
              && forall n :: n in s.vcs && Live(s.vcs[n]) ==> s.vcs[n].clusterNetwork != name
    ensures name != MGMT && (forall n :: n in s.vcs ==> s.vcs[n].cnLabel != Some(name)) && env.nads == [] ==>
              Enabled(s, DeleteCn(name, env))
  {
    assert forall n :: n in s.vcs && Live(s.vcs[n]) ==> Labelled(s.vcs[n]);
  }

  /** The webhooks do not look at a network's deletion mark, and that is the only way to lose a network. */
  lemma NetworksStandExactly(s: State, step: Step)
    requires Inv(s) && NetworksStand(s)
    ensures NetworksStand(Next(s, step)) <==> !AdmitsIntoDeleting(s, step)
  {
    var s' := Next(s, step);
    if AdmitsIntoDeleting(s, step) {
      assert step.name in s'.vcs && Live(s'.vcs[step.name]);
    } else if Enabled(s, step) && step.DeleteCn? {
      assert forall n :: n in s.vcs && Live(s.vcs[n]) ==> Labelled(s.vcs[n]) && s.vcs[n].clusterNetwork != step.name;
    }
  }

  /** No step of the run admits a VlanConfig into a network that is being deleted. */
  ghost predicate AdmitsNone(s: State, steps: seq<Step>) {
    forall k :: 0 <= k < |steps| ==> !AdmitsIntoDeleting(Run(s, steps[..k]), steps[k])
  }

  /** A run that admits nothing into a network marked for deletion never takes one away. */
  lemma {:induction false} NetworksStandForever(s: State, steps: seq<Step>)
    requires Inv(s) && NetworksStand(s)
    requires AdmitsNone(s, steps)
    ensures NetworksStand(Run(s, steps))
    decreases |steps|
  {
    if steps != [] {
      assert steps[..0] == [];
      StepKeepsInv(s, steps[0]);
      NetworksStandExactly(s, steps[0]);
      var s' := Next(s, steps[0]);
      forall k | 0 <= k < |steps| - 1
        ensures !AdmitsIntoDeleting(Run(s', steps[1..][..k]), steps[1..][k])
      {
        assert steps[..k + 1][1..] == steps[1..][..k] && steps[..k + 1][0] == steps[0];
      }
      NetworksStandForever(s', steps[1..]);
    }
  }

  lemma {:induction false} RunOneMore(s: State, steps: seq<Step>, k: nat)
    requires k < |steps|
    ensures Run(s, steps[..k + 1]) == Next(Run(s, steps[..k]), steps[k])
    decreases k
  {
    if k == 0 {
      assert steps[..0] == [] && steps[..1] == [steps[0]];
      assert Run(s, [steps[0]]) == Run(Next(s, steps[0]), []);
    } else {
      RunOneMore(Next(s, steps[0]), steps[1..], k - 1);
      assert steps[..k + 1][1..] == steps[1..][..k] && steps[..k][1..] == steps[1..][..k - 1];
    }
  }

  /** In every state of such a run the invariants hold and the networks stand. */
  lemma StandingAt(steps: seq<Step>, k: nat)
    requires AdmitsNone(EMPTY, steps) && k <= |steps|
    ensures Inv(Run(EMPTY, steps[..k])) && NetworksStand(Run(EMPTY, steps[..k]))
  {
    EmptyInv();
    RunKeepsInv(EMPTY, steps[..k]);
    forall j | 0 <= j < k
      ensures !AdmitsIntoDeleting(Run(EMPTY, steps[..k][..j]), steps[..k][j])
    {
      assert steps[..k][..j] == steps[..j];
    }
    NetworksStandForever(EMPTY, steps[..k]);
  }

  /** The VlanConfig is there, live, and has the network and the uplink of another version of it. */
  predicate KeepsSpec(s: State, name: string, vc: VlanConfig) {
    && name in s.vcs && Live(s.vcs[name])
    && s.vcs[name].clusterNetwork == vc.clusterNetwork && s.vcs[name].uplink == vc.uplink
  }

  /** While networks stand, nothing but a change of its spec undoes the handling of a VlanConfig. */
  lemma StaysSynced(s: State, step: Step, name: string, vc: VlanConfig)
    requires Inv(s) && NetworksStand(s) && name in s.synced
    requires KeepsSpec(s, name, vc) && KeepsSpec(Next(s, step), name, vc)
    ensures name in Next(s, step).synced
  {
  }

  lemma {:induction false} SyncedSince(steps: seq<Step>, i: nat, k: nat, name: string, vc: VlanConfig)
    requires AdmitsNone(EMPTY, steps) && i < k <= |steps| && steps[i].ManagerChange? && steps[i].name == name
    requires vc.clusterNetwork != MGMT
    requires forall j :: i <= j <= k ==> KeepsSpec(Run(EMPTY, steps[..j]), name, vc)
    ensures name in Run(EMPTY, steps[..k]).synced
    decreases k
  {
    var s := Run(EMPTY, steps[..k - 1]);
    RunOneMore(EMPTY, steps, k - 1);
    StandingAt(steps, k - 1);
    assert KeepsSpec(s, name, vc);
    if k - 1 > i {
      SyncedSince(steps, i, k - 1, name, vc);
    }
    SyncedNext(s, steps[k - 1], name, vc);
  }

  lemma SyncedNext(s: State, step: Step, name: string, vc: VlanConfig)
    requires Inv(s) && NetworksStand(s) && vc.clusterNetwork != MGMT
    requires name in s.synced || (step.ManagerChange? && step.name == name)
    requires KeepsSpec(s, name, vc) && KeepsSpec(Next(s, step), name, vc)
    ensures name in Next(s, step).synced
  {
    if name in s.synced {
      StaysSynced(s, step, name, vc);
    } else {
      HandlingAnnounces(s, name, step.env);
    }
  }

  /** In every run that admits nothing into a network marked for deletion: once the manager has handled a live
      VlanConfig, its network announces the MTU of all live VlanConfigs there for as long as it keeps its spec. */
  lemma AnnouncedOnceHandled(steps: seq<Step>, i: nat, k: nat, name: string, vc: VlanConfig, other: string)
    requires AdmitsNone(EMPTY, steps) && i < k <= |steps| && steps[i].ManagerChange? && steps[i].name == name
    requires vc.clusterNetwork != MGMT
    requires forall j :: i <= j <= k ==> KeepsSpec(Run(EMPTY, steps[..j]), name, vc)
    ensures var s := Run(EMPTY, steps[..k]);
            && vc.clusterNetwork in s.cns && Announces(s.cns[vc.clusterNetwork], vc)
            && (other in s.vcs && Live(s.vcs[other]) && s.vcs[other].clusterNetwork == vc.clusterNetwork ==>
                  Announces(s.cns[vc.clusterNetwork], s.vcs[other]))
  {
    SyncedSince(steps, i, k, name, vc);
    StandingAt(steps, k);
    CommonMtuAnnounced(Run(EMPTY, steps[..k]), name, vc, other);
  }

  lemma CommonMtuAnnounced(s: State, name: string, vc: VlanConfig, other: string)
    requires Inv(s) && NetworksStand(s) && name in s.synced && KeepsSpec(s, name, vc) && vc.clusterNetwork != MGMT
    ensures vc.clusterNetwork in s.cns && Announces(s.cns[vc.clusterNetwork], vc)
    ensures other in s.vcs && Live(s.vcs[other]) && s.vcs[other].clusterNetwork == vc.clusterNetwork ==>
              Announces(s.cns[vc.clusterNetwork], s.vcs[other])
  {
    assert HandledOnChange(s, name) && Announces(NetworkOf(s, name), s.vcs[name]);
    if other in s.vcs {
      EqualMTUsIsEquivalence(NetworkMtu(NetworkOf(s, name)).value, GetMTU(vc), GetMTU(s.vcs[other]));
    }
  }

  /** Otherwise a handled VlanConfig can outlive its network: once the network is gone and created again,
      it announces the default although the VlanConfig asks for another MTU. */
  lemma RecreatedNetworkForgets(s: State, name: string, cn: ClusterNetwork)
    requires Inv(s) && HandledOnChange(s, name) && !AreEqualMTUs(GetMTU(s.vcs[name]), DEFAULT_MTU)
    requires s.vcs[name].clusterNetwork in s.cns && NetworkOf(s, name).deleting
    requires !cn.deleting && CnCreateAllowed(s.vcs[name].clusterNetwork, cn)
    ensures var c := s.vcs[name].clusterNetwork;
            var s' := Next(Next(s, CnGone(c)), CreateCn(c, cn));
            s'.vcs == s.vcs && c in s'.cns && !Announces(s'.cns[c], s.vcs[name]) && name !in s'.synced
  {
    EqualMTUsIsEquivalence(DEFAULT_MTU, GetMTU(s.vcs[name]), DEFAULT_MTU);
  }

  /** A cluster network is created and marked for deletion, a VlanConfig with MTU 9000 is admitted into it and
      handled, the network goes and is created again. */
  function LostNetworkSteps(env: Env): (r: seq<Step>)
  {
    var vc := VlanConfig("c", Uplink([], Some(9000), ""), None, {}, false);
    var empty := ClusterNetwork(None, None, false, false);
    [CreateCn("c", empty), DeleteCn("c", env), CreateVc("x", vc, false, {}, env), ManagerChange("x", env),
     CnGone("c"), CreateCn("c", empty)]
  }

  /** All six steps take effect, and the network announces the default MTU to a VlanConfig that was handled. */
  lemma LostNetworkRun(env: Env)
    requires env.nads == [] && env.vmis == [] && env.statusVc == map[]
    ensures var steps := LostNetworkSteps(env);
            var handled, s := Run(EMPTY, steps[..4]), Run(EMPTY, steps);
            && "x" in handled.synced && HandledOnChange(handled, "x") && s.vcs == handled.vcs
            && "c" in s.cns && !s.cns["c"].deleting && !Announces(s.cns["c"], s.vcs["x"])
  {
    var steps := LostNetworkSteps(env);
    MarkedNetwork(env);
    var s2 := Next(Next(EMPTY, steps[0]), steps[1]);
    AdmittedAndHandled(env, s2);
    var s4 := Next(Next(s2, steps[2]), steps[3]);
    RecreatedNetworkForgets(s4, "x", steps[5].cn);
    RunUnfolds(EMPTY, steps[..4]);
    RunUnfolds(EMPTY, steps);
    assert steps[..4][4..] == [] && steps[4..][1..] == [steps[5]] && steps[4..][0] == steps[4];
    assert Run(Next(s4, steps[4]), [steps[5]]) == Next(Next(s4, steps[4]), steps[5]);
  }

  lemma MarkedNetwork(env: Env)
    requires env.nads == []
    ensures var steps := LostNetworkSteps(env);
            Next(Next(EMPTY, steps[0]), steps[1]) ==
            State(map[], map["c" := ClusterNetwork(None, None, false, true)], {})
  {
    var steps := LostNetworkSteps(env);
    var s1 := Next(EMPTY, steps[0]);
    assert s1.cns == map["c" := ClusterNetwork(None, None, false, false)] && s1.vcs == map[] && s1.synced == {};
  }

  lemma AdmittedAndHandled(env: Env, s: State)
    requires env.statusVc == map[]
    requires s == State(map[], map["c" := ClusterNetwork(None, None, false, true)], {})
    ensures var steps := LostNetworkSteps(env);
            var s' := Next(Next(s, steps[2]), steps[3]);
            && Inv(s') && "x" in s'.synced && HandledOnChange(s', "x")
            && s'.vcs["x"].clusterNetwork == "c" && GetMTU(s'.vcs["x"]) == 9000
            && s'.cns.Keys == {"c"} && s'.cns["c"].deleting
  {
    var steps := LostNetworkSteps(env);
    var vc := VlanConfig("c", Uplink([], Some(9000), ""), Some("c"), {}, false);
    assert Created(steps[2]) == vc && "c"[0] != MGMT[0];
    var s3 := Next(s, steps[2]);
    assert s3.cns == s.cns && s3.vcs == map["x" := vc];
    StepKeepsInv(s, steps[2]);
    StepKeepsInv(s3, steps[3]);
  }

  lemma RunUnfolds(s: State, steps: seq<Step>)
    requires |steps| >= 4
    ensures Run(s, steps) == Run(Next(Next(Next(Next(s, steps[0]), steps[1]), steps[2]), steps[3]), steps[4..])
  {
    assert steps[1..][1..] == steps[2..] && steps[2..][1..] == steps[3..] && steps[3..][1..] == steps[4..];
    var s1 := Next(s, steps[0]);
    var s2 := Next(s1, steps[1]);
    var s3 := Next(s2, steps[2]);
    assert Run(s, steps) == Run(s1, steps[1..]);
    assert Run(s1, steps[1..]) == Run(s2, steps[2..]);
    assert Run(s2, steps[2..]) == Run(s3, steps[3..]);
  }

  // ----- The handlers as the manager runs them -----

  datatype HandlerResult = Ignored | Handled | Refused | ApiError

  class Manager {
    var vcs: VlanConfigs
    var cns: ClusterNetworks
    ghost var synced: set<string>

    ghost function Store(): (s: State)
      reads this
    {
      State(vcs, cns, synced)
    }

    /** Brings the MTU annotation of a VlanConfig's cluster network up to date. A missing network cannot be
        created this way: the webhook refuses a new cluster network that carries an MTU. */
    method EnsureClusterNetwork(name: string, env: Env, listing: seq<string>, apiOk: bool) returns (r: HandlerResult)
      requires name in vcs && Lists(listing, vcs, vcs[name].clusterNetwork)
      modifies this
      ensures vcs == old(vcs)
      ensures r.Ignored? <==> !HandledOnChange(old(Store()), name)
      ensures r.Handled? ==> Store() == Next(old(Store()), ManagerChange(name, env)) && name in synced
      ensures !r.Handled? ==> Store() == old(Store())
      ensures HandledOnChange(old(Store()), name) && vcs[name].clusterNetwork !in old(cns) ==> r.Refused?
      ensures old(Inv(Store())) && apiOk && HandledOnChange(old(Store()), name) ==>
                vcs[name].clusterNetwork in old(cns) ==> r.Handled?
    {
      var vc := vcs[name];
      if vc.clusterNetwork == MGMT || vc.deleting {
        return Ignored;
      }
      var cnName := vc.clusterNetwork;
      var target := Itoa(TargetMtu(vc));
      if cnName in cns {
        if cns[cnName].mtuAnnotation == Some(target) {
          synced := synced + {name};
          return Handled;
        }
        var updated := cns[cnName].(mtuAnnotation := Some(target), mtuSource := Some(name));
        var agrees := CheckMTUOfUpdatedClusterNetwork(vcs, listing, cnName, updated);
        ghost var s := Store();
        if Inv(s) {
          ValueAccepted(s, name, updated);
        }
        if !updated.deleting && !agrees {
          return Refused;
        }
        if !apiOk {
          return ApiError;
        }
        assert updated == ChangeWrite(s, name) && Enabled(s, ManagerChange(name, env));
        cns := cns[cnName := updated];
        synced := synced + {name};
        return Handled;
      }
      var created := ClusterNetwork(Some(target), Some(name), false, false);
      assert !CnCreateAllowed(cnName, created);
      return Refused;
    }

    /** Hands the MTU annotation over to another VlanConfig of the network, or clears it. */
    method OnVlanConfigRemove(name: string, env: Env, listing: seq<string>, apiOk: bool)
      returns (r: HandlerResult, ghost candidate: Option<string>)
      requires name in vcs && vcs[name].deleting && Lists(listing, vcs, vcs[name].clusterNetwork)
      modifies this
      ensures vcs == old(vcs)
      ensures r.Ignored? <==> !HandledOnRemove(old(Store()), name)
      ensures !r.Ignored? ==> IsCandidate(vcs, vcs[name].clusterNetwork, name, candidate)
      ensures r.Handled? ==> Store() == Next(old(Store()), ManagerRemove(name, candidate, env))
      ensures !r.Handled? ==> Store() == old(Store())
      ensures !r.Ignored? && apiOk && old(Inv(Store())) ==> r.Handled?
    {
      candidate := None;
      var cnName := vcs[name].clusterNetwork;
      if cnName == MGMT || cnName !in cns || cns[cnName].mtuSource != Some(name) {
        return Ignored, None;
      }
      var choice := SelectCandidate(vcs, listing, cnName, name);
      candidate := choice;
      var cn := cns[cnName];
      var updated :=
        if choice.Some? then
          cn.(mtuAnnotation := Some(Itoa(MTUDefaultTo(GetMTU(vcs[choice.value])))), mtuSource := choice)
        else cn.(mtuSource := None, mtuAnnotation := None);
      var agrees := CheckMTUOfUpdatedClusterNetwork(vcs, listing, cnName, updated);
      ghost var s := Store();
      if Inv(s) {
        HandOverAccepted(s, name, choice);
      }
      if !updated.deleting && !agrees {
        r := Refused;
        return;
      }
      if !apiOk {
        r := ApiError;
        return;
      }
      assert updated == HandedOver(cn, vcs, choice) && Enabled(s, ManagerRemove(name, choice, env));
      cns := cns[cnName := updated];
      r := Handled;
    }
  }

  /** Prefers the first eligible VlanConfig with a non-zero MTU, and otherwise the first eligible one. */
  method SelectCandidate(vcs: VlanConfigs, listing: seq<string>, cnName: string, removed: string)
    returns (r: Option<string>)
    requires Lists(listing, vcs, cnName)
    ensures IsCandidate(vcs, cnName, removed, r)
  {
    var candidate: Option<string>, zero: Option<string> := None, None;
    var k := 0;
    while k < |listing|
      invariant 0 <= k <= |listing|
      invariant candidate.None?
      invariant zero.Some? ==> Eligible(vcs, cnName, removed, zero.value) && GetMTU(vcs[zero.value]) == 0
      invariant forall j :: 0 <= j < k && Eligible(vcs, cnName, removed, listing[j]) ==>
                  GetMTU(vcs[listing[j]]) == 0 && zero.Some?
    {
      var item := listing[k];
      assert item in listing;
      k := k + 1;
      if item == removed || vcs[item].deleting {
        continue;
      }
      var mtu := GetMTU(vcs[item]);
      if !IsValidMTU(mtu) {
        continue;
      }
      if mtu == 0 {
        if zero.None? {
          zero := Some(item);
        }
        continue;
      }
      candidate := Some(item);
      break;
    }
    assert forall n :: Eligible(vcs, cnName, removed, n) ==> n in listing;
    r := if candidate.None? then zero else candidate;
  }
}
