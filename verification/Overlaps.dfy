/** What the VlanConfig webhook's overlap check can and cannot see: it reads the statuses that the agents have
    stored, not the other VlanConfigs. */
module Overlaps {
  import opened GoStrings
  import opened Mtus
  import opened Webhooks
  import opened DeviceNames
  import opened StatusNames
  import opened Lifecycle
  import VlanStatuses

  /** The VlanConfig of every stored status, as the webhook reads it. */
  function StatusVcs(vss: VlanStatuses.Statuses): (r: map<string, string>)
  {
    map n | n in vss :: vss[n].status.vc
  }

  /** The agent of a node sets a VlanConfig up; those of the management network are left to others. */
  predicate SetUpOn(vc: VlanConfig, node: string) {
    Live(vc) && vc.clusterNetwork != MGMT && node in vc.matchedNodes
  }

  /** Two live VlanConfigs set up one network on one node. */
  predicate Share(a: VlanConfig, b: VlanConfig, node: string) {
    SetUpOn(a, node) && SetUpOn(b, node) && a.clusterNetwork == b.clusterNetwork
  }

  ghost predicate Disjoint(vcs: VlanConfigs) {
    forall a, b, node :: a in vcs && b in vcs && a != b ==> !Share(vcs[a], vcs[b], node)
  }

  /** Every live VlanConfig has its status on each of its nodes. */
  ghost predicate Covered(vcs: VlanConfigs, env: Env) {
    forall n, node :: n in vcs && SetUpOn(vcs[n], node) ==>
      StatusAt(env, vcs[n].clusterNetwork, node) == Some(n)
  }

  /** The VlanConfig in the status of a network on a node, if it is stored. */
  function StatusAt(env: Env, cn: string, node: string): (r: Option<string>)
  {
    var name := StatusName(env.crc, cn, node);
    if name in env.statusVc then Some(env.statusVc[name]) else None
  }

  /** No status of another VlanConfig is stored for the network on the node. */
  predicate NotTaken(env: Env, cn: string, node: string, name: string) {
    StatusAt(env, cn, node) in {None, Some(name)}
  }

  /** A request that the webhook checks finds the statuses of all live VlanConfigs. */
  ghost predicate SeesAll(s: State, step: Step) {
    (step.CreateVc? || step.UpdateVc?) ==> Covered(s.vcs, step.env)
  }

  lemma StepKeepsDisjoint(s: State, step: Step)
    requires Disjoint(s.vcs) && SeesAll(s, step)
    ensures Disjoint(Next(s, step).vcs)
  {
    var s' := Next(s, step);
    if Enabled(s, step) && (step.CreateVc? || step.UpdateVc?) {
      var name := step.name;
      assert Live(s'.vcs[name]) ==> NoOverlap(step.env, name, s'.vcs[name]);
      assert forall n, node :: n in s.vcs && n != name && Share(s'.vcs[name], s.vcs[n], node) ==>
                                 StatusAt(step.env, s.vcs[n].clusterNetwork, node) == Some(n);
    }
  }

  /** In a run whose requests always find the statuses of all live VlanConfigs, no two of them share a node. */
  lemma {:induction false} RunKeepsDisjoint(s: State, steps: seq<Step>)
    requires Disjoint(s.vcs) && forall k :: 0 <= k < |steps| ==> SeesAll(Run(s, steps[..k]), steps[k])
    ensures Disjoint(Run(s, steps).vcs)
    decreases |steps|
  {
    if steps != [] {
      assert steps[..0] == [];
      StepKeepsDisjoint(s, steps[0]);
      var s' := Next(s, steps[0]);
      forall k | 0 <= k < |steps| - 1
        ensures SeesAll(Run(s', steps[1..][..k]), steps[1..][k])
      {
        assert steps[..k + 1][1..] == steps[1..][..k] && steps[..k + 1][0] == steps[0];
      }
      RunKeepsDisjoint(s', steps[1..]);
    }
  }

  /** A new VlanConfig can come to share a node with an existing one exactly if no status of another one is
      stored for the network on that node. */
  lemma OverlapAdmittedExactly(s: State, name: string, other: string, node: string, env: Env)
    requires Inv(s) && HandledOnChange(s, other) && node in s.vcs[other].matchedNodes && name !in s.vcs
    requires s.vcs[other].clusterNetwork in s.cns && IsClusterNetworkNameValid(s.vcs[other].clusterNetwork)
    ensures (exists vc, selected :: var step := CreateVc(name, vc, false, selected, env);
               Enabled(s, step) && Share(Created(step), s.vcs[other], node)) <==>
            NotTaken(env, s.vcs[other].clusterNetwork, node, name)
  {
    var cn := s.vcs[other].clusterNetwork;
    if NotTaken(env, cn, node, name) {
      var vc := VlanConfig(cn, s.vcs[other].uplink, None, {}, false);
      var step := CreateVc(name, vc, false, {node}, env);
      assert Created(step) == VlanConfig(cn, s.vcs[other].uplink, Some(cn), {node}, false);
      assert Labelled(s.vcs[other]);
      assert MtuAgrees(s.vcs, name, Created(step)) by {
        assert forall n :: n in s.vcs && Live(s.vcs[n]) && s.vcs[n].cnLabel == Some(cn) ==> Labelled(s.vcs[n]);
      }
      assert Enabled(s, step) && Share(Created(step), s.vcs[other], node);
    }
  }

  /** An update that changes only the matched nodes is admitted exactly if no status of another VlanConfig is stored
      for the network on the new ones, no VMI on the network runs on a dropped one, and none is dropped if a live
      system NAD is attached. */
  lemma NodesChangedExactly(s: State, name: string, nodes: set<string>, env: Env)
    requires Inv(s) && HandledOnChange(s, name) && s.vcs[name].clusterNetwork != "" && nodes != {}
    requires s.vcs[name].clusterNetwork in s.cns
    ensures var vc := s.vcs[name];
            Enabled(s, UpdateVc(name, vc, false, nodes, env)) <==>
            && (forall n :: n in nodes ==> NotTaken(env, vc.clusterNetwork, n, name))
            && (forall vmi, nad :: Attached(env, vmi, nad, vc.clusterNetwork) && vmi.node in vc.matchedNodes ==>
                  vmi.node in nodes)
            && (SystemNadOnNetwork(env, vc.clusterNetwork) ==> vc.matchedNodes <= nodes)
  {
    var vc := s.vcs[name];
    var step := UpdateVc(name, vc, false, nodes, env);
    var after := Updated(s, step);
    assert Labelled(vc) && after == vc.(matchedNodes := nodes);
    assert MtuAgrees(s.vcs, name, after) by {
      assert forall n :: n in s.vcs && Live(s.vcs[n]) ==> Labelled(s.vcs[n]);
    }
    assert NoOverlap(env, name, after) <==> forall n :: n in nodes ==> NotTaken(env, vc.clusterNetwork, n, name);
    UpdateAllowedExactly(s.vcs, s.cns, env, name, vc, after, false);
  }

  /** An update that only adds a node is admitted exactly if no status of another VlanConfig is stored for the
      network on any node it then matches, whether or not a live VlanConfig of the network matches that node. */
  lemma AddedNodeAdmittedExactly(s: State, name: string, node: string, env: Env)
    requires Inv(s) && HandledOnChange(s, name) && s.vcs[name].clusterNetwork != ""
    requires s.vcs[name].clusterNetwork in s.cns
    ensures var vc := s.vcs[name];
            var nodes := vc.matchedNodes + {node};
            var step := UpdateVc(name, vc, false, nodes, env);
            && (Enabled(s, step) <==> forall n :: n in nodes ==> NotTaken(env, vc.clusterNetwork, n, name))
            && (Enabled(s, step) ==>
                  forall other :: other in s.vcs && s.vcs[other].clusterNetwork == vc.clusterNetwork
                                  && SetUpOn(s.vcs[other], node) ==>
                    Share(Next(s, step).vcs[name], s.vcs[other], node))
  {
    var vc := s.vcs[name];
    var nodes := vc.matchedNodes + {node};
    NodesChangedExactly(s, name, nodes, env);
    assert Updated(s, UpdateVc(name, vc, false, nodes, env)) == vc.(matchedNodes := nodes);
  }

  // ----- Two VlanConfigs that are created before any agent has stored a status -----

  function Plain(cn: string): (r: VlanConfig)
  {
    VlanConfig(cn, Uplink([], None, ""), None, {}, false)
  }

  function EarlySteps(env: Env, c: string, n: string, d: string, m: string): (r: seq<Step>)
  {
    var empty := ClusterNetwork(None, None, false, false);
    [CreateCn(c, empty), CreateCn(d, empty),
     CreateVc("a", Plain(c), false, {n}, env), CreateVc("b", Plain(d), false, {m}, env)]
  }

  function Stored(cn: string, node: string): (r: VlanConfig)
  {
    Plain(cn).(cnLabel := Some(cn), matchedNodes := {node})
  }

  /** Both are admitted, whatever networks and nodes they are for. */
  lemma BothAdmitted(env: Env, c: string, n: string, d: string, m: string)
    requires IsClusterNetworkNameValid(c) && IsClusterNetworkNameValid(d) && c != MGMT && d != MGMT
    requires env.statusVc == StatusVcs(VlanStatuses.EMPTY.vss)
    ensures Run(EMPTY, EarlySteps(env, c, n, d, m)).vcs == map["a" := Stored(c, n), "b" := Stored(d, m)]
  {
    var steps := EarlySteps(env, c, n, d, m);
    var s1 := Next(EMPTY, steps[0]);
    var s2 := Next(s1, steps[1]);
    assert s2.vcs == map[] && c in s2.cns && d in s2.cns;
    var s3 := Next(s2, steps[2]);
    assert Created(steps[2]) == Stored(c, n) && Created(steps[3]) == Stored(d, m);
    assert s3.vcs == map["a" := Stored(c, n)] && s3.cns == s2.cns;
    var s4 := Next(s3, steps[3]);
    assert "a"[0] != "b"[0];
    assert s4.vcs == map["a" := Stored(c, n), "b" := Stored(d, m)];
    RunUnfolds(EMPTY, steps);
    assert steps[4..] == [];
  }

  /** So two VlanConfigs can share a node. */
  lemma SharedNodeRun(env: Env, c: string, n: string)
    requires IsClusterNetworkNameValid(c) && c != MGMT && env.statusVc == StatusVcs(VlanStatuses.EMPTY.vss)
    ensures !Disjoint(Run(EMPTY, EarlySteps(env, c, n, c, n)).vcs)
  {
    BothAdmitted(env, c, n, c, n);
    var vcs := Run(EMPTY, EarlySteps(env, c, n, c, n)).vcs;
    assert "a"[0] != "b"[0];
    assert Share(vcs["a"], vcs["b"], n);
  }

  /** And then, when the first one goes, the second loses its status, which it had taken over from the first. */
  lemma SharedNodeLosesStatus(env: Env, c: string, n: string)
    requires IsClusterNetworkNameValid(c) && c != MGMT && env.statusVc == StatusVcs(VlanStatuses.EMPTY.vss)
    ensures var vss := VlanStatuses.Run(env.crc, VlanStatuses.EMPTY, VlanStatuses.InheritedSteps(c, n)).vss;
            && Run(EMPTY, EarlySteps(env, c, n, c, n)).vcs == map["a" := Stored(c, n), "b" := Stored(c, n)]
            && VlanStatuses.Found(vss, VlanStatuses.TaskId("b", n)) != {}
            && forall name :: name in VlanStatuses.Found(vss, VlanStatuses.TaskId("b", n)) ==> vss[name].deleting
  {
    BothAdmitted(env, c, n, c, n);
    VlanStatuses.InheritedStatusLost(env.crc, c, n);
  }

  /** And for networks with clashing names both VlanConfigs are admitted whose agents then leave a Ready network
      without a status. */
  lemma ClashIsAdmitted(env: Env, c: string, d: string)
    requires IsClusterNetworkNameValid(c) && IsClusterNetworkNameValid(d) && c != MGMT && d != MGMT && c + "-" <= d
    requires env.statusVc == StatusVcs(VlanStatuses.EMPTY.vss)
    ensures var n := VlanStatuses.ClashingNode(c, d);
            && Run(EMPTY, EarlySteps(env, c, n, d, "node")).vcs == map["a" := Stored(c, n), "b" := Stored(d, "node")]
            && !VlanStatuses.ReadyHaveStatus(
                 VlanStatuses.Run(env.crc, VlanStatuses.EMPTY, VlanStatuses.ClashingSteps(env.crc, c, n, d, "node")))
  {
    BothAdmitted(env, c, VlanStatuses.ClashingNode(c, d), d, "node");
    VlanStatuses.ClashLosesStatus(env.crc, c, d);
  }
}
