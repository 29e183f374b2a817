/** Requests and agents together: the webhook reads the statuses that the agents store, and the agents act on the
    VlanConfigs that the webhook admits. */
module JointRuns {
  import opened GoStrings
  import opened DeviceNames
  import opened StatusNames
  import opened Webhooks
  import opened Overlaps
  import Lifecycle
  import VlanStatuses

  datatype Joint = Joint(objects: Lifecycle.State, agents: VlanStatuses.State)

  datatype JointStep = Request(request: Lifecycle.Step) | AgentStep(step: VlanStatuses.Step)

  /** Caches are current: a request that is checked for overlaps reads the stored statuses. */
  ghost predicate Current(crc: Checksum, j: Joint, request: Lifecycle.Step) {
    (request.CreateVc? || request.UpdateVc?) ==>
      request.env.crc == crc && request.env.statusVc == StatusVcs(j.agents.vss)
  }

  /** Agents handle stored VlanConfigs, and the garbage collector waits until the owner is gone. */
  predicate Follows(vcs: VlanConfigs, step: VlanStatuses.Step) {
    match step
    case AgentChange(id, cn, matched) =>
      && id.vc in vcs && Live(vcs[id.vc]) && cn == vcs[id.vc].clusterNetwork
      && (matched <==> id.node in vcs[id.vc].matchedNodes)
    case AgentRemove(id) => id.vc in vcs ==> vcs[id.vc].deleting
    case OwnerGone(vc) => vc !in vcs
    case _ => true
  }

  ghost function Next(crc: Checksum, j: Joint, step: JointStep): (r: Joint)
  {
    match step
    case Request(request) =>
      if Current(crc, j, request) then j.(objects := Lifecycle.Next(j.objects, request)) else j
    case AgentStep(s) =>
      if Follows(j.objects.vcs, s) then j.(agents := VlanStatuses.Next(crc, j.agents, s)) else j
  }

  ghost function Run(crc: Checksum, j: Joint, steps: seq<JointStep>): (r: Joint)
    decreases |steps|
  {
    if steps == [] then j else Run(crc, Next(crc, j, steps[0]), steps[1..])
  }

  const EMPTY := Joint(Lifecycle.EMPTY, VlanStatuses.EMPTY)

  // ----- Disjointness -----

  /** Every VlanConfig that is set up on a node has its status there. */
  ghost predicate Established(crc: Checksum, j: Joint) {
    forall id :: Placed(j.objects.vcs, id) ==> HasStatus(crc, j, id)
  }

  predicate Placed(vcs: VlanConfigs, id: VlanStatuses.TaskId) {
    id.vc in vcs && SetUpOn(vcs[id.vc], id.node)
  }

  function PlaceName(crc: Checksum, vcs: VlanConfigs, id: VlanStatuses.TaskId): (r: string)
    requires Placed(vcs, id)
  {
    StatusName(crc, vcs[id.vc].clusterNetwork, id.node)
  }

  predicate HasStatus(crc: Checksum, j: Joint, id: VlanStatuses.TaskId)
    requires Placed(j.objects.vcs, id)
  {
    var name := PlaceName(crc, j.objects.vcs, id);
    name in j.agents.vss && j.agents.vss[name].status.vc == id.vc
  }

  lemma EstablishedIsCovered(crc: Checksum, j: Joint, env: Env)
    requires Established(crc, j) && env.crc == crc && env.statusVc == StatusVcs(j.agents.vss)
    ensures Covered(j.objects.vcs, env)
  {
    forall n, node | n in j.objects.vcs && SetUpOn(j.objects.vcs[n], node)
      ensures StatusAt(env, j.objects.vcs[n].clusterNetwork, node) == Some(n)
    {
      assert Placed(j.objects.vcs, VlanStatuses.TaskId(n, node));
      assert HasStatus(crc, j, VlanStatuses.TaskId(n, node));
    }
  }

  /** VlanConfigs are created and updated only while all of them are established. */
  ghost predicate Patient(crc: Checksum, j: Joint, step: JointStep) {
    step.Request? && (step.request.CreateVc? || step.request.UpdateVc?) ==> Established(crc, j)
  }

  lemma StepKeepsDisjoint(crc: Checksum, j: Joint, step: JointStep)
    requires Disjoint(j.objects.vcs) && Patient(crc, j, step)
    ensures Disjoint(Next(crc, j, step).objects.vcs)
  {
    if step.Request? && Current(crc, j, step.request) {
      if step.request.CreateVc? || step.request.UpdateVc? {
        EstablishedIsCovered(crc, j, step.request.env);
      }
      Overlaps.StepKeepsDisjoint(j.objects, step.request);
    }
  }

  /** In every run of requests and agents in which new requests wait until the agents have stored their statuses,
      no two live VlanConfigs share a node, and the invariants of both sides hold. */
  lemma {:induction false} PatientRunKeepsDisjoint(crc: Checksum, j: Joint, steps: seq<JointStep>)
    requires Disjoint(j.objects.vcs) && Lifecycle.Inv(j.objects) && VlanStatuses.Inv(crc, j.agents)
    requires forall k :: 0 <= k < |steps| ==> Patient(crc, Run(crc, j, steps[..k]), steps[k])
    ensures var r := Run(crc, j, steps);
            Disjoint(r.objects.vcs) && Lifecycle.Inv(r.objects) && VlanStatuses.Inv(crc, r.agents)
    decreases |steps|
  {
    if steps != [] {
      assert steps[..0] == [];
      StepKeepsDisjoint(crc, j, steps[0]);
      StepKeepsInvs(crc, j, steps[0]);
      var j' := Next(crc, j, steps[0]);
      forall k | 0 <= k < |steps| - 1
        ensures Patient(crc, Run(crc, j', steps[1..][..k]), steps[1..][k])
      {
        assert steps[..k + 1][1..] == steps[1..][..k] && steps[..k + 1][0] == steps[0];
      }
      PatientRunKeepsDisjoint(crc, j', steps[1..]);
    }
  }

  lemma StepKeepsInvs(crc: Checksum, j: Joint, step: JointStep)
    requires Lifecycle.Inv(j.objects) && VlanStatuses.Inv(crc, j.agents)
    ensures Lifecycle.Inv(Next(crc, j, step).objects) && VlanStatuses.Inv(crc, Next(crc, j, step).agents)
  {
    match step {
      case Request(request) => Lifecycle.StepKeepsInv(j.objects, request);
      case AgentStep(s) => VlanStatuses.StepKeepsInv(crc, j.agents, s);
    }
  }

  // ----- How the agents establish VlanConfigs -----

  /** One change handler that meets no failure. */
  ghost function Serve(crc: Checksum, j: Joint, id: VlanStatuses.TaskId): (r: Joint)
    requires Placed(j.objects.vcs, id)
  {
    var begun := Next(crc, j, AgentStep(VlanStatuses.AgentChange(id, j.objects.vcs[id.vc].clusterNetwork, true)));
    var removed := Next(crc, begun, AgentStep(VlanStatuses.FinishRemove(id, VlanStatuses.Deleted)));
    Next(crc, removed, AgentStep(VlanStatuses.WriteStatus(id, true, true)))
  }

  /** Handlers of several VlanConfigs and nodes, one after the other. */
  ghost function ServeAll(crc: Checksum, j: Joint, ids: seq<VlanStatuses.TaskId>): (r: Joint)
    requires forall id :: id in ids ==> Placed(j.objects.vcs, id)
    ensures r.objects == j.objects
    decreases |ids|
  {
    if ids == [] then j
    else
      var before := ServeAll(crc, j, ids[..|ids| - 1]);
      Serve(crc, before, ids[|ids| - 1])
  }

  /** All statuses but one keep their keys. */
  ghost predicate OnlyAtName(vss: VlanStatuses.Statuses, vss': VlanStatuses.Statuses, name: string) {
    && vss'.Keys == vss.Keys + {name}
    && forall n :: n in vss && n != name ==> vss'[n].labels == vss[n].labels && vss'[n].status == vss[n].status
  }

  /** The handler ends up with its status in its place, and takes nobody else's unless it is in that place. */
  lemma ServeOne(crc: Checksum, j: Joint, id: VlanStatuses.TaskId, name: Option<string>)
    requires Placed(j.objects.vcs, id) && id !in j.agents.tasks
    requires VlanStatuses.Found(j.agents.vss, id) == if name.Some? then {name.value} else {}
    ensures var j' := Serve(crc, j, id);
            var at := PlaceName(crc, j.objects.vcs, id);
            && j'.objects == j.objects && j'.agents.tasks == j.agents.tasks
            && OnlyAtName(j.agents.vss, j'.agents.vss, at)
            && j'.agents.vss[at].labels == j'.agents.vss[at].status
            && j'.agents.vss[at].labels == VlanStatuses.Keys(id.vc, j.objects.vcs[id.vc].clusterNetwork, id.node)
  {
    var cn := j.objects.vcs[id.vc].clusterNetwork;
    var s1 := VlanStatuses.Next(crc, j.agents, VlanStatuses.AgentChange(id, cn, true));
    var s2 := VlanStatuses.Next(crc, s1, VlanStatuses.FinishRemove(id, VlanStatuses.Deleted));
    ReadyToWrite(crc, j.agents, id, cn, name);
    assert VlanStatuses.Next(crc, s2, VlanStatuses.WriteStatus(id, true, true)).tasks == j.agents.tasks;
  }

  /** A handler that finds at most one status comes to setting its network up, whether or not it has to remove
      a stale one before. */
  lemma ReadyToWrite(crc: Checksum, s: VlanStatuses.State, id: VlanStatuses.TaskId, cn: string, name: Option<string>)
    requires cn != MGMT && id !in s.tasks
    requires VlanStatuses.Found(s.vss, id) == if name.Some? then {name.value} else {}
    ensures var s1 := VlanStatuses.Next(crc, s, VlanStatuses.AgentChange(id, cn, true));
            var s2 := VlanStatuses.Next(crc, s1, VlanStatuses.FinishRemove(id, VlanStatuses.Deleted));
            && s2.tasks == s.tasks[id := VlanStatuses.SettingUp(cn)] && s2.vss.Keys == s.vss.Keys
            && forall n :: n in s.vss ==> s2.vss[n].labels == s.vss[n].labels && s2.vss[n].status == s.vss[n].status
  {
    VlanStatuses.BeginWith(s.vss, id, cn, true, name);
  }

  /** No two VlanConfigs have one status name: neither do they share a node, nor do their names collide. */
  ghost predicate DistinctNames(crc: Checksum, vcs: VlanConfigs) {
    forall p, q :: Placed(vcs, p) && Placed(vcs, q) && p.vc != q.vc ==> PlaceName(crc, vcs, p) != PlaceName(crc, vcs, q)
  }

  lemma EstablishedAreDistinct(crc: Checksum, j: Joint)
    requires Established(crc, j)
    ensures DistinctNames(crc, j.objects.vcs)
  {
    forall p, q | Placed(j.objects.vcs, p) && Placed(j.objects.vcs, q) && p.vc != q.vc
      ensures PlaceName(crc, j.objects.vcs, p) != PlaceName(crc, j.objects.vcs, q)
    {
      assert HasStatus(crc, j, p) && HasStatus(crc, j, q);
    }
  }

  ghost predicate NoRepetition(ids: seq<VlanStatuses.TaskId>) {
    forall i, k :: 0 <= i < k < |ids| ==> ids[i] != ids[k]
  }

  /** No handler finds more than one status, as when the removal of stale ones has come to its end. */
  ghost predicate AtMostOneFound(vss: VlanStatuses.Statuses, ids: seq<VlanStatuses.TaskId>) {
    forall id :: id in ids ==> |VlanStatuses.Found(vss, id)| <= 1
  }

  lemma {:induction false} ServeAllEstablishes(crc: Checksum, j: Joint, ids: seq<VlanStatuses.TaskId>)
    requires forall id :: id in ids ==> Placed(j.objects.vcs, id)
    requires DistinctNames(crc, j.objects.vcs) && j.agents.tasks == map[]
    requires NoRepetition(ids) && AtMostOneFound(j.agents.vss, ids)
    ensures var r := ServeAll(crc, j, ids);
            && r.agents.tasks == map[]
            && (forall id :: id in ids ==> HasStatus(crc, r, id))
            && forall id :: id !in ids ==> VlanStatuses.Found(r.agents.vss, id) <= VlanStatuses.Found(j.agents.vss, id)
    decreases |ids|
  {
    if ids != [] {
      var rest, last := ids[..|ids| - 1], ids[|ids| - 1];
      assert forall id :: id in ids <==> id in rest || id == last;
      ServeAllEstablishes(crc, j, rest);
      var before := ServeAll(crc, j, rest);
      assert last !in rest;
      var name := AtMostOneName(VlanStatuses.Found(before.agents.vss, last), VlanStatuses.Found(j.agents.vss, last));
      ServeOne(crc, before, last, name);
      ServedStays(crc, before, Serve(crc, before, last), last);
    }
  }

  lemma AtMostOneName(found: set<string>, all: set<string>) returns (name: Option<string>)
    requires found <= all && |all| <= 1
    ensures found == if name.Some? then {name.value} else {}
  {
    if found == {} {
      name := None;
    } else {
      var x :| x in found;
      assert |all - {x}| == |all| - 1;
      assert all == {x} + (all - {x});
      name := Some(x);
    }
  }

  /** Serving one handler establishes it, keeps the others established, and gives no one else a status. */
  lemma ServedStays(crc: Checksum, j: Joint, j': Joint, id: VlanStatuses.TaskId)
    requires Placed(j.objects.vcs, id) && j'.objects == j.objects && DistinctNames(crc, j.objects.vcs)
    requires var at := PlaceName(crc, j.objects.vcs, id);
             && OnlyAtName(j.agents.vss, j'.agents.vss, at)
             && j'.agents.vss[at].labels == j'.agents.vss[at].status
             && j'.agents.vss[at].labels == VlanStatuses.Keys(id.vc, j.objects.vcs[id.vc].clusterNetwork, id.node)
    ensures HasStatus(crc, j', id)
    ensures forall other :: Placed(j.objects.vcs, other) && HasStatus(crc, j, other) ==> HasStatus(crc, j', other)
    ensures forall other :: other != id ==>
              VlanStatuses.Found(j'.agents.vss, other) <= VlanStatuses.Found(j.agents.vss, other)
  {
  }

  /** When every VlanConfig has been handled without failure on every node, all are established if and only if
      no two of them have one status name. */
  lemma HandlersEstablishExactly(crc: Checksum, j: Joint, ids: seq<VlanStatuses.TaskId>)
    requires forall id :: id in ids <==> Placed(j.objects.vcs, id)
    requires j.agents.tasks == map[] && NoRepetition(ids) && AtMostOneFound(j.agents.vss, ids)
    ensures Established(crc, ServeAll(crc, j, ids)) <==> DistinctNames(crc, j.objects.vcs)
    ensures DistinctNames(crc, j.objects.vcs) ==> Disjoint(j.objects.vcs)
  {
    if DistinctNames(crc, j.objects.vcs) {
      ServeAllEstablishes(crc, j, ids);
      DistinctAreDisjoint(crc, j.objects.vcs);
    }
    if Established(crc, ServeAll(crc, j, ids)) {
      EstablishedAreDistinct(crc, ServeAll(crc, j, ids));
    }
  }

  lemma DistinctAreDisjoint(crc: Checksum, vcs: VlanConfigs)
    requires DistinctNames(crc, vcs)
    ensures Disjoint(vcs)
  {
    forall a, b, node | a in vcs && b in vcs && a != b
      ensures !Share(vcs[a], vcs[b], node)
    {
      var p, q := VlanStatuses.TaskId(a, node), VlanStatuses.TaskId(b, node);
      assert p.vc != q.vc && (Placed(vcs, p) && Placed(vcs, q) ==> PlaceName(crc, vcs, p) != PlaceName(crc, vcs, q));
    }
  }
}
