/** VlanStatus objects, written by one agent per node and watched by the manager. Each handler is a task
    that takes several steps; the tasks of different VlanConfigs and nodes interleave freely. */
module VlanStatuses {
  import opened GoStrings
  import opened DeviceNames
  import opened StatusNames
  import Kernel
  import Bonds

  /** The VlanConfig, cluster network and node that a status is about. */
  datatype Keys = Keys(vc: string, cn: string, node: string)

  /** The keys are stored twice: as labels, for lookups, and as status fields. The owner is the VlanConfig that
      created the status; once that one is gone, the status is garbage. */
  datatype VlanStatus = VlanStatus(labels: Keys, status: Keys, ready: bool, deleting: bool, owner: string)

  type Statuses = map<string, VlanStatus>

  datatype TaskId = TaskId(vc: string, node: string)

  /** Where the handler of one VlanConfig on one node stands. `copy` is the status as it was read, and
      `target` the network to set up once the stale one is gone. */
  datatype Pc = Removing(name: string, copy: VlanStatus, target: Option<string>) | SettingUp(cn: string)

  /** A task that is not in the map is idle; `readyNets` are the cluster networks with a true Ready condition. */
  datatype State = State(vss: Statuses, tasks: map<TaskId, Pc>, readyNets: set<string>)

  datatype RemoveOutcome = TeardownFailed | NodeLabelFailed | DeleteFailed | Deleted

  datatype Step =
    | AgentChange(id: TaskId, cn: string, matched: bool)
    | AgentRemove(id: TaskId)
    | FinishRemove(id: TaskId, outcome: RemoveOutcome)
    | WriteStatus(id: TaskId, setupOk: bool, apiOk: bool)
    | MarkReady(name: string)
    | NodeDelete(name: string)
    | OwnerGone(vc: string)
    | Vanish(name: string)

  /** The statuses that a lookup by VlanConfig and node labels finds, being deleted or not. */
  function Found(vss: Statuses, id: TaskId): (r: set<string>)
  {
    set n | n in vss && vss[n].labels.vc == id.vc && vss[n].labels.node == id.node
  }

  function OnNetwork(vss: Statuses, cn: string): (r: set<string>)
  {
    set n | n in vss && vss[n].labels.cn == cn
  }

  /** The handler looks its status up; more than one is an error, and it gives up. */
  ghost function Begin(vss: Statuses, id: TaskId, cn: string, matched: bool): (r: Option<Pc>)
  {
    var found := Found(vss, id);
    if found == {} then (if matched then Some(SettingUp(cn)) else None)
    else
      var name :| name in found;
      if found != {name} then None
      else if !matched || vss[name].status.cn != cn then
        Some(Removing(name, vss[name], if matched then Some(cn) else None))
      else Some(SettingUp(cn))
  }

  function WithTask(tasks: map<TaskId, Pc>, id: TaskId, pc: Option<Pc>): (r: map<TaskId, Pc>)
  {
    if pc.Some? then tasks[id := pc.value] else tasks - {id}
  }

  /** What deleteStatus leaves in the store; an update of a status that changed meanwhile is refused. */
  function AfterRemove(vss: Statuses, pc: Pc, outcome: RemoveOutcome): (r: Statuses)
    requires pc.Removing?
  {
    match outcome
    case TeardownFailed =>
      if pc.name in vss && vss[pc.name] == pc.copy then vss[pc.name := pc.copy.(ready := false)] else vss
    case Deleted =>
      if pc.name in vss then vss[pc.name := vss[pc.name].(deleting := true)] else vss
    case _ => vss
  }

  function Written(vss: Statuses, name: string, keys: Keys, ready: bool): (r: Statuses)
  {
    vss[name := if name in vss then vss[name].(labels := keys, status := keys, ready := ready)
                else VlanStatus(keys, keys, ready, false, keys.vc)]
  }

  /** Deleted objects stay, marked, until they are gone. */
  function Marked(vss: Statuses, names: set<string>): (r: Statuses)
  {
    map n | n in vss :: if n in names then vss[n].(deleting := true) else vss[n]
  }

  function OwnedBy(vss: Statuses, vc: string): (r: set<string>)
  {
    set n | n in vss && vss[n].owner == vc
  }

  /** Whether the manager turns the network unready when it lets go of a status. */
  predicate IsLast(vss: Statuses, name: string)
    requires name in vss
  {
    OnNetwork(vss, vss[name].status.cn) <= {name}
  }

  /** The manager refuses to let go of a status if the only one on its network is a different one. */
  predicate IsStray(vss: Statuses, name: string)
    requires name in vss
  {
    name !in OnNetwork(vss, vss[name].status.cn) && |OnNetwork(vss, vss[name].status.cn)| == 1
  }

  ghost function Next(crc: Checksum, s: State, step: Step): (r: State)
  {
    match step
    case AgentChange(id, cn, matched) =>
      if id in s.tasks || cn == MGMT then s else s.(tasks := WithTask(s.tasks, id, Begin(s.vss, id, cn, matched)))
    case AgentRemove(id) =>
      if id in s.tasks then s else s.(tasks := WithTask(s.tasks, id, Begin(s.vss, id, "", false)))
    case FinishRemove(id, outcome) =>
      if id !in s.tasks || !s.tasks[id].Removing? then s
      else
        var pc := s.tasks[id];
        var goesOn := outcome.Deleted? && pc.name in s.vss && pc.target.Some?;
        var next := if goesOn then Some(SettingUp(pc.target.value)) else None;
        State(AfterRemove(s.vss, pc, outcome), WithTask(s.tasks, id, next), s.readyNets)
    case WriteStatus(id, setupOk, apiOk) =>
      if id !in s.tasks || !s.tasks[id].SettingUp? then s
      else
        var cn := s.tasks[id].cn;
        var written := Written(s.vss, StatusName(crc, cn, id.node), Keys(id.vc, cn, id.node), setupOk);
        State(if apiOk then written else s.vss, s.tasks - {id}, s.readyNets)
    case MarkReady(name) =>
      if name !in s.vss || s.vss[name].deleting then s
      else s.(readyNets := s.readyNets + {s.vss[name].status.cn})
    // the manager's node handler, for a node that is gone or does not match any more
    case NodeDelete(name) => s.(vss := Marked(s.vss, {name}))
    // the garbage collector
    case OwnerGone(vc) => s.(vss := Marked(s.vss, OwnedBy(s.vss, vc)))
    case Vanish(name) =>
      if name !in s.vss || !s.vss[name].deleting || IsStray(s.vss, name) then s
      else
        var unready := if IsLast(s.vss, name) then {s.vss[name].status.cn} else {};
        s.(vss := s.vss - {name}, readyNets := s.readyNets - unready)
  }

  ghost function Run(crc: Checksum, s: State, steps: seq<Step>): (r: State)
    decreases |steps|
  {
    if steps == [] then s else Run(crc, Next(crc, s, steps[0]), steps[1..])
  }

  const EMPTY := State(map[], map[], {})

  // ----- Ownership -----

  predicate Consistent(crc: Checksum, name: string, vs: VlanStatus) {
    vs.labels == vs.status && name == StatusName(crc, vs.status.cn, vs.status.node)
  }

  /** All live statuses of a task sit at one name. */
  ghost predicate LiveOnlyAt(vss: Statuses, id: TaskId, name: string) {
    forall n :: n in Found(vss, id) && !vss[n].deleting ==> n == name
  }

  ghost predicate AtMostOneLive(vss: Statuses, id: TaskId) {
    forall a, b :: a in Found(vss, id) && b in Found(vss, id) && !vss[a].deleting && !vss[b].deleting ==> a == b
  }

  /** While a task removes or sets up, the place it is about to touch is the only one with a live status. */
  ghost predicate TaskOwns(crc: Checksum, vss: Statuses, id: TaskId, pc: Pc) {
    match pc
    case Removing(name, copy, _) => LiveOnlyAt(vss, id, name)
    case SettingUp(cn) => LiveOnlyAt(vss, id, StatusName(crc, cn, id.node))
  }

  ghost predicate AllConsistent(crc: Checksum, vss: Statuses) {
    forall n :: n in vss ==> Consistent(crc, n, vss[n])
  }

  ghost predicate AllOwn(crc: Checksum, vss: Statuses, tasks: map<TaskId, Pc>) {
    forall id :: id in tasks ==> TaskOwns(crc, vss, id, tasks[id])
  }

  ghost predicate Inv(crc: Checksum, s: State) {
    AllConsistent(crc, s.vss) && (forall id :: AtMostOneLive(s.vss, id)) && AllOwn(crc, s.vss, s.tasks)
  }

  /** Every live status was there before, with the same labels. */
  ghost predicate NoNewLive(vss: Statuses, vss': Statuses) {
    forall n :: n in vss' && !vss'[n].deleting ==> n in vss && !vss[n].deleting && vss'[n].labels == vss[n].labels
  }

  predicate SameTask(a: VlanStatus, b: VlanStatus) {
    a.labels.vc == b.labels.vc && a.labels.node == b.labels.node
  }

  lemma BeginOwns(crc: Checksum, s: State, id: TaskId, cn: string, matched: bool)
    requires Inv(crc, s)
    ensures Begin(s.vss, id, cn, matched).Some? ==> TaskOwns(crc, s.vss, id, Begin(s.vss, id, cn, matched).value)
  {
    var found := Found(s.vss, id);
    if found != {} {
      var pc := Begin(s.vss, id, cn, matched);
      if pc.Some? && pc.value.SettingUp? {
        assert forall n :: n in found ==> Consistent(crc, n, s.vss[n]);
      }
    }
  }

  /** A change of the store that gives no task a new live status keeps the invariant. */
  lemma FewerLive(crc: Checksum, s: State, vss: Statuses, tasks: map<TaskId, Pc>)
    requires Inv(crc, s) && NoNewLive(s.vss, vss)
    requires forall id :: id in tasks ==> id in s.tasks && tasks[id] == s.tasks[id]
    ensures (forall id :: AtMostOneLive(vss, id)) && AllOwn(crc, vss, tasks)
  {
    forall id
      ensures forall n :: n in Found(vss, id) && !vss[n].deleting ==> n in Found(s.vss, id) && !s.vss[n].deleting
      ensures AtMostOneLive(vss, id)
    {
      assert AtMostOneLive(s.vss, id);
    }
  }

  /** Writing the status of a task where it alone may have one keeps every task to one place. */
  lemma WrittenOwns(crc: Checksum, s: State, id: TaskId, cn: string, ready: bool, other: TaskId)
    requires Inv(crc, s) && LiveOnlyAt(s.vss, id, StatusName(crc, cn, id.node))
    ensures var vss := Written(s.vss, StatusName(crc, cn, id.node), Keys(id.vc, cn, id.node), ready);
            && AtMostOneLive(vss, other)
            && (other != id && other in s.tasks ==> TaskOwns(crc, vss, other, s.tasks[other]))
  {
    var name := StatusName(crc, cn, id.node);
    var vss := Written(s.vss, name, Keys(id.vc, cn, id.node), ready);
    assert AtMostOneLive(s.vss, other);
    assert name in Found(vss, other) ==> other == id;
    assert forall n :: n != name ==> (n in Found(vss, other) <==> n in Found(s.vss, other));
    assert forall n :: n != name && n in vss ==> vss[n] == s.vss[n];
    if other != id && other in s.tasks {
      assert TaskOwns(crc, s.vss, other, s.tasks[other]);
    }
  }

  lemma WriteKeepsInv(crc: Checksum, s: State, step: Step)
    requires Inv(crc, s) && step.WriteStatus?
    ensures Inv(crc, Next(crc, s, step))
  {
    var s', id := Next(crc, s, step), step.id;
    if id in s.tasks && s.tasks[id].SettingUp? && step.apiOk {
      assert TaskOwns(crc, s.vss, id, s.tasks[id]);
      forall other
        ensures AtMostOneLive(s'.vss, other)
        ensures other in s'.tasks ==> TaskOwns(crc, s'.vss, other, s'.tasks[other])
      {
        WrittenOwns(crc, s, id, s.tasks[id].cn, step.setupOk, other);
      }
    }
  }

  lemma AfterRemoveFewer(crc: Checksum, vss: Statuses, pc: Pc, outcome: RemoveOutcome)
    requires AllConsistent(crc, vss) && pc.Removing?
    ensures var vss' := AfterRemove(vss, pc, outcome);
            && AllConsistent(crc, vss') && NoNewLive(vss, vss')
            && (outcome.Deleted? && pc.name in vss ==> pc.name in vss' && vss'[pc.name].deleting)
  {
    var vss' := AfterRemove(vss, pc, outcome);
    forall n | n in vss'
      ensures n in vss && vss'[n].labels == vss[n].labels && vss'[n].status == vss[n].status
      ensures vss[n].deleting ==> vss'[n].deleting
    {
    }
  }

  /** The removal is done, and the task ends or goes on to set up another network. */
  ghost predicate Finished(s: State, s': State, id: TaskId, outcome: RemoveOutcome)
    requires id in s.tasks && s.tasks[id].Removing?
  {
    && s'.vss == AfterRemove(s.vss, s.tasks[id], outcome)
    && (|| s'.tasks == s.tasks - {id}
        || (id in s'.tasks && s'.tasks == (s.tasks - {id})[id := s'.tasks[id]] && s'.tasks[id].SettingUp?
            && outcome.Deleted? && s.tasks[id].name in s.vss))
  }

  lemma NextFinishes(crc: Checksum, s: State, id: TaskId, outcome: RemoveOutcome)
    requires id in s.tasks && s.tasks[id].Removing?
    ensures Finished(s, Next(crc, s, FinishRemove(id, outcome)), id, outcome)
  {
    if s.tasks[id].target.Some? {
      var pc := SettingUp(s.tasks[id].target.value);
      assert s.tasks[id := pc] == (s.tasks - {id})[id := pc];
    }
  }

  lemma FinishedKeepsInv(crc: Checksum, s: State, s': State, id: TaskId, outcome: RemoveOutcome)
    requires Inv(crc, s) && id in s.tasks && s.tasks[id].Removing? && Finished(s, s', id, outcome)
    ensures Inv(crc, s')
  {
    var pc, rest := s.tasks[id], s.tasks - {id};
    AfterRemoveFewer(crc, s.vss, pc, outcome);
    FewerLive(crc, s, s'.vss, rest);
    assert TaskOwns(crc, s.vss, id, pc);
    FinishedOwns(crc, s.vss, s'.vss, rest, s'.tasks, id, pc);
  }

  lemma RemoveKeepsInv(crc: Checksum, s: State, id: TaskId, outcome: RemoveOutcome)
    requires Inv(crc, s)
    ensures Inv(crc, Next(crc, s, FinishRemove(id, outcome)))
  {
    if id in s.tasks && s.tasks[id].Removing? {
      NextFinishes(crc, s, id, outcome);
      FinishedKeepsInv(crc, s, Next(crc, s, FinishRemove(id, outcome)), id, outcome);
    }
  }

  /** A task that goes on after its removal has no live status left and may write one anywhere. */
  lemma FinishedOwns(crc: Checksum, vss: Statuses, vss': Statuses, rest: map<TaskId, Pc>, tasks: map<TaskId, Pc>,
                     id: TaskId, pc: Pc)
    requires AllOwn(crc, vss', rest) && NoNewLive(vss, vss') && pc.Removing? && LiveOnlyAt(vss, id, pc.name)
    requires tasks == rest
             || (id in tasks && tasks == rest[id := tasks[id]] && tasks[id].SettingUp?
                 && pc.name in vss' && vss'[pc.name].deleting)
    ensures AllOwn(crc, vss', tasks)
  {
    assert forall n :: n in Found(vss', id) && !vss'[n].deleting ==> n in Found(vss, id);
  }

  lemma MarkedKeepsInv(crc: Checksum, s: State, names: set<string>)
    requires Inv(crc, s)
    ensures Inv(crc, s.(vss := Marked(s.vss, names)))
  {
    FewerLive(crc, s, Marked(s.vss, names), s.tasks);
  }

  lemma StepKeepsInv(crc: Checksum, s: State, step: Step)
    requires Inv(crc, s)
    ensures Inv(crc, Next(crc, s, step))
  {
    match step {
      case AgentChange(id, cn, matched) => BeginOwns(crc, s, id, cn, matched);
      case AgentRemove(id) => BeginOwns(crc, s, id, "", false);
      case FinishRemove(id, outcome) => RemoveKeepsInv(crc, s, id, outcome);
      case WriteStatus(_, _, _) => WriteKeepsInv(crc, s, step);
      case MarkReady(_) =>
      case NodeDelete(name) => MarkedKeepsInv(crc, s, {name});
      case OwnerGone(vc) => MarkedKeepsInv(crc, s, OwnedBy(s.vss, vc));
      case Vanish(name) => FewerLive(crc, s, s.vss - {name}, s.tasks);
    }
  }

  lemma {:induction false} RunKeepsInv(crc: Checksum, s: State, steps: seq<Step>)
    requires Inv(crc, s)
    ensures Inv(crc, Run(crc, s, steps))
    decreases |steps|
  {
    if steps != [] {
      StepKeepsInv(crc, s, steps[0]);
      RunKeepsInv(crc, Next(crc, s, steps[0]), steps[1..]);
    }
  }

  /** In every interleaving of the agents' tasks, with failures at any teardown, node label, delete or status
      write, a VlanConfig has at most one live status on a node, and labels, fields and name agree. */
  lemma OneLiveStatus(crc: Checksum, steps: seq<Step>, a: string, b: string)
    ensures var vss := Run(crc, EMPTY, steps).vss;
            a in vss && b in vss ==>
              && Consistent(crc, a, vss[a])
              && (SameTask(vss[a], vss[b]) && !vss[a].deleting && !vss[b].deleting ==> a == b)
  {
    RunKeepsInv(crc, EMPTY, steps);
    var vss := Run(crc, EMPTY, steps).vss;
    if a in vss && b in vss {
      assert AtMostOneLive(vss, TaskId(vss[a].labels.vc, vss[a].labels.node));
    }
  }

  // ----- Owner references -----

  ghost predicate OwnersAgree(vss: Statuses) {
    forall n :: n in vss ==> vss[n].owner == vss[n].labels.vc
  }

  /** A task writes over the status of another VlanConfig. */
  ghost predicate Overwrites(crc: Checksum, s: State, step: Step) {
    && step.WriteStatus? && step.apiOk && step.id in s.tasks && s.tasks[step.id].SettingUp?
    && var name := StatusName(crc, s.tasks[step.id].cn, step.id.node);
       name in s.vss && s.vss[name].labels.vc != step.id.vc
  }

  /** That is the only way in which owner reference and label come apart. */
  lemma OwnersAgreeExactly(crc: Checksum, s: State, step: Step)
    requires OwnersAgree(s.vss)
    ensures OwnersAgree(Next(crc, s, step).vss) <==> !Overwrites(crc, s, step)
  {
    if Overwrites(crc, s, step) {
      var name := StatusName(crc, s.tasks[step.id].cn, step.id.node);
      assert Next(crc, s, step).vss[name].owner != step.id.vc;
    } else if step.FinishRemove? && step.id in s.tasks && s.tasks[step.id].Removing? {
      AfterRemoveKeepsKeys(s.vss, s.tasks[step.id], step.outcome);
    }
  }

  ghost predicate NeverOverwrites(crc: Checksum, s: State, steps: seq<Step>) {
    forall k :: 0 <= k < |steps| ==> !Overwrites(crc, Run(crc, s, steps[..k]), steps[k])
  }

  /** So the owner of a status agrees with its label throughout a run exactly if none of its steps does that. */
  lemma OwnersAgreeThroughout(crc: Checksum, s: State, steps: seq<Step>)
    requires OwnersAgree(s.vss)
    ensures (forall k :: 0 <= k <= |steps| ==> OwnersAgree(Run(crc, s, steps[..k]).vss)) <==>
            NeverOverwrites(crc, s, steps)
  {
    if forall k :: 0 <= k <= |steps| ==> OwnersAgree(Run(crc, s, steps[..k]).vss) {
      forall k | 0 <= k < |steps|
        ensures !Overwrites(crc, Run(crc, s, steps[..k]), steps[k])
      {
        assert OwnersAgree(Run(crc, s, steps[..k + 1]).vss);
        RunOneMore(crc, s, steps, k);
        OwnersAgreeExactly(crc, Run(crc, s, steps[..k]), steps[k]);
      }
    }
    if NeverOverwrites(crc, s, steps) {
      forall k | 0 <= k <= |steps|
        ensures OwnersAgree(Run(crc, s, steps[..k]).vss)
      {
        OwnersAgreeAt(crc, s, steps, k);
      }
    }
  }

  lemma {:induction false} OwnersAgreeAt(crc: Checksum, s: State, steps: seq<Step>, k: nat)
    requires k <= |steps| && OwnersAgree(s.vss) && NeverOverwrites(crc, s, steps)
    ensures OwnersAgree(Run(crc, s, steps[..k]).vss)
  {
    if k == 0 {
      assert steps[..0] == [];
    } else {
      OwnersAgreeAt(crc, s, steps, k - 1);
      RunOneMore(crc, s, steps, k - 1);
      OwnersAgreeExactly(crc, Run(crc, s, steps[..k - 1]), steps[k - 1]);
    }
  }

  lemma {:induction false} RunOneMore(crc: Checksum, s: State, steps: seq<Step>, k: nat)
    requires k < |steps|
    ensures Run(crc, s, steps[..k + 1]) == Next(crc, Run(crc, s, steps[..k]), steps[k])
    decreases k
  {
    if k == 0 {
      assert steps[..0] == [] && steps[..1] == [steps[0]];
      assert Run(crc, s, [steps[0]]) == Run(crc, Next(crc, s, steps[0]), []);
    } else {
      RunOneMore(crc, Next(crc, s, steps[0]), steps[1..], k - 1);
      assert steps[..k + 1][1..] == steps[1..][..k] && steps[..k][1..] == steps[1..][..k - 1];
    }
  }

  /** Two VlanConfigs set up one network on one node, and the first one goes. */
  function InheritedSteps(c: string, n: string): (r: seq<Step>)
  {
    [AgentChange(TaskId("a", n), c, true), WriteStatus(TaskId("a", n), true, true),
     AgentChange(TaskId("b", n), c, true), WriteStatus(TaskId("b", n), true, true), OwnerGone("a")]
  }

  /** Its status has become the only one of the second, and is deleted along with the first. */
  lemma InheritedStatusLost(crc: Checksum, c: string, n: string)
    requires c != MGMT
    ensures var vss := Run(crc, EMPTY, InheritedSteps(c, n)).vss;
            var name := StatusName(crc, c, n);
            && Found(vss, TaskId("b", n)) == {name} && Found(vss, TaskId("a", n)) == {}
            && vss[name].owner == "a" && vss[name].deleting
  {
    var steps, name := InheritedSteps(c, n), StatusName(crc, c, n);
    var a, b := TaskId("a", n), TaskId("b", n);
    assert "a"[0] != "b"[0];
    var mine := VlanStatus(Keys("a", c, n), Keys("a", c, n), true, false, "a");
    var s1 := Next(crc, EMPTY, steps[0]);
    assert Found(EMPTY.vss, a) == {};
    assert s1 == State(map[], map[a := SettingUp(c)], {});
    var s2 := Next(crc, s1, steps[1]);
    assert s2 == State(map[name := mine], map[], {});
    var s3 := Next(crc, s2, steps[2]);
    assert Found(s2.vss, b) == {};
    assert s3 == State(map[name := mine], map[b := SettingUp(c)], {});
    var theirs := mine.(labels := Keys("b", c, n), status := Keys("b", c, n));
    var s4 := Next(crc, s3, steps[3]);
    assert s4.vss == map[name := theirs];
    assert Next(crc, s4, steps[4]).vss == map[name := theirs.(deleting := true)];
    RunFive(crc, EMPTY, steps);
  }

  // ----- Readiness -----

  ghost predicate NoClash(nets: set<string>) {
    forall c, d :: c in nets && d in nets ==> IsClusterNetworkNameValid(c) && (c == d || !Clash(c, d))
  }

  predicate StepWithin(nets: set<string>, step: Step) {
    step.AgentChange? ==> step.cn in nets
  }

  predicate PcWithin(nets: set<string>, pc: Pc) {
    match pc
    case Removing(_, _, target) => target.Some? ==> target.value in nets
    case SettingUp(cn) => cn in nets
  }

  ghost predicate ReadyHaveStatus(s: State) {
    forall c :: c in s.readyNets ==> OnNetwork(s.vss, c) != {}
  }

  ghost predicate ReadyInv(nets: set<string>, s: State) {
    && (forall n :: n in s.vss ==> s.vss[n].status.cn in nets)
    && (forall id :: id in s.tasks ==> PcWithin(nets, s.tasks[id]))
    && ReadyHaveStatus(s)
  }

  /** A write that keeps the network of an existing status takes no status from any network. */
  lemma WrittenKeepsNetworks(vss: Statuses, name: string, keys: Keys, ready: bool, c: string)
    requires name in vss ==> vss[name].labels.cn == keys.cn
    requires OnNetwork(vss, c) != {}
    ensures OnNetwork(Written(vss, name, keys, ready), c) != {}
  {
    var n :| n in OnNetwork(vss, c);
    assert n in OnNetwork(Written(vss, name, keys, ready), c);
  }

  /** Among networks whose names do not clash, a status that is written over is of the same network. */
  lemma SameNetworkThere(crc: Checksum, nets: set<string>, s: State, cn: string, node: string)
    requires NoClash(nets) && AllConsistent(crc, s.vss) && cn in nets
    requires forall n :: n in s.vss ==> s.vss[n].status.cn in nets
    ensures var name := StatusName(crc, cn, node); name in s.vss ==> s.vss[name].labels.cn == cn
  {
    var name := StatusName(crc, cn, node);
    if name in s.vss {
      assert Consistent(crc, name, s.vss[name]);
      SameStart(crc, cn, node, s.vss[name].status.cn, s.vss[name].status.node);
    }
  }

  lemma WrittenKeepsReady(nets: set<string>, s: State, s': State, name: string, keys: Keys, ready: bool)
    requires ReadyInv(nets, s) && keys.cn in nets && (name in s.vss ==> s.vss[name].labels.cn == keys.cn)
    requires s'.vss == Written(s.vss, name, keys, ready) && s'.readyNets == s.readyNets
    requires forall id :: id in s'.tasks ==> id in s.tasks && s'.tasks[id] == s.tasks[id]
    ensures ReadyInv(nets, s')
  {
    forall c | c in s'.readyNets
      ensures OnNetwork(s'.vss, c) != {}
    {
      WrittenKeepsNetworks(s.vss, name, keys, ready, c);
    }
  }

  /** Overwriting a status never takes it from another network. */
  lemma WriteKeepsReady(crc: Checksum, nets: set<string>, s: State, step: Step)
    requires NoClash(nets) && Inv(crc, s) && ReadyInv(nets, s) && step.WriteStatus?
    ensures ReadyInv(nets, Next(crc, s, step))
  {
    var id := step.id;
    if id in s.tasks && s.tasks[id].SettingUp? && step.apiOk {
      var cn := s.tasks[id].cn;
      assert PcWithin(nets, s.tasks[id]);
      SameNetworkThere(crc, nets, s, cn, id.node);
      var name, keys := StatusName(crc, cn, id.node), Keys(id.vc, cn, id.node);
      WrittenKeepsReady(nets, s, Next(crc, s, step), name, keys, step.setupOk);
    }
  }

  lemma VanishKeepsReady(crc: Checksum, nets: set<string>, s: State, name: string)
    requires Inv(crc, s) && ReadyInv(nets, s)
    ensures ReadyInv(nets, Next(crc, s, Vanish(name)))
  {
    var s' := Next(crc, s, Vanish(name));
    if s' != s {
      var cn := s.vss[name].status.cn;
      assert Consistent(crc, name, s.vss[name]);
      forall c | c in s'.readyNets
        ensures OnNetwork(s'.vss, c) != {}
      {
        var n :| n in OnNetwork(s.vss, c) && n != name;
        assert n in OnNetwork(s'.vss, c);
      }
    }
  }

  ghost predicate HasOther(vss: Statuses, name: string, c: string) {
    exists n :: n in vss && n != name && vss[n].labels.cn == c
  }

  /** When a deleted status goes, its network stays Ready exactly if another status of it is stored; all other
      networks stay as they were. */
  lemma VanishReadyExactly(crc: Checksum, s: State, name: string)
    requires Inv(crc, s) && name in s.vss && s.vss[name].deleting
    ensures var s' := Next(crc, s, Vanish(name));
            && s'.vss == s.vss - {name}
            && forall c :: c in s'.readyNets <==>
                 c in s.readyNets && (c == s.vss[name].labels.cn ==> HasOther(s.vss, name, c))
  {
    assert Consistent(crc, name, s.vss[name]) && name in OnNetwork(s.vss, s.vss[name].status.cn);
    LastExactly(s.vss, name);
  }

  lemma LastExactly(vss: Statuses, name: string)
    requires name in vss
    ensures IsLast(vss, name) <==> !HasOther(vss, name, vss[name].status.cn)
  {
    var cn := vss[name].status.cn;
    assert forall n :: n in OnNetwork(vss, cn) <==> n in vss && vss[n].labels.cn == cn;
    if !IsLast(vss, name) {
      var n :| n in OnNetwork(vss, cn) && n != name;
      assert HasOther(vss, name, cn);
    }
  }

  /** The status of a node that is gone or does not match any more goes, and no other. */
  lemma NodeDeleteRemoves(crc: Checksum, s: State, name: string)
    requires Inv(crc, s) && name in s.vss
    ensures var marked := Next(crc, s, NodeDelete(name));
            && marked.vss == s.vss[name := s.vss[name].(deleting := true)]
            && Next(crc, marked, Vanish(name)).vss == s.vss - {name}
  {
    MarkedKeepsInv(crc, s, {name});
    VanishReadyExactly(crc, Next(crc, s, NodeDelete(name)), name);
  }

  /** A live status makes its network Ready, and no other. */
  lemma MarkReadyExactly(crc: Checksum, s: State, name: string, c: string)
    requires Inv(crc, s)
    ensures c in Next(crc, s, MarkReady(name)).readyNets <==>
            c in s.readyNets || (name in s.vss && !s.vss[name].deleting && s.vss[name].labels.cn == c)
  {
    assert name in s.vss ==> Consistent(crc, name, s.vss[name]);
  }

  lemma MarkedKeepsReady(nets: set<string>, s: State, names: set<string>)
    requires ReadyInv(nets, s)
    ensures ReadyInv(nets, s.(vss := Marked(s.vss, names)))
  {
    assert forall c :: OnNetwork(Marked(s.vss, names), c) == OnNetwork(s.vss, c);
  }

  lemma AfterRemoveKeepsKeys(vss: Statuses, pc: Pc, outcome: RemoveOutcome)
    requires pc.Removing?
    ensures var vss' := AfterRemove(vss, pc, outcome);
            && vss'.Keys == vss.Keys
            && (forall n :: n in vss ==> vss'[n].labels == vss[n].labels && vss'[n].status == vss[n].status)
            && (forall c :: OnNetwork(vss', c) == OnNetwork(vss, c))
  {
  }

  lemma RemoveKeepsReady(crc: Checksum, nets: set<string>, s: State, step: Step)
    requires Inv(crc, s) && ReadyInv(nets, s) && step.FinishRemove?
    ensures ReadyInv(nets, Next(crc, s, step))
  {
    if step.id in s.tasks && s.tasks[step.id].Removing? {
      AfterRemoveKeepsKeys(s.vss, s.tasks[step.id], step.outcome);
      assert PcWithin(nets, s.tasks[step.id]);
    }
  }

  lemma StepKeepsReady(crc: Checksum, nets: set<string>, s: State, step: Step)
    requires NoClash(nets) && Inv(crc, s) && ReadyInv(nets, s) && StepWithin(nets, step)
    ensures ReadyInv(nets, Next(crc, s, step))
  {
    match step {
      case AgentChange(_, _, _) =>
      case AgentRemove(_) =>
      case FinishRemove(_, _) => RemoveKeepsReady(crc, nets, s, step);
      case WriteStatus(_, _, _) => WriteKeepsReady(crc, nets, s, step);
      case MarkReady(name) =>
        if name in s.vss {
          assert Consistent(crc, name, s.vss[name]) && name in OnNetwork(s.vss, s.vss[name].status.cn);
        }
      case NodeDelete(name) => MarkedKeepsReady(nets, s, {name});
      case OwnerGone(vc) => MarkedKeepsReady(nets, s, OwnedBy(s.vss, vc));
      case Vanish(name) => VanishKeepsReady(crc, nets, s, name);
    }
  }

  /** Among networks whose names do not clash, one is Ready only while a status labelled with it is stored. */
  lemma {:induction false} ReadyOnlyWithStatus(crc: Checksum, nets: set<string>, s: State, steps: seq<Step>)
    requires NoClash(nets) && Inv(crc, s) && ReadyInv(nets, s)
    requires forall k :: 0 <= k < |steps| ==> StepWithin(nets, steps[k])
    ensures ReadyHaveStatus(Run(crc, s, steps))
    decreases |steps|
  {
    if steps != [] {
      StepKeepsInv(crc, s, steps[0]);
      StepKeepsReady(crc, nets, s, steps[0]);
      ReadyOnlyWithStatus(crc, nets, Next(crc, s, steps[0]), steps[1..]);
    }
  }

  /** Two agents that set up clashing networks: the second overwrites the only status of the first. */
  function ClashingSteps(crc: Checksum, c: string, n: string, d: string, m: string): (r: seq<Step>)
  {
    [AgentChange(TaskId("a", n), c, true), WriteStatus(TaskId("a", n), true, true), MarkReady(StatusName(crc, c, n)),
     AgentChange(TaskId("b", m), d, true), WriteStatus(TaskId("b", m), true, true)]
  }

  /** The node whose status on the first of two clashing networks is named like that of "node" on the second. */
  function ClashingNode(c: string, d: string): (r: string)
    requires c + "-" <= d
  {
    d[|c| + 1..] + "-" + "node"
  }

  /** For every pair of clashing names this run leaves a Ready network without a status. */
  lemma ClashLosesStatus(crc: Checksum, c: string, d: string)
    requires c + "-" <= d && c != MGMT && d != MGMT
    ensures !ReadyHaveStatus(Run(crc, EMPTY, ClashingSteps(crc, c, ClashingNode(c, d), d, "node")))
  {
    var n, m := ClashingNode(c, d), "node";
    var name := StatusName(crc, c, n);
    ContinuedName(crc, c, d);
    var steps := ClashingSteps(crc, c, n, d, m);
    var a, b := TaskId("a", n), TaskId("b", m);
    var s1 := Next(crc, EMPTY, steps[0]);
    assert Found(EMPTY.vss, a) == {};
    assert s1 == State(map[], map[a := SettingUp(c)], {});
    var s2 := Next(crc, s1, steps[1]);
    var mine := VlanStatus(Keys("a", c, n), Keys("a", c, n), true, false, "a");
    assert s2 == State(map[name := mine], map[], {});
    var s3 := Next(crc, s2, steps[2]);
    assert s3 == State(map[name := mine], map[], {c});
    var s4 := Next(crc, s3, steps[3]);
    assert Found(s3.vss, b) == {};
    assert s4 == State(map[name := mine], map[b := SettingUp(d)], {c});
    var s5 := Next(crc, s4, steps[4]);
    assert s5.vss.Keys == {name} && s5.vss[name].labels.cn == d && s5.readyNets == {c};
    assert OnNetwork(s5.vss, c) == {};
    RunFive(crc, EMPTY, steps);
  }

  lemma RunFive(crc: Checksum, s: State, steps: seq<Step>)
    requires |steps| == 5
    ensures Run(crc, s, steps) ==
            Next(crc, Next(crc, Next(crc, Next(crc, Next(crc, s, steps[0]), steps[1]), steps[2]), steps[3]), steps[4])
  {
    var t1, t2, t3, t4 := steps[1..], steps[1..][1..], steps[1..][1..][1..], steps[1..][1..][1..][1..];
    assert t1[0] == steps[1] && t2[0] == steps[2] && t3[0] == steps[3] && t4[0] == steps[4] && t4[1..] == [];
    var s1 := Next(crc, s, steps[0]);
    var s2 := Next(crc, s1, steps[1]);
    var s3 := Next(crc, s2, steps[2]);
    var s4 := Next(crc, s3, steps[3]);
    assert Run(crc, s4, t4) == Next(crc, s4, steps[4]);
    assert Run(crc, s3, t3) == Run(crc, s4, t4);
    assert Run(crc, s2, t2) == Run(crc, s3, t3);
    assert Run(crc, s1, t1) == Run(crc, s2, t2);
  }

  // ----- The agent's handlers -----

  /** Where a handler that has found at most one status goes from there. */
  lemma BeginWith(vss: Statuses, id: TaskId, cn: string, matched: bool, name: Option<string>)
    requires Found(vss, id) == if name.Some? then {name.value} else {}
    ensures name.Some? ==> name.value in vss
    ensures Begin(vss, id, cn, matched) ==
            if name.Some? && (!matched || vss[name.value].status.cn != cn)
            then Some(Removing(name.value, vss[name.value], if matched then Some(cn) else None))
            else if matched then Some(SettingUp(cn)) else None
  {
    assert name.Some? ==> name.value in Found(vss, id);
  }

  /** The store after a removal, if one is due, and after a setup, if the removal succeeded and the node matches. */
  function AfterTask(crc: Checksum, vss: Statuses, id: TaskId, cn: string, matched: bool, name: Option<string>,
                     removal: RemoveOutcome, setupOk: bool, writeOk: bool): (r: Statuses)
    requires name.Some? ==> name.value in vss
  {
    var stale := name.Some? && (!matched || vss[name.value].status.cn != cn);
    var removed := if stale then AfterRemove(vss, Removing(name.value, vss[name.value], None), removal) else vss;
    if matched && writeOk && (stale ==> removal.Deleted?)
    then Written(removed, StatusName(crc, cn, id.node), Keys(id.vc, cn, id.node), setupOk)
    else removed
  }

  lemma WholeTask(crc: Checksum, vss: Statuses, id: TaskId, cn: string, matched: bool, name: Option<string>,
                  removal: RemoveOutcome, setupOk: bool, writeOk: bool)
    requires cn != MGMT && Found(vss, id) == if name.Some? then {name.value} else {}
    ensures name.Some? ==> name.value in vss
    ensures var s1 := Next(crc, State(vss, map[], {}), AgentChange(id, cn, matched));
            var s2 := Next(crc, s1, FinishRemove(id, removal));
            var s3 := Next(crc, s2, WriteStatus(id, setupOk, writeOk));
            s3.tasks == map[] && s3.vss == AfterTask(crc, vss, id, cn, matched, name, removal, setupOk, writeOk)
  {
    BeginWith(vss, id, cn, matched, name);
  }

  /** Where nothing fails, a stale status is marked and the status of a matching node is in its place. */
  lemma GoodTask(crc: Checksum, vss: Statuses, id: TaskId, cn: string, matched: bool, name: Option<string>)
    requires name.Some? ==> name.value in vss
    ensures var vss' := AfterTask(crc, vss, id, cn, matched, name, Deleted, true, true);
            var at := StatusName(crc, cn, id.node);
            && (name.Some? && (!matched || vss[name.value].status.cn != cn) ==>
                  name.value in vss' && vss'[name.value].deleting)
            && (matched ==>
                  at in vss' && vss'[at].labels == vss'[at].status == Keys(id.vc, cn, id.node) && vss'[at].ready)
  {
  }

  /** What the API server answers in the course of one handler, and whether the setup succeeds. */
  datatype Answers = Answers(lookupFails: bool, labelOk: bool, deleteOk: bool, setupOk: bool, writeOk: bool)

  predicate BondExists(links: Kernel.Links, cn: string) {
    GenerateName(cn, BOND_SUFFIX) in links
  }

  predicate BridgeExists(links: Kernel.Links, cn: string) {
    GenerateBridgeName(cn) in links
  }

  /** No link of another kind has the name of the network's bridge. */
  predicate NoOtherLink(links: Kernel.Links, cn: string) {
    BridgeExists(links, cn) ==> links[GenerateBridgeName(cn)].kind.BridgeKind?
  }

  /** Nothing fails: neither a call to the API server, nor one to the kernel, nor the setup. */
  ghost predicate AllGood(answers: Answers, kernel: Kernel.LinkTable) {
    && !answers.lookupFails && answers.labelOk && answers.deleteOk && answers.setupOk && answers.writeOk
    && kernel.Obliging()
  }

  class Agent {
    const node: string
    const crc: Checksum
    const kernel: Kernel.LinkTable
    var vss: Statuses

    constructor (node: string, crc: Checksum, kernel: Kernel.LinkTable, vss: Statuses)
      ensures this.node == node && this.crc == crc && this.kernel == kernel && this.vss == vss
    {
      this.node, this.crc, this.kernel, this.vss := node, crc, kernel, vss;
    }

    method GetVlanStatus(vc: string) returns (ok: bool, name: Option<string>)
      ensures ok <==> |Found(vss, TaskId(vc, node))| <= 1
      ensures ok ==> Found(vss, TaskId(vc, node)) == if name.Some? then {name.value} else {}
    {
      var found := Found(vss, TaskId(vc, node));
      if found == {} {
        return true, None;
      }
      var n :| n in found;
      assert |found - {n}| == |found| - 1;
      if found == {n} {
        return true, Some(n);
      }
      assert found - {n} != {};
      return false, None;
    }

    /** Tears the network of a status down and deletes the status. Once it is deleted, bond and bridge are gone
        if and only if both or neither of them existed: what a half-failed teardown left behind is not removed. */
    method RemoveVLAN(name: string, labelOk: bool, deleteOk: bool) returns (outcome: RemoveOutcome)
      requires name in vss && kernel.Valid()
      modifies this`vss, kernel`calls, kernel`links
      ensures kernel.Valid()
      ensures vss == AfterRemove(old(vss), Removing(name, old(vss)[name], None), outcome)
      ensures outcome.NodeLabelFailed? <==> !labelOk
      ensures outcome.DeleteFailed? <==> labelOk && !deleteOk
      ensures name in vss && vss[name].labels == old(vss)[name].labels && vss[name].status == old(vss)[name].status
      ensures outcome.Deleted? ==> vss[name].deleting
      ensures outcome.TeardownFailed? ==> !vss[name].ready && vss[name].deleting == old(vss)[name].deleting
      // nothing but a refusal, a failed API call or a link of another kind keeps the status from being deleted
      ensures labelOk && deleteOk && kernel.Obliging() && NoOtherLink(old(kernel.links), old(vss)[name].status.cn) ==>
                outcome.Deleted?
      ensures var cn := old(vss)[name].status.cn;
              outcome.Deleted? ==>
                (!BondExists(kernel.links, cn) && !BridgeExists(kernel.links, cn) <==>
                 (BondExists(old(kernel.links), cn) <==> BridgeExists(old(kernel.links), cn)))
    {
      var torn := Bonds.RemoveVlan(kernel, vss[name].status.cn);
      if !labelOk {
        return NodeLabelFailed;
      }
      if !deleteOk {
        return DeleteFailed;
      }
      if torn.Incomplete? {
        vss := vss[name := vss[name].(ready := false)];
        return TeardownFailed;
      }
      vss := vss[name := vss[name].(deleting := true)];
      return Deleted;
    }

    method UpdateStatus(vc: string, cn: string, setupOk: bool, writeOk: bool) returns (ok: bool)
      modifies this`vss
      ensures ok == writeOk
      ensures vss ==
              if writeOk then Written(old(vss), StatusName(crc, cn, node), Keys(vc, cn, node), setupOk) else old(vss)
      ensures var name := StatusName(crc, cn, node);
              ok ==>
                && name in vss && vss[name].labels == vss[name].status == Keys(vc, cn, node)
                && vss[name].ready == setupOk
                && (name in old(vss) ==>
                      vss[name].deleting == old(vss)[name].deleting && vss[name].owner == old(vss)[name].owner)
                && (name !in old(vss) ==> !vss[name].deleting && vss[name].owner == vc)
    {
      var name := StatusName(crc, cn, node);
      var keys := Keys(vc, cn, node);
      var updated := if name in vss then vss[name].(labels := keys, status := keys, ready := setupOk)
                     else VlanStatus(keys, keys, setupOk, false, vc);
      if writeOk {
        vss := vss[name := updated];
      }
      ok := writeOk;
    }

    /** One whole change handler takes the steps of its task, if no other task intervenes. VlanConfigs of the
        management network are passed over, and so they are by the step. */
    method OnChange(vc: string, cn: string, matched: bool, answers: Answers) returns (ok: bool, removal: RemoveOutcome)
      requires kernel.Valid()
      modifies this`vss, kernel`calls, kernel`links
      ensures kernel.Valid()
      ensures var id := TaskId(vc, node);
              var s1 := Next(crc, State(old(vss), map[], {}), AgentChange(id, cn, matched));
              var s2 := Next(crc, s1, FinishRemove(id, removal));
              var s3 := Next(crc, s2, WriteStatus(id, answers.setupOk, answers.writeOk));
              s3.tasks == map[] && vss == if answers.lookupFails then old(vss) else s3.vss
      // success: nothing to do, or a single status at most, a stale one removed, and the setup done and recorded
      ensures ok <==>
              || cn == MGMT
              || (&& !answers.lookupFails && |Found(old(vss), TaskId(vc, node))| <= 1 && removal.Deleted?
                  && (matched ==> answers.setupOk && answers.writeOk))
      // where nothing fails, a stale status is deleted and a matching node has its status
      ensures var id := TaskId(vc, node);
              && cn != MGMT && AllGood(answers, kernel) && |Found(old(vss), id)| <= 1
              && (forall n :: n in Found(old(vss), id) ==> NoOtherLink(old(kernel.links), old(vss)[n].status.cn)) ==>
                && ok
                && (forall n :: n in Found(old(vss), id) && (!matched || old(vss)[n].status.cn != cn) ==>
                      n in vss && vss[n].deleting)
                && (matched ==> var at := StatusName(crc, cn, node);
                                at in vss && vss[at].labels == vss[at].status == Keys(vc, cn, node) && vss[at].ready)
    {
      removal := Deleted;
      if cn == MGMT {
        return true, removal;
      }
      if answers.lookupFails {
        return false, removal;
      }
      var single, name := GetVlanStatus(vc);
      if !single {
        return false, removal;
      }
      assert name.Some? ==> name.value in Found(vss, TaskId(vc, node));
      ok, removal := Carry(vc, cn, matched, name, answers);
      WholeTask(crc, old(vss), TaskId(vc, node), cn, matched, name, removal, answers.setupOk, answers.writeOk);
      GoodTask(crc, old(vss), TaskId(vc, node), cn, matched, name);
    }

    /** Removes a stale status, if that is what was found, and sets the network up where the node matches. */
    method Carry(vc: string, cn: string, matched: bool, name: Option<string>, answers: Answers)
      returns (ok: bool, removal: RemoveOutcome)
      requires kernel.Valid() && (name.Some? ==> name.value in vss)
      modifies this`vss, kernel`calls, kernel`links
      ensures kernel.Valid()
      ensures vss == AfterTask(crc, old(vss), TaskId(vc, node), cn, matched, name, removal,
                               answers.setupOk, answers.writeOk)
      ensures ok <==> removal.Deleted? && (matched ==> answers.setupOk && answers.writeOk)
      ensures && AllGood(answers, kernel)
              && (name.Some? ==> NoOtherLink(old(kernel.links), old(vss)[name.value].status.cn)) ==>
                removal.Deleted?
    {
      removal := Deleted;
      if name.Some? && (!matched || vss[name.value].status.cn != cn) {
        removal := RemoveVLAN(name.value, answers.labelOk, answers.deleteOk);
        if !removal.Deleted? {
          return false, removal;
        }
      }
      ok := true;
      if matched {
        var written := UpdateStatus(vc, cn, answers.setupOk, answers.writeOk);
        ok := written && answers.setupOk;
      }
    }

    /** The removal handler takes the first two steps of its task. */
    method OnRemove(vc: string, cn: string, answers: Answers) returns (ok: bool, removal: RemoveOutcome)
      requires kernel.Valid()
      modifies this`vss, kernel`calls, kernel`links
      ensures kernel.Valid()
      ensures var id := TaskId(vc, node);
              var s1 := Next(crc, State(old(vss), map[], {}), AgentRemove(id));
              var s2 := Next(crc, s1, FinishRemove(id, removal));
              s2.tasks == map[] && vss == if answers.lookupFails || cn == MGMT then old(vss) else s2.vss
      // a success leaves no link of the network behind, unless exactly one of the two was there
      ensures ok && cn != MGMT ==> forall n :: n in Found(old(vss), TaskId(vc, node)) ==>
                var c := old(vss)[n].status.cn;
                (!BondExists(kernel.links, c) && !BridgeExists(kernel.links, c) <==>
                 (BondExists(old(kernel.links), c) <==> BridgeExists(old(kernel.links), c)))
      // where nothing fails, the status is deleted
      ensures var id := TaskId(vc, node);
              && cn != MGMT && AllGood(answers, kernel) && |Found(old(vss), id)| <= 1
              && (forall n :: n in Found(old(vss), id) ==> NoOtherLink(old(kernel.links), old(vss)[n].status.cn)) ==>
                ok && forall n :: n in Found(old(vss), id) ==> n in vss && vss[n].deleting
    {
      removal := Deleted;
      if cn == MGMT {
        return true, removal;
      }
      if answers.lookupFails {
        return false, removal;
      }
      var single, name := GetVlanStatus(vc);
      if !single {
        return false, removal;
      }
      BeginWith(vss, TaskId(vc, node), "", false, name);
      if name.Some? {
        removal := RemoveVLAN(name.value, answers.labelOk, answers.deleteOk);
      }
      ok := removal.Deleted?;
    }
  }
}
