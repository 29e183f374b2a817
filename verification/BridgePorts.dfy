/** The VLAN filter table of one bridge port, changed by netlink calls that may fail. */
module BridgePorts {
  import opened VlanIds

  datatype VlanOp = AddVlan | DelVlan

  /** Says for each netlink call, counted from zero, and the VID it is about, whether the kernel refuses it. */
  type Faults = (nat, nat) -> bool

  datatype PortState = PortState(vids: set<nat>, calls: nat)

  function Applied(op: VlanOp, vids: set<nat>, vid: nat): (r: set<nat>)
  {
    match op
    case AddVlan => vids + {vid}
    case DelVlan => vids - {vid}
  }

  /** One AddBridgeVlan or DelBridgeVlan: VIDs 0 and 1 are skipped, a refused call changes nothing. */
  function Attempt(op: VlanOp, vid: nat, p: PortState, faults: Faults): (r: (PortState, bool))
  {
    if vid == DEFAULT_VLAN_ID || vid == MIN_VLAN_ID then (p, true)
    else if faults(p.calls, vid) then (p.(calls := p.calls + 1), false)
    else (PortState(Applied(op, p.vids, vid), p.calls + 1), true)
  }

  /** What a walk leaves behind: every state it passed through, the last one, and its own success. */
  datatype WalkResult = WalkResult(visited: seq<PortState>, port: PortState, ok: bool)

  /** Applies an operation to the VIDs in turn and stops at the first one that fails. */
  function Walk(op: VlanOp, vids: seq<nat>, p: PortState, faults: Faults): (r: WalkResult)
  {
    if vids == [] then WalkResult([], p, true)
    else
      var (q, ok) := Attempt(op, vids[0], p, faults);
      if !ok then WalkResult([q], q, false)
      else
        var rest := Walk(op, vids[1..], q, faults);
        WalkResult([q] + rest.visited, rest.port, rest.ok)
  }

  /** Walking on over the given VIDs, with these states passed so far, ends as the whole walk does that started
      with the earlier ones passed. */
  ghost predicate Continues(op: VlanOp, whole: WalkResult, earlier: seq<PortState>, vids: seq<nat>, p: PortState,
                            faults: Faults, passed: seq<PortState>) {
    var rest := Walk(op, vids, p, faults);
    whole.port == rest.port && whole.ok == rest.ok && earlier + whole.visited == passed + rest.visited
  }

  lemma ContinueStep(op: VlanOp, whole: WalkResult, earlier: seq<PortState>, vids: seq<nat>, p: PortState,
                     faults: Faults, passed: seq<PortState>)
    requires vids != [] && Continues(op, whole, earlier, vids, p, faults, passed)
    ensures var (q, ok) := Attempt(op, vids[0], p, faults);
            && (ok ==> Continues(op, whole, earlier, vids[1..], q, faults, passed + [q]))
            && (!ok ==> whole.port == q && !whole.ok && earlier + whole.visited == passed + [q])
  {
    var (q, ok) := Attempt(op, vids[0], p, faults);
    var rest := Walk(op, vids[1..], q, faults);
    assert passed + ([q] + rest.visited) == passed + [q] + rest.visited;
  }

  class BridgePort {
    const faults: Faults
    var vids: set<nat>
    var calls: nat
    ghost var history: seq<PortState>

    ghost function State(): (p: PortState)
      reads this
    {
      PortState(vids, calls)
    }

    constructor (vids: set<nat>, faults: Faults)
      ensures State() == PortState(vids, 0) && this.faults == faults && history == []
    {
      this.vids, this.calls, this.faults, this.history := vids, 0, faults, [];
    }

    method Apply(op: VlanOp, vid: nat) returns (ok: bool)
      modifies this
      ensures (State(), ok) == Attempt(op, vid, old(State()), faults)
      ensures history == old(history) + [State()]
      ensures vid <= 1 ==> ok && State() == old(State())
      ensures vid > 1 ==> (ok <==> !faults(old(calls), vid)) && calls == old(calls) + 1
      ensures forall v :: v in vids <==> if ok && v == vid > 1 then op.AddVlan? else v in old(vids)
    {
      ok := true;
      if vid != DEFAULT_VLAN_ID && vid != MIN_VLAN_ID {
        ok := !faults(calls, vid);
        if ok {
          vids := Applied(op, vids, vid);
        }
        calls := calls + 1;
      }
      history := history + [State()];
    }
  }
}
