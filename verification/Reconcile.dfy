/** The agent's reconciliation of the VIDs on a cluster network's uplink, under netlink failures. */
module Reconcile {
  import opened GoStrings
  import opened VlanIds
  import opened BridgePorts
  import opened VlanIDSets
  import opened Nads
  import opened DeviceNames

  /** What the uplink should carry: the VIDs of the NADs and those of the host's sub-interfaces. */
  ghost function Desired(cn: string, nads: seq<Nad>, links: seq<string>): (r: set<nat>)
  {
    NadListVids(nads) + Elements(ManualVids(cn, links))
  }

  /** A live bridge NAD names the VID, or the name of a link on the host stands for it. */
  ghost predicate AskedForBySome(cn: string, nads: seq<Nad>, links: seq<string>, v: nat) {
    || (exists nad :: nad in nads && Contributes(nad) && Names(nad.config.value, v))
    || (exists l :: l in links && ManualVid(cn, l) == Some(v))
  }

  lemma DesiredExactly(cn: string, nads: seq<Nad>, links: seq<string>, v: nat)
    requires Managed(v)
    ensures v in Desired(cn, nads, links) <==> AskedForBySome(cn, nads, links, v)
  {
    ManualVidsMember(cn, links, v);
    assert v in NadListVids(nads) <==> AskedFor(nads, v);
    assert forall nad :: nad in nads && Contributes(nad) ==>
             (v in ConfVids(nad.config.value) <==> Names(nad.config.value, v));
  }

  ghost function Missing(desired: set<nat>, vids: set<nat>): (r: set<nat>)
  {
    ManagedOf(desired - vids)
  }

  ghost function Surplus(desired: set<nat>, vids: set<nat>): (r: set<nat>)
  {
    ManagedOf(vids - desired)
  }

  /** How many VIDs still have to be added or removed. */
  ghost function Distance(desired: set<nat>, vids: set<nat>): (n: nat)
  {
    |Missing(desired, vids)| + |Surplus(desired, vids)|
  }

  /** The two walks of one reconciliation; the second starts where the first one stopped. */
  datatype Round = Round(add: WalkResult, del: WalkResult)

  ghost function Reconciled(desired: set<nat>, p: PortState, faults: Faults): (r: Round)
  {
    var add := Walk(AddVlan, Sorted(Missing(desired, p.vids)), p, faults);
    Round(add, Walk(DelVlan, Sorted(Surplus(desired, p.vids)), add.port, faults))
  }

  /** The number of accepted calls of a walk: all but the last one where it failed. */
  function Accepted(w: WalkResult): (n: int)
  {
    if w.ok then |w.visited| else |w.visited| - 1
  }

  function ApplyAll(op: VlanOp, vids: set<nat>, change: set<nat>): (r: set<nat>)
  {
    match op
    case AddVlan => vids + change
    case DelVlan => vids - change
  }

  ghost predicate AllManaged(vids: seq<nat>) {
    forall i :: 0 <= i < |vids| ==> Managed(vids[i])
  }

  function Min2(a: int, b: int): (r: int)
  {
    if a < b then a else b
  }

  /** The VIDs of a port after the first n operations. */
  function AfterFirst(op: VlanOp, base: set<nat>, vids: seq<nat>, n: nat): (r: set<nat>)
    requires n <= |vids|
  {
    ApplyAll(op, base, Elements(vids[..n]))
  }

  lemma AfterNone(op: VlanOp, base: set<nat>, vids: seq<nat>)
    ensures AfterFirst(op, base, vids, 0) == base
  {
    assert vids[..0] == [] && Elements([]) == {};
  }

  lemma AfterOneMore(op: VlanOp, base: set<nat>, vids: seq<nat>, n: nat)
    requires n < |vids|
    ensures AfterFirst(op, Applied(op, base, vids[0]), vids[1..], n) == AfterFirst(op, base, vids, n + 1)
  {
    assert vids[..n + 1] == [vids[0]] + vids[1..][..n];
    assert Elements(vids[..n + 1]) == {vids[0]} + Elements(vids[1..][..n]);
  }

  /** A walk applies a prefix of its VIDs, in order, and nothing else. */
  lemma {:induction false} WalkAppliesPrefix(op: VlanOp, vids: seq<nat>, p: PortState, faults: Faults)
    requires AllManaged(vids)
    ensures var w := Walk(op, vids, p, faults);
            && 0 <= Accepted(w) <= |vids| && (w.ok <==> Accepted(w) == |vids|)
            && w.port.vids == AfterFirst(op, p.vids, vids, Accepted(w))
            && w.port.calls == p.calls + |w.visited|
            && forall i :: 0 <= i < |w.visited| ==>
                 w.visited[i].vids == AfterFirst(op, p.vids, vids, Min2(i + 1, Accepted(w)))
  {
    AfterNone(op, p.vids, vids);
    if vids != [] {
      var (q, ok) := Attempt(op, vids[0], p, faults);
      if ok {
        var w, rest := Walk(op, vids, p, faults), Walk(op, vids[1..], q, faults);
        WalkAppliesPrefix(op, vids[1..], q, faults);
        AfterNone(op, q.vids, vids[1..]);
        forall n: nat | n < |vids|
          ensures AfterFirst(op, q.vids, vids[1..], n) == AfterFirst(op, p.vids, vids, n + 1)
        {
          AfterOneMore(op, p.vids, vids, n);
        }
        assert w.visited == [q] + rest.visited;
      }
    }
  }

  lemma SortedPrefix(s: set<nat>, n: nat)
    requires n <= |Sorted(s)| && s == ManagedOf(s)
    ensures AllManaged(Sorted(s)) && |Sorted(s)| == |s|
    ensures Elements(Sorted(s)[..n]) <= s && |Elements(Sorted(s)[..n])| == n
  {
    var order := Sorted(s);
    assert forall i :: 0 <= i < |order| ==> order[i] in Elements(order);
    AscendingCardinality(order);
    AscendingCardinality(order[..n]);
    assert forall v :: v in order[..n] ==> v in Elements(order);
  }

  lemma DifferenceCardinality(a: set<nat>, b: set<nat>)
    requires b <= a
    ensures |a - b| == |a| - |b|
  {
    assert a == (a - b) + b && (a - b) !! b;
  }

  /** Adding missing VIDs brings the port closer by their number, and leaves the surplus alone. */
  lemma AddProgress(desired: set<nat>, vids: set<nat>, change: set<nat>)
    requires change <= Missing(desired, vids)
    ensures Surplus(desired, vids + change) == Surplus(desired, vids)
    ensures Missing(desired, vids + change) == Missing(desired, vids) - change
    ensures Distance(desired, vids + change) == Distance(desired, vids) - |change|
  {
    DifferenceCardinality(Missing(desired, vids), change);
  }

  lemma DelProgress(desired: set<nat>, vids: set<nat>, change: set<nat>)
    requires change <= Surplus(desired, vids)
    ensures Missing(desired, vids - change) == Missing(desired, vids)
    ensures Surplus(desired, vids - change) == Surplus(desired, vids) - change
    ensures Distance(desired, vids - change) == Distance(desired, vids) - |change|
  {
    DifferenceCardinality(Surplus(desired, vids), change);
  }

  /** Nothing wanted on both sides is lost, nothing unwanted appears, and VIDs 0 and 1 stay as they are. */
  ghost predicate Sandwiched(desired: set<nat>, existing: set<nat>, vids: set<nat>) {
    forall v: nat ::
      if Managed(v) then (v in existing * desired ==> v in vids) && (v in vids ==> v in existing + desired)
      else v in vids <==> v in existing
  }

  lemma AddWalkStates(desired: set<nat>, p: PortState, faults: Faults)
    ensures var w := Walk(AddVlan, Sorted(Missing(desired, p.vids)), p, faults);
            && 0 <= Accepted(w) <= |Missing(desired, p.vids)| && (w.ok <==> Accepted(w) == |Missing(desired, p.vids)|)
            && w.port.calls == p.calls + |w.visited|
            && Surplus(desired, w.port.vids) == Surplus(desired, p.vids)
            && Distance(desired, w.port.vids) == Distance(desired, p.vids) - Accepted(w)
            && Sandwiched(desired, p.vids, w.port.vids)
            && forall i :: 0 <= i < |w.visited| ==>
                 && Sandwiched(desired, p.vids, w.visited[i].vids)
                 && Distance(desired, w.visited[i].vids) == Distance(desired, p.vids) - Min2(i + 1, Accepted(w))
  {
    var todo := Missing(desired, p.vids);
    var order := Sorted(todo);
    SortedPrefix(todo, 0);
    WalkAppliesPrefix(AddVlan, order, p, faults);
    var w := Walk(AddVlan, order, p, faults);
    forall n: nat | n <= |order|
      ensures var s := ApplyAll(AddVlan, p.vids, Elements(order[..n]));
              && Sandwiched(desired, p.vids, s) && Surplus(desired, s) == Surplus(desired, p.vids)
              && Distance(desired, s) == Distance(desired, p.vids) - n
    {
      SortedPrefix(todo, n);
      AddProgress(desired, p.vids, Elements(order[..n]));
    }
  }

  lemma DelWalkStates(desired: set<nat>, p: PortState, faults: Faults)
    ensures var w := Walk(DelVlan, Sorted(Surplus(desired, p.vids)), p, faults);
            && 0 <= Accepted(w) <= |Surplus(desired, p.vids)| && (w.ok <==> Accepted(w) == |Surplus(desired, p.vids)|)
            && w.port.calls == p.calls + |w.visited|
            && Missing(desired, w.port.vids) == Missing(desired, p.vids)
            && Distance(desired, w.port.vids) == Distance(desired, p.vids) - Accepted(w)
            && Sandwiched(desired, p.vids, w.port.vids)
            && forall i :: 0 <= i < |w.visited| ==>
                 && Sandwiched(desired, p.vids, w.visited[i].vids)
                 && Distance(desired, w.visited[i].vids) == Distance(desired, p.vids) - Min2(i + 1, Accepted(w))
  {
    var todo := Surplus(desired, p.vids);
    var order := Sorted(todo);
    SortedPrefix(todo, 0);
    WalkAppliesPrefix(DelVlan, order, p, faults);
    forall n: nat | n <= |order|
      ensures var s := ApplyAll(DelVlan, p.vids, Elements(order[..n]));
              && Sandwiched(desired, p.vids, s) && Missing(desired, s) == Missing(desired, p.vids)
              && Distance(desired, s) == Distance(desired, p.vids) - n
    {
      SortedPrefix(todo, n);
      DelProgress(desired, p.vids, Elements(order[..n]));
    }
  }

  lemma SandwichedTransitive(desired: set<nat>, a: set<nat>, b: set<nat>, c: set<nat>)
    requires Sandwiched(desired, a, b) && Sandwiched(desired, b, c)
    ensures Sandwiched(desired, a, c)
  {
  }

  /** Safety: every state a reconciliation passes through lies between the intersection and the union of
      what was there and what is wanted, and each accepted call brings it exactly one VID closer. */
  lemma ReconcileStates(desired: set<nat>, p: PortState, faults: Faults)
    ensures var r := Reconciled(desired, p, faults);
            && (forall i :: 0 <= i < |r.add.visited| ==>
                  && Sandwiched(desired, p.vids, r.add.visited[i].vids)
                  && Distance(desired, r.add.visited[i].vids) ==
                     Distance(desired, p.vids) - Min2(i + 1, Accepted(r.add)))
            && (forall i :: 0 <= i < |r.del.visited| ==>
                  && Sandwiched(desired, p.vids, r.del.visited[i].vids)
                  && Distance(desired, r.del.visited[i].vids) ==
                     Distance(desired, p.vids) - Accepted(r.add) - Min2(i + 1, Accepted(r.del)))
            && Sandwiched(desired, p.vids, r.del.port.vids)
  {
    AddWalkStates(desired, p, faults);
    var r := Reconciled(desired, p, faults);
    DelWalkStates(desired, r.add.port, faults);
    forall s | Sandwiched(desired, r.add.port.vids, s)
      ensures Sandwiched(desired, p.vids, s)
    {
      SandwichedTransitive(desired, p.vids, r.add.port.vids, s);
    }
  }

  lemma DistanceZero(desired: set<nat>, vids: set<nat>)
    ensures Distance(desired, vids) == 0 <==> ManagedOf(vids) == ManagedOf(desired)
  {
    if ManagedOf(vids) == ManagedOf(desired) {
      assert forall v :: Managed(v) ==>
               (v in vids <==> v in ManagedOf(vids)) && (v in desired <==> v in ManagedOf(desired));
      assert Missing(desired, vids) == {} && Surplus(desired, vids) == {};
    } else if Distance(desired, vids) == 0 {
      assert forall v :: v in desired && v !in vids && Managed(v) ==> v in Missing(desired, vids);
      assert forall v :: v in vids && v !in desired && Managed(v) ==> v in Surplus(desired, vids);
    }
  }

  // ----- What the kernel's answers decide -----

  /** The VIDs of a whole round, in the order in which the agent turns to them. */
  ghost function Planned(desired: set<nat>, vids: set<nat>): (r: seq<nat>)
    ensures |r| == |Sorted(Missing(desired, vids))| + |Sorted(Surplus(desired, vids))|
  {
    Sorted(Missing(desired, vids)) + Sorted(Surplus(desired, vids))
  }

  /** The kernel accepts the operations on these VIDs, if its calls are counted from the given number. */
  ghost predicate AllAccepted(vids: seq<nat>, calls: nat, faults: Faults) {
    forall k :: 0 <= k < |vids| ==> !faults(calls + k, vids[k])
  }

  /** A walk gets as far as the kernel lets it: every call before the one that it stops at is accepted, and
      that one is refused. */
  lemma {:induction false} WalkStopsAtRefusal(op: VlanOp, vids: seq<nat>, p: PortState, faults: Faults)
    requires AllManaged(vids)
    ensures var w := Walk(op, vids, p, faults);
            && 0 <= Accepted(w) <= |vids|
            && AllAccepted(vids[..Accepted(w)], p.calls, faults)
            && (Accepted(w) < |vids| ==> faults(p.calls + Accepted(w), vids[Accepted(w)]))
  {
    if vids != [] {
      var (q, ok) := Attempt(op, vids[0], p, faults);
      assert Managed(vids[0]);
      if ok {
        WalkStopsAtRefusal(op, vids[1..], q, faults);
        var a := Accepted(Walk(op, vids[1..], q, faults));
        forall k | 0 <= k < a + 1
          ensures !faults(p.calls + k, vids[k])
        {
          assert k > 0 ==> vids[1..][..a][k - 1] == vids[k] && !faults(q.calls + (k - 1), vids[1..][..a][k - 1]);
        }
      }
    }
  }

  lemma WalkSucceedsExactly(op: VlanOp, vids: seq<nat>, p: PortState, faults: Faults)
    requires AllManaged(vids)
    ensures var w := Walk(op, vids, p, faults);
            && (w.ok <==> AllAccepted(vids, p.calls, faults))
            && (w.ok ==> w.port.calls == p.calls + |vids|)
  {
    WalkStopsAtRefusal(op, vids, p, faults);
    WalkAppliesPrefix(op, vids, p, faults);
    assert vids[..|vids|] == vids;
  }

  /** Convergence: each accepted call brings the port one VID closer, and a round ends at the wanted VIDs
      exactly when the kernel accepts the calls that the round plans. */
  lemma ReconcileConverges(desired: set<nat>, p: PortState, faults: Faults)
    ensures var r := Reconciled(desired, p, faults);
            && 0 <= Accepted(r.add) && 0 <= Accepted(r.del)
            && Distance(desired, r.del.port.vids) == Distance(desired, p.vids) - Accepted(r.add) - Accepted(r.del)
            && (ManagedOf(r.del.port.vids) == ManagedOf(desired) <==>
                AllAccepted(Planned(desired, p.vids), p.calls, faults))
  {
    AddWalkStates(desired, p, faults);
    var r := Reconciled(desired, p, faults);
    DelWalkStates(desired, r.add.port, faults);
    DistanceZero(desired, r.del.port.vids);
    var missing, surplus := Sorted(Missing(desired, p.vids)), Sorted(Surplus(desired, p.vids));
    SortedPrefix(Missing(desired, p.vids), 0);
    SortedPrefix(Surplus(desired, p.vids), 0);
    WalkSucceedsExactly(AddVlan, missing, p, faults);
    WalkSucceedsExactly(DelVlan, surplus, r.add.port, faults);
    AllAcceptedParts(missing, surplus, p.calls, faults);
  }

  lemma AllAcceptedParts(a: seq<nat>, b: seq<nat>, calls: nat, faults: Faults)
    ensures AllAccepted(a + b, calls, faults) <==> AllAccepted(a, calls, faults) && AllAccepted(b, calls + |a|, faults)
  {
    if AllAccepted(a + b, calls, faults) {
      forall k | 0 <= k < |a|
        ensures !faults(calls + k, a[k])
      {
        assert (a + b)[k] == a[k];
      }
      forall k | 0 <= k < |b|
        ensures !faults(calls + |a| + k, b[k])
      {
        assert (a + b)[|a| + k] == b[k] && !faults(calls + (|a| + k), (a + b)[|a| + k]);
      }
    }
    if AllAccepted(a, calls, faults) && AllAccepted(b, calls + |a|, faults) {
      forall k | 0 <= k < |a + b|
        ensures !faults(calls + k, (a + b)[k])
      {
        assert k >= |a| ==> !faults(calls + |a| + (k - |a|), b[k - |a|]);
      }
    }
  }

  /** The port after a number of reconciliations with the same wanted set. */
  ghost function After(n: nat, desired: set<nat>, p: PortState, faults: Faults): (r: PortState)
  {
    if n == 0 then p else Reconciled(desired, After(n - 1, desired, p, faults), faults).del.port
  }

  /** The kernel accepts the first addition of a round, or the first removal, which is the second call if the
      first addition is refused. */
  ghost predicate Moves(desired: set<nat>, p: PortState, faults: Faults) {
    var missing, surplus := Sorted(Missing(desired, p.vids)), Sorted(Surplus(desired, p.vids));
    if missing == [] then surplus != [] && !faults(p.calls, surplus[0])
    else !faults(p.calls, missing[0]) || (surplus != [] && !faults(p.calls + 1, surplus[0]))
  }

  lemma MovesExactly(desired: set<nat>, p: PortState, faults: Faults)
    ensures Distance(desired, Reconciled(desired, p, faults).del.port.vids) < Distance(desired, p.vids) <==>
            Moves(desired, p, faults)
  {
    var missing, surplus := Sorted(Missing(desired, p.vids)), Sorted(Surplus(desired, p.vids));
    ReconcileConverges(desired, p, faults);
    AddWalkStates(desired, p, faults);
    var r := Reconciled(desired, p, faults);
    SortedPrefix(Missing(desired, p.vids), 0);
    SortedPrefix(Surplus(desired, p.vids), 0);
    FirstCall(AddVlan, missing, p, faults);
    FirstCall(DelVlan, surplus, r.add.port, faults);
  }

  lemma FirstCall(op: VlanOp, vids: seq<nat>, p: PortState, faults: Faults)
    requires AllManaged(vids)
    ensures var w := Walk(op, vids, p, faults);
            && (Accepted(w) > 0 <==> vids != [] && !faults(p.calls, vids[0]))
            && (vids == [] ==> w.port.calls == p.calls)
            && (vids != [] && Accepted(w) <= 0 ==> w.port.calls == p.calls + 1)
  {
    WalkStopsAtRefusal(op, vids, p, faults);
    var w := Walk(op, vids, p, faults);
    if vids != [] && Accepted(w) > 0 {
      assert vids[..Accepted(w)][0] == vids[0] && !faults(p.calls + 0, vids[..Accepted(w)][0]);
    }
  }

  /** If the kernel lets every round move, the wanted VIDs are reached within as many rounds as VIDs differ. */
  lemma {:induction false} RoundsConverge(n: nat, desired: set<nat>, p: PortState, faults: Faults)
    requires forall k: nat :: k < n ==>
               var q := After(k, desired, p, faults); Distance(desired, q.vids) == 0 || Moves(desired, q, faults)
    ensures Distance(desired, After(n, desired, p, faults).vids) <=
            Distance(desired, p.vids) - Min2(n, Distance(desired, p.vids))
    ensures Distance(desired, p.vids) <= n ==> ManagedOf(After(n, desired, p, faults).vids) == ManagedOf(desired)
  {
    if n > 0 {
      RoundsConverge(n - 1, desired, p, faults);
      var q := After(n - 1, desired, p, faults);
      MovesExactly(desired, q, faults);
      ReconcileConverges(desired, q, faults);
    }
    DistanceZero(desired, After(n, desired, p, faults).vids);
  }

  // ----- The handler -----

  /** How looking up the bridge and the bond of a cluster network ends. */
  datatype Lookup = Found | LinkNotFound | LookupFailed

  /** The kernel's answer to listing the bridge VLANs: an error, no entry for the port, or its VIDs. */
  datatype Listing = ListFailed | NoEntry | Listed(vids: seq<nat>)

  datatype Outcome = Skipped | Failed | Done

  /** Whether the handler gets as far as changing the port. */
  ghost predicate Proceeds(present: bool, deleting: bool, lookup: Lookup, nads: Option<seq<Nad>>,
                           links: Option<seq<string>>, listing: Listing) {
    && present && !deleting && lookup.Found? && nads.Some? && links.Some? && listing.Listed?
    && NoneOffends(nads.value) && AllInRange(listing.vids)
  }

  method ToVlanIDSet(listing: Listing) returns (ok: bool, r: VlanIDSet?)
    ensures ok <==> !listing.ListFailed? && (listing.Listed? ==> AllInRange(listing.vids))
    ensures ok ==> (r == null <==> listing.NoEntry?)
    ensures ok && listing.Listed? ==>
              r != null && fresh(r) && fresh(r.vidSet) && r.Valid() && r.isTrunkMode
              && r.Vids() == Elements(listing.vids) - {MIN_VLAN_ID}
  {
    if listing.ListFailed? {
      return false, null;
    }
    if listing.NoEntry? {
      return true, null;
    }
    var vis := new VlanIDSet.Trunk();
    var added := SetAll(vis, listing.vids);
    assert vis.Vids() == {} + (Elements(listing.vids) - {MIN_VLAN_ID}) || !added;
    return added, vis;
  }

  /** Sets VIDs in turn, up to the first one out of range. */
  method SetAll(vis: VlanIDSet, vids: seq<nat>) returns (ok: bool)
    requires vis.Valid() && vis.isTrunkMode
    modifies vis, vis.vidSet
    ensures vis.Valid() && vis.isTrunkMode && vis.vidSet == old(vis.vidSet)
    ensures ok <==> AllInRange(vids)
    ensures ok ==> vis.Vids() == old(vis.Vids()) + (Elements(vids) - {MIN_VLAN_ID})
  {
    var k := 0;
    while k < |vids|
      invariant 0 <= k <= |vids| && AllInRange(vids[..k])
      invariant vis.Valid() && vis.isTrunkMode && vis.vidSet == old(vis.vidSet)
      invariant vis.Vids() == WithUpTo(old(vis.Vids()), vids, k)
    {
      OneMoreVid(vids, k);
      ok := SetOneMore(vis, vids, k, old(vis.Vids()));
      if !ok {
        return;
      }
      k := k + 1;
    }
    assert vids[..k] == vids;
    WithAll(old(vis.Vids()), vids);
    ok := true;
  }

  predicate AllInRange(vids: seq<nat>) {
    forall v :: v in vids ==> InRange(v)
  }

  lemma OneMoreVid(vids: seq<nat>, k: nat)
    requires k < |vids|
    ensures AllInRange(vids[..k + 1]) <==> AllInRange(vids[..k]) && InRange(vids[k])
    ensures AllInRange(vids) ==> InRange(vids[k])
  {
    assert vids[..k + 1] == vids[..k] + [vids[k]];
  }

  method SetOneMore(vis: VlanIDSet, vids: seq<nat>, k: nat, ghost start: set<nat>) returns (ok: bool)
    requires vis.Valid() && vis.isTrunkMode && k < |vids| && vis.Vids() == WithUpTo(start, vids, k)
    modifies vis, vis.vidSet
    ensures vis.Valid() && vis.isTrunkMode && vis.vidSet == old(vis.vidSet)
    ensures ok <==> InRange(vids[k])
    ensures ok ==> vis.Vids() == WithUpTo(start, vids, k + 1)
  {
    ok := vis.SetVID(vids[k]);
  }

  /** A set of VIDs together with the first k of a list; VID 0 is not stored. */
  ghost function WithUpTo(base: set<nat>, vids: seq<nat>, k: nat): (r: set<nat>)
    requires k <= |vids|
  {
    if k == 0 then base
    else if vids[k - 1] == MIN_VLAN_ID then WithUpTo(base, vids, k - 1)
    else WithUpTo(base, vids, k - 1) + {vids[k - 1]}
  }

  lemma {:induction false} WithUpToMember(base: set<nat>, vids: seq<nat>, k: nat, v: nat)
    requires k <= |vids|
    ensures v in WithUpTo(base, vids, k) <==> v in base || (v != MIN_VLAN_ID && v in vids[..k])
  {
    if k > 0 {
      WithUpToMember(base, vids, k - 1, v);
      assert vids[..k] == vids[..k - 1] + [vids[k - 1]];
    }
  }

  lemma WithAll(base: set<nat>, vids: seq<nat>)
    ensures WithUpTo(base, vids, |vids|) == base + (Elements(vids) - {MIN_VLAN_ID})
  {
    assert vids[..|vids|] == vids;
    forall v: nat
      ensures v in WithUpTo(base, vids, |vids|) <==> v in base + (Elements(vids) - {MIN_VLAN_ID})
    {
      WithUpToMember(base, vids, |vids|, v);
    }
  }

  /** The agent's change handler of a cluster network. A failed walk is not reported: the outcome is Done
      whether or not the port has reached the wanted VIDs. */
  method OnChange(cn: string, present: bool, deleting: bool, lookup: Lookup, nads: Option<seq<Nad>>,
                  links: Option<seq<string>>, listing: Listing, port: BridgePort)
    returns (outcome: Outcome)
    requires listing.Listed? ==> Elements(listing.vids) == port.vids
    modifies port
    ensures !outcome.Done? ==> port.State() == old(port.State()) && port.history == old(port.history)
    ensures outcome.Skipped? <==> !present || deleting || lookup.LinkNotFound?
    ensures outcome.Done? <==> Proceeds(present, deleting, lookup, nads, links, listing)
    ensures outcome.Done? ==>
              var r := Reconciled(Desired(cn, nads.value, links.value), old(port.State()), port.faults);
              port.State() == r.del.port && port.history == old(port.history) + r.add.visited + r.del.visited
    // where the kernel refuses nothing, the port then has exactly the managed VIDs that something asks for
    ensures outcome.Done? && (forall k, v :: !port.faults(k, v)) ==>
              forall v: nat :: Managed(v) ==> (v in port.vids <==> AskedForBySome(cn, nads.value, links.value, v))
  {
    if !present || deleting {
      return Skipped;
    }
    match lookup {
      case LinkNotFound => return Skipped;
      case LookupFailed => return Failed;
      case Found =>
    }
    if nads.None? || links.None? {
      return Failed;
    }
    var cnVlans := WantedVlans(cn, nads.value, links.value);
    if cnVlans == null {
      return Failed;
    }
    var listed, existing := ToVlanIDSet(listing);
    if !listed {
      return Failed;
    }
    var ok, added, removed := cnVlans.Diff(existing);
    if !ok {
      return Failed;
    }
    SameDifference(cnVlans.Vids(), port.vids, existing.Vids());
    var addOk := added.WalkVIDs(AddVlan, port);
    var delOk := removed.WalkVIDs(DelVlan, port);
    UnrefusedRound(cn, nads.value, links.value, old(port.State()), port.faults);
    return Done;
  }

  lemma UnrefusedRound(cn: string, nads: seq<Nad>, links: seq<string>, p: PortState, faults: Faults)
    ensures (forall k, v :: !faults(k, v)) ==>
              forall v: nat :: Managed(v) ==>
                (v in Reconciled(Desired(cn, nads, links), p, faults).del.port.vids <==>
                 AskedForBySome(cn, nads, links, v))
  {
    var desired := Desired(cn, nads, links);
    var vids := Reconciled(desired, p, faults).del.port.vids;
    ReconcileConverges(desired, p, faults);
    if forall k, v :: !faults(k, v) {
      forall v: nat | Managed(v)
        ensures v in vids <==> AskedForBySome(cn, nads, links, v)
      {
        DesiredExactly(cn, nads, links, v);
        assert (v in vids <==> v in ManagedOf(vids)) && (v in desired <==> v in ManagedOf(desired));
      }
    }
  }

  lemma ManualVidsManaged(cn: string, links: seq<string>)
    ensures forall v :: v in ManualVids(cn, links) ==> Managed(v)
  {
    forall v | v in ManualVids(cn, links)
      ensures Managed(v)
    {
      ManualVidsMember(cn, links, v);
    }
  }

  /** Leaving VID 0 out changes neither what is missing nor what is surplus. */
  lemma SameDifference(desired: set<nat>, vids: set<nat>, vids': set<nat>)
    requires vids' == vids - {MIN_VLAN_ID}
    ensures ManagedOf(desired - vids') == ManagedOf(ManagedOf(desired - vids')) == Missing(desired, vids)
    ensures ManagedOf(vids' - desired) == ManagedOf(ManagedOf(vids' - desired)) == Surplus(desired, vids)
  {
  }

  /** The VIDs of the NADs together with those of the sub-interfaces on the host. */
  method WantedVlans(cn: string, nads: seq<Nad>, links: seq<string>) returns (r: VlanIDSet?)
    ensures r != null <==> NoneOffends(nads)
    ensures r != null ==>
              fresh(r) && fresh(r.vidSet) && r.Valid() && r.isTrunkMode && r.Vids() == Desired(cn, nads, links)
  {
    r := NewVlanIDSetFromNadList(nads);
    if r != null {
      var manualVlans := GetManuallyConfiguredVlans(cn, links);
      ManualVidsManaged(cn, links);
      var all := SetAll(r, manualVlans);
      assert Elements(manualVlans) - {MIN_VLAN_ID} == Elements(manualVlans);
    }
  }

  /** The VID of a host sub-interface that exists is on the uplink in every state of a reconciliation,
      if it was there before, for every cluster network name of at most 12 characters and no dot. */
  lemma SubInterfacePreserved(cn: string, nads: seq<Nad>, links: seq<string>, vid: nat, p: PortState, faults: Faults)
    requires |cn| <= MAX_CLUSTER_NETWORK_NAME_LEN && SPLITTER !in cn && Managed(vid)
    requires BridgeVlanDevice(GenerateBridgeName(cn), vid) in links && vid in p.vids
    ensures var r := Reconciled(Desired(cn, nads, links), p, faults);
            forall s :: s in r.add.visited + r.del.visited ==> vid in s.vids
  {
    SubInterfaceRecovered(cn, vid);
    ManualVidsMember(cn, links, vid);
    assert vid in Elements(ManualVids(cn, links));
    var desired := Desired(cn, nads, links);
    assert vid in p.vids * desired;
    ReconcileStates(desired, p, faults);
  }

  /** For any other name the device is not recognised. If nothing else asks for its VID, a reconciliation that
      meets no refusal removes it. */
  lemma SubInterfaceLost(cn: string, nads: seq<Nad>, links: seq<string>, vid: nat, p: PortState, faults: Faults)
    requires |cn| > MAX_CLUSTER_NETWORK_NAME_LEN || SPLITTER in cn
    requires Managed(vid) && vid in p.vids && vid !in NadListVids(nads)
    requires forall l :: l in links && l != BridgeVlanDevice(GenerateBridgeName(cn), vid) ==>
               ManualVid(cn, l) != Some(vid)
    requires AllAccepted(Planned(Desired(cn, nads, links), p.vids), p.calls, faults)
    ensures vid !in Reconciled(Desired(cn, nads, links), p, faults).del.port.vids
  {
    var desired := Desired(cn, nads, links);
    SubInterfaceRecovered(cn, vid);
    ManualVidsMember(cn, links, vid);
    assert vid !in desired;
    ReconcileConverges(desired, p, faults);
    assert vid !in ManagedOf(Reconciled(desired, p, faults).del.port.vids);
  }
}
