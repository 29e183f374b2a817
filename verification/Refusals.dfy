/** What a kernel that refuses VIDs, or calls, makes of repeated reconciliations. */
module Refusals {
  import opened GoStrings
  import opened VlanIds
  import opened BridgePorts
  import opened Nads
  import opened Reconcile

  // ----- A kernel that refuses a fixed set of VIDs -----

  ghost predicate Refuses(faults: Faults, refused: set<nat>) {
    forall k, v :: faults(k, v) <==> v in refused
  }

  /** The VIDs that a walk in ascending order does not get to: the refused ones and all above the least of them. */
  ghost function Stuck(todo: set<nat>, refused: set<nat>): (r: set<nat>)
    ensures r == {} <==> todo !! refused
  {
    var r := set v | v in todo && exists b :: b in todo && b in refused && b <= v;
    assert forall v :: v in todo && v in refused ==> v in r;
    r
  }

  /** What is left to do afterwards is what was stuck before. */
  ghost predicate OnlyStuckLeft(desired: set<nat>, before: set<nat>, after: set<nat>, refused: set<nat>) {
    && Missing(desired, after) == Stuck(Missing(desired, before), refused)
    && Surplus(desired, after) == Stuck(Surplus(desired, before), refused)
  }

  lemma StuckTwice(todo: set<nat>, refused: set<nat>)
    ensures Stuck(Stuck(todo, refused), refused) == Stuck(todo, refused)
  {
    var r := Stuck(todo, refused);
    forall v | v in r
      ensures v in Stuck(r, refused)
    {
      var b :| b in todo && b in refused && b <= v;
      assert b in r;
    }
  }

  lemma StaysStuck(desired: set<nat>, before: set<nat>, after: set<nat>, refused: set<nat>)
    requires OnlyStuckLeft(desired, before, after, refused)
    ensures OnlyStuckLeft(desired, after, after, refused)
  {
    StuckTwice(Missing(desired, before), refused);
    StuckTwice(Surplus(desired, before), refused);
  }

  /** Up to the first refused VID, an ascending order lists exactly those that are not stuck. */
  lemma PrefixBeforeRefusal(order: seq<nat>, a: nat, refused: set<nat>)
    requires StrictlyAscending(order) && a <= |order| && (a < |order| ==> order[a] in refused)
    requires forall j :: 0 <= j < a ==> order[j] !in refused
    ensures Elements(order[..a]) == Elements(order) - Stuck(Elements(order), refused)
  {
    forall v | v in order
      ensures v in order[..a] <==> v !in Stuck(Elements(order), refused)
    {
      var i :| 0 <= i < |order| && order[i] == v;
      if i >= a {
        assert order[a] in order && order[a] <= v;
      } else {
        assert order[..a][i] == v;
      }
    }
  }

  lemma WalkUnderRefusals(op: VlanOp, todo: set<nat>, p: PortState, faults: Faults, refused: set<nat>)
    requires todo == ManagedOf(todo) && Refuses(faults, refused)
    ensures Walk(op, Sorted(todo), p, faults).port.vids == ApplyAll(op, p.vids, todo - Stuck(todo, refused))
  {
    var order := Sorted(todo);
    SortedPrefix(todo, 0);
    WalkAppliesPrefix(op, order, p, faults);
    WalkStopsAtRefusal(op, order, p, faults);
    var a := Accepted(Walk(op, order, p, faults));
    assert forall j :: 0 <= j < a ==> order[j] == order[..a][j];
    PrefixBeforeRefusal(order, a, refused);
  }

  /** One round adds the missing VIDs below the least refused one, and removes the surplus ones likewise. */
  lemma RefusedRound(desired: set<nat>, p: PortState, faults: Faults, refused: set<nat>)
    requires Refuses(faults, refused)
    ensures var after := Reconciled(desired, p, faults).del.port.vids;
            && OnlyStuckLeft(desired, p.vids, after, refused)
            && (OnlyStuckLeft(desired, p.vids, p.vids, refused) ==> after == p.vids)
  {
    var missing, surplus := Missing(desired, p.vids), Surplus(desired, p.vids);
    WalkUnderRefusals(AddVlan, missing, p, faults, refused);
    PartialRound(desired, p.vids, Stuck(missing, refused), Stuck(surplus, refused));
    WalkUnderRefusals(DelVlan, surplus, Reconciled(desired, p, faults).add.port, faults, refused);
  }

  /** What is left to do after some of the missing VIDs were added and some of the surplus ones removed. */
  lemma PartialRound(desired: set<nat>, vids: set<nat>, notAdded: set<nat>, notRemoved: set<nat>)
    requires notAdded <= Missing(desired, vids) && notRemoved <= Surplus(desired, vids)
    ensures var middle := vids + (Missing(desired, vids) - notAdded);
            var after := middle - (Surplus(desired, vids) - notRemoved);
            && Surplus(desired, middle) == Surplus(desired, vids)
            && Missing(desired, after) == notAdded && Surplus(desired, after) == notRemoved
            && (notAdded == Missing(desired, vids) && notRemoved == Surplus(desired, vids) ==> after == vids)
  {
    var added, removed := Missing(desired, vids) - notAdded, Surplus(desired, vids) - notRemoved;
    AddProgress(desired, vids, added);
    DelProgress(desired, vids + added, removed);
    Complement(Missing(desired, vids), notAdded);
    Complement(Surplus(desired, vids), notRemoved);
  }

  lemma Complement(whole: set<nat>, part: set<nat>)
    requires part <= whole
    ensures whole - (whole - part) == part && (part == whole ==> whole - part == {})
  {
  }

  /** A round after a round has no effect. */
  lemma RefusedAgain(desired: set<nat>, before: set<nat>, q: PortState, faults: Faults, refused: set<nat>)
    requires Refuses(faults, refused) && OnlyStuckLeft(desired, before, q.vids, refused)
    ensures Reconciled(desired, q, faults).del.port.vids == q.vids
  {
    StaysStuck(desired, before, q.vids, refused);
    RefusedRound(desired, q, faults, refused);
  }

  lemma {:induction false} RefusedRounds(n: nat, desired: set<nat>, p: PortState, faults: Faults, refused: set<nat>)
    requires Refuses(faults, refused) && n > 0
    ensures OnlyStuckLeft(desired, p.vids, After(n, desired, p, faults).vids, refused)
    ensures After(n, desired, p, faults).vids == Reconciled(desired, p, faults).del.port.vids
  {
    if n == 1 {
      RefusedRound(desired, p, faults, refused);
    } else {
      RefusedRounds(n - 1, desired, p, faults, refused);
      RefusedAgain(desired, p.vids, After(n - 1, desired, p, faults), faults, refused);
    }
  }

  /** After one round or many, exactly the refused VIDs and those above them are left to do; further rounds
      change nothing; and the wanted VIDs are reached exactly when nothing that has to change is refused. */
  lemma RefusedVidsBlock(n: nat, desired: set<nat>, p: PortState, faults: Faults, refused: set<nat>)
    requires Refuses(faults, refused) && n > 0
    ensures var missing, surplus := Missing(desired, p.vids), Surplus(desired, p.vids);
            var after := After(n, desired, p, faults).vids;
            && OnlyStuckLeft(desired, p.vids, after, refused)
            && after == Reconciled(desired, p, faults).del.port.vids
            && (ManagedOf(after) == ManagedOf(desired) <==> refused !! missing && refused !! surplus)
  {
    RefusedRounds(n, desired, p, faults, refused);
    FromDifferences(desired, After(n, desired, p, faults).vids);
  }

  /** The managed VIDs of a port follow from what is missing and what is surplus. */
  lemma FromDifferences(desired: set<nat>, vids: set<nat>)
    ensures ManagedOf(vids) == ManagedOf(desired) - Missing(desired, vids) + Surplus(desired, vids)
    ensures ManagedOf(vids) == ManagedOf(desired) <==> Missing(desired, vids) == {} && Surplus(desired, vids) == {}
  {
    DistanceZero(desired, vids);
  }

  function AccessNad(name: string, vid: nat): (r: Nad)
  {
    Nad("default", name, map[], map[], false, Some(NetConf(BridgeCni, "c-br", 0, vid, [])))
  }

  const TWO_NADS := [AccessNad("ten", 10), AccessNad("twenty", 20)]

  lemma TwoNadsWanted()
    ensures Desired("c", TWO_NADS, []) == {10, 20} && NoneOffends(TWO_NADS)
  {
    var a, b := TWO_NADS[0], TWO_NADS[1];
    assert a in TWO_NADS && b in TWO_NADS && Contributes(a) && Contributes(b);
    assert 10 in ConfVids(a.config.value) && 20 in ConfVids(b.config.value);
    assert AskedFor(TWO_NADS, 10) && AskedFor(TWO_NADS, 20);
    assert NadListVids(TWO_NADS) == {10, 20};
  }

  /** Two NADs ask for VIDs 10 and 20, and the kernel always refuses 20. After any number of rounds the next handler
      is done again, whatever order the kernel lists the VIDs in, and from the first round on 10 is there and 20
      is not. */
  lemma DoneWithoutConverging(n: nat, faults: Faults, listing: seq<nat>)
    requires Refuses(faults, {20})
    requires Elements(listing) == After(n, {10, 20}, PortState({1}, 0), faults).vids
    ensures Desired("c", TWO_NADS, []) == {10, 20}
    ensures Proceeds(true, false, Lookup.Found, Some(TWO_NADS), Some([]), Listed(listing))
    ensures Elements(listing) == if n == 0 then {1} else {1, 10}
  {
    TwoNadsWanted();
    if n > 0 {
      TenWithoutTwenty(n, PortState({1}, 0), faults);
    }
    assert forall v :: v in listing ==> v in Elements(listing);
  }

  lemma TenWithoutTwenty(n: nat, p: PortState, faults: Faults)
    requires Refuses(faults, {20}) && n > 0 && p.vids == {1}
    ensures After(n, {10, 20}, p, faults).vids == {1, 10}
  {
    var desired: set<nat> := {10, 20};
    assert Missing(desired, p.vids) == desired && Surplus(desired, p.vids) == {};
    RefusedVidsBlock(n, desired, p, faults, {20});
    var after := After(n, desired, p, faults).vids;
    FromDifferences(desired, after);
    assert 20 in Stuck(desired, {20});
    assert ManagedOf(desired) == {10, 20} && Stuck(desired, {20}) == {20};
    ReconcileStates(desired, p, faults);
    assert ManagedOf(after) == {10};
    UnmanagedKept(desired, p.vids, after);
  }

  lemma UnmanagedKept(desired: set<nat>, before: set<nat>, after: set<nat>)
    requires Sandwiched(desired, before, after) && before == {1} && ManagedOf(after) == {10}
    ensures after == {1, 10}
  {
    forall v: nat
      ensures v in after <==> v in {1, 10}
    {
      assert v in ManagedOf(after) <==> v in after && Managed(v);
    }
  }

  // ----- A kernel that refuses finitely many calls -----

  ghost function Earlier(refusals: set<nat>, calls: nat): (r: set<nat>)
  {
    set k | k in refusals && k < calls
  }

  /** A round that does not converge has met a refusal. */
  lemma RefusalMet(desired: set<nat>, p: PortState, faults: Faults) returns (k: nat)
    requires ManagedOf(Reconciled(desired, p, faults).del.port.vids) != ManagedOf(desired)
    ensures p.calls <= k < Reconciled(desired, p, faults).del.port.calls && exists v :: faults(k, v)
  {
    var missing, surplus := Sorted(Missing(desired, p.vids)), Sorted(Surplus(desired, p.vids));
    var r := Reconciled(desired, p, faults);
    SortedPrefix(Missing(desired, p.vids), 0);
    SortedPrefix(Surplus(desired, p.vids), 0);
    AddWalkStates(desired, p, faults);
    DelWalkStates(desired, r.add.port, faults);
    DistanceZero(desired, r.del.port.vids);
    WalkStopsAtRefusal(AddVlan, missing, p, faults);
    WalkStopsAtRefusal(DelVlan, surplus, r.add.port, faults);
    k := if r.add.ok then r.add.port.calls + Accepted(r.del) else p.calls + Accepted(r.add);
  }

  lemma {:induction false} RefusalsUsedUp(n: nat, desired: set<nat>, p: PortState, faults: Faults, refusals: set<nat>)
    requires forall k, v :: faults(k, v) ==> k in refusals
    ensures var q := After(n, desired, p, faults);
            ManagedOf(q.vids) == ManagedOf(desired) || n <= |Earlier(refusals, q.calls)|
  {
    if n > 0 {
      RefusalsUsedUp(n - 1, desired, p, faults, refusals);
      var before, after := After(n - 1, desired, p, faults), After(n, desired, p, faults);
      if ManagedOf(after.vids) != ManagedOf(desired) {
        ReconcileConverges(desired, before, faults);
        DistanceZero(desired, before.vids);
        DistanceZero(desired, after.vids);
        var k := RefusalMet(desired, before, faults);
        CardinalityGrows(Earlier(refusals, before.calls), Earlier(refusals, after.calls), k);
      }
    }
  }

  lemma CardinalityGrows(a: set<nat>, b: set<nat>, k: nat)
    requires a <= b && k in b && k !in a
    ensures |a| < |b|
  {
    DifferenceCardinality(b, a);
    assert k in b - a;
  }

  /** Whatever calls the kernel refuses: more rounds than refused calls reach the wanted VIDs. */
  lemma RefusalsRunOut(n: nat, desired: set<nat>, p: PortState, faults: Faults, refusals: set<nat>)
    requires (forall k, v :: faults(k, v) ==> k in refusals) && n > |refusals|
    ensures ManagedOf(After(n, desired, p, faults).vids) == ManagedOf(desired)
  {
    RefusalsUsedUp(n, desired, p, faults, refusals);
    var earlier := Earlier(refusals, After(n, desired, p, faults).calls);
    DifferenceCardinality(refusals, earlier);
  }
}
