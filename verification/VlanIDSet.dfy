/** The set of VLAN IDs of a network: a bitmap with a cached count in trunk mode, one VID otherwise. */
module VlanIDSets {
  import opened GoStrings
  import opened VlanIds
  import opened BridgePorts

  newtype uint32 = x: int | 0 <= x < 0x1_0000_0000

  /** The VIDs of a bitmap. */
  ghost function Slots(bits: seq<bool>): (r: set<nat>)
  {
    set i: nat | i < |bits| && bits[i]
  }

  lemma SlotsUpdate(bits: seq<bool>, i: nat, b: bool)
    requires i < |bits|
    ensures Slots(bits[i := b]) == if b then Slots(bits) + {i} else Slots(bits) - {i}
  {
  }

  lemma SlotMember(bits: seq<bool>, i: nat)
    requires i < |bits|
    ensures i in Slots(bits) <==> bits[i]
  {
  }

  lemma SlotsUnion(a: seq<bool>, b: seq<bool>, r: seq<bool>)
    requires |a| == |b| == |r| && Storable(Slots(b))
    requires forall i :: 0 <= i < |r| ==> r[i] == (a[i] || (DEFAULT_VLAN_ID <= i <= MAX_VLAN_ID && b[i]))
    ensures Slots(r) == Slots(a) + Slots(b)
  {
    assert forall i: nat :: i < |b| && b[i] ==> i in Slots(b);
  }

  /** The first k VIDs of an order are those below i. */
  ghost predicate Divides(order: seq<nat>, k: nat, i: nat) {
    forall j :: 0 <= j < |order| ==> (order[j] < i <==> j < k)
  }

  lemma FirstManaged(order: seq<nat>)
    requires forall v :: v in order ==> Managed(v)
    ensures Divides(order, 0, DEFAULT_VLAN_ID + 1)
  {
    assert forall j :: 0 <= j < |order| ==> order[j] in order;
  }

  lemma NextInOrder(order: seq<nat>, k: nat, i: nat)
    requires StrictlyAscending(order) && k <= |order| && Divides(order, k, i)
    ensures i in order ==>
              k < |order| && order[k] == i && Divides(order, k + 1, i + 1) && order[k..][1..] == order[k + 1..]
    ensures i !in order ==> Divides(order, k, i + 1)
  {
    if i in order {
      var j :| 0 <= j < |order| && order[j] == i;
      assert k <= j && order[k] >= i;
    }
  }

  lemma AllPassed(order: seq<nat>, k: nat, i: nat)
    requires k <= |order| && Divides(order, k, i) && forall v :: v in order ==> v < i
    ensures order[k..] == []
  {
    if order != [] {
      assert order[|order| - 1] in order;
    }
  }

  /** The managed VIDs below i that one set has and the other has not. */
  ghost function DifferenceBelow(a: set<nat>, b: set<nat>, i: nat): (r: set<nat>)
  {
    set v | v in a && v !in b && DEFAULT_VLAN_ID < v < i
  }

  lemma DifferenceStep(a: set<nat>, b: set<nat>, i: nat)
    requires DEFAULT_VLAN_ID < i
    ensures i in a && i !in b ==> DifferenceBelow(a, b, i + 1) == DifferenceBelow(a, b, i) + {i}
    ensures i !in a || i in b ==> DifferenceBelow(a, b, i + 1) == DifferenceBelow(a, b, i)
  {
  }

  lemma DifferenceEnds(a: set<nat>, b: set<nat>)
    ensures DifferenceBelow(a, b, DEFAULT_VLAN_ID + 1) == {}
    ensures DifferenceBelow(a, b, MAX_VLAN_ID + 1) == ManagedOf(a - b)
  {
  }

  class VlanIDSet {
    var vlanCount: uint32
    var vidSet: array<bool>  // of length 0 where the slice is nil
    var vid: int
    var isTrunkMode: bool

    /** In trunk mode the count is the number of set slots, all of them within 1..4094. */
    ghost predicate Valid()
      reads this, vidSet
    {
      if isTrunkMode then
        vidSet.Length == VLAN_ID_COUNT && Storable(Slots(vidSet[..])) && vlanCount as int == |Slots(vidSet[..])|
      else
        vidSet.Length == 0 && vlanCount == 0 && InRange(vid)
    }

    ghost function Vids(): (r: set<nat>)
      requires Valid()
      reads this, vidSet
    {
      if isTrunkMode then Slots(vidSet[..]) else if vid == MIN_VLAN_ID then {} else {vid}
    }

    /** The VIDs a walk calls back on, in its order. */
    ghost function WalkOrder(): (r: seq<nat>)
      requires Valid()
      reads this, vidSet
    {
      Sorted(ManagedOf(Vids()))
    }

    constructor Trunk()
      ensures Valid() && fresh(vidSet) && isTrunkMode && Vids() == {}
    {
      vidSet := new bool[VLAN_ID_COUNT](_ => false);
      vlanCount, vid, isTrunkMode := 0, 0, true;
      new;
      assert Slots(vidSet[..]) == {};
    }

    constructor Single(vid: int)
      requires InRange(vid)
      ensures Valid() && fresh(vidSet) && !isTrunkMode && this.vid == vid
    {
      vidSet := new bool[0];
      vlanCount, this.vid, isTrunkMode := 0, vid, false;
    }

    method SetInRange(vid: int)
      requires Valid() && InRange(vid)
      modifies this, vidSet
      ensures Valid() && isTrunkMode == old(isTrunkMode) && vidSet == old(vidSet)
      ensures Vids() == if vid == MIN_VLAN_ID then old(Vids())
                        else if isTrunkMode then old(Vids()) + {vid} else {vid}
      ensures forall j :: 0 <= j < vidSet.Length ==> vidSet[j] == (old(vidSet[j]) || j == vid != MIN_VLAN_ID)
    {
      if vid == MIN_VLAN_ID {
        return;
      }
      if !isTrunkMode {
        this.vid := vid;
        return;
      }
      if !vidSet[vid] {
        StorableCardinality(Vids());
        SlotsUpdate(vidSet[..], vid, true);
        vidSet[vid] := true;
        assert vidSet[..] == old(vidSet[..])[vid := true];
        vlanCount := vlanCount + 1;
      } else {
        assert vid in Vids();
      }
    }

    method SetVID(vid: int) returns (ok: bool)
      requires Valid()
      modifies this, vidSet
      ensures Valid() && isTrunkMode == old(isTrunkMode) && vidSet == old(vidSet)
      ensures ok <==> InRange(vid)
      ensures Vids() == if !ok || vid == MIN_VLAN_ID then old(Vids())
                        else if isTrunkMode then old(Vids()) + {vid} else {vid}
    {
      ok := MIN_VLAN_ID <= vid <= MAX_VLAN_ID;
      if ok {
        SetInRange(vid);
      }
    }

    method UnsetVID(vid: nat)
      requires Valid() && vid < VLAN_ID_COUNT
      modifies this, vidSet
      ensures Valid() && isTrunkMode == old(isTrunkMode) && vidSet == old(vidSet)
      ensures Vids() == if isTrunkMode then old(Vids()) - {vid} else old(Vids())
    {
      if !isTrunkMode || !vidSet[vid] {
        return;
      }
      SlotsUpdate(vidSet[..], vid, false);
      assert vid in Vids();
      vidSet[vid] := false;
      assert vidSet[..] == old(vidSet[..])[vid := false];
      vlanCount := vlanCount - 1;
    }

    /** Merges another set; only a trunk-mode target can hold more than one VID. */
    method Append(other: VlanIDSet?) returns (ok: bool)
      requires Valid() && (other != null ==> other.Valid() && (other == this || other.vidSet != vidSet))
      modifies this, vidSet
      ensures Valid() && isTrunkMode == old(isTrunkMode) && vidSet == old(vidSet)
      ensures ok <==> isTrunkMode
      ensures ok && other != null ==> Vids() == old(Vids()) + old(other.Vids())
      ensures !ok || other == null ==> Vids() == old(Vids())
    {
      if !isTrunkMode {
        return false;
      }
      if other == null {
        return true;
      }
      if !other.isTrunkMode {
        ok := SetVID(other.vid);
        return;
      }
      if other.vlanCount == 0 {
        return true;
      }
      AppendSlots(other);
      ok := true;
    }

    method AppendSlots(other: VlanIDSet)
      requires Valid() && isTrunkMode && other.Valid() && other.isTrunkMode
      requires other == this || other.vidSet != vidSet
      modifies this, vidSet
      ensures Valid() && isTrunkMode && vidSet == old(vidSet)
      ensures Vids() == old(Vids()) + old(other.Vids())
    {
      var i := DEFAULT_VLAN_ID;
      while i <= MAX_VLAN_ID
        invariant DEFAULT_VLAN_ID <= i <= MAX_VLAN_ID + 1
        invariant Valid() && isTrunkMode && vidSet == old(vidSet) && other.vidSet == old(other.vidSet)
        invariant forall j :: 0 <= j < VLAN_ID_COUNT ==> other.vidSet[j] == old(other.vidSet[j])
        invariant forall j :: 0 <= j < VLAN_ID_COUNT ==>
                    vidSet[j] == (old(vidSet[j]) || (DEFAULT_VLAN_ID <= j < i && old(other.vidSet[j])))
      {
        if other.vidSet[i] {
          SetInRange(i);
        }
        i := i + 1;
      }
      SlotsUnion(old(vidSet[..]), old(other.vidSet[..]), vidSet[..]);
    }

    /** Prints the VIDs; the write into the result array is always in bounds. */
    method VidSetToString() returns (s: string)
      requires Valid()
      ensures s == Printed(Vids())
    {
      if !isTrunkMode {
        if vid == MIN_VLAN_ID {
          SortedSmall(0);
          return "";
        }
        SortedSmall(vid);
        return Itoa(vid);
      }
      ghost var done;
      s, done := PrintSlots();
      AscendingIsSorted(done);
    }

    method PrintSlots() returns (s: string, ghost done: seq<nat>)
      requires Valid() && isTrunkMode
      ensures StrictlyAscending(done) && Elements(done) == Vids()
      ensures s == Join(Itoas(done), ',')
    {
      var target := new string[vlanCount as int](_ => "");
      var k, i := 0, DEFAULT_VLAN_ID;
      ghost var vids := Vids();
      done := [];
      BelowEnds(vids);
      while i <= MAX_VLAN_ID
        invariant DEFAULT_VLAN_ID <= i <= MAX_VLAN_ID + 1
        invariant StrictlyAscending(done) && k == |done| <= target.Length
        invariant Elements(done) == Below(vids, i)
        invariant target[..k] == Itoas(done)
      {
        BelowStep(vids, i);
        if vidSet[i] {
          ExtendAscending(done, i, vids);
          target[k] := Itoa(i);
          k := k + 1;
          done := done + [i];
          assert target[..k] == target[..k - 1] + [Itoa(i)] == Itoas(done);
        }
        i := i + 1;
      }
      AscendingCardinality(done);
      assert target[..k] == target[..];
      s := Join(target[..], ',');
    }

    method GetVlanCount() returns (n: uint32)
      requires Valid()
      ensures n as int == |Vids()|
    {
      if isTrunkMode {
        return vlanCount;
      }
      n := if vid > MIN_VLAN_ID then 1 else 0;
    }

    /** Splits the difference to an existing set into VIDs to add and VIDs to remove. */
    method Diff(existing: VlanIDSet?) returns (ok: bool, added: VlanIDSet?, removed: VlanIDSet?)
      requires Valid() && (existing != null ==> existing.Valid())
      ensures ok <==> existing != null && isTrunkMode && existing.isTrunkMode
      ensures !ok ==> added == null && removed == null
      ensures ok ==> added != null && removed != null && fresh(added) && fresh(removed)
                     && added.Valid() && removed.Valid() && added.isTrunkMode && removed.isTrunkMode
      ensures ok ==> added.Vids() == ManagedOf(Vids() - existing.Vids())
      ensures ok ==> removed.Vids() == ManagedOf(existing.Vids() - Vids())
    {
      added, removed := null, null;
      if existing == null || !isTrunkMode || !existing.isTrunkMode {
        return false, null, null;
      }
      var toAdd := new VlanIDSet.Trunk();
      var toRemove := new VlanIDSet.Trunk();
      DiffSlots(existing, toAdd, toRemove);
      return true, toAdd, toRemove;
    }

    /** Both in trunk mode, and a change to one does not show in the other. */
    ghost predicate Apart(other: VlanIDSet)
      reads this, vidSet, other, other.vidSet
    {
      Valid() && isTrunkMode && other.Valid() && other.isTrunkMode && this != other && vidSet != other.vidSet
    }

    method DiffSlots(existing: VlanIDSet, toAdd: VlanIDSet, toRemove: VlanIDSet)
      requires Valid() && isTrunkMode && existing.Valid() && existing.isTrunkMode
      requires Apart(toAdd) && Apart(toRemove) && toAdd.Apart(toRemove)
      requires existing.Apart(toAdd) && existing.Apart(toRemove)
      requires toAdd.Vids() == {} && toRemove.Vids() == {}
      modifies toAdd, toAdd.vidSet, toRemove, toRemove.vidSet
      ensures toAdd.Valid() && toAdd.isTrunkMode && toAdd.Vids() == ManagedOf(Vids() - existing.Vids())
      ensures toRemove.Valid() && toRemove.isTrunkMode && toRemove.Vids() == ManagedOf(existing.Vids() - Vids())
    {
      ghost var mine, theirs := Vids(), existing.Vids();
      DifferenceEnds(mine, theirs);
      DifferenceEnds(theirs, mine);
      var i := DEFAULT_VLAN_ID + 1;
      while i <= MAX_VLAN_ID
        invariant DEFAULT_VLAN_ID < i <= MAX_VLAN_ID + 1
        invariant toAdd.vidSet == old(toAdd.vidSet) && toRemove.vidSet == old(toRemove.vidSet)
        invariant toAdd.Apart(toRemove)
        invariant toAdd.Vids() == DifferenceBelow(mine, theirs, i)
        invariant toRemove.Vids() == DifferenceBelow(theirs, mine, i)
      {
        DiffSlot(existing, toAdd, toRemove, i);
        SlotMember(vidSet[..], i);
        SlotMember(existing.vidSet[..], i);
        DifferenceStep(mine, theirs, i);
        DifferenceStep(theirs, mine, i);
        i := i + 1;
      }
    }

    /** Compares one slot. */
    method DiffSlot(existing: VlanIDSet, toAdd: VlanIDSet, toRemove: VlanIDSet, i: nat)
      requires Valid() && isTrunkMode && existing.Valid() && existing.isTrunkMode && DEFAULT_VLAN_ID < i <= MAX_VLAN_ID
      requires Apart(toAdd) && Apart(toRemove) && toAdd.Apart(toRemove)
      requires existing.Apart(toAdd) && existing.Apart(toRemove)
      modifies toAdd, toAdd.vidSet, toRemove, toRemove.vidSet
      ensures toAdd.vidSet == old(toAdd.vidSet) && toRemove.vidSet == old(toRemove.vidSet) && toAdd.Apart(toRemove)
      ensures vidSet[i] && !existing.vidSet[i] ==> toAdd.Vids() == old(toAdd.Vids()) + {i}
      ensures !(vidSet[i] && !existing.vidSet[i]) ==> toAdd.Vids() == old(toAdd.Vids())
      ensures existing.vidSet[i] && !vidSet[i] ==> toRemove.Vids() == old(toRemove.Vids()) + {i}
      ensures !(existing.vidSet[i] && !vidSet[i]) ==> toRemove.Vids() == old(toRemove.Vids())
    {
      if vidSet[i] != existing.vidSet[i] {
        if vidSet[i] {
          toAdd.SetInRange(i);
        } else {
          toRemove.SetInRange(i);
        }
      }
    }

    /** Calls back on every VID in 2..4094 in ascending order, up to the first failure. */
    method WalkVIDs(op: VlanOp, port: BridgePort) returns (ok: bool)
      requires Valid()
      modifies port
      ensures var r := Walk(op, WalkOrder(), old(port.State()), port.faults);
              port.State() == r.port && ok == r.ok && port.history == old(port.history) + r.visited
    {
      if !isTrunkMode {
        if vid <= DEFAULT_VLAN_ID {
          SortedSmall(0);
          assert ManagedOf(Vids()) == {};
          return true;
        }
        SortedSmall(vid);
        assert ManagedOf(Vids()) == {vid};
        ok := port.Apply(op, vid);
        return;
      }
      ghost var order := WalkOrder();
      assert forall v :: v in order <==> v in Elements(order);
      if vlanCount == 0 {
        SortedSmall(0);
        assert Vids() == {} && ManagedOf(Vids()) == {};
        return true;
      }
      ok := WalkSlots(op, port, order);
    }

    method WalkSlots(op: VlanOp, port: BridgePort, ghost order: seq<nat>) returns (ok: bool)
      requires isTrunkMode && vidSet.Length == VLAN_ID_COUNT
      requires StrictlyAscending(order)
      requires forall v: nat :: v in order <==> Managed(v) && vidSet[v]
      modifies port
      ensures var r := Walk(op, order, old(port.State()), port.faults);
              port.State() == r.port && ok == r.ok && port.history == old(port.history) + r.visited
    {
      ghost var k, whole := 0, Walk(op, order, port.State(), port.faults);
      assert order[0..] == order;
      FirstManaged(order);
      var i: nat := DEFAULT_VLAN_ID + 1;
      while i <= MAX_VLAN_ID
        invariant DEFAULT_VLAN_ID < i <= MAX_VLAN_ID + 1 && k <= |order| && Divides(order, k, i)
        invariant Continues(op, whole, old(port.history), order[k..], port.State(), port.faults, port.history)
      {
        NextInOrder(order, k, i);
        if vidSet[i] {
          ContinueStep(op, whole, old(port.history), order[k..], port.State(), port.faults, port.history);
          var applied := port.Apply(op, i);
          if !applied {
            return false;
          }
          k := k + 1;
        }
        i := i + 1;
      }
      AllPassed(order, k, i);
      ok := true;
    }

    /** Changes the representation and nothing that a caller can observe. */
    method ConvertToTrunkMode()
      requires Valid()
      modifies this, vidSet
      ensures Valid() && isTrunkMode && Vids() == old(Vids()) && WalkOrder() == old(WalkOrder())
      ensures vidSet == old(vidSet) || fresh(vidSet)
    {
      if isTrunkMode {
        return;
      }
      vidSet := new bool[VLAN_ID_COUNT](_ => false);
      isTrunkMode := true;
      assert Slots(vidSet[..]) == {};
      SetInRange(vid);
    }
  }

  method NewFromSingleVID(vid: int) returns (r: VlanIDSet?)
    ensures r != null <==> InRange(vid)
    ensures r != null ==> fresh(r) && fresh(r.vidSet) && r.Valid() && !r.isTrunkMode
                          && r.Vids() == if vid == MIN_VLAN_ID then {} else {vid}
  {
    if MIN_VLAN_ID <= vid <= MAX_VLAN_ID {
      r := new VlanIDSet.Single(MIN_VLAN_ID);
      r.SetInRange(vid);
    } else {
      r := null;
    }
  }
}
