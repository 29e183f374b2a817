/** Network attachment definitions: their VLAN configuration and the VID set that a list of them asks for. */
module Nads {
  import opened GoStrings
  import opened VlanIds
  import opened VlanIDSets

  const MIN_TRUNK_VLAN_ID := 1

  /** One trunk entry; the JSON fields may each be missing. */
  datatype VlanTrunk = VlanTrunk(minID: Option<int>, maxID: Option<int>, id: Option<int>)

  datatype CniType = BridgeCni | DefaultCni | KubeOvnCni | OtherCni(name: string)

  datatype NetConf = NetConf(cniType: CniType, brName: string, mtu: int, vlan: int, vlanTrunk: seq<VlanTrunk>)

  /** A NAD with its decoded configuration, None where the JSON text does not decode. */
  datatype Nad = Nad(namespace: string, name: string, labels: map<string, string>, annotations: map<string, string>,
                     deleting: bool, config: Option<NetConf>)

  predicate InTrunkRange(vid: int) {
    MIN_TRUNK_VLAN_ID <= vid <= MAX_VLAN_ID
  }

  predicate IsTrunkValid(item: VlanTrunk) {
    && (item.minID.Some? <==> item.maxID.Some?)
    && (item.minID.Some? && item.maxID.Some? ==>
          InTrunkRange(item.minID.value) && InTrunkRange(item.maxID.value) && item.minID.value <= item.maxID.value)
    && (item.id.Some? ==> InTrunkRange(item.id.value))
    && (item.id.Some? || item.minID.Some?)
  }

  predicate IsVlanConfigValid(nc: NetConf) {
    && InRange(nc.vlan)
    && (nc.vlan != 0 ==> nc.vlanTrunk == [])
    && forall vt :: vt in nc.vlanTrunk ==> IsTrunkValid(vt)
  }

  predicate IsVlanAccessMode(nc: NetConf) {
    nc.vlanTrunk == []
  }

  predicate IsBridgeCNI(nc: NetConf) {
    nc.cniType.BridgeCni? || nc.cniType.DefaultCni?
  }

  function GetVlanID(nc: NetConf): (r: int)
  {
    if IsVlanAccessMode(nc) then nc.vlan else 0
  }

  /** A trunk entry names a VID by its own ID or by its range. */
  predicate TrunkNames(vt: VlanTrunk, vid: int) {
    vt.id == Some(vid) || TrunkNamesByRange(vt, vid)
  }

  predicate TrunkNamesByRange(vt: VlanTrunk, vid: int) {
    vt.minID.Some? && vt.maxID.Some? && vt.minID.value <= vid <= vt.maxID.value
  }

  /** The configuration names a VID, in access mode or on one of its trunk entries. */
  predicate Names(nc: NetConf, vid: int) {
    if IsVlanAccessMode(nc) then nc.vlan == vid else exists vt :: vt in nc.vlanTrunk && TrunkNames(vt, vid)
  }

  /** Building the VID set fails exactly where a named VID is out of range. */
  ghost predicate Dumpable(nc: NetConf) {
    forall vid :: Names(nc, vid) ==> InRange(vid)
  }

  /** The VIDs of a configuration; VID 0 stands for untagged traffic and is not one of them. */
  ghost function ConfVids(nc: NetConf): (r: set<nat>)
    ensures Storable(r)
  {
    set v: nat | MIN_VLAN_ID < v <= MAX_VLAN_ID && Names(nc, v)
  }

  /** Which configurations are valid: an access VLAN within 0..4094, or trunk ranges and IDs within 1..4094. */
  lemma ValidExactly(nc: NetConf, lo: int, hi: int)
    ensures nc.vlanTrunk == [] ==> (IsVlanConfigValid(nc) <==> 0 <= nc.vlan <= 4094)
    ensures nc.vlanTrunk == [VlanTrunk(Some(lo), Some(hi), None)] ==>
              (IsVlanConfigValid(nc) <==> nc.vlan == 0 && 1 <= lo <= hi <= 4094)
    ensures nc.vlanTrunk == [VlanTrunk(None, None, Some(lo))] ==>
              (IsVlanConfigValid(nc) <==> nc.vlan == 0 && 1 <= lo <= 4094)
  {
    if |nc.vlanTrunk| == 1 {
      assert nc.vlanTrunk[0] in nc.vlanTrunk && forall vt :: vt in nc.vlanTrunk ==> vt == nc.vlanTrunk[0];
    }
  }

  lemma ValidIsDumpable(nc: NetConf)
    requires IsVlanConfigValid(nc)
    ensures Dumpable(nc)
  {
  }

  ghost function TrunkVids(vt: VlanTrunk): (r: set<nat>)
    ensures Storable(r)
  {
    set v: nat | MIN_VLAN_ID < v <= MAX_VLAN_ID && TrunkNames(vt, v)
  }

  ghost predicate TrunkInRange(vt: VlanTrunk) {
    forall vid :: TrunkNames(vt, vid) ==> InRange(vid)
  }

  ghost function RangeVids(lo: int, hi: int): (r: set<nat>)
    ensures Storable(r)
  {
    set v: nat | MIN_VLAN_ID < v <= MAX_VLAN_ID && Between(lo, v, hi)
  }

  predicate Between(lo: int, v: int, hi: int) {
    lo <= v <= hi
  }

  lemma RangeStep(base: set<nat>, lo: int, i: int)
    requires lo <= i && InRange(i)
    ensures i == MIN_VLAN_ID ==> base + RangeVids(lo, i) == base + RangeVids(lo, i - 1)
    ensures i != MIN_VLAN_ID ==> base + RangeVids(lo, i) == base + RangeVids(lo, i - 1) + {i}
  {
    assert i != MIN_VLAN_ID ==> i in RangeVids(lo, i);
    assert forall v :: Between(lo, v, i) <==> Between(lo, v, i - 1) || v == i;
  }

  lemma RangeEmpty(base: set<nat>, lo: int, hi: int)
    requires hi < lo
    ensures base + RangeVids(lo, hi) == base
  {
  }

  method SetRange(vis: VlanIDSet, lo: int, hi: int) returns (ok: bool)
    requires vis.Valid() && vis.isTrunkMode
    modifies vis, vis.vidSet
    ensures vis.Valid() && vis.isTrunkMode && vis.vidSet == old(vis.vidSet)
    ensures ok <==> lo > hi || (InRange(lo) && InRange(hi))
    ensures ok ==> vis.Vids() == old(vis.Vids()) + RangeVids(lo, hi)
  {
    var i := lo;
    RangeEmpty(vis.Vids(), lo, lo - 1);
    while i <= hi
      invariant lo <= i && (i == lo || i <= hi + 1)
      invariant vis.Valid() && vis.isTrunkMode && vis.vidSet == old(vis.vidSet)
      invariant lo < i ==> InRange(lo) && InRange(i - 1)
      invariant vis.Vids() == old(vis.Vids()) + RangeVids(lo, i - 1)
    {
      ok := SetNext(vis, lo, i, old(vis.Vids()));
      if !ok {
        return;
      }
      i := i + 1;
    }
    if hi < lo {
      RangeEmpty(old(vis.Vids()), lo, hi);
    }
    ok := true;
  }

  /** Sets the next VID of a range. */
  method SetNext(vis: VlanIDSet, lo: int, i: int, ghost start: set<nat>) returns (ok: bool)
    requires vis.Valid() && vis.isTrunkMode && lo <= i && vis.Vids() == start + RangeVids(lo, i - 1)
    modifies vis, vis.vidSet
    ensures vis.Valid() && vis.isTrunkMode && vis.vidSet == old(vis.vidSet)
    ensures ok <==> InRange(i)
    ensures ok ==> vis.Vids() == start + RangeVids(lo, i)
  {
    ok := vis.SetVID(i);
    if ok {
      RangeStep(start, lo, i);
    }
  }

  method SetTrunk(vis: VlanIDSet, vt: VlanTrunk) returns (ok: bool)
    requires vis.Valid() && vis.isTrunkMode
    modifies vis, vis.vidSet
    ensures vis.Valid() && vis.isTrunkMode && vis.vidSet == old(vis.vidSet)
    ensures ok <==> TrunkInRange(vt)
    ensures ok ==> vis.Vids() == old(vis.Vids()) + TrunkVids(vt)
  {
    TrunkParts(vt, vis.Vids());
    if vt.id.Some? {
      ok := vis.SetVID(vt.id.value);
      if !ok {
        return;
      }
    }
    if vt.minID.Some? && vt.maxID.Some? {
      ok := SetRange(vis, vt.minID.value, vt.maxID.value);
      return;
    }
    ok := true;
  }

  ghost function IdVids(vt: VlanTrunk): (r: set<nat>)
  {
    if vt.id.Some? && vt.id.value > MIN_VLAN_ID then {vt.id.value} else {}
  }

  /** A trunk entry is its single ID and its range. */
  lemma TrunkParts(vt: VlanTrunk, base: set<nat>)
    ensures TrunkInRange(vt) <==>
            && (vt.id.Some? ==> InRange(vt.id.value))
            && (vt.minID.Some? && vt.maxID.Some? ==>
                  vt.minID.value > vt.maxID.value || (InRange(vt.minID.value) && InRange(vt.maxID.value)))
    ensures base + IdVids(vt) == if vt.id.Some? && vt.id.value > MIN_VLAN_ID then base + {vt.id.value} else base
    ensures TrunkInRange(vt) ==>
              base + TrunkVids(vt) == if vt.minID.Some? && vt.maxID.Some?
                                      then base + IdVids(vt) + RangeVids(vt.minID.value, vt.maxID.value)
                                      else base + IdVids(vt)
  {
    if vt.id.Some? {
      assert TrunkNames(vt, vt.id.value);
    }
    if vt.minID.Some? && vt.maxID.Some? && vt.minID.value <= vt.maxID.value {
      assert TrunkNames(vt, vt.minID.value) && TrunkNames(vt, vt.maxID.value);
    }
  }

  /** Builds the VID set of one configuration. */
  method DumpVlanIDSet(nc: NetConf) returns (r: VlanIDSet?)
    ensures r != null <==> Dumpable(nc)
    ensures r != null ==> fresh(r) && fresh(r.vidSet) && r.Valid() && r.Vids() == ConfVids(nc)
  {
    if IsVlanAccessMode(nc) {
      AccessConf(nc);
      r := NewFromSingleVID(nc.vlan);
    } else {
      TrunkConf(nc);
      r := DumpTrunks(nc.vlanTrunk);
    }
  }

  method DumpTrunks(trunks: seq<VlanTrunk>) returns (r: VlanIDSet?)
    ensures r != null <==> forall vt :: vt in trunks ==> TrunkInRange(vt)
    ensures r != null ==> fresh(r) && fresh(r.vidSet) && r.Valid() && r.Vids() == TrunksUpTo(trunks, |trunks|)
  {
    var vis := new VlanIDSet.Trunk();
    var ok := SetTrunks(vis, trunks);
    r := if ok then vis else null;
  }

  method SetTrunks(vis: VlanIDSet, trunks: seq<VlanTrunk>) returns (ok: bool)
    requires vis.Valid() && vis.isTrunkMode && vis.Vids() == {}
    modifies vis, vis.vidSet
    ensures vis.Valid() && vis.isTrunkMode && vis.vidSet == old(vis.vidSet)
    ensures ok <==> forall vt :: vt in trunks ==> TrunkInRange(vt)
    ensures ok ==> vis.Vids() == TrunksUpTo(trunks, |trunks|)
  {
    var k := 0;
    while k < |trunks|
      invariant 0 <= k <= |trunks|
      invariant vis.Valid() && vis.isTrunkMode && vis.vidSet == old(vis.vidSet)
      invariant forall j :: 0 <= j < k ==> TrunkInRange(trunks[j])
      invariant vis.Vids() == TrunksUpTo(trunks, k)
    {
      assert trunks[k] in trunks;
      assert TrunksUpTo(trunks, k + 1) == vis.Vids() + TrunkVids(trunks[k]);
      ok := SetTrunk(vis, trunks[k]);
      if !ok {
        return;
      }
      k := k + 1;
    }
    ok := true;
  }

  ghost function TrunksUpTo(trunks: seq<VlanTrunk>, k: nat): (r: set<nat>)
    requires k <= |trunks|
  {
    if k == 0 then {} else TrunksUpTo(trunks, k - 1) + TrunkVids(trunks[k - 1])
  }

  lemma {:induction false} TrunksUpToMember(trunks: seq<VlanTrunk>, k: nat, v: nat)
    requires k <= |trunks|
    ensures v in TrunksUpTo(trunks, k) <==> exists vt :: vt in trunks[..k] && v in TrunkVids(vt)
  {
    if k > 0 {
      TrunksUpToMember(trunks, k - 1, v);
      assert forall vt :: vt in trunks[..k] <==> vt in trunks[..k - 1] || vt == trunks[k - 1];
    }
  }

  lemma TrunkConf(nc: NetConf)
    requires !IsVlanAccessMode(nc)
    ensures TrunksUpTo(nc.vlanTrunk, |nc.vlanTrunk|) == ConfVids(nc)
    ensures Dumpable(nc) <==> forall vt :: vt in nc.vlanTrunk ==> TrunkInRange(vt)
  {
    forall v: nat
      ensures v in TrunksUpTo(nc.vlanTrunk, |nc.vlanTrunk|) <==> v in ConfVids(nc)
    {
      TrunksUpToMember(nc.vlanTrunk, |nc.vlanTrunk|, v);
      assert nc.vlanTrunk[..|nc.vlanTrunk|] == nc.vlanTrunk;
    }
    if Dumpable(nc) {
      forall vt, vid | vt in nc.vlanTrunk && TrunkNames(vt, vid)
        ensures InRange(vid)
      {
        assert Names(nc, vid);
      }
    }
  }

  lemma AccessConf(nc: NetConf)
    requires IsVlanAccessMode(nc)
    ensures Dumpable(nc) <==> InRange(nc.vlan)
    ensures InRange(nc.vlan) ==> ConfVids(nc) == if nc.vlan == MIN_VLAN_ID then {} else {nc.vlan}
  {
    assert Names(nc, nc.vlan);
  }

  /** The NADs that count: live, decodable and of the bridge CNI. */
  ghost predicate Contributes(nad: Nad) {
    !nad.deleting && nad.config.Some? && IsBridgeCNI(nad.config.value)
  }

  /** What makes the whole list fail: a live NAD that does not decode, or names a VID out of range. */
  ghost predicate Offends(nad: Nad) {
    !nad.deleting && (nad.config.None? || (IsBridgeCNI(nad.config.value) && !Dumpable(nad.config.value)))
  }

  ghost predicate AskedFor(nads: seq<Nad>, v: nat) {
    exists nad :: nad in nads && Contributes(nad) && v in ConfVids(nad.config.value)
  }

  /** The union of the VIDs of the contributing NADs. */
  ghost function NadListVids(nads: seq<Nad>): (r: set<nat>)
    ensures Storable(r)
  {
    set v: nat | MIN_VLAN_ID < v <= MAX_VLAN_ID && AskedFor(nads, v)
  }

  ghost function NadVids(nad: Nad): (r: set<nat>)
  {
    if Contributes(nad) then ConfVids(nad.config.value) else {}
  }

  /** A NAD that is being deleted or belongs to another CNI asks for nothing and spoils nothing; a live one that does
      not decode spoils the list. */
  lemma OtherNads(nad: Nad, conf: NetConf)
    ensures nad.deleting || nad.config == Some(conf.(cniType := KubeOvnCni)) ==>
              NoneOffends([nad]) && NadListVids([nad]) == {}
    ensures !nad.deleting && nad.config.None? ==> !NoneOffends([nad])
  {
    var nads := [nad];
    assert nads[0] in nads;
    if nad.deleting || nad.config == Some(conf.(cniType := KubeOvnCni)) {
      assert forall v :: !AskedFor(nads, v);
    }
  }

  /** A live NAD without a CNI type counts as a bridge NAD, and asks for the VIDs of its trunk entries, ranges with
      both ends included. */
  lemma UntypedTrunkNad(nad: Nad, conf: NetConf)
    requires !nad.deleting && nad.config == Some(conf) && conf.cniType == DefaultCni
    requires conf.vlanTrunk == [VlanTrunk(Some(5), Some(7), None), VlanTrunk(None, None, Some(9))]
    ensures NadListVids([nad]) == {5, 6, 7, 9}
  {
    var nads := [nad];
    assert nad in nads && Contributes(nad);
    forall v: nat | MIN_VLAN_ID < v <= MAX_VLAN_ID
      ensures AskedFor(nads, v) <==> v in {5, 6, 7, 9}
    {
      var one, two := conf.vlanTrunk[0], conf.vlanTrunk[1];
      assert one in conf.vlanTrunk && two in conf.vlanTrunk;
      assert Names(conf, v) <==> TrunkNames(one, v) || TrunkNames(two, v);
      assert v in ConfVids(conf) <==> Names(conf, v);
    }
  }

  method AppendNad(vis: VlanIDSet, nad: Nad) returns (ok: bool)
    requires vis.Valid() && vis.isTrunkMode
    modifies vis, vis.vidSet
    ensures vis.Valid() && vis.isTrunkMode && vis.vidSet == old(vis.vidSet)
    ensures ok <==> !Offends(nad)
    ensures ok ==> vis.Vids() == old(vis.Vids()) + NadVids(nad)
  {
    if nad.deleting {
      return true;
    }
    if nad.config.None? {
      return false;
    }
    if !IsBridgeCNI(nad.config.value) {
      return true;
    }
    var one := DumpVlanIDSet(nad.config.value);
    if one == null {
      return false;
    }
    ok := vis.Append(one);
  }

  method NewVlanIDSetFromNadList(nads: seq<Nad>) returns (r: VlanIDSet?)
    ensures r != null <==> NoneOffends(nads)
    ensures r != null ==> fresh(r) && fresh(r.vidSet) && r.Valid() && r.isTrunkMode && r.Vids() == NadListVids(nads)
  {
    var vis := new VlanIDSet.Trunk();
    var ok := AppendNads(vis, nads);
    UnionMember(nads);
    r := if ok then vis else null;
  }

  method AppendNads(vis: VlanIDSet, nads: seq<Nad>) returns (ok: bool)
    requires vis.Valid() && vis.isTrunkMode && vis.Vids() == {}
    modifies vis, vis.vidSet
    ensures vis.Valid() && vis.isTrunkMode && vis.vidSet == old(vis.vidSet)
    ensures ok <==> NoneOffends(nads)
    ensures ok ==> vis.Vids() == UnionUpTo(nads, |nads|)
  {
    var k := 0;
    while k < |nads|
      invariant 0 <= k <= |nads|
      invariant vis.Valid() && vis.isTrunkMode && vis.vidSet == old(vis.vidSet)
      invariant NoneOffends(nads[..k]) && vis.Vids() == UnionUpTo(nads, k)
    {
      OneMoreNad(nads, k);
      ok := AppendNad(vis, nads[k]);
      if !ok {
        return;
      }
      k := k + 1;
    }
    assert nads[..k] == nads;
    ok := true;
  }

  ghost predicate NoneOffends(nads: seq<Nad>) {
    forall nad :: nad in nads ==> !Offends(nad)
  }

  lemma OneMoreNad(nads: seq<Nad>, k: nat)
    requires k < |nads|
    ensures NoneOffends(nads[..k + 1]) <==> NoneOffends(nads[..k]) && !Offends(nads[k])
    ensures NoneOffends(nads) ==> !Offends(nads[k])
    ensures UnionUpTo(nads, k + 1) == UnionUpTo(nads, k) + NadVids(nads[k])
  {
    assert nads[..k + 1] == nads[..k] + [nads[k]];
  }

  ghost function UnionUpTo(nads: seq<Nad>, k: nat): (r: set<nat>)
    requires k <= |nads|
  {
    if k == 0 then {} else UnionUpTo(nads, k - 1) + NadVids(nads[k - 1])
  }

  lemma {:induction false} UnionUpToMember(nads: seq<Nad>, k: nat, v: nat)
    requires k <= |nads|
    ensures v in UnionUpTo(nads, k) <==> exists j :: 0 <= j < k && v in NadVids(nads[j])
  {
    if k > 0 {
      UnionUpToMember(nads, k - 1, v);
    }
  }

  lemma UnionMember(nads: seq<Nad>)
    ensures UnionUpTo(nads, |nads|) == NadListVids(nads)
  {
    forall v: nat
      ensures v in UnionUpTo(nads, |nads|) <==> v in NadListVids(nads)
    {
      UnionUpToMember(nads, |nads|, v);
      if AskedFor(nads, v) {
        var nad :| nad in nads && Contributes(nad) && v in ConfVids(nad.config.value);
        var j :| 0 <= j < |nads| && nads[j] == nad;
        assert v in NadVids(nads[j]);
      }
    }
  }

  /** Neither the order of the list nor repetitions in it matter, for the result or for failure. */
  lemma NadListOrderIrrelevant(a: seq<Nad>, b: seq<Nad>)
    requires forall nad :: nad in a <==> nad in b
    ensures NadListVids(a) == NadListVids(b)
    ensures NoneOffends(a) <==> NoneOffends(b)
  {
    forall v: nat
      ensures AskedFor(a, v) <==> AskedFor(b, v)
    {
    }
  }

  /** A list whose live members decode and pass the admission check never fails. */
  lemma ValidListSucceeds(nads: seq<Nad>)
    requires forall nad :: nad in nads && !nad.deleting ==>
               nad.config.Some? && (IsBridgeCNI(nad.config.value) ==> IsVlanConfigValid(nad.config.value))
    ensures forall nad :: nad in nads ==> !Offends(nad)
  {
    forall nad | nad in nads
      ensures !Offends(nad)
    {
      if !nad.deleting && IsBridgeCNI(nad.config.value) {
        ValidIsDumpable(nad.config.value);
      }
    }
  }

  method HasTrunkVlanID(nc: NetConf, target: int) returns (found: bool)
    ensures found <==> exists vt :: vt in nc.vlanTrunk && TrunkNames(vt, target)
  {
    var k := 0;
    while k < |nc.vlanTrunk|
      invariant 0 <= k <= |nc.vlanTrunk|
      invariant forall j :: 0 <= j < k ==> !TrunkNames(nc.vlanTrunk[j], target)
    {
      var vt := nc.vlanTrunk[k];
      if (vt.id.Some? && vt.id.value == target) ||
         (vt.minID.Some? && vt.maxID.Some? && target >= vt.minID.value && target <= vt.maxID.value) {
        assert vt in nc.vlanTrunk && TrunkNames(vt, target);
        return true;
      }
      k := k + 1;
    }
    found := false;
  }

  /** The overlap check against the storage network is membership in the dumped set, except that an
      untagged or trunk storage network overlaps with every NAD whose own access VLAN is 0. */
  method IsVlanOverlapping(nadConf: NetConf, snNadConf: NetConf) returns (overlap: bool)
    ensures IsVlanConfigValid(nadConf) && InRange(GetVlanID(snNadConf)) ==>
              (overlap <==> if GetVlanID(snNadConf) == 0 then GetVlanID(nadConf) == 0
                            else GetVlanID(snNadConf) in ConfVids(nadConf))
    ensures overlap <==> (exists vt :: vt in nadConf.vlanTrunk && TrunkNames(vt, GetVlanID(snNadConf)))
                         || GetVlanID(snNadConf) == GetVlanID(nadConf)
  {
    var trunked := HasTrunkVlanID(nadConf, GetVlanID(snNadConf));
    overlap := trunked || GetVlanID(snNadConf) == GetVlanID(nadConf);
  }
}
