/** The VID set that the manager records in a cluster network's annotations. */
module VlanAnnotations {
  import opened GoStrings
  import opened VlanIds
  import opened VlanIDSets
  import opened Nads

  const KEY_VLAN_ID_SET_STR := "network.harvesterhci.io/vlan-id-set-str"
  const KEY_VLAN_ID_SET_STR_HASH := "network.harvesterhci.io/vlan-id-set-str-hash"

  type Annotations = map<string, string>

  /** SHA-256 in hexadecimal; only that it is a function matters. */
  type Digest = string -> string

  /** Reading a missing key of a Go map yields the empty string. */
  function Lookup(m: Annotations, key: string): (r: string)
  {
    if key in m then m[key] else ""
  }

  predicate AreUnchanged(annotations: Option<Annotations>, str: string, hash: string) {
    && annotations.Some?
    && Lookup(annotations.value, KEY_VLAN_ID_SET_STR) == str
    && Lookup(annotations.value, KEY_VLAN_ID_SET_STR_HASH) == hash
  }

  function WithVlanSet(annotations: Option<Annotations>, str: string, hash: string): (r: Annotations)
    ensures KEY_VLAN_ID_SET_STR in r && r[KEY_VLAN_ID_SET_STR] == str
    ensures KEY_VLAN_ID_SET_STR_HASH in r && r[KEY_VLAN_ID_SET_STR_HASH] == hash
    ensures AreUnchanged(Some(r), str, hash)
    ensures forall k :: k != KEY_VLAN_ID_SET_STR && k != KEY_VLAN_ID_SET_STR_HASH ==>
              (k in r <==> annotations.Some? && k in annotations.value) && (k in r ==> r[k] == annotations.value[k])
  {
    assert KEY_VLAN_ID_SET_STR[|KEY_VLAN_ID_SET_STR| - 1] == 'r';
    (if annotations.Some? then annotations.value else map[])
    [KEY_VLAN_ID_SET_STR := str][KEY_VLAN_ID_SET_STR_HASH := hash]
  }

  ghost predicate Records(annotations: Option<Annotations>, vids: set<nat>, digest: Digest)
    requires Storable(vids)
  {
    AreUnchanged(annotations, Printed(vids), digest(Printed(vids)))
  }

  /** Annotations record at most one VID set, so an update is skipped exactly when the set is the recorded one. */
  lemma RecordedSetIsUnique(annotations: Option<Annotations>, a: set<nat>, b: set<nat>, digest: Digest)
    requires Storable(a) && Storable(b) && Records(annotations, a, digest)
    ensures Records(annotations, b, digest) <==> a == b
    ensures Lookup(annotations.value, KEY_VLAN_ID_SET_STR_HASH) == digest(Printed(a))
  {
    PrintedInjective(a, b);
  }

  datatype Outcome = NoLabel | NotFound | Deleting | ListFailed | WriteFailed | Unchanged | Written

  class ClusterNetwork {
    var annotations: Option<Annotations>
    const deleting: bool

    constructor (annotations: Option<Annotations>, deleting: bool)
      ensures this.annotations == annotations && this.deleting == deleting
    {
      this.annotations, this.deleting := annotations, deleting;
    }
  }

  /** Recomputes the VID set of the NAD's cluster network and records it unless it is already recorded. */
  method UpdateClusterNetworkVlanSet(cnLabel: string, cn: ClusterNetwork?, nads: Option<seq<Nad>>, digest: Digest,
                                     apiOk: bool)
    returns (outcome: Outcome)
    modifies cn
    ensures outcome.NoLabel? <==> cnLabel == ""
    ensures outcome.NotFound? <==> cnLabel != "" && cn == null
    ensures outcome.Deleting? <==> cnLabel != "" && cn != null && cn.deleting
    ensures outcome.ListFailed? <==> cnLabel != "" && cn != null && !cn.deleting
                                     && (nads.None? || exists nad :: nad in nads.value && Offends(nad))
    ensures outcome.Unchanged? || outcome.Written? || outcome.WriteFailed? ==>
              && cn != null && nads.Some?
              && (outcome.Unchanged? <==> old(Records(cn.annotations, NadListVids(nads.value), digest)))
              && (outcome.Written? ==> apiOk) && (outcome.WriteFailed? ==> !apiOk)
    ensures outcome.Unchanged? || outcome.Written? ==> Records(cn.annotations, NadListVids(nads.value), digest)
    ensures cn != null && !outcome.Written? ==> cn.annotations == old(cn.annotations)
    ensures outcome.Written? ==>
              var printed := Printed(NadListVids(nads.value));
              cn.annotations == Some(WithVlanSet(old(cn.annotations), printed, digest(printed)))
  {
    if cnLabel == "" {
      return NoLabel;
    }
    if cn == null {
      return NotFound;
    }
    if cn.deleting {
      return Deleting;
    }
    if nads.None? {
      return ListFailed;
    }
    var vids := NewVlanIDSetFromNadList(nads.value);
    if vids == null {
      return ListFailed;
    }
    var str := vids.VidSetToString();
    var hash := digest(str);
    if AreUnchanged(cn.annotations, str, hash) {
      return Unchanged;
    }
    var updated := Some(WithVlanSet(cn.annotations, str, hash));
    if !apiOk {
      return WriteFailed;
    }
    cn.annotations := updated;
    return Written;
  }
}
