/** The bond that serves as uplink of a cluster network: its attributes, its slaves and its removal. */
module Bonds {
  import opened GoStrings
  import opened Kernel
  import opened DeviceNames

  /** compareBond: whether an existing bond already is what a configuration asks for. */
  predicate CompareBond(actual: Attrs, config: Attrs) {
    && actual.mode == config.mode
    && (config.mtu != 0 ==> actual.mtu == config.mtu)
    && (config.hardwareAddr != "" ==> actual.hardwareAddr == config.hardwareAddr)
    && (config.txQLen != -1 ==> actual.txQLen == config.txQLen)
    && actual.miimon == if config.miimon == -1 then DEFAULT_MIIMON else config.miimon
  }

  ghost function SlavesOf(links: Links, index: nat): (r: set<string>)
  {
    set n | n in links && links[n].master == index
  }

  ghost function NamesOf(slaves: seq<string>): (r: set<string>)
  {
    set n | n in slaves
  }

  ghost predicate NoDuplicates(slaves: seq<string>) {
    forall i, j :: 0 <= i < j < |slaves| ==> slaves[i] != slaves[j]
  }

  ghost predicate AllUp(links: Links, names: set<string>) {
    forall n :: n in names && n in links ==> links[n].up
  }

  /** The bond is up with the configured attributes, and its slaves are the configured NICs, all of them up. */
  ghost predicate Settled(links: Links, name: string, config: Attrs, slaves: seq<string>) {
    && name in links && links[name].kind.BondKind? && links[name].up && CompareBond(links[name].attrs, config)
    && SlavesOf(links, links[name].index) == NamesOf(slaves) && AllUp(links, NamesOf(slaves))
  }

  /** At most one entry of the table has changed, and not its index. */
  ghost predicate OnlyAt(before: Links, after: Links, name: string) {
    if name in before
    then name in after && after[name].index == before[name].index && after == before[name := after[name]]
    else after == before
  }

  /** No link has left the link with this index. */
  ghost predicate KeepsSlaves(before: Links, after: Links, index: nat) {
    forall n :: n in before && before[n].master == index ==> n in after && after[n].master == index
  }

  /** The same links with the same masters; only flags and attributes may differ. */
  ghost predicate SameMasters(before: Links, after: Links) {
    && after.Keys == before.Keys
    && forall n :: n in before ==> after[n].index == before[n].index && after[n].master == before[n].master
  }

  /** A NIC that may become a slave of the link with this index: free, or its slave already. */
  predicate Enslavable(links: Links, slave: string, index: nat) {
    slave in links && links[slave].index != index && (links[slave].master == 0 || links[slave].master == index)
  }

  /** From one call on, the kernel refuses nothing but one call. */
  ghost predicate RefusesOnly(k: LinkTable, from: nat, call: nat) {
    forall n: nat :: from <= n ==> (k.answers(n).Accepted? <==> n != call)
  }

  /** Takes a free NIC down and enslaves it; where that fails it is brought up again. */
  method Enslave(k: LinkTable, slave: string, index: nat) returns (ok: bool)
    requires k.Valid() && 0 < index <= k.lastIndex
    modifies k`calls, k`links
    ensures k.Valid() && OnlyAt(old(k.links), k.links, slave)
    ensures slave in old(k.links) && old(k.links)[slave].master != 0 && old(k.links)[slave].master != index ==>
              k.links == old(k.links) && !ok
    ensures ok || (slave in old(k.links) && old(k.links)[slave].master == index) ==>
              slave in k.links && k.links[slave].master == index
    ensures k.Obliging() && old(Enslavable(k.links, slave, index)) ==> ok
    // after a refused enslaving the NIC is up again with the master it had, if the kernel accepts that
    ensures old(Enslavable(k.links, slave, index)) && RefusesOnly(k, old(k.calls), old(k.calls) + 2) ==>
              !ok && k.links == old(k.links)[slave := old(k.links)[slave].(up := true)]
  {
    var l := k.LinkByName(slave);
    if !l.Found? || (l.link.master != 0 && l.link.master != index) {
      return false;
    }
    ok := k.LinkSetDown(slave);
    if ok {
      ok := k.LinkSetMaster(slave, index);
      if !ok {
        var up := k.SetLinkUp(slave);
      }
    }
  }

  /** Makes one NIC a slave of the bond and brings it up. A NIC of another master is left alone. */
  method EnsureSlave(k: LinkTable, slave: string, isSlave: bool, index: nat) returns (ok: bool)
    requires k.Valid() && 0 < index <= k.lastIndex && (isSlave ==> slave in k.links && k.links[slave].master == index)
    modifies k`calls, k`links
    ensures k.Valid() && OnlyAt(old(k.links), k.links, slave)
    ensures slave in old(k.links) && old(k.links)[slave].master != 0 && old(k.links)[slave].master != index ==>
              k.links == old(k.links)
    ensures isSlave && old(k.links)[slave].up ==> k.links == old(k.links)
    ensures ok ==> slave in k.links && k.links[slave].master == index && k.links[slave].up
    ensures KeepsSlaves(old(k.links), k.links, index)
    ensures k.Obliging() && old(Enslavable(k.links, slave, index)) ==> ok
  {
    if !isSlave {
      ok := Enslave(k, slave, index);
      if !ok {
        KeptByOne(old(k.links), k.links, slave, index);
        return;
      }
    }
    ok := k.SetLinkUp(slave);
    KeptByOne(old(k.links), k.links, slave, index);
    assert isSlave && old(k.links)[slave].up ==> old(k.links)[slave].(up := true) == old(k.links)[slave];
  }

  lemma KeptByOne(before: Links, after: Links, name: string, index: nat)
    requires OnlyAt(before, after, name)
    requires name in before && before[name].master == index ==> after[name].master == index
    ensures KeepsSlaves(before, after, index)
  {
  }

  /** What adding NICs may change: entries of those NICs that were free or slaves already. */
  ghost predicate OnlyAmong(before: Links, after: Links, names: set<string>, index: nat) {
    && after.Keys == before.Keys
    && forall n :: n in before ==>
         && after[n].index == before[n].index
         && (n !in names || (before[n].master != 0 && before[n].master != index) ==> after[n] == before[n])
  }

  ghost predicate AllSlaves(links: Links, names: set<string>, index: nat) {
    forall n :: n in names ==> n in links && links[n].master == index && links[n].up
  }

  /** Nothing is left to do for these NICs. */
  ghost predicate Idle(links: Links, slaves: seq<string>, index: nat) {
    NoDuplicates(slaves) && AllSlaves(links, NamesOf(slaves), index)
  }

  lemma AddedOne(before: Links, middle: Links, after: Links, slaves: seq<string>, i: nat, index: nat)
    requires i < |slaves| && OnlyAmong(before, middle, NamesOf(slaves[..i]), index)
             && AllSlaves(middle, NamesOf(slaves[..i]), index)
    requires OnlyAt(middle, after, slaves[i])
    requires slaves[i] in middle && middle[slaves[i]].master != 0 && middle[slaves[i]].master != index ==>
               after == middle
    ensures OnlyAmong(before, after, NamesOf(slaves[..i + 1]), index)
    ensures AllSlaves(after, {slaves[i]}, index) ==> AllSlaves(after, NamesOf(slaves[..i + 1]), index)
  {
    assert NamesOf(slaves[..i + 1]) == NamesOf(slaves[..i]) + {slaves[i]};
  }

  /** The first i NICs are slaves now; if nothing was to be done, nothing has been done. */
  ghost predicate AddedUpTo(before: Links, now: Links, slaves: seq<string>, i: nat, index: nat)
    requires i <= |slaves|
  {
    && OnlyAmong(before, now, NamesOf(slaves[..i]), index) && AllSlaves(now, NamesOf(slaves[..i]), index)
    && (Idle(before, slaves, index) ==> now == before) && KeepsSlaves(before, now, index)
  }

  /** Adds the next NIC. */
  method AddNext(k: LinkTable, slaves: seq<string>, i: nat, pending: set<string>, index: nat, ghost start: Links)
    returns (ok: bool)
    requires k.Valid() && 0 < index <= k.lastIndex && i < |slaves| && AddedUpTo(start, k.links, slaves, i, index)
    requires pending == SlavesOf(start, index) - NamesOf(slaves[..i])
    modifies k`calls, k`links
    ensures k.Valid() && OnlyAmong(start, k.links, NamesOf(slaves), index)
    ensures Idle(start, slaves, index) ==> k.links == start
    ensures KeepsSlaves(start, k.links, index)
    ensures ok ==> AddedUpTo(start, k.links, slaves, i + 1, index)
    ensures k.Obliging() && Enslavable(start, slaves[i], index) ==> ok
  {
    PendingIsSlave(start, k.links, slaves, i, SlavesOf(start, index), index);
    ok := EnsureSlave(k, slaves[i], slaves[i] in pending, index);
    AddedOne(start, old(k.links), k.links, slaves, i, index);
    OnlyAmongGrows(start, k.links, slaves, i + 1, index);
  }

  /** Adds the configured NICs in turn and stops at the first failure. */
  method AddSlaves(k: LinkTable, slaves: seq<string>, current: set<string>, index: nat) returns (ok: bool)
    requires k.Valid() && 0 < index <= k.lastIndex && current == SlavesOf(k.links, index)
    modifies k`calls, k`links
    ensures k.Valid() && OnlyAmong(old(k.links), k.links, NamesOf(slaves), index)
    ensures ok ==> AllSlaves(k.links, NamesOf(slaves), index)
    ensures old(Idle(k.links, slaves, index)) ==> k.links == old(k.links)
    ensures KeepsSlaves(old(k.links), k.links, index)
    ensures k.Obliging() && (forall n :: n in slaves ==> Enslavable(old(k.links), n, index)) ==> ok
  {
    var i, pending := 0, current;
    while i < |slaves|
      invariant 0 <= i <= |slaves| && k.Valid() && pending == current - NamesOf(slaves[..i])
      invariant AddedUpTo(old(k.links), k.links, slaves, i, index)
    {
      assert slaves[i] in slaves;
      ok := AddNext(k, slaves, i, pending, index, old(k.links));
      if !ok {
        return;
      }
      pending := pending - {slaves[i]};
      i := i + 1;
      assert NamesOf(slaves[..i]) == NamesOf(slaves[..i - 1]) + {slaves[i - 1]};
    }
    assert slaves[..i] == slaves;
    ok := true;
  }

  lemma OnlyAmongGrows(before: Links, after: Links, slaves: seq<string>, i: nat, index: nat)
    requires i <= |slaves| && OnlyAmong(before, after, NamesOf(slaves[..i]), index)
    ensures OnlyAmong(before, after, NamesOf(slaves), index)
  {
    assert forall n :: n in slaves[..i] ==> n in slaves;
  }

  /** A NIC that is still pending is a slave as it was; if nothing is to be done, the next one is pending. */
  lemma PendingIsSlave(before: Links, now: Links, slaves: seq<string>, i: nat, current: set<string>, index: nat)
    requires i < |slaves| && current == SlavesOf(before, index) && OnlyAmong(before, now, NamesOf(slaves[..i]), index)
    ensures slaves[i] in current - NamesOf(slaves[..i]) ==>
              slaves[i] in now && now[slaves[i]] == before[slaves[i]] && now[slaves[i]].master == index
    ensures Idle(before, slaves, index) ==> slaves[i] in current - NamesOf(slaves[..i]) && before[slaves[i]].up
    ensures AllSlaves(now, NamesOf(slaves[..i]), index) && Enslavable(before, slaves[i], index) ==>
              Enslavable(now, slaves[i], index)
  {
    assert slaves[i] in NamesOf(slaves);
  }

  method ReleaseSlave(k: LinkTable, name: string) returns (ok: bool)
    requires k.Valid() && name in k.links
    modifies k`calls, k`links
    ensures k.Valid() && OnlyAt(old(k.links), k.links, name)
    ensures ok ==> k.links[name].master == 0 && k.links[name].up
    ensures k.Obliging() ==> ok
  {
    ok := k.LinkSetMaster(name, 0);
    if ok {
      ok := k.SetLinkUp(name);
    }
  }

  /** The slaves among these names that have been freed. */
  ghost predicate AllFree(links: Links, names: set<string>) {
    forall n :: n in names ==> n in links && links[n].master == 0 && links[n].up
  }

  /** Frees the remaining slaves, in any order and past failures, and brings them up. */
  method ReleaseSlaves(k: LinkTable, remaining: set<string>, index: nat) returns (ok: bool)
    requires k.Valid() && 0 < index && remaining <= SlavesOf(k.links, index)
    modifies k`calls, k`links
    ensures k.Valid() && OnlyAmong(old(k.links), k.links, remaining, index)
    ensures ok ==> AllFree(k.links, remaining)
    ensures k.Obliging() ==> ok
  {
    var todo := remaining;
    ok := true;
    while todo != {}
      invariant k.Obliging() ==> ok
      invariant todo <= remaining && k.Valid() && OnlyAmong(old(k.links), k.links, remaining - todo, index)
      invariant ok ==> AllFree(k.links, remaining - todo)
      decreases |todo|
    {
      var name :| name in todo;
      ghost var before := k.links;
      ReleaseStep(old(k.links), remaining, todo, name, index);
      todo := todo - {name};
      var freed := ReleaseSlave(k, name);
      ReleasedOne(old(k.links), before, k.links, remaining, todo, name, index);
      ok := ok && freed;
    }
    assert remaining - todo == remaining;
  }

  lemma ReleaseStep(links: Links, remaining: set<string>, todo: set<string>, name: string, index: nat)
    requires remaining <= SlavesOf(links, index) && todo <= remaining && name in todo
    ensures name in links && links[name].master == index
    ensures remaining - todo == remaining - (todo - {name}) - {name}
  {
  }

  lemma ReleasedOne(before: Links, middle: Links, after: Links, remaining: set<string>, left: set<string>,
                    name: string, index: nat)
    requires name in remaining && name !in left && left <= remaining
    requires OnlyAmong(before, middle, remaining - left - {name}, index) && OnlyAt(middle, after, name)
    requires name in before && before[name].master == index
    ensures OnlyAmong(before, after, remaining - left, index)
    ensures AllFree(middle, remaining - left - {name}) && AllFree(after, {name}) ==> AllFree(after, remaining - left)
  {
  }

  /** EnsureBondSlaves: afterwards the slaves are exactly the configured NICs. On every return, links of
      other masters are as they were. */
  method EnsureBondSlaves(k: LinkTable, name: string, slaves: seq<string>) returns (ok: bool)
    requires k.Valid() && name in k.links
    modifies k`calls, k`links
    ensures k.Valid() && k.links.Keys == old(k.links).Keys
    ensures forall n :: n in k.links && old(k.links)[n].master !in {0, old(k.links)[name].index} ==>
              k.links[n] == old(k.links)[n]
    ensures forall n :: n in k.links && n !in slaves && n !in SlavesOf(old(k.links), old(k.links)[name].index) ==>
              k.links[n] == old(k.links)[n]
    ensures ok ==> var index := old(k.links)[name].index;
                   && k.links[name] == old(k.links)[name]
                   && SlavesOf(k.links, index) == NamesOf(slaves) && AllUp(k.links, NamesOf(slaves))
                   && AllFree(k.links, SlavesOf(old(k.links), index) - NamesOf(slaves))
    ensures var index := old(k.links)[name].index;
            old(SlavesOf(k.links, index)) == NamesOf(slaves) ==>
              SameMasters(old(k.links), k.links) && (old(Idle(k.links, slaves, index)) ==> k.links == old(k.links))
    ensures k.Obliging() && (forall n :: n in slaves ==> Enslavable(old(k.links), n, old(k.links)[name].index)) ==> ok
  {
    var index := k.links[name].index;
    var all := k.LinkList();
    if all.None? {
      return false;
    }
    var current := set n | n in all.value && all.value[n].master == index;
    ok := AddSlaves(k, slaves, current, index);
    ghost var middle := k.links;
    BothPhases(old(k.links), middle, middle, slaves, index);
    if !ok {
      return;
    }
    var remaining := current - set n | n in slaves;
    assert remaining == SlavesOf(old(k.links), index) - NamesOf(slaves);
    RemainingAreSlaves(old(k.links), middle, slaves, index);
    ok := ReleaseSlaves(k, remaining, index);
    BothPhases(old(k.links), middle, k.links, slaves, index);
    if ok {
      SlavesAreExact(old(k.links), middle, k.links, name, slaves, index);
    }
  }

  /** What adding NICs and then releasing the others may change. */
  lemma BothPhases(before: Links, middle: Links, after: Links, slaves: seq<string>, index: nat)
    requires OnlyAmong(before, middle, NamesOf(slaves), index) && KeepsSlaves(before, middle, index)
    requires OnlyAmong(middle, after, SlavesOf(before, index) - NamesOf(slaves), index)
    ensures after.Keys == before.Keys
    ensures forall n :: n in after && before[n].master != 0 && before[n].master != index ==> after[n] == before[n]
    ensures forall n :: n in after && n !in slaves && n !in SlavesOf(before, index) ==> after[n] == before[n]
    ensures SlavesOf(before, index) == NamesOf(slaves) ==> SameMasters(before, after)
  {
    assert forall n :: n in before && n in SlavesOf(before, index) ==> middle[n].master == index;
  }

  lemma RemainingAreSlaves(before: Links, middle: Links, slaves: seq<string>, index: nat)
    requires OnlyAmong(before, middle, NamesOf(slaves), index)
    ensures SlavesOf(before, index) - NamesOf(slaves) <= SlavesOf(middle, index)
  {
  }

  lemma SlavesAreExact(before: Links, middle: Links, after: Links, name: string, slaves: seq<string>, index: nat)
    requires 0 < index && OnlyAmong(before, middle, NamesOf(slaves), index) && AllSlaves(middle, NamesOf(slaves), index)
    requires var remaining := SlavesOf(before, index) - NamesOf(slaves);
             OnlyAmong(middle, after, remaining, index) && AllFree(after, remaining)
    requires name in before && before[name].index == index && before[name].master != index
    requires name in middle && middle[name].master != middle[name].index
    ensures after[name] == before[name]
    ensures SlavesOf(after, index) == NamesOf(slaves) && AllUp(after, NamesOf(slaves))
  {
    assert name !in NamesOf(slaves);
  }

  // ----- The bond itself -----

  /** The link attributes and bond options of a VlanConfig's uplink. */
  datatype LinkOptions = LinkOptions(mtu: int, txQLen: int, hardwareAddr: string)
  datatype BondOptions = BondOptions(mode: string, miimon: int)

  /** setUplink: a bond is always created with an explicit monitoring interval. */
  function BondConfig(link: Option<LinkOptions>, bond: Option<BondOptions>): (r: Attrs)
    ensures r.miimon != -1
  {
    Attrs(
      if bond.Some? && bond.value.mode != "" then bond.value.mode else "active-backup",
      if link.Some? then link.value.mtu else 0,
      if link.Some? then link.value.hardwareAddr else "",
      if link.Some? then link.value.txQLen else -1,
      if bond.Some? && bond.value.miimon != -1 then bond.value.miimon else DEFAULT_MIIMON)
  }

  /** Comparing a bond with its configuration is asking whether it keeps every attribute that is set; only an
      open monitoring interval demands more, namely the default. */
  lemma CompareBondIsKept(config: Attrs, actual: Attrs)
    ensures CompareBond(actual, config) <==>
            Kept(config, actual) && (config.miimon == -1 ==> actual.miimon == DEFAULT_MIIMON)
  {
  }

  /** With every attribute set, only a bond with just these attributes will do; an open one does not matter. */
  lemma CompareBondExactly(config: Attrs, actual: Attrs, mtu: int)
    ensures config.mtu != 0 && config.hardwareAddr != "" && config.txQLen != -1 && config.miimon != -1 ==>
              (CompareBond(actual, config) <==> actual == config)
    ensures CompareBond(actual.(mtu := mtu), config.(mtu := 0)) <==> CompareBond(actual, config.(mtu := 0))
  {
  }

  /** A bond with all options set is configured with just these; without any it is in active-backup mode, monitored
      every 100 ms, and all other attributes are left open. */
  lemma BondConfigExactly(link: LinkOptions, bond: BondOptions)
    ensures bond.mode != "" && bond.miimon != -1 ==>
              BondConfig(Some(link), Some(bond)) ==
              Attrs(bond.mode, link.mtu, link.hardwareAddr, link.txQLen, bond.miimon)
    ensures BondConfig(None, None) == BondConfig(None, Some(BondOptions("", -1)))
            == Attrs("active-backup", 0, "", -1, 100)
  {
  }

  datatype BondResult = Done | Failed | Panic

  /** A bond of this name exists with other attributes, so that it is deleted and created again. */
  predicate Recreates(links: Links, name: string, config: Attrs) {
    name in links && links[name].kind.BondKind? && !CompareBond(links[name].attrs, config)
  }

  ghost function OldSlaves(links: Links, name: string): (r: set<string>)
  {
    if name in links then SlavesOf(links, links[name].index) else {}
  }

  /** A link other than the bond that has a master, and another one than the bond. */
  ghost predicate Foreign(links: Links, name: string, n: string) {
    n in links && n != name && n !in OldSlaves(links, name) && links[n].master != 0
  }

  /** Links other than the bond and its slaves have not changed. */
  ghost predicate OthersKept(before: Links, after: Links, name: string) {
    forall n :: n in before && n != name && n !in OldSlaves(before, name) ==> n in after && after[n] == before[n]
  }

  /** The slaves of a bond that is gone: free, and up as the kernel left them. */
  ghost predicate Orphaned(before: Links, after: Links, name: string, staysUp: string -> bool) {
    forall n :: n in OldSlaves(before, name) ==> n in after && after[n] == before[n].(master := 0, up := staysUp(n))
  }

  lemma FreedOrphans(links: Links, name: string, staysUp: string -> bool)
    requires name in links && links[name].master != links[name].index
    ensures var after := Freed(links, links[name].index, staysUp) - {name};
            OthersKept(links, after, name) && Orphaned(links, after, name, staysUp) && name !in after
            && forall n :: n in after ==> n in links
  {
  }

  /** A bond without slaves has been created in the place of the old one, if there was one. */
  ghost predicate NewBond(before: Links, after: Links, name: string, config: Attrs, staysUp: string -> bool) {
    && name in after && after[name].kind.BondKind? && Kept(config, after[name].attrs)
    && Orphaned(before, after, name, staysUp) && SlavesOf(after, after[name].index) == {}
    && (forall n :: n in after ==> n == name || n in before)
    && forall n :: n in before && n != name ==> n in after && after[n].index != after[name].index
  }

  method AddBond(k: LinkTable, name: string, config: Attrs, ghost before: Links) returns (ok: bool)
    requires k.Valid() && name !in k.links && forall n :: n in k.links ==> n in before
    requires OthersKept(before, k.links, name) && Orphaned(before, k.links, name, k.staysUp)
             && name !in OldSlaves(before, name)
    modifies k`calls, k`links, k`lastIndex
    ensures k.Valid() && OthersKept(before, k.links, name)
    ensures ok ==> NewBond(before, k.links, name, config, k.staysUp)
    ensures k.Obliging() ==> ok
  {
    ghost var links := k.links;
    ok := k.LinkAdd(name, config);
    assert ok ==> forall n :: n in k.links && n != name ==> n in k.links - {name};
    assert ok ==> forall n :: n in links ==> n in k.links - {name} && k.links[n] == links[n];
  }

  /** Deletes the bond and creates it again, unless it has the configured attributes. */
  method ModifyBond(k: LinkTable, name: string, config: Attrs) returns (ok: bool)
    requires k.Valid() && name in k.links
    modifies k`calls, k`links, k`lastIndex
    ensures k.Valid() && OthersKept(old(k.links), k.links, name)
    ensures CompareBond(old(k.links)[name].attrs, config) ==> ok && k.links == old(k.links)
    ensures ok && !CompareBond(old(k.links)[name].attrs, config) ==>
              NewBond(old(k.links), k.links, name, config, k.staysUp)
    ensures k.Obliging() ==> ok
  {
    if CompareBond(k.links[name].attrs, config) {
      return true;
    }
    FreedOrphans(k.links, name, k.staysUp);
    ok := k.LinkDel(name);
    if ok {
      ok := AddBond(k, name, config, old(k.links));
    }
  }

  /** A NIC that may become a slave of the bond of this name, which may not exist yet or be created again. */
  ghost predicate Available(links: Links, name: string, slave: string) {
    slave in links && slave != name && (links[slave].master == 0 || slave in OldSlaves(links, name))
  }

  /** As the kernel keeps them. */
  ghost predicate DistinctIndexes(links: Links) {
    forall m, n :: m in links && n in links && m != n ==> links[m].index != links[n].index
  }

  /** A bond can be had: no link of another kind is in the way, and every NIC is available. */
  ghost predicate Feasible(links: Links, name: string, slaves: seq<string>) {
    (name in links ==> links[name].kind.BondKind?) && forall n :: n in slaves ==> Available(links, name, n)
  }

  /** Creates the bond, or recreates it if its attributes differ, and brings it up. */
  method EnsureBondLink(k: LinkTable, name: string, config: Attrs) returns (r: BondResult)
    requires k.Valid()
    modifies k`calls, k`links, k`lastIndex
    ensures k.Valid() && OthersKept(old(k.links), k.links, name)
    ensures r.Panic? ==> name in old(k.links) && !old(k.links)[name].kind.BondKind?
    ensures !Recreates(old(k.links), name, config) && name in old(k.links) ==>
              OnlyAt(old(k.links), k.links, name) && (old(k.links)[name].up ==> k.links == old(k.links))
    ensures r.Done? ==> name in k.links && k.links[name].kind.BondKind? && k.links[name].up
                        && (config.miimon != -1 ==> CompareBond(k.links[name].attrs, config))
    ensures r.Done? && name in old(k.links) && !Recreates(old(k.links), name, config) ==>
              k.links == old(k.links)[name := old(k.links)[name].(up := true)]
    ensures r.Done? && (name !in old(k.links) || Recreates(old(k.links), name, config)) ==>
              NewBond(old(k.links), k.links, name, config, k.staysUp)
    ensures r.Done? ==> name in old(k.links) ==> old(k.links)[name].kind.BondKind?
    ensures k.Obliging() && (name in old(k.links) ==> old(k.links)[name].kind.BondKind?) ==> r.Done?
  {
    var l := k.LinkByName(name);
    match l {
      case LookupFailed(_) =>
        return Failed;
      case NotFound =>
        var added := AddBond(k, name, config, k.links);
        if !added {
          return Failed;
        }
      case Found(link) =>
        if !link.kind.BondKind? {
          return Panic;
        }
        var modified := ModifyBond(k, name, config);
        if !modified {
          return Failed;
        }
    }
    ghost var middle := k.links;
    CompareBondIsKept(config, middle[name].attrs);
    r := BringUp(k, name);
    RaisedBond(old(k.links), middle, name, config, k.staysUp);
  }

  lemma RaisedBond(before: Links, middle: Links, name: string, config: Attrs, staysUp: string -> bool)
    requires name in middle && OthersKept(before, middle, name)
    requires name in before ==> before[name].master != before[name].index
    ensures var after := middle[name := middle[name].(up := true)];
            && OthersKept(before, after, name)
            && (NewBond(before, middle, name, config, staysUp) ==> NewBond(before, after, name, config, staysUp))
  {
    var after := middle[name := middle[name].(up := true)];
    assert SlavesOf(after, after[name].index) == SlavesOf(middle, middle[name].index);
  }

  /** Sets the bond up and fetches it again. */
  method BringUp(k: LinkTable, name: string) returns (r: BondResult)
    requires k.Valid() && name in k.links && k.links[name].kind.BondKind?
    modifies k`calls, k`links
    ensures k.Valid() && !r.Panic?
    ensures k.links == old(k.links) || k.links == old(k.links)[name := old(k.links)[name].(up := true)]
    ensures r.Done? ==> k.links == old(k.links)[name := old(k.links)[name].(up := true)]
    ensures k.Obliging() ==> r.Done?
  {
    var a := k.LinkSetUp(name);
    if !a.Accepted? {
      return Failed;
    }
    var l := k.LinkByName(name);
    r := if l.Found? && l.link.kind.BondKind? then Done else Failed;
  }

  /** The NICs that a successful EnsureBond released are free. They are up too, unless the bond had to be
      created again: then they stay as the kernel left them, because the new bond has no slaves to release. */
  ghost predicate Released(before: Links, after: Links, name: string, config: Attrs, slaves: seq<string>,
                           staysUp: string -> bool) {
    forall n :: n in OldSlaves(before, name) - NamesOf(slaves) ==>
      n in after && after[n].master == 0 && (after[n].up <==> (Recreates(before, name, config) ==> staysUp(n)))
  }

  method EnsureBond(k: LinkTable, name: string, config: Attrs, slaves: seq<string>) returns (r: BondResult)
    requires k.Valid()
    modifies k`calls, k`links, k`lastIndex
    ensures k.Valid()
    // success settles the bond and releases every other NIC
    ensures r.Done? && config.miimon != -1 ==> Settled(k.links, name, config, slaves)
    ensures r.Done? ==> Released(old(k.links), k.links, name, config, slaves, k.staysUp)
    // on every return, a link of another master has not changed
    ensures forall n :: Foreign(old(k.links), name, n) ==>
              n in k.links && k.links[n] == old(k.links)[n]
    // doing it again deletes no link and changes no master, whatever the kernel answers, and changes nothing at all
    // if no NIC is named twice
    ensures old(Settled(k.links, name, config, slaves)) ==>
              SameMasters(old(k.links), k.links) && (NoDuplicates(slaves) ==> k.links == old(k.links))
    // short of refusals, it succeeds exactly when no other link is in the way and every NIC is available
    ensures r.Done? ==> Feasible(old(k.links), name, slaves)
    ensures k.Obliging() && DistinctIndexes(old(k.links)) && Feasible(old(k.links), name, slaves) ==> r.Done?
  {
    r := EnsureBondLink(k, name, config);
    if !r.Done? {
      return;
    }
    ghost var middle := k.links;
    MiddleSlaves(old(k.links), middle, name, config, k.staysUp);
    AvailableIsEnslavable(old(k.links), middle, name, config, slaves, k.staysUp);
    var ok := EnsureBondSlaves(k, name, slaves);
    r := if ok then Done else Failed;
    if ok {
      ReleasedAfter(old(k.links), middle, k.links, name, config, slaves, k.staysUp);
      SlavesWereAvailable(old(k.links), middle, k.links, name, slaves);
    }
  }

  lemma AvailableIsEnslavable(before: Links, middle: Links, name: string, config: Attrs, slaves: seq<string>,
                              staysUp: string -> bool)
    requires name in middle && OthersKept(before, middle, name)
    requires name in before && !Recreates(before, name, config) ==> middle == before[name := before[name].(up := true)]
    requires name !in before || Recreates(before, name, config) ==> NewBond(before, middle, name, config, staysUp)
    ensures DistinctIndexes(before) ==>
              forall n :: n in slaves && Available(before, name, n) ==> Enslavable(middle, n, middle[name].index)
  {
  }

  lemma SlavesWereAvailable(before: Links, middle: Links, after: Links, name: string, slaves: seq<string>)
    requires name in middle && after.Keys == middle.Keys && (forall n :: n in middle ==> n == name || n in before)
    requires middle[name].master != middle[name].index && after[name] == middle[name]
    requires forall n :: Foreign(before, name, n) ==>
               n in middle && middle[n] == before[n] && middle[n].master != middle[name].index && after[n] == before[n]
    requires SlavesOf(after, middle[name].index) == NamesOf(slaves)
    ensures forall n :: n in slaves ==> Available(before, name, n)
  {
    assert forall n :: n in slaves ==> n in SlavesOf(after, middle[name].index) by {
      assert forall n :: n in slaves ==> n in NamesOf(slaves);
    }
  }

  /** Between the two phases: either the slaves are those of the old bond, or there are none. */
  lemma MiddleSlaves(before: Links, middle: Links, name: string, config: Attrs, staysUp: string -> bool)
    requires name in middle && OthersKept(before, middle, name)
    requires name in before ==> before[name].master != before[name].index
    requires name in before && !Recreates(before, name, config) ==> middle == before[name := before[name].(up := true)]
    requires name !in before || Recreates(before, name, config) ==> NewBond(before, middle, name, config, staysUp)
    ensures SlavesOf(middle, middle[name].index) ==
            if Recreates(before, name, config) then {} else OldSlaves(before, name)
    ensures forall n :: Foreign(before, name, n) ==>
              n in middle && middle[n] == before[n] && middle[n].master != middle[name].index
  {
    forall n | n in before && n != name && n !in OldSlaves(before, name)
      ensures n in middle && middle[n] == before[n] && n !in SlavesOf(middle, middle[name].index)
    {
    }
  }

  lemma ReleasedAfter(before: Links, middle: Links, after: Links, name: string, config: Attrs, slaves: seq<string>,
                      staysUp: string -> bool)
    requires name in middle
    requires SlavesOf(middle, middle[name].index) ==
             if Recreates(before, name, config) then {} else OldSlaves(before, name)
    requires Recreates(before, name, config) ==> Orphaned(before, middle, name, staysUp)
    requires AllFree(after, SlavesOf(middle, middle[name].index) - NamesOf(slaves))
    requires after.Keys == middle.Keys
    requires forall n :: n in after && n !in slaves && n !in SlavesOf(middle, middle[name].index) ==>
               after[n] == middle[n]
    ensures Released(before, after, name, config, slaves, staysUp)
  {
  }

  // ----- Removal -----

  /** Deletes a bond and brings its former slaves up, past failures. */
  method RemoveBond(k: LinkTable, name: string) returns (ok: bool)
    requires k.Valid() && name in k.links
    modifies k`calls, k`links
    ensures k.Valid() && OthersKept(old(k.links), k.links, name)
    ensures ok ==> name !in k.links && AllFree(k.links, OldSlaves(old(k.links), name))
    ensures name in k.links ==> k.links == old(k.links) && !ok
    ensures k.Obliging() ==> ok
  {
    var index := k.links[name].index;
    var all := k.LinkList();
    if all.None? {
      return false;
    }
    var slaves := set n | n in all.value && all.value[n].master == index;
    FreedOrphans(k.links, name, k.staysUp);
    var deleted := k.LinkDel(name);
    if !deleted {
      return false;
    }
    ok := RecoverSlaves(k, slaves);
  }

  /** Some of these links have been brought up, and nothing else has changed. */
  ghost predicate RaisedAmong(before: Links, after: Links, names: set<string>) {
    && after.Keys == before.Keys
    && forall n :: n in before ==> after[n] == before[n] || (n in names && after[n] == before[n].(up := true))
  }

  method RecoverSlaves(k: LinkTable, slaves: set<string>) returns (ok: bool)
    requires k.Valid() && forall n :: n in slaves ==> n in k.links && k.links[n].master == 0
    modifies k`calls, k`links
    ensures k.Valid() && RaisedAmong(old(k.links), k.links, slaves)
    ensures ok ==> AllFree(k.links, slaves)
    ensures k.Obliging() ==> ok
  {
    var todo := slaves;
    ok := true;
    while todo != {}
      invariant todo <= slaves && k.Valid() && RaisedAmong(old(k.links), k.links, slaves)
      invariant ok ==> AllFree(k.links, slaves - todo)
      invariant k.Obliging() ==> ok
      decreases |todo|
    {
      var name :| name in todo;
      ghost var before := k.links;
      var up := k.SetLinkUp(name);
      RaisedOne(old(k.links), before, k.links, slaves, todo, name);
      ok := ok && up;
      todo := todo - {name};
    }
    assert slaves - todo == slaves;
  }

  lemma RaisedOne(start: Links, before: Links, after: Links, slaves: set<string>, todo: set<string>, name: string)
    requires forall n :: n in slaves ==> n in start && start[n].master == 0
    requires todo <= slaves && name in todo && RaisedAmong(start, before, slaves)
    requires after == before || after == before[name := before[name].(up := true)]
    ensures RaisedAmong(start, after, slaves)
    ensures AllFree(before, slaves - todo) && after[name].up ==> AllFree(after, slaves - (todo - {name}))
  {
  }

  /** Frees the uplink from its bridge, removes it and then the bridge. */
  method Teardown(k: LinkTable, bond: string, bridge: string) returns (ok: bool)
    requires k.Valid() && bond in k.links && bridge in k.links && bond != bridge
    modifies k`calls, k`links
    ensures k.Valid()
    ensures ok ==> bond !in k.links && bridge !in k.links
    ensures ok && old(k.links)[bond].kind.BondKind? ==>
              forall n :: n in OldSlaves(old(k.links), bond) && n != bridge ==>
                n in k.links && k.links[n].master == 0 && k.links[n].up
    ensures k.Obliging() ==> ok
  {
    if k.links[bond].master != 0 {
      ok := k.LinkSetMaster(bond, 0);
      if !ok {
        return;
      }
    }
    ghost var middle := k.links;
    assert OldSlaves(middle, bond) == OldSlaves(old(k.links), bond);
    if k.links[bond].kind.BondKind? {
      ok := RemoveBond(k, bond);
    } else {
      ok := k.LinkDel(bond);
    }
    if !ok {
      return;
    }
    ok := k.LinkDel(bridge);
  }

  /** How the agent's removal of a cluster network ends; Absent means that a link was already missing. */
  datatype RemoveResult = TornDown | Absent | Incomplete

  /** removeVLAN on the kernel. A missing bridge or bond counts as torn down, so that what is left of a
      teardown that failed half-way is never removed: both links are gone after a success exactly when
      both or neither existed before. */
  method RemoveVlan(k: LinkTable, cn: string) returns (r: RemoveResult)
    requires k.Valid()
    modifies k`calls, k`links
    ensures k.Valid()
    ensures r.Absent? ==> k.links == old(k.links)
    ensures var bond, bridge := GenerateName(cn, BOND_SUFFIX), GenerateBridgeName(cn);
            !r.Incomplete? ==>
              (bond !in k.links && bridge !in k.links <==> (bond in old(k.links) <==> bridge in old(k.links)))
    ensures var bond, bridge := GenerateName(cn, BOND_SUFFIX), GenerateBridgeName(cn);
            k.Obliging() && (bridge in old(k.links) ==> old(k.links)[bridge].kind.BridgeKind?) ==>
              !r.Incomplete? && (r.Absent? <==> bond !in old(k.links) || bridge !in old(k.links))
  {
    var bond, bridge := GenerateName(cn, BOND_SUFFIX), GenerateBridgeName(cn);
    BondIsNotBridge(cn);
    var b := k.LinkByName(bridge);
    if b.NotFound? {
      return Absent;
    }
    if b.LookupFailed? || !b.link.kind.BridgeKind? {
      return Incomplete;
    }
    var u := k.LinkByName(bond);
    if u.NotFound? {
      return Absent;
    }
    if u.LookupFailed? {
      return Incomplete;
    }
    var ok := Teardown(k, bond, bridge);
    r := if ok then TornDown else Incomplete;
  }

  lemma BondIsNotBridge(cn: string)
    ensures GenerateName(cn, BOND_SUFFIX) != GenerateBridgeName(cn)
  {
    var bond, bridge := GenerateName(cn, BOND_SUFFIX), GenerateBridgeName(cn);
    assert bond[|bond| - 1] == 'o' && bridge[|bridge| - 1] == 'r';
  }

  // ----- Two inputs that show what is left behind -----

  /** A bond of two NICs gets another MTU and loses one of them: the kernel refuses nothing and EnsureBond
      succeeds, yet the NIC that was dropped stays down. */
  method DroppedNicStaysDown() returns (k: LinkTable, r: BondResult)
    ensures fresh(k) && r.Done?
    ensures "eth1" in k.links && k.links["eth1"].master == 0 && !k.links["eth1"].up
  {
    var attrs := Attrs("active-backup", 1500, "", 1000, 100);
    var links := map["c-bo" := Link(1, 0, true, BondKind, attrs), "eth0" := Link(2, 1, true, DeviceKind, attrs),
                     "eth1" := Link(3, 1, true, DeviceKind, attrs)];
    k := new LinkTable(links, 3, _ => Accepted, attrs, _ => false, _ => false);
    assert Feasible(links, "c-bo", ["eth0"]) && DistinctIndexes(links);
    assert "eth1" in OldSlaves(links, "c-bo") && "eth1" != "eth0";
    r := EnsureBond(k, "c-bo", attrs.(mtu := 9000), ["eth0"]);
  }

  /** After a teardown that deleted the bond but not the bridge, the next one reports that nothing is left to
      do, and the bridge stays. */
  method HalfTornDownStays() returns (k: LinkTable, r: RemoveResult)
    ensures fresh(k) && r.Absent? && "c-br" in k.links
  {
    var attrs := Attrs("", 1500, "", 1000, 0);
    var links := map["c-br" := Link(1, 0, true, BridgeKind, attrs)];
    k := new LinkTable(links, 1, _ => Accepted, attrs, _ => false, _ => false);
    assert GenerateBridgeName("c") == "c-br";
    BondIsNotBridge("c");
    r := RemoveVlan(k, "c");
  }
}
