/** The MTU of a NAD: the mutating webhook writes it and the validating webhook checks it. */
module NadMtus {
  import opened GoStrings
  import opened Mtus
  import opened Nads
  import opened DeviceNames
  import opened Webhooks
  import opened Lifecycle

  /** The MTU that a webhook expects on a cluster network: the annotation, or else the first VlanConfig that
      its listing returns, being deleted or not. None where the annotation does not read as an MTU. */
  function ExpectedMtu(cn: ClusterNetwork, vcs: VlanConfigs, listing: seq<string>): (r: Option<int>)
    requires forall n :: n in listing ==> n in vcs
    ensures r.Some? ==> r.value != 0
  {
    if cn.mtuAnnotation.Some? then
      var read := GetMTUFromString(cn.mtuAnnotation.value);
      if read.Some? then Some(MTUDefaultTo(read.value)) else None
    else if listing != [] then
      assert listing[0] in listing;
      Some(TargetMtu(vcs[listing[0]]))
    else Some(DEFAULT_MTU)
  }

  /** The configuration after patchMTU, None where the request is refused. VlanConfigs are listed by the
      network that the bridge name stands for. */
  function PatchMTU(conf: NetConf, cns: ClusterNetworks, vcs: VlanConfigs, listing: seq<string>): (r: Option<NetConf>)
    requires forall n :: n in listing ==> n in vcs
  {
    if conf.cniType.KubeOvnCni? then Some(conf)
    else
      var cnName := GetClusterNetworkFromBridgeName(conf.brName);
      if cnName.None? || cnName.value !in cns then None
      else
        var target := ExpectedMtu(cns[cnName.value], vcs, listing);
        if target.None? then None
        else if AreEqualMTUs(target.value, conf.mtu) then Some(conf) else Some(conf.(mtu := target.value))
  }

  /** checkNadConfig for a bridge NAD. VlanConfigs are listed by the NAD's own label, which may be empty. */
  predicate CheckNadConfig(conf: NetConf, nadLabel: string, cns: ClusterNetworks, vcs: VlanConfigs,
                           listing: seq<string>)
    requires forall n :: n in listing ==> n in vcs
  {
    var cnName := GetClusterNetworkFromBridgeName(conf.brName);
    && IsVlanConfigValid(conf)
    && cnName.Some? && (nadLabel != "" ==> nadLabel == cnName.value)
    && cnName.value in cns
    && ExpectedMtu(cns[cnName.value], vcs, listing).Some?
    && AreEqualMTUs(ExpectedMtu(cns[cnName.value], vcs, listing).value, conf.mtu)
  }

  /** The MTUs that a listing by label may put first, and the default if it is empty. */
  ghost function MtusUnder(vcs: VlanConfigs, cnLabel: string): (r: set<nat>)
  {
    if exists n :: n in vcs && vcs[n].cnLabel == Some(cnLabel)
    then set n | n in vcs && vcs[n].cnLabel == Some(cnLabel) :: TargetMtu(vcs[n])
    else {DEFAULT_MTU}
  }

  lemma ListingMtu(cn: ClusterNetwork, vcs: VlanConfigs, listing: seq<string>, cnLabel: string)
    requires cn.mtuAnnotation.None? && Lists(listing, vcs, cnLabel)
    ensures ExpectedMtu(cn, vcs, listing).value in MtusUnder(vcs, cnLabel)
  {
    if listing != [] {
      assert listing[0] in listing;
    }
  }

  /** Every MTU under a label comes first in some listing. */
  lemma ListingFor(cn: ClusterNetwork, vcs: VlanConfigs, cnLabel: string, mtu: nat) returns (listing: seq<string>)
    requires cn.mtuAnnotation.None? && mtu in MtusUnder(vcs, cnLabel)
    ensures Lists(listing, vcs, cnLabel) && ExpectedMtu(cn, vcs, listing) == Some(mtu)
  {
    if exists n :: n in vcs && vcs[n].cnLabel == Some(cnLabel) {
      var first :| first in vcs && vcs[first].cnLabel == Some(cnLabel) && TargetMtu(vcs[first]) == mtu;
      var all := set n | n in vcs && vcs[n].cnLabel == Some(cnLabel);
      var rest := Enumerate(all);
      listing := [first] + rest;
      assert forall n :: n in listing <==> n == first || n in rest;
    } else {
      listing := [];
    }
  }

  lemma {:induction false} Enumerate(s: set<string>) returns (r: seq<string>)
    ensures forall x :: x in r <==> x in s
  {
    if s == {} {
      r := [];
    } else {
      var x :| x in s;
      var rest := Enumerate(s - {x});
      r := [x] + rest;
    }
  }

  /** A bridge NAD on a cluster network that is right in everything but, perhaps, its MTU. */
  predicate OtherwiseValid(conf: NetConf, cnName: string, nadLabel: string, cns: ClusterNetworks) {
    && !conf.cniType.KubeOvnCni? && IsVlanConfigValid(conf)
    && GetClusterNetworkFromBridgeName(conf.brName) == Some(cnName) && (nadLabel != "" ==> nadLabel == cnName)
    && cnName in cns && NetworkMtu(cns[cnName]).Some?
  }

  /** The patched NAD is accepted, in whichever orders the two webhooks list the VlanConfigs. */
  ghost predicate AlwaysPasses(conf: NetConf, cnName: string, nadLabel: string, cns: ClusterNetworks,
                               vcs: VlanConfigs) {
    forall m, v :: Lists(m, vcs, cnName) && Lists(v, vcs, nadLabel) ==>
      PatchMTU(conf, cns, vcs, m).Some? && CheckNadConfig(PatchMTU(conf, cns, vcs, m).value, nadLabel, cns, vcs, v)
  }

  lemma PatchThenCheck(conf: NetConf, cnName: string, nadLabel: string, cns: ClusterNetworks, vcs: VlanConfigs,
                       m: seq<string>, v: seq<string>)
    requires OtherwiseValid(conf, cnName, nadLabel, cns) && Lists(m, vcs, cnName) && Lists(v, vcs, nadLabel)
    ensures var patched := PatchMTU(conf, cns, vcs, m);
            patched.Some? && (CheckNadConfig(patched.value, nadLabel, cns, vcs, v) <==>
                              ExpectedMtu(cns[cnName], vcs, m) == ExpectedMtu(cns[cnName], vcs, v))
  {
    var patched := PatchMTU(conf, cns, vcs, m);
    var a, b := ExpectedMtu(cns[cnName], vcs, m), ExpectedMtu(cns[cnName], vcs, v);
    EqualMTUsIsEquivalence(b.value, patched.value.mtu, a.value);
    assert IsVlanConfigValid(patched.value);
  }

  /** On an annotated network both webhooks go by the annotation, and the patch changes nothing but the MTU. */
  lemma AnnotatedMtuRules(conf: NetConf, cnName: string, nadLabel: string, cns: ClusterNetworks, vcs: VlanConfigs,
                          m: seq<string>, v: seq<string>)
    requires OtherwiseValid(conf, cnName, nadLabel, cns) && Lists(m, vcs, cnName) && Lists(v, vcs, nadLabel)
    requires cns[cnName].mtuAnnotation.Some?
    ensures var patched := PatchMTU(conf, cns, vcs, m);
            patched.Some? && AreEqualMTUs(patched.value.mtu, NetworkMtu(cns[cnName]).value)
            && patched.value.(mtu := conf.mtu) == conf
    ensures CheckNadConfig(conf, nadLabel, cns, vcs, v) <==> AreEqualMTUs(conf.mtu, NetworkMtu(cns[cnName]).value)
  {
  }

  /** On another network they go by the first VlanConfig of their listing, and by the default if there is none. */
  lemma UnannotatedMtuRules(conf: NetConf, cnName: string, nadLabel: string, cns: ClusterNetworks, vcs: VlanConfigs,
                            m: seq<string>, v: seq<string>)
    requires OtherwiseValid(conf, cnName, nadLabel, cns) && Lists(m, vcs, cnName) && Lists(v, vcs, nadLabel)
    requires cns[cnName].mtuAnnotation.None?
    ensures var patched := PatchMTU(conf, cns, vcs, m);
            && patched.Some? && patched.value.(mtu := conf.mtu) == conf
            && (m != [] && m[0] in vcs && IsValidMTU(GetMTU(vcs[m[0]])) ==>
                  AreEqualMTUs(patched.value.mtu, GetMTU(vcs[m[0]])))
            && (m == [] ==> AreEqualMTUs(patched.value.mtu, 0))
    ensures v != [] && v[0] in vcs && IsValidMTU(GetMTU(vcs[v[0]])) ==>
              (CheckNadConfig(conf, nadLabel, cns, vcs, v) <==> AreEqualMTUs(conf.mtu, GetMTU(vcs[v[0]])))
    ensures v == [] ==> (CheckNadConfig(conf, nadLabel, cns, vcs, v) <==> AreEqualMTUs(conf.mtu, 0))
  {
    var a, b := ExpectedMtu(cns[cnName], vcs, m).value, ExpectedMtu(cns[cnName], vcs, v).value;
    assert PatchMTU(conf, cns, vcs, m).Some?;
    EqualMTUsIsEquivalence(a, PatchMTU(conf, cns, vcs, m).value.mtu, a);
    EqualMTUsIsEquivalence(b, conf.mtu, b);
  }

  /** The validating webhook accepts what the mutating one patched, whatever the listing orders, exactly when
      the network has an MTU annotation, or every VlanConfig that either may pick asks for the same MTU. */
  lemma PatchedNadPasses(conf: NetConf, cnName: string, nadLabel: string, cns: ClusterNetworks, vcs: VlanConfigs)
    requires OtherwiseValid(conf, cnName, nadLabel, cns)
    ensures AlwaysPasses(conf, cnName, nadLabel, cns, vcs) <==>
            || cns[cnName].mtuAnnotation.Some?
            || forall a, b :: a in MtusUnder(vcs, cnName) && b in MtusUnder(vcs, nadLabel) ==> a == b
  {
    var cn := cns[cnName];
    forall m, v | Lists(m, vcs, cnName) && Lists(v, vcs, nadLabel)
      ensures PatchMTU(conf, cns, vcs, m).Some?
      ensures CheckNadConfig(PatchMTU(conf, cns, vcs, m).value, nadLabel, cns, vcs, v) <==>
              ExpectedMtu(cn, vcs, m) == ExpectedMtu(cn, vcs, v)
      ensures cn.mtuAnnotation.None? ==>
                ExpectedMtu(cn, vcs, m).value in MtusUnder(vcs, cnName)
                && ExpectedMtu(cn, vcs, v).value in MtusUnder(vcs, nadLabel)
    {
      PatchThenCheck(conf, cnName, nadLabel, cns, vcs, m, v);
      if cn.mtuAnnotation.None? {
        ListingMtu(cn, vcs, m, cnName);
        ListingMtu(cn, vcs, v, nadLabel);
      }
    }
    if cn.mtuAnnotation.None? {
      if a, b :| a in MtusUnder(vcs, cnName) && b in MtusUnder(vcs, nadLabel) && a != b {
        var m := ListingFor(cn, vcs, cnName, a);
        var v := ListingFor(cn, vcs, nadLabel, b);
      }
    }
  }

  /** So a labelled NAD passes while the network has one MTU and none of its VlanConfigs is being deleted. */
  lemma LabelledNadPasses(conf: NetConf, cnName: string, cns: ClusterNetworks, s: State)
    requires Inv(s) && cnName != MGMT && OtherwiseValid(conf, cnName, cnName, cns)
    requires forall n :: n in s.vcs && s.vcs[n].cnLabel == Some(cnName) ==> Live(s.vcs[n])
    ensures AlwaysPasses(conf, cnName, cnName, cns, s.vcs)
  {
    forall p, q | p in s.vcs && q in s.vcs && s.vcs[p].cnLabel == s.vcs[q].cnLabel == Some(cnName)
      ensures TargetMtu(s.vcs[p]) == TargetMtu(s.vcs[q])
    {
      assert Labelled(s.vcs[p]) && Labelled(s.vcs[q]);
    }
    PatchedNadPasses(conf, cnName, cnName, cns, s.vcs);
  }

  /** Without an annotation on the network, a NAD that carries no label is refused after being patched,
      if the VlanConfigs of the network ask for an MTU other than the default. */
  lemma UnlabelledNadRefused(conf: NetConf, cnName: string, cns: ClusterNetworks, vcs: VlanConfigs, m: seq<string>)
    requires OtherwiseValid(conf, cnName, "", cns) && cns[cnName].mtuAnnotation.None?
    requires Lists(m, vcs, cnName) && Lists([], vcs, "")
    requires m != [] && forall x :: x in m ==> TargetMtu(vcs[x]) != DEFAULT_MTU
    ensures PatchMTU(conf, cns, vcs, m).Some? && !CheckNadConfig(PatchMTU(conf, cns, vcs, m).value, "", cns, vcs, [])
  {
    assert m[0] in m;
    PatchThenCheck(conf, cnName, "", cns, vcs, m, []);
  }

  // ----- Two runs that end in such a refusal -----

  const CONF := NetConf(BridgeCni, "c-br", 0, 10, [])

  function WithMtu(mtu: int): (r: VlanConfig)
  {
    VlanConfig("c", Uplink([], Some(mtu), ""), Some("c"), {}, false)
  }

  /** A VlanConfig with MTU 9000 that the manager has not handled yet. */
  function UnhandledSteps(env: Env): (r: seq<Step>)
  {
    [CreateCn("c", ClusterNetwork(None, None, false, false)), CreateVc("x", WithMtu(9000), false, {}, env)]
  }

  lemma UnhandledRun(env: Env)
    requires env.statusVc == map[]
    ensures Run(EMPTY, UnhandledSteps(env)) ==
            State(map["x" := WithMtu(9000)], map["c" := ClusterNetwork(None, None, false, false)], {})
  {
    var steps := UnhandledSteps(env);
    var s1 := Next(EMPTY, steps[0]);
    assert s1 == State(map[], map["c" := steps[0].cn], {});
    assert Created(steps[1]) == WithMtu(9000) && "c"[0] != MGMT[0];
    var s2 := Next(s1, steps[1]);
    assert s2 == State(map["x" := WithMtu(9000)], s1.cns, {});
    assert Run(EMPTY, steps) == Run(s1, steps[1..]) && steps[1..][1..] == [];
    assert Run(s1, steps[1..]) == Run(s2, []);
  }

  lemma ConfIsValid(nadLabel: string, cns: ClusterNetworks)
    requires nadLabel in {"", "c"} && "c" in cns && cns["c"].mtuAnnotation.None?
    ensures OtherwiseValid(CONF, "c", nadLabel, cns)
  {
    assert "c-br"[1..] == BRIDGE_SUFFIX && "c-br"[..1] == "c";
  }

  /** There the NAD without a label is refused after being patched. */
  lemma UnlabelledRefusedRun(env: Env)
    requires env.statusVc == map[]
    ensures var s := Run(EMPTY, UnhandledSteps(env));
            && Lists(["x"], s.vcs, "c") && Lists([], s.vcs, "") && PatchMTU(CONF, s.cns, s.vcs, ["x"]).Some?
            && !CheckNadConfig(PatchMTU(CONF, s.cns, s.vcs, ["x"]).value, "", s.cns, s.vcs, [])
  {
    UnhandledRun(env);
    var s := Run(EMPTY, UnhandledSteps(env));
    ConfIsValid("", s.cns);
    UnlabelledNadRefused(CONF, "c", s.cns, s.vcs, ["x"]);
  }

  /** The VlanConfig is being deleted, and another one with the default MTU takes its place. */
  function ReplacedSteps(env: Env): (r: seq<Step>)
  {
    UnhandledSteps(env) + [DeleteVc("x", false, env), CreateVc("y", WithMtu(1500), false, {}, env)]
  }

  lemma ReplacedRun(env: Env)
    requires env.nads == [] && env.vmis == [] && env.statusVc == map[]
    ensures Run(EMPTY, ReplacedSteps(env)) ==
            State(map["x" := WithMtu(9000).(deleting := true), "y" := WithMtu(1500)],
                  map["c" := ClusterNetwork(None, None, false, false)], {})
  {
    var steps := ReplacedSteps(env);
    UnhandledRun(env);
    var first := UnhandledSteps(env);
    assert Run(EMPTY, first) == Next(Next(EMPTY, first[0]), first[1]) by {
      assert first[1..][1..] == [] && first[1..][0] == first[1];
      assert Run(Next(EMPTY, first[0]), first[1..]) == Run(Next(Next(EMPTY, first[0]), first[1]), []);
    }
    var s2 := Run(EMPTY, first);
    var s3 := Next(s2, steps[2]);
    assert s3 == State(map["x" := WithMtu(9000).(deleting := true)], s2.cns, {});
    assert Created(steps[3]) == WithMtu(1500) && "c"[0] != MGMT[0] && "x"[0] != "y"[0];
    var s4 := Next(s3, steps[3]);
    assert s4.vcs == map["x" := WithMtu(9000).(deleting := true), "y" := WithMtu(1500)];
    RunUnfolds(EMPTY, steps);
    assert steps[4..] == [];
  }

  /** There even the labelled NAD is refused for some listing orders. */
  lemma LabelledRefusedRun(env: Env)
    requires env.nads == [] && env.vmis == [] && env.statusVc == map[]
    ensures var s := Run(EMPTY, ReplacedSteps(env)); !AlwaysPasses(CONF, "c", "c", s.cns, s.vcs)
  {
    ReplacedRun(env);
    var s := Run(EMPTY, ReplacedSteps(env));
    ConfIsValid("c", s.cns);
    assert "x" in s.vcs && TargetMtu(s.vcs["x"]) == 9000 && TargetMtu(s.vcs["y"]) == 1500;
    assert 9000 in MtusUnder(s.vcs, "c") && 1500 in MtusUnder(s.vcs, "c");
    PatchedNadPasses(CONF, "c", "c", s.cns, s.vcs);
  }
}
