/** VLAN identifiers, sets of them in ascending order, and their printed form. */
module VlanIds {
  import opened GoStrings

  // Clause 9.6 of IEEE Std 802.1Q reserves 0 and 4095; 1 is the default PVID.
  const MIN_VLAN_ID := 0
  const DEFAULT_VLAN_ID := 1
  const MAX_VLAN_ID := 4094
  const VLAN_ID_COUNT := 4096

  predicate InRange(vid: int) {
    MIN_VLAN_ID <= vid <= MAX_VLAN_ID
  }

  /** The VIDs that the reconciler adds and removes; the default VID is never touched. */
  predicate Managed(vid: int) {
    DEFAULT_VLAN_ID < vid <= MAX_VLAN_ID
  }

  ghost function ManagedOf(vids: set<nat>): (r: set<nat>)
  {
    set v | v in vids && Managed(v)
  }

  ghost function Below(vids: set<nat>, n: nat): (r: set<nat>)
  {
    set v | v in vids && v < n
  }

  lemma BelowStep(vids: set<nat>, n: nat)
    ensures n in vids ==> Below(vids, n + 1) == Below(vids, n) + {n}
    ensures n !in vids ==> Below(vids, n + 1) == Below(vids, n)
  {
  }

  lemma BelowEnds(vids: set<nat>)
    requires Storable(vids)
    ensures Below(vids, DEFAULT_VLAN_ID) == {} && Below(vids, MAX_VLAN_ID + 1) == vids
    ensures Below(ManagedOf(vids), DEFAULT_VLAN_ID + 1) == {}
    ensures Below(ManagedOf(vids), MAX_VLAN_ID + 1) == ManagedOf(vids)
  {
  }

  /** What a VLAN set may hold: VID 0 stands for "untagged" and is never stored. */
  ghost predicate Storable(vids: set<nat>) {
    forall v :: v in vids ==> MIN_VLAN_ID < v <= MAX_VLAN_ID
  }

  function Elements(s: seq<nat>): (r: set<nat>)
  {
    set v | v in s
  }

  predicate StrictlyAscending(s: seq<nat>) {
    forall i, j :: 0 <= i < j < |s| ==> s[i] < s[j]
  }

  ghost function Min(s: set<nat>): (m: nat)
    requires s != {}
    ensures m in s && forall v :: v in s ==> m <= v
  {
    var x :| x in s;
    if s == {x} then x
    else
      var m := Min(s - {x});
      assert forall v :: v in s ==> v == x || v in s - {x};
      if x < m then x else m
  }

  lemma PrependMin(m: nat, rest: seq<nat>, s: set<nat>)
    requires m in s && forall v :: v in s ==> m <= v
    requires StrictlyAscending(rest) && Elements(rest) == s - {m}
    ensures StrictlyAscending([m] + rest) && Elements([m] + rest) == s
  {
    assert forall i :: 0 <= i < |rest| ==> rest[i] in Elements(rest);
    assert forall v :: v in [m] + rest <==> v == m || v in rest;
    assert forall v :: v in rest <==> v in Elements(rest);
  }

  lemma {:induction false} SortedExists(s: set<nat>) returns (r: seq<nat>)
    ensures StrictlyAscending(r) && Elements(r) == s
  {
    if s == {} {
      r := [];
    } else {
      var m := Min(s);
      var rest := SortedExists(s - {m});
      PrependMin(m, rest, s);
      r := [m] + rest;
    }
  }

  /** The elements of a set in ascending order. */
  ghost function Sorted(s: set<nat>): (r: seq<nat>)
    ensures StrictlyAscending(r) && Elements(r) == s
  {
    assert exists r :: StrictlyAscending(r) && Elements(r) == s by { var r := SortedExists(s); }
    var r :| StrictlyAscending(r) && Elements(r) == s;
    r
  }

  lemma ElementsEmpty(s: seq<nat>)
    ensures s == [] <==> Elements(s) == {}
  {
    if s != [] {
      assert s[0] in Elements(s);
    }
  }

  lemma {:induction false} AscendingUnique(a: seq<nat>, b: seq<nat>)
    requires StrictlyAscending(a) && StrictlyAscending(b)
    requires Elements(a) == Elements(b)
    ensures a == b
  {
    ElementsEmpty(a);
    ElementsEmpty(b);
    if a != [] && b != [] {
      assert a[0] in Elements(b);
      assert a[0] in Elements(a) && b[0] in Elements(b);
      assert a[0] == b[0];
      forall v
        ensures v in a[1..] <==> v in b[1..]
      {
        assert v in a <==> v in b by { assert v in Elements(a) <==> v in Elements(b); }
      }
      AscendingUnique(a[1..], b[1..]);
      assert a == [a[0]] + a[1..] && b == [b[0]] + b[1..];
    }
  }

  lemma AscendingIsSorted(a: seq<nat>)
    requires StrictlyAscending(a)
    ensures a == Sorted(Elements(a))
  {
    AscendingUnique(a, Sorted(Elements(a)));
  }

  lemma SortedSmall(v: nat)
    ensures Sorted({}) == [] && Sorted({v}) == [v]
  {
    AscendingIsSorted([]);
    AscendingIsSorted([v]);
    assert Elements([]) == {} && Elements([v]) == {v};
  }

  lemma {:induction false} AscendingCardinality(a: seq<nat>)
    requires StrictlyAscending(a)
    ensures |a| == |Elements(a)|
  {
    ElementsEmpty(a);
    if a != [] {
      AscendingCardinality(a[1..]);
      assert forall v :: v in a <==> v == a[0] || v in a[1..];
      assert Elements(a) == Elements(a[1..]) + {a[0]};
    }
  }

  /** A member of a set can be appended to the ascending enumeration of what lies below it. */
  lemma ExtendAscending(done: seq<nat>, n: nat, vids: set<nat>)
    requires StrictlyAscending(done) && n in vids
    requires Elements(done) == Below(vids, n)
    ensures |done| < |vids|
    ensures StrictlyAscending(done + [n]) && Elements(done + [n]) == Below(vids, n + 1)
  {
    AscendingCardinality(done);
    assert n !in Elements(done) && Elements(done) <= vids - {n};
    SubsetCardinality(Elements(done), vids - {n});
    assert forall j :: 0 <= j < |done| ==> done[j] in Elements(done);
    BelowStep(vids, n);
    assert forall v :: v in done + [n] <==> v in done || v == n;
    assert forall v :: v in done <==> v in Elements(done);
  }

  lemma SubsetCardinality(a: set<nat>, b: set<nat>)
    requires a <= b
    ensures |a| <= |b|
  {
    assert |b| == |a| + |b - a| by { assert b == a + (b - a) && a !! (b - a); }
  }

  lemma {:induction false} BoundedCardinality(vids: set<nat>, n: nat)
    requires forall v :: v in vids ==> 1 <= v <= n
    ensures |vids| <= n
  {
    if n == 0 {
      assert vids == {};
    } else {
      BoundedCardinality(vids - {n}, n - 1);
      SubsetCardinality(vids, (vids - {n}) + {n});
    }
  }

  lemma StorableCardinality(vids: set<nat>)
    requires Storable(vids)
    ensures |vids| <= MAX_VLAN_ID
  {
    BoundedCardinality(vids, MAX_VLAN_ID);
  }

  function Itoas(vids: seq<nat>): (r: seq<string>)
    ensures |r| == |vids|
    ensures forall i :: 0 <= i < |r| ==> r[i] == Itoa(vids[i])
  {
    seq(|vids|, i requires 0 <= i < |vids| => Itoa(vids[i]))
  }

  /** The printed form of a VID set: ascending decimals joined by commas. */
  ghost function Printed(vids: set<nat>): (s: string)
    requires Storable(vids)
  {
    Join(Itoas(Sorted(vids)), ',')
  }

  predicate ReadsAsNat(s: string) {
    Atoi(s).Some? && Atoi(s).value >= 0
  }

  function ReadNat(s: string): (n: nat)
  {
    if ReadsAsNat(s) then Atoi(s).value else 0
  }

  function ReadAll(parts: seq<string>): (r: set<nat>)
  {
    set p | p in parts :: ReadNat(p)
  }

  /** Reads the printed form back; the empty string is the empty set. */
  function Parsed(s: string): (r: Option<set<nat>>)
  {
    if s == "" then Some({})
    else
      var parts := Split(s, ',');
      if forall p :: p in parts ==> ReadsAsNat(p) then Some(ReadAll(parts))
      else None
  }

  lemma ItoasHaveNoComma(vids: seq<nat>)
    ensures forall p :: p in Itoas(vids) ==> ',' !in p && p != ""
  {
  }

  lemma JoinNonEmpty(parts: seq<string>, sep: char)
    requires parts != [] && parts[0] != ""
    ensures Join(parts, sep) != ""
  {
  }

  lemma ItoasRead(vids: seq<nat>)
    requires forall i :: 0 <= i < |vids| ==> vids[i] <= MAX_INT64
    ensures forall p :: p in Itoas(vids) ==> ReadsAsNat(p)
    ensures ReadAll(Itoas(vids)) == Elements(vids)
  {
    var parts := Itoas(vids);
    forall i | 0 <= i < |parts|
      ensures Atoi(parts[i]) == Some(vids[i])
    {
      AtoiItoa(vids[i]);
    }
    forall v | v in Elements(vids)
      ensures v in ReadAll(parts)
    {
      var i :| 0 <= i < |vids| && vids[i] == v;
      assert parts[i] in parts;
    }
  }

  lemma PrintedSeqParsed(order: seq<nat>)
    requires forall i :: 0 <= i < |order| ==> order[i] <= MAX_INT64
    ensures Parsed(Join(Itoas(order), ',')) == Some(Elements(order))
  {
    ElementsEmpty(order);
    if order != [] {
      ItoasHaveNoComma(order);
      SplitJoin(Itoas(order), ',');
      JoinNonEmpty(Itoas(order), ',');
      ItoasRead(order);
    }
  }

  /** The printed form determines the set. */
  lemma PrintedParsed(vids: set<nat>)
    requires Storable(vids)
    ensures Parsed(Printed(vids)) == Some(vids)
  {
    var order := Sorted(vids);
    assert forall i :: 0 <= i < |order| ==> order[i] in Elements(order);
    PrintedSeqParsed(order);
  }

  /** Distinct VID sets print differently. */
  lemma PrintedInjective(a: set<nat>, b: set<nat>)
    requires Storable(a) && Storable(b)
    ensures Printed(a) == Printed(b) <==> a == b
  {
    PrintedParsed(a);
    PrintedParsed(b);
  }

  /** The parts are decimal, ascending and separated by commas. */
  lemma PrintedExample()
    ensures Printed({10, 2}) == "2,10"
  {
    var order: seq<nat> := [2, 10];
    assert Elements(order) == {10, 2};
    AscendingIsSorted(order);
    assert order[1..] == [10] && Itoa(2) == "2" && Itoa(10) == Itoa(1) + "0" && Itoa(1) == "1";
    var parts := Itoas(order);
    assert Itoa(10) == "10";
    assert parts[0] == "2" && parts[1] == "10" && |parts| == 2;
    assert parts[1..] == ["10"];
    assert Join(parts, ',') == parts[0] + [','] + Join(parts[1..], ',');
  }
}
