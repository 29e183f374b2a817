/** MTU values: 0 means "not configured" and stands for the default. */
module Mtus {
  import opened GoStrings

  const DEFAULT_MTU := 1500
  const MIN_MTU := 576
  const MAX_MTU := 9000

  predicate IsValidMTU(mtu: int) {
    mtu == 0 || MIN_MTU <= mtu <= MAX_MTU
  }

  predicate AreEqualMTUs(a: int, b: int) {
    a == b || (a == 0 && b == DEFAULT_MTU) || (a == DEFAULT_MTU && b == 0)
  }

  function MTUDefaultTo(mtu: int): (r: int)
  {
    if mtu == 0 then DEFAULT_MTU else mtu
  }

  function GetMTUFromString(s: string): (r: Option<int>)
    ensures r.Some? ==> IsValidMTU(r.value)
  {
    var n := Atoi(s);
    if n.Some? && IsValidMTU(n.value) then n else None
  }

  /** MTU equality is the equivalence "same value once 0 is read as the default". */
  lemma EqualMTUsIsEquivalence(a: int, b: int, c: int)
    ensures AreEqualMTUs(a, b) <==> MTUDefaultTo(a) == MTUDefaultTo(b)
    ensures AreEqualMTUs(a, a) && (AreEqualMTUs(a, b) ==> AreEqualMTUs(b, a))
    ensures AreEqualMTUs(a, b) && AreEqualMTUs(b, c) ==> AreEqualMTUs(a, c)
  {
  }

  lemma PrintedMtuReadsBack(mtu: nat)
    requires IsValidMTU(mtu)
    ensures GetMTUFromString(Itoa(mtu)) == Some(mtu)
  {
    AtoiItoa(mtu);
  }
}
