/** Names of VlanStatus objects, built from a cluster network and a node. */
module StatusNames {
  import opened DeviceNames

  /** CRC-32 in eight hexadecimal digits; only that it is a function matters. */
  type Checksum = string -> string

  // 63 characters for a Kubernetes name, less the dash and the checksum
  const MAX_STEM_LEN := 54

  function Stem(cn: string, node: string): (r: string)
  {
    var whole := cn + "-" + node;
    if |whole| > MAX_STEM_LEN then whole[..MAX_STEM_LEN] else whole
  }

  function StatusName(crc: Checksum, cn: string, node: string): (r: string)
  {
    Stem(cn, node) + "-" + crc(cn + "-" + node)
  }

  /** Two networks clash if one name continues the other after a dash. */
  predicate Clash(c: string, d: string) {
    c + "-" <= d || d + "-" <= c
  }

  lemma NameStartsWithNetwork(crc: Checksum, cn: string, node: string)
    requires IsClusterNetworkNameValid(cn)
    ensures cn + "-" <= StatusName(crc, cn, node)
  {
    assert (cn + "-")[..] <= Stem(cn, node);
  }

  /** The status names of two different networks can coincide exactly when the networks clash. */
  lemma StatusNameCollision(crc: Checksum, c: string, d: string)
    requires IsClusterNetworkNameValid(c) && IsClusterNetworkNameValid(d) && c != d
    ensures (exists n, m :: StatusName(crc, c, n) == StatusName(crc, d, m)) <==> Clash(c, d)
  {
    if c + "-" <= d {
      ContinuedName(crc, c, d);
    } else if d + "-" <= c {
      ContinuedName(crc, d, c);
    } else {
      forall n, m
        ensures StatusName(crc, c, n) != StatusName(crc, d, m)
      {
        if StatusName(crc, c, n) == StatusName(crc, d, m) {
          SameStart(crc, c, n, d, m);
        }
      }
    }
  }

  lemma SameStart(crc: Checksum, c: string, n: string, d: string, m: string)
    requires IsClusterNetworkNameValid(c) && IsClusterNetworkNameValid(d)
    requires StatusName(crc, c, n) == StatusName(crc, d, m)
    ensures c == d || Clash(c, d)
  {
    var s := StatusName(crc, c, n);
    NameStartsWithNetwork(crc, c, n);
    NameStartsWithNetwork(crc, d, m);
    assert s[..|c|] == (c + "-")[..|c|] == c && s[..|d|] == (d + "-")[..|d|] == d;
    if |c| < |d| {
      assert s[..|c| + 1] == c + "-" && s[..|c| + 1] == d[..|c| + 1];
    } else if |d| < |c| {
      assert s[..|d| + 1] == d + "-" && s[..|d| + 1] == c[..|d| + 1];
    }
  }

  lemma ContinuedName(crc: Checksum, c: string, d: string)
    requires c + "-" <= d
    ensures StatusName(crc, c, d[|c| + 1..] + "-" + "node") == StatusName(crc, d, "node")
  {
    assert d == c + "-" + d[|c| + 1..];
    assert c + "-" + (d[|c| + 1..] + "-" + "node") == d + "-" + "node";
  }
}
