/** The (hostname, IP address) value compared between the tag inventory and the zone. */
module Models {
  import opened Wrappers

  /** An IP address as the script handles it: `None` stands for an instance without a private address. */
  type Ip = Option<string>

  /** `HostIP(hostname, ip_address=None)`: immutable, compared and hashed by both fields. */
  datatype HostIP = HostIP(hostname: string, ipAddress: Ip := None)

  /** `HostIP.__eq__`: the same hostname and the same address. */
  function Equals(a: HostIP, b: HostIP): (r: bool)
    ensures r <==> a == b
  {
    a.hostname == b.hostname && a.ipAddress == b.ipAddress
  }

  /** The tuple `__hash__` hashes; Python's hash of it is left abstract. */
  function HashKey(h: HostIP): (k: (string, Ip))
    ensures k.0 == h.hostname && k.1 == h.ipAddress
  {
    (h.hostname, h.ipAddress)
  }

  /** Equal values have equal hash keys, and the key determines the value. */
  lemma HashAgreesWithEquals(a: HostIP, b: HostIP)
    ensures Equals(a, b) <==> HashKey(a) == HashKey(b)
  {
  }

  /** Omitting the address gives `None`. */
  lemma DefaultAddress(hostname: string)
    ensures HostIP(hostname).ipAddress == None
    ensures HostIP(hostname) == HostIP(hostname, None)
  {
  }

  /** One hostname with two addresses gives two set elements, so a snapshot holds several IPs per host. */
  lemma SeveralAddressesPerHost(hostname: string, a: Ip, b: Ip)
    requires a != b
    ensures |{HostIP(hostname, a), HostIP(hostname, b)}| == 2
  {
  }

  /** The hostnames occurring in a snapshot: the keys `create_merged_diff` groups by. */
  function Hostnames(s: set<HostIP>): (r: set<string>)
    ensures forall n :: n in r <==> exists h :: h in s && h.hostname == n
  {
    set h | h in s :: h.hostname
  }

  /** The addresses a snapshot holds for one hostname. */
  function IpsOf(s: set<HostIP>, hostname: string): (r: set<Ip>)
    ensures forall ip :: ip in r <==> HostIP(hostname, ip) in s
  {
    set h | h in s && h.hostname == hostname :: h.ipAddress
  }

  /** A hostname occurs in a snapshot exactly when the snapshot holds some address for it. */
  lemma IpsOfNonEmpty(s: set<HostIP>, hostname: string)
    ensures IpsOf(s, hostname) != {} <==> hostname in Hostnames(s)
  {
    if hostname in Hostnames(s) {
      var h :| h in s && h.hostname == hostname;
      assert h.ipAddress in IpsOf(s, hostname);
    }
  }

  /** Two snapshots are equal exactly when they hold the same addresses for every hostname. */
  lemma EqualByHostname(s: set<HostIP>, t: set<HostIP>)
    requires forall n :: IpsOf(s, n) == IpsOf(t, n)
    ensures s == t
  {
    forall h | h in s ensures h in t {
      assert h.ipAddress in IpsOf(s, h.hostname);
    }
    forall h | h in t ensures h in s {
      assert h.ipAddress in IpsOf(t, h.hostname);
    }
  }
}
