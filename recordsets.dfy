/** `create_resource_record_set` and the shape of a Route53 A record set. */
module RecordSets {
  import opened Wrappers
  import opened Strings

  /** One `{'Value': ip}` entry of `ResourceRecords`. */
  datatype ResourceRecord = ResourceRecord(value: Option<string>)

  /** A record set: `{'Name', 'Type', 'TTL', 'ResourceRecords'}`. */
  datatype ResourceRecordSet = ResourceRecordSet(
    name: string,
    rtype: string,
    ttl: int,
    resourceRecords: seq<ResourceRecord>)

  const DefaultTtl: int := 300

  /** The `Value` of each entry, in order. */
  function ValuesOf(rrs: seq<ResourceRecord>): (vs: seq<Option<string>>)
    ensures |vs| == |rrs|
    ensures forall i :: 0 <= i < |rrs| ==> vs[i] == rrs[i].value
  {
    seq(|rrs|, i requires 0 <= i < |rrs| => rrs[i].value)
  }

  /** `set(rec['Value'] for rec in resource_records)`. */
  function ValueSet(rrs: seq<ResourceRecord>): (s: set<Option<string>>)
    ensures forall v :: v in s <==> v in ValuesOf(rrs)
  {
    set r | r in rrs :: r.value
  }

  /** `[{'Value': ip_addr} for ip_addr in ip_addresses]`. */
  function RecordsOf(ips: seq<Option<string>>): (rrs: seq<ResourceRecord>)
    ensures ValuesOf(rrs) == ips
  {
    seq(|ips|, i requires 0 <= i < |ips| => ResourceRecord(ips[i]))
  }

  /** The values of freshly built entries are the addresses they were built from. */
  lemma ValueSetOfRecords(ips: seq<Option<string>>)
    ensures forall v :: v in ValueSet(RecordsOf(ips)) <==> v in ips
  {
    assert ValuesOf(RecordsOf(ips)) == ips;
  }

  /** `create_resource_record_set(hostname, zone_name, ip_addresses, ttl=300)`. */
  function CreateResourceRecordSet(hostname: string, zoneName: string, ipAddresses: seq<Option<string>>,
                                   ttl: int := DefaultTtl): (r: ResourceRecordSet)
    ensures r.name == hostname + "." + zoneName + "."
    ensures r.rtype == "A" && r.ttl == ttl
    ensures ValuesOf(r.resourceRecords) == ipAddresses
  {
    ResourceRecordSet(hostname + "." + zoneName + ".", "A", ttl, RecordsOf(ipAddresses))
  }

  /** The record set is determined by its arguments: what `ValuesOf` and `FirstLabel` read back is what went in. */
  lemma CreateRoundTrip(hostname: string, zoneName: string, ipAddresses: seq<Option<string>>, ttl: int)
    requires '.' !in hostname
    ensures FirstLabel(CreateResourceRecordSet(hostname, zoneName, ipAddresses, ttl).name) == hostname
    ensures ValuesOf(CreateResourceRecordSet(hostname, zoneName, ipAddresses, ttl).resourceRecords) == ipAddresses
    ensures |CreateResourceRecordSet(hostname, zoneName, ipAddresses, ttl).resourceRecords| == |ipAddresses|
  {
    FirstLabelOfDotted(hostname, zoneName + ".");
    assert hostname + "." + zoneName + "." == hostname + "." + (zoneName + ".");
  }

  /** The docstring example of `create_resource_record_set`. */
  lemma DocstringExample()
    ensures CreateResourceRecordSet("foo", "bar.baz", [Some("1.2.3.4"), Some("5.6.7.8")])
         == ResourceRecordSet("foo.bar.baz.", "A", 300,
                              [ResourceRecord(Some("1.2.3.4")), ResourceRecord(Some("5.6.7.8"))])
  {
    var r := CreateResourceRecordSet("foo", "bar.baz", [Some("1.2.3.4"), Some("5.6.7.8")]);
    assert r.resourceRecords == [ResourceRecord(Some("1.2.3.4")), ResourceRecord(Some("5.6.7.8"))];
  }
}
