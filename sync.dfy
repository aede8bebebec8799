/** `sync_tag_with_zone`: one reconciliation pass from the EC2 tag inventory to the A records of a hosted zone. */
module Sync {
  import opened Wrappers
  import opened Strings
  import opened Models
  import opened RecordSets
  import opened Instances
  import opened Zone
  import opened Merge
  import opened Changes
  import opened Batching
  import opened Convergence

  const HostedZonePrefix := "/hostedzone/"

  /** A bare hosted-zone id gets the `/hostedzone/` prefix; an id that already has it is kept as given. */
  function NormalizeZoneId(zoneId: string): (r: string)
    ensures StartsWith(r, HostedZonePrefix)
    ensures StartsWith(zoneId, HostedZonePrefix) ==> r == zoneId
    ensures !StartsWith(zoneId, HostedZonePrefix) ==> r[|HostedZonePrefix|..] == zoneId
  {
    if StartsWith(zoneId, HostedZonePrefix) then zoneId else HostedZonePrefix + zoneId
  }

  /** Normalising twice is normalising once. */
  lemma NormalizeIdempotent(zoneId: string)
    ensures NormalizeZoneId(NormalizeZoneId(zoneId)) == NormalizeZoneId(zoneId)
  {
  }

  /** The normalised id ends with the id given, so no part of the caller's id is lost. */
  lemma NormalizeKeepsId(zoneId: string)
    ensures var r := NormalizeZoneId(zoneId); |zoneId| <= |r| && r[|r| - |zoneId|..] == zoneId
  {
  }

  /** With `--fqdn` every tag hostname is a first label, so none holds a dot. */
  lemma FqdnTagHostsHaveNoDot(instances: seq<Instance>, vpcIds: seq<string>, hostnameTag: string, includeEc2: bool)
    requires Ec2Hosts(instances, vpcIds, hostnameTag, true, includeEc2).Success?
    ensures forall h :: h in Ec2Hosts(instances, vpcIds, hostnameTag, true, includeEc2).value ==> '.' !in h.hostname
  {
    var hosts := Ec2Hosts(instances, vpcIds, hostnameTag, true, includeEc2).value;
    forall h | h in hosts ensures '.' !in h.hostname {
      var k :| 0 <= k < |instances| && Selected(instances[k], vpcIds, includeEc2)
        && GetInstanceTag(hostnameTag, instances[k].tags, true) == Success(h.hostname)
        && h.ipAddress == instances[k].privateIpAddress;
      FqdnHostnameHasNoDot(hostnameTag, instances[k].tags);
    }
  }

  /** Lines 182-184 of `sync_tag_with_zone`: diff the tag inventory against the zone's A records, merge the diff
      and plan the changes. The plan holds one valid change per merged hostname and none twice; when the zone's
      record names have distinct first labels and the tag hostnames hold no dot, it turns the zone into exactly
      the tag inventory. */
  method PlanChanges(hostsFromTag: set<HostIP>, recordSets: seq<ResourceRecordSet>, zoneName: string)
    returns (changes: seq<Change>, ghost hosts: seq<string>)
    ensures var plan := PlanInput(hostsFromTag, FilterA(recordSets));
      && |hosts| == |changes| && NoDuplicates(hosts)
      && (forall n :: n in hosts <==> n in plan)
      && (forall k :: 0 <= k < |hosts| ==> hosts[k] in plan)
      && (forall k :: 0 <= k < |hosts| ==>
            IsChangeFor(hosts[k], plan[hosts[k]], Lookup(RecordIndex(FilterA(recordSets)), hosts[k]),
                        zoneName, changes[k]))
    ensures UniqueLabels(FilterA(recordSets)) && (forall h :: h in hostsFromTag ==> '.' !in h.hostname) ==>
      ApplyChanges(ZoneHosts(FilterA(recordSets)), changes) == hostsFromTag
  {
    var aRecords := FilterA(recordSets);
    var hostsFromZone := ZoneHosts(aRecords);
    var diff := TagZoneDiff(hostsFromTag, hostsFromZone);
    var zoneDiff := CreateMergedDiff(diff.hostsToAdd, diff.hostsToPrune);
    assert zoneDiff == PlanInput(hostsFromTag, aRecords);
    var planned, plannedHosts := CreateZoneChanges(zoneDiff, aRecords, zoneName);
    // every hostname without a record has addresses to add, so the lookup of `'to_add'` never raises
    PlanInputHasNoKeyError(hostsFromTag, aRecords);
    assert planned.Success?;
    changes, hosts := planned.value, plannedHosts;
    if UniqueLabels(aRecords) && (forall h :: h in hostsFromTag ==> '.' !in h.hostname) {
      PlanConverges(hostsFromTag, aRecords, zoneName, changes, hosts);
    }
  }

  /** The whole pass. The running instances and every record set of the zone are given as snapshots: the EC2
      and Route53 listings are not part of this model. Only the instance-tag lookup can fail; otherwise the
      change list is submitted in batches of 100 under the normalised zone id, and, when the zone's record names
      have distinct first labels and the tag hostnames hold no dot, applying it to the zone yields exactly the
      tag inventory. */
  method SyncTagWithZone(store: ZoneStore, instances: seq<Instance>, recordSets: seq<ResourceRecordSet>,
                         tag: string, fqdn: bool, zoneId: string, zoneName: string, includeEc2: bool,
                         vpcIds: seq<string>)
    returns (err: Option<Error>, ghost changes: seq<Change>, ghost hosts: seq<string>)
    modifies store
    ensures var tagHosts := Ec2Hosts(instances, vpcIds, tag, fqdn, includeEc2);
      && (err.Some? <==> tagHosts.Failure?)
      && (err.Some? ==> err == Some(KeyError(tag)) && store.log == old(store.log))
      && (err.None? ==>
            var plan := PlanInput(tagHosts.value, FilterA(recordSets));
            && |hosts| == |changes| && NoDuplicates(hosts)
            && (forall n :: n in hosts <==> n in plan)
            && (forall k :: 0 <= k < |hosts| ==> hosts[k] in plan)
            && (forall k :: 0 <= k < |hosts| ==>
                  IsChangeFor(hosts[k], plan[hosts[k]], Lookup(RecordIndex(FilterA(recordSets)), hosts[k]),
                              zoneName, changes[k]))
            && store.log == old(store.log) + Submissions(NormalizeZoneId(zoneId), Batches(changes, DefaultBatchSize))
            && Concat(Batches(changes, DefaultBatchSize)) == changes
            && (UniqueLabels(FilterA(recordSets)) && (forall h :: h in tagHosts.value ==> '.' !in h.hostname) ==>
                  ApplyChanges(ZoneHosts(FilterA(recordSets)), changes) == tagHosts.value))
  {
    var normalizedId := NormalizeZoneId(zoneId);
    var tagHosts := Ec2Hosts(instances, vpcIds, tag, fqdn, includeEc2);
    if tagHosts.Failure? {
      return Some(tagHosts.error), [], [];
    }
    var list;
    list, hosts := PlanChanges(tagHosts.value, recordSets, zoneName);
    changes := list;
    err := ApplyZoneChanges(store, normalizedId, list);
    BatchesConcat(list, DefaultBatchSize);
  }
}
