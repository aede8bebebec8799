/** What the change list does to the zone: one reconciliation pass makes the zone's A records hold exactly the
    tag inventory. */
module Convergence {
  import opened Wrappers
  import opened Strings
  import opened Models
  import opened RecordSets
  import opened Zone
  import opened Merge
  import opened Changes

  /** The zone's pairs after Route53 applies one change: the record's name loses its old addresses, and CREATE and
      UPSERT give it those of the submitted record set. */
  function ApplyChange(zone: set<HostIP>, change: Change): set<HostIP>
  {
    var n := FirstLabel(change.resourceRecordSet.name);
    (set h | h in zone && h.hostname != n)
    + (if change.action == Delete then {} else RecordHosts(change.resourceRecordSet))
  }

  /** The changes applied one after the other. */
  function ApplyChanges(zone: set<HostIP>, changes: seq<Change>): set<HostIP>
  {
    if changes == [] then zone
    else ApplyChange(ApplyChanges(zone, changes[..|changes| - 1]), changes[|changes| - 1])
  }

  /** The addresses a change leaves on the hostnames of the zone. */
  lemma ApplyChangeIps(zone: set<HostIP>, change: Change, n: string)
    ensures IpsOf(ApplyChange(zone, change), n) ==
      if n != FirstLabel(change.resourceRecordSet.name) then IpsOf(zone, n) else LeftIps(change)
  {
    var rrs := change.resourceRecordSet;
    var after := ApplyChange(zone, change);
    forall ip ensures ip in IpsOf(after, n) <==> HostIP(n, ip) in after {
    }
    if n == FirstLabel(rrs.name) && change.action != Delete {
      forall ip | ip in ValueSet(rrs.resourceRecords) ensures HostIP(n, ip) in RecordHosts(rrs) {
        var rr :| rr in rrs.resourceRecords && rr.value == ip;
      }
    }
  }

  /** The diff and the merged entries of a reconciliation of `hostsFromTag` against the A records `aRecords`. */
  function PlanInput(hostsFromTag: set<HostIP>, aRecords: seq<ResourceRecordSet>): map<string, HostChange>
  {
    var d := TagZoneDiff(hostsFromTag, ZoneHosts(aRecords));
    MergedDiff(d.hostsToAdd, d.hostsToPrune)
  }

  /** A hostname without a record has nothing to prune, so `zone_diff[hostname]['to_add']` never raises. */
  lemma NoMissingToAdd(hostsFromTag: set<HostIP>, aRecords: seq<ResourceRecordSet>, n: string)
    requires n in PlanInput(hostsFromTag, aRecords) && n !in RecordIndex(aRecords)
    ensures PlanInput(hostsFromTag, aRecords)[n].toAdd.Some?
  {
  }

  /** For a consistent pair of snapshots `create_zone_changes` does not fail. */
  lemma PlanInputHasNoKeyError(hostsFromTag: set<HostIP>, aRecords: seq<ResourceRecordSet>)
    ensures !exists n :: n in PlanInput(hostsFromTag, aRecords) && n !in RecordIndex(aRecords)
                          && PlanInput(hostsFromTag, aRecords)[n].toAdd.None?
  {
    forall n | n in PlanInput(hostsFromTag, aRecords) && n !in RecordIndex(aRecords)
      ensures PlanInput(hostsFromTag, aRecords)[n].toAdd.Some?
    {
      NoMissingToAdd(hostsFromTag, aRecords, n);
    }
  }

  /** Every hostname of the merged diff comes from one of the snapshots, so it holds no dot. */
  lemma PlanHostnameHasNoDot(hostsFromTag: set<HostIP>, aRecords: seq<ResourceRecordSet>, n: string)
    requires forall h :: h in hostsFromTag ==> '.' !in h.hostname
    requires n in PlanInput(hostsFromTag, aRecords)
    ensures '.' !in n
  {
    var zone := ZoneHosts(aRecords);
    var d := TagZoneDiff(hostsFromTag, zone);
    if n in Hostnames(d.hostsToAdd) {
      var h :| h in d.hostsToAdd && h.hostname == n;
    } else {
      var h :| h in d.hostsToPrune && h.hostname == n;
      ZoneHostnamesHaveNoDot(aRecords);
    }
  }

  /** The change made for one hostname names that hostname and leaves on it exactly its tag addresses. */
  lemma ChangeYieldsTagIps(hostsFromTag: set<HostIP>, aRecords: seq<ResourceRecordSet>, zoneName: string,
                           n: string, change: Change)
    requires UniqueLabels(aRecords)
    requires forall h :: h in hostsFromTag ==> '.' !in h.hostname
    requires n in PlanInput(hostsFromTag, aRecords)
    requires IsChangeFor(n, PlanInput(hostsFromTag, aRecords)[n], Lookup(RecordIndex(aRecords), n), zoneName, change)
    ensures FirstLabel(change.resourceRecordSet.name) == n
    ensures LeftIps(change) == IpsOf(hostsFromTag, n)
  {
    if n in RecordIndex(aRecords) {
      RecordedChangeYieldsTagIps(hostsFromTag, aRecords, zoneName, n, change);
    } else {
      PlanHostnameHasNoDot(hostsFromTag, aRecords, n);
      MissingRecordChangeYieldsTagIps(hostsFromTag, aRecords, zoneName, n, change);
    }
  }

  /** The DELETE or UPSERT made for a hostname with a record. */
  lemma RecordedChangeYieldsTagIps(hostsFromTag: set<HostIP>, aRecords: seq<ResourceRecordSet>, zoneName: string,
                                   n: string, change: Change)
    requires UniqueLabels(aRecords)
    requires n in PlanInput(hostsFromTag, aRecords) && n in RecordIndex(aRecords)
    requires IsUpdateFor(PlanInput(hostsFromTag, aRecords)[n], RecordIndex(aRecords)[n], change)
    ensures FirstLabel(change.resourceRecordSet.name) == n
    ensures LeftIps(change) == IpsOf(hostsFromTag, n)
  {
    var zone := ZoneHosts(aRecords);
    var c := PlanInput(hostsFromTag, aRecords)[n];
    var rec := RecordIndex(aRecords)[n];
    MergedEntryRebuildsTag(hostsFromTag, zone, n);
    ZoneIpsFromIndex(aRecords, n);
    IndexEntry(aRecords, n);
    ExistingChangeEffect(n, c, rec, change, IpsOf(zone, n), IpsOf(hostsFromTag, n));
  }

  /** The CREATE made for a hostname without a record. */
  lemma MissingRecordChangeYieldsTagIps(hostsFromTag: set<HostIP>, aRecords: seq<ResourceRecordSet>,
                                        zoneName: string, n: string, change: Change)
    requires '.' !in n
    requires n in PlanInput(hostsFromTag, aRecords) && n !in RecordIndex(aRecords)
    requires IsCreateFor(n, PlanInput(hostsFromTag, aRecords)[n], zoneName, change)
    ensures FirstLabel(change.resourceRecordSet.name) == n
    ensures change.action == Create && LeftIps(change) == IpsOf(hostsFromTag, n)
  {
    var zone := ZoneHosts(aRecords);
    ZoneIpsOfUnlabelled(aRecords, n);
    NewHostEntry(hostsFromTag, zone, n);
    NewChangeEffect(n, PlanInput(hostsFromTag, aRecords)[n], zoneName, change);
  }

  /** After the first `k` changes of a list made for distinct hostnames, each leaving its hostname its target
      addresses, those hostnames carry their target addresses and every other hostname keeps its old ones. */
  lemma {:induction false} PrefixIps(zone: set<HostIP>, target: set<HostIP>, changes: seq<Change>,
                                     hosts: seq<string>, k: nat, n: string)
    requires |hosts| == |changes| && NoDuplicates(hosts) && k <= |changes|
    requires forall i :: 0 <= i < |hosts| ==> FirstLabel(changes[i].resourceRecordSet.name) == hosts[i]
    requires forall i :: 0 <= i < |hosts| ==> LeftIps(changes[i]) == IpsOf(target, hosts[i])
    ensures IpsOf(ApplyChanges(zone, changes[..k]), n) ==
      if n in hosts[..k] then IpsOf(target, n) else IpsOf(zone, n)
  {
    if k > 0 {
      var c := changes[k - 1];
      assert changes[..k][..k - 1] == changes[..k - 1];
      assert changes[..k][k - 1] == c;
      PrefixIps(zone, target, changes, hosts, k - 1, n);
      ApplyChangeIps(ApplyChanges(zone, changes[..k - 1]), c, n);
      assert hosts[..k] == hosts[..k - 1] + [hosts[k - 1]];
      assert hosts[k - 1] !in hosts[..k - 1];
    }
  }

  /** A hostname gets an entry in the merged diff exactly when the tag inventory and the zone give it different
      addresses. */
  lemma PlanInputKeys(hostsFromTag: set<HostIP>, aRecords: seq<ResourceRecordSet>, n: string)
    ensures n in PlanInput(hostsFromTag, aRecords) <==> IpsOf(hostsFromTag, n) != IpsOf(ZoneHosts(aRecords), n)
  {
    var zone := ZoneHosts(aRecords);
    if n in PlanInput(hostsFromTag, aRecords) {
      if n in Hostnames(hostsFromTag - zone) {
        var h :| h in hostsFromTag - zone && h.hostname == n;
        assert h.ipAddress in IpsOf(hostsFromTag, n) && h.ipAddress !in IpsOf(zone, n);
      } else {
        var h :| h in zone - hostsFromTag && h.hostname == n;
        assert h.ipAddress in IpsOf(zone, n) && h.ipAddress !in IpsOf(hostsFromTag, n);
      }
    } else {
      UnchangedHostname(hostsFromTag, aRecords, n);
    }
  }

  /** Hostnames outside the merged diff already carry the same addresses in the tag inventory and in the zone. */
  lemma UnchangedHostname(hostsFromTag: set<HostIP>, aRecords: seq<ResourceRecordSet>, n: string)
    requires n !in PlanInput(hostsFromTag, aRecords)
    ensures IpsOf(hostsFromTag, n) == IpsOf(ZoneHosts(aRecords), n)
  {
    var zone := ZoneHosts(aRecords);
    forall ip ensures HostIP(n, ip) in hostsFromTag <==> HostIP(n, ip) in zone {
      assert HostIP(n, ip) in hostsFromTag && HostIP(n, ip) !in zone ==> n in Hostnames(hostsFromTag - zone);
      assert HostIP(n, ip) in zone && HostIP(n, ip) !in hostsFromTag ==> n in Hostnames(zone - hostsFromTag);
    }
  }

  /** Convergence: applying to the zone a change list `create_zone_changes` may emit for the merged diff leaves
      the zone holding exactly the tag inventory. */
  lemma PlanConverges(hostsFromTag: set<HostIP>, aRecords: seq<ResourceRecordSet>, zoneName: string,
                      changes: seq<Change>, hosts: seq<string>)
    requires UniqueLabels(aRecords)
    requires forall h :: h in hostsFromTag ==> '.' !in h.hostname
    requires |hosts| == |changes| && NoDuplicates(hosts)
    requires forall n :: n in hosts <==> n in PlanInput(hostsFromTag, aRecords)
    requires forall i :: 0 <= i < |hosts| ==> hosts[i] in PlanInput(hostsFromTag, aRecords)
    requires forall i :: 0 <= i < |hosts| ==>
      IsChangeFor(hosts[i], PlanInput(hostsFromTag, aRecords)[hosts[i]], Lookup(RecordIndex(aRecords), hosts[i]),
                  zoneName, changes[i])
    ensures ApplyChanges(ZoneHosts(aRecords), changes) == hostsFromTag
  {
    var zone := ZoneHosts(aRecords);
    forall i | 0 <= i < |hosts|
      ensures FirstLabel(changes[i].resourceRecordSet.name) == hosts[i]
      ensures LeftIps(changes[i]) == IpsOf(hostsFromTag, hosts[i])
    {
      ChangeYieldsTagIps(hostsFromTag, aRecords, zoneName, hosts[i], changes[i]);
    }
    forall n | n !in hosts ensures IpsOf(hostsFromTag, n) == IpsOf(zone, n) {
      UnchangedHostname(hostsFromTag, aRecords, n);
    }
    ChangesReachTarget(zone, hostsFromTag, changes, hosts);
  }

  /** A change list made for distinct hostnames, each leaving its hostname its target addresses, turns a zone
      that already agrees with the target on every other hostname into the target. */
  lemma ChangesReachTarget(zone: set<HostIP>, target: set<HostIP>, changes: seq<Change>, hosts: seq<string>)
    requires |hosts| == |changes| && NoDuplicates(hosts)
    requires forall i :: 0 <= i < |hosts| ==> FirstLabel(changes[i].resourceRecordSet.name) == hosts[i]
    requires forall i :: 0 <= i < |hosts| ==> LeftIps(changes[i]) == IpsOf(target, hosts[i])
    requires forall n :: n !in hosts ==> IpsOf(target, n) == IpsOf(zone, n)
    ensures ApplyChanges(zone, changes) == target
  {
    var after := ApplyChanges(zone, changes);
    assert changes[..|changes|] == changes;
    assert hosts[..|hosts|] == hosts;
    forall n ensures IpsOf(after, n) == IpsOf(target, n) {
      PrefixIps(zone, target, changes, hosts, |changes|, n);
    }
    EqualByHostname(after, target);
  }

  /** A zone that already matches the tag inventory gets an empty merged diff, hence no change at all. */
  lemma ConvergedZoneNeedsNoChange(hostsFromTag: set<HostIP>, aRecords: seq<ResourceRecordSet>)
    requires ZoneHosts(aRecords) == hostsFromTag
    ensures PlanInput(hostsFromTag, aRecords) == map[]
  {
    DiffSelf(hostsFromTag);
    assert Hostnames({}) == {};
  }
}
