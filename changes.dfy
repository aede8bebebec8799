/** `apply_rr_diff` and `create_zone_changes`: the change list that makes the zone match the tag inventory. */
module Changes {
  import opened Wrappers
  import opened Strings
  import opened Models
  import opened RecordSets
  import opened Zone
  import opened Merge

  /** No element occurs twice. */
  predicate NoDuplicates<T(==)>(s: seq<T>)
  {
    forall i, j :: 0 <= i < j < |s| ==> s[i] != s[j]
  }

  /** Iterating a Python set: each element once, in an order the model leaves open. */
  method ListOf<T(==)>(s: set<T>) returns (r: seq<T>)
    ensures forall x :: x in s ==> x in r
    ensures forall x :: x in r ==> x in s
    ensures NoDuplicates(r)
    ensures |r| == |s|
  {
    r := [];
    var rest := s;
    while rest != {}
      invariant rest <= s
      invariant forall x :: x in r <==> x in s - rest
      invariant NoDuplicates(r)
      invariant |r| + |rest| == |s|
      decreases rest
    {
      var x :| x in rest;
      r := r + [x];
      rest := rest - {x};
    }
  }

  /** The address set `apply_rr_diff` computes: existing values, plus `to_add`, minus `to_prune`. */
  function NewIps(resourceRecords: seq<ResourceRecord>, ipChanges: HostChange): (ips: set<Ip>)
    ensures forall ip :: ip in ips <==>
      (ip in ValuesOf(resourceRecords) || (ipChanges.toAdd.Some? && ip in ipChanges.toAdd.value))
      && !(ipChanges.toPrune.Some? && ip in ipChanges.toPrune.value)
  {
    (ValueSet(resourceRecords) + AddedOf(ipChanges)) - PrunedOf(ipChanges)
  }

  /** `apply_rr_diff(resource_records, ip_changes)`: one `{'Value': ip}` per new address, in set order. */
  method ApplyRrDiff(resourceRecords: seq<ResourceRecord>, ipChanges: HostChange) returns (r: seq<ResourceRecord>)
    ensures ValueSet(r) == NewIps(resourceRecords, ipChanges)
    ensures NoDuplicates(ValuesOf(r))
    ensures |r| == |NewIps(resourceRecords, ipChanges)|
  {
    var ipAddresses := ValueSet(resourceRecords);
    if ipChanges.toAdd.Some? {
      ipAddresses := ipAddresses + ipChanges.toAdd.value;
    }
    if ipChanges.toPrune.Some? {
      ipAddresses := ipAddresses - ipChanges.toPrune.value;
    }
    var ips := ListOf(ipAddresses);
    assert forall v :: v in ips <==> v in ipAddresses;
    r := RecordsOf(ips);
    ValueSetOfRecords(ips);
    assert ValueSet(r) == ipAddresses;
  }

  /** The `Action` of a change. */
  datatype Action = Create | Upsert | Delete

  /** `{'Action': ..., 'ResourceRecordSet': ...}`. */
  datatype Change = Change(action: Action, resourceRecordSet: ResourceRecordSet)

  /** `change` is what `create_zone_changes` emits for a hostname with the existing record `rec`: a DELETE of the
      unmodified record when no address remains, otherwise an UPSERT of the record with only its ResourceRecords
      replaced by the new addresses, each once. */
  predicate IsUpdateFor(ipChanges: HostChange, rec: ResourceRecordSet, change: Change)
  {
    var rrs := change.resourceRecordSet;
    if NewIps(rec.resourceRecords, ipChanges) == {} then change == Change(Delete, rec)
    else
      && change.action == Upsert
      && rrs == rec.(resourceRecords := rrs.resourceRecords)
      && ValueSet(rrs.resourceRecords) == NewIps(rec.resourceRecords, ipChanges)
      && NoDuplicates(ValuesOf(rrs.resourceRecords))
  }

  /** `change` is what `create_zone_changes` emits for a hostname without a record: a CREATE of
      `create_resource_record_set(hostname, zone_name, to_add)`, the `'to_add'` entry being required. */
  predicate IsCreateFor(hostname: string, ipChanges: HostChange, zoneName: string, change: Change)
  {
    var rrs := change.resourceRecordSet;
    && ipChanges.toAdd.Some?
    && change.action == Create
    && rrs.name == hostname + "." + zoneName + "."
    && rrs.rtype == "A" && rrs.ttl == DefaultTtl
    && ValueSet(rrs.resourceRecords) == ipChanges.toAdd.value
    && NoDuplicates(ValuesOf(rrs.resourceRecords))
  }

  /** `change` is what `create_zone_changes` emits for `hostname`, given its merged entry and its existing record. */
  predicate IsChangeFor(hostname: string, ipChanges: HostChange, existing: Option<ResourceRecordSet>,
                        zoneName: string, change: Change)
  {
    match existing
    case Some(rec) => IsUpdateFor(ipChanges, rec, change)
    case None => IsCreateFor(hostname, ipChanges, zoneName, change)
  }

  /** The addresses a change leaves on the name it is made for: none after a DELETE, the submitted Values after a
      CREATE or an UPSERT. */
  function LeftIps(change: Change): set<Ip>
  {
    if change.action == Delete then {} else ValueSet(change.resourceRecordSet.resourceRecords)
  }

  /** A change for a hostname that has a record is made on the record's own name; a DELETE leaves the name no
      address and an UPSERT exactly the new ones, which are the tag addresses when the entry rebuilds them. */
  lemma ExistingChangeEffect(hostname: string, ipChanges: HostChange, rec: ResourceRecordSet, change: Change,
                             zoneIps: set<Ip>, tagIps: set<Ip>)
    requires FirstLabel(rec.name) == hostname
    requires ValueSet(rec.resourceRecords) == zoneIps
    requires (zoneIps + AddedOf(ipChanges)) - PrunedOf(ipChanges) == tagIps
    requires IsUpdateFor(ipChanges, rec, change)
    ensures FirstLabel(change.resourceRecordSet.name) == hostname
    ensures LeftIps(change) == tagIps
  {
  }

  /** A CREATE is made on `hostname.zone_name.`, whose first label is the hostname, and carries exactly the
      `'to_add'` addresses; a `'to_prune'` entry is ignored. */
  lemma NewChangeEffect(hostname: string, ipChanges: HostChange, zoneName: string, change: Change)
    requires '.' !in hostname
    requires IsCreateFor(hostname, ipChanges, zoneName, change)
    ensures FirstLabel(change.resourceRecordSet.name) == hostname
    ensures change.action == Create && ValueSet(change.resourceRecordSet.resourceRecords) == ipChanges.toAdd.value
  {
    FirstLabelOfDotted(hostname, zoneName + ".");
    assert hostname + "." + zoneName + "." == hostname + "." + (zoneName + ".");
  }

  /** Appending a list with none of the first list's elements keeps both free of duplicates. */
  lemma NoDuplicatesAppend<T>(a: seq<T>, b: seq<T>)
    requires NoDuplicates(a) && NoDuplicates(b)
    requires forall x :: x in a ==> x !in b
    ensures NoDuplicates(a + b)
  {
    forall i, j | 0 <= i < j < |a + b| ensures (a + b)[i] != (a + b)[j] {
      if i < |a| && |a| <= j {
        assert (a + b)[i] in a && (a + b)[j] == b[j - |a|];
      }
    }
  }

  /** The loop `for a_rec in a_records: a_rec_dict[a_rec['Name'].split('.')[0]] = a_rec`. */
  method BuildRecordIndex(aRecords: seq<ResourceRecordSet>) returns (aRecDict: map<string, ResourceRecordSet>)
    ensures aRecDict == RecordIndex(aRecords)
  {
    aRecDict := map[];
    var i := 0;
    while i < |aRecords|
      invariant 0 <= i <= |aRecords|
      invariant aRecDict == RecordIndex(aRecords[..i])
    {
      assert aRecords[..i + 1][..i] == aRecords[..i];
      var hostname := FirstLabel(aRecords[i].name);
      aRecDict := aRecDict[hostname := aRecords[i]];
      i := i + 1;
    }
    assert aRecords[..i] == aRecords;
  }

  /** The body of the first loop of `create_zone_changes`: DELETE the record when no address is left, else UPSERT
      a copy of it whose `ResourceRecords` are replaced. */
  method ExistingHostChange(hostname: string, ipChanges: HostChange, aRec: ResourceRecordSet, zoneName: string)
    returns (change: Change)
    ensures IsChangeFor(hostname, ipChanges, Some(aRec), zoneName, change)
  {
    var newResourceRecords := ApplyRrDiff(aRec.resourceRecords, ipChanges);
    var newARec := aRec;
    var action;
    if newResourceRecords == [] {
      action := Delete;
    } else {
      action := Upsert;
      newARec := newARec.(resourceRecords := newResourceRecords);
    }
    change := Change(action, newARec);
  }

  /** The first loop of `create_zone_changes`, over `zone_diff_hosts & a_rec_hosts` in any order. */
  method ExistingHostChanges(zoneDiff: map<string, HostChange>, aRecDict: map<string, ResourceRecordSet>,
                             zoneName: string)
    returns (changes: seq<Change>, ghost hosts: seq<string>)
    ensures |hosts| == |changes| && NoDuplicates(hosts)
    ensures forall n :: n in hosts <==> n in zoneDiff && n in aRecDict
    ensures forall k :: 0 <= k < |hosts| ==> hosts[k] in zoneDiff && hosts[k] in aRecDict
    ensures forall k :: 0 <= k < |hosts| ==>
      IsChangeFor(hosts[k], zoneDiff[hosts[k]], Some(aRecDict[hosts[k]]), zoneName, changes[k])
    ensures forall k :: 0 <= k < |changes| ==> changes[k].action != Create
  {
    changes, hosts := [], [];
    var todo := zoneDiff.Keys * aRecDict.Keys;
    while todo != {}
      invariant todo <= zoneDiff.Keys * aRecDict.Keys
      invariant |hosts| == |changes| && NoDuplicates(hosts)
      invariant forall n :: n in hosts <==> n in (zoneDiff.Keys * aRecDict.Keys) - todo
      invariant forall k :: 0 <= k < |hosts| ==> hosts[k] in zoneDiff && hosts[k] in aRecDict
      invariant forall k :: 0 <= k < |hosts| ==>
        IsChangeFor(hosts[k], zoneDiff[hosts[k]], Some(aRecDict[hosts[k]]), zoneName, changes[k])
      invariant forall k :: 0 <= k < |changes| ==> changes[k].action != Create
      decreases todo
    {
      var hostname :| hostname in todo;
      var change := ExistingHostChange(hostname, zoneDiff[hostname], aRecDict[hostname], zoneName);
      NoDuplicatesAppend(hosts, [hostname]);
      changes := changes + [change];
      hosts := hosts + [hostname];
      todo := todo - {hostname};
    }
  }

  /** The second loop of `create_zone_changes`, over `zone_diff_hosts - a_rec_hosts` in any order: CREATE a record
      set from `'to_add'`, raising `KeyError('to_add')` for a hostname that only has `'to_prune'`. */
  method NewHostChanges(zoneDiff: map<string, HostChange>, aRecDict: map<string, ResourceRecordSet>, zoneName: string)
    returns (r: Result<seq<Change>>, ghost hosts: seq<string>)
    ensures r.Failure? <==> exists n :: n in zoneDiff && n !in aRecDict && zoneDiff[n].toAdd.None?
    ensures r.Failure? ==> r.error == KeyError("to_add")
    ensures r.Success? ==>
      && |hosts| == |r.value| && NoDuplicates(hosts)
      && (forall n :: n in hosts <==> n in zoneDiff && n !in aRecDict)
      && (forall k :: 0 <= k < |hosts| ==> hosts[k] in zoneDiff && hosts[k] !in aRecDict)
      && (forall k :: 0 <= k < |hosts| ==> IsChangeFor(hosts[k], zoneDiff[hosts[k]], None, zoneName, r.value[k]))
      && (forall k :: 0 <= k < |r.value| ==> r.value[k].action == Create)
  {
    var changes: seq<Change> := [];
    hosts := [];
    var todo := zoneDiff.Keys - aRecDict.Keys;
    while todo != {}
      invariant todo <= zoneDiff.Keys - aRecDict.Keys
      invariant |hosts| == |changes| && NoDuplicates(hosts)
      invariant forall n :: n in hosts <==> n in (zoneDiff.Keys - aRecDict.Keys) - todo
      invariant forall k :: 0 <= k < |hosts| ==> hosts[k] in zoneDiff && hosts[k] !in aRecDict
      invariant forall k :: 0 <= k < |hosts| ==> IsChangeFor(hosts[k], zoneDiff[hosts[k]], None, zoneName, changes[k])
      invariant forall k :: 0 <= k < |changes| ==> changes[k].action == Create
      invariant forall n :: n in (zoneDiff.Keys - aRecDict.Keys) - todo ==> zoneDiff[n].toAdd.Some?
      decreases todo
    {
      var hostname :| hostname in todo;
      var ipChanges := zoneDiff[hostname];
      if ipChanges.toAdd.None? {
        return Failure(KeyError("to_add")), hosts;
      }
      var ips := ListOf(ipChanges.toAdd.value);
      var rrs := CreateResourceRecordSet(hostname, zoneName, ips);
      ValueSetOfRecords(ips);
      assert ValueSet(rrs.resourceRecords) == ipChanges.toAdd.value;
      NoDuplicatesAppend(hosts, [hostname]);
      changes := changes + [Change(Create, rrs)];
      hosts := hosts + [hostname];
      todo := todo - {hostname};
    }
    r := Success(changes);
  }

  /** `create_zone_changes(zone_diff, a_records, zone_name)`. `hosts[k]` is the hostname `changes[k]` was made
      for; a hostname without a record and without `'to_add'` raises `KeyError('to_add')`. */
  method CreateZoneChanges(zoneDiff: map<string, HostChange>, aRecords: seq<ResourceRecordSet>, zoneName: string)
    returns (r: Result<seq<Change>>, ghost hosts: seq<string>)
    ensures r.Failure? <==> exists n :: n in zoneDiff && n !in RecordIndex(aRecords) && zoneDiff[n].toAdd.None?
    ensures r.Failure? ==> r.error == KeyError("to_add")
    ensures r.Success? ==>
      && |hosts| == |r.value|
      && NoDuplicates(hosts)
      && (forall n :: n in hosts <==> n in zoneDiff)
      && (forall k :: 0 <= k < |hosts| ==> hosts[k] in zoneDiff)
      && (forall k :: 0 <= k < |hosts| ==>
            IsChangeFor(hosts[k], zoneDiff[hosts[k]], Lookup(RecordIndex(aRecords), hosts[k]), zoneName, r.value[k]))
    ensures r.Success? ==>
      forall i, j :: 0 <= i < j < |r.value| && r.value[i].action == Create ==> r.value[j].action == Create
  {
    var aRecDict := BuildRecordIndex(aRecords);
    // hosts already in the zone, to delete or upsert
    var updates, updated := ExistingHostChanges(zoneDiff, aRecDict, zoneName);
    // hosts not in the zone yet
    var creates, created := NewHostChanges(zoneDiff, aRecDict, zoneName);
    if creates.Failure? {
      return Failure(creates.error), [];
    }
    NoDuplicatesAppend(updated, created);
    hosts := updated + created;
    var changes := updates + creates.value;
    forall k | 0 <= k < |hosts|
      ensures hosts[k] in zoneDiff
      ensures IsChangeFor(hosts[k], zoneDiff[hosts[k]], Lookup(aRecDict, hosts[k]), zoneName, changes[k])
    {
      if k < |updated| {
        assert hosts[k] == updated[k] && changes[k] == updates[k];
      } else {
        assert hosts[k] == created[k - |updated|] && changes[k] == creates.value[k - |updated|];
      }
    }
    forall i, j | 0 <= i < j < |changes| && changes[i].action == Create ensures changes[j].action == Create {
      assert j >= |updates| ==> changes[j] == creates.value[j - |updates|];
    }
    r := Success(changes);
  }
}
