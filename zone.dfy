/** The zone inventory: the A records of the hosted zone, flattened to hostname/address pairs and indexed by hostname. */
module Zone {
  import opened Wrappers
  import opened Strings
  import opened Models
  import opened RecordSets

  /** `[r for r in rrs['ResourceRecordSets'] if r['Type'] == 'A']`, order kept. */
  function FilterA(rrsets: seq<ResourceRecordSet>): (r: seq<ResourceRecordSet>)
    ensures |r| <= |rrsets|
    ensures forall x :: x in r <==> x in rrsets && x.rtype == "A"
  {
    if rrsets == [] then []
    else if rrsets[0].rtype == "A" then [rrsets[0]] + FilterA(rrsets[1..])
    else FilterA(rrsets[1..])
  }

  /** Filtering page by page and concatenating (`a_records += ...`) is filtering the whole listing. */
  lemma {:induction false} FilterAAppend(a: seq<ResourceRecordSet>, b: seq<ResourceRecordSet>)
    ensures FilterA(a + b) == FilterA(a) + FilterA(b)
  {
    if a != [] {
      assert (a + b)[1..] == a[1..] + b;
      FilterAAppend(a[1..], b);
    } else {
      assert a + b == b;
    }
  }

  /** A single record set is kept exactly when it is of Type `A`; with `FilterAAppend` this fixes the order and the
      multiplicity of the records kept. */
  lemma FilterAOne(x: ResourceRecordSet)
    ensures FilterA([x]) == if x.rtype == "A" then [x] else []
  {
    assert [x][1..] == [];
  }

  /** The pairs one record set contributes: its first label with each of its values. */
  function RecordHosts(rec: ResourceRecordSet): (r: set<HostIP>)
    ensures forall h :: h in r <==> h.hostname == FirstLabel(rec.name) && h.ipAddress in ValueSet(rec.resourceRecords)
  {
    set rr | rr in rec.resourceRecords :: HostIP(FirstLabel(rec.name), rr.value)
  }

  /** The set comprehension of `get_zone_records` over the A records. */
  function ZoneHosts(aRecords: seq<ResourceRecordSet>): (r: set<HostIP>)
    ensures forall h :: h in r <==>
      exists i :: 0 <= i < |aRecords| && h.hostname == FirstLabel(aRecords[i].name)
        && h.ipAddress in ValueSet(aRecords[i].resourceRecords)
  {
    if aRecords == [] then {}
    else
      var rest := ZoneHosts(aRecords[1..]);
      assert forall k :: 1 <= k < |aRecords| ==> aRecords[k] == aRecords[1..][k - 1];
      RecordHosts(aRecords[0]) + rest
  }

  /** Zone hostnames are first labels, so none holds a dot. */
  lemma ZoneHostnamesHaveNoDot(aRecords: seq<ResourceRecordSet>)
    ensures forall h :: h in ZoneHosts(aRecords) ==> '.' !in h.hostname
  {
  }

  /** The first labels of the record sets' names. */
  function Labels(aRecords: seq<ResourceRecordSet>): (r: set<string>)
    ensures forall n :: n in r <==> exists i :: 0 <= i < |aRecords| && FirstLabel(aRecords[i].name) == n
  {
    set i | 0 <= i < |aRecords| :: FirstLabel(aRecords[i].name)
  }

  lemma LabelsSnoc(init: seq<ResourceRecordSet>, last: ResourceRecordSet)
    ensures Labels(init + [last]) == Labels(init) + {FirstLabel(last.name)}
  {
    var a := init + [last];
    forall n | n in Labels(a) ensures n in Labels(init) + {FirstLabel(last.name)} {
      var i :| 0 <= i < |a| && FirstLabel(a[i].name) == n;
      if i < |init| { assert a[i] == init[i]; }
    }
    forall n | n in Labels(init) ensures n in Labels(a) {
      var i :| 0 <= i < |init| && FirstLabel(init[i].name) == n;
      assert a[i] == init[i];
    }
    assert a[|init|] == last;
  }

  /** Record `i` is the last of `aRecords` whose first label is `n`. */
  predicate IsLastWithLabel(aRecords: seq<ResourceRecordSet>, i: int, n: string)
  {
    0 <= i < |aRecords| && FirstLabel(aRecords[i].name) == n
    && forall j :: i < j < |aRecords| ==> FirstLabel(aRecords[j].name) != n
  }

  /** Appending a record with another label keeps the last record of `n` the last. */
  lemma IsLastSnoc(init: seq<ResourceRecordSet>, last: ResourceRecordSet, i: int, n: string)
    requires IsLastWithLabel(init, i, n) && n != FirstLabel(last.name)
    ensures IsLastWithLabel(init + [last], i, n)
  {
    var a := init + [last];
    forall j | i < j < |a| ensures FirstLabel(a[j].name) != n {
      if j < |init| { assert a[j] == init[j]; }
    }
  }

  /** Every entry of `index` is the last record of `aRecords` carrying its key as first label. */
  ghost predicate IndexesLast(aRecords: seq<ResourceRecordSet>, index: map<string, ResourceRecordSet>)
  {
    forall n :: n in index ==> exists i :: IsLastWithLabel(aRecords, i, n) && aRecords[i] == index[n]
  }

  /** The step `a_rec_dict[hostname] = a_rec` keeps `IndexesLast`. */
  lemma IndexSnoc(init: seq<ResourceRecordSet>, last: ResourceRecordSet, index: map<string, ResourceRecordSet>)
    requires IndexesLast(init, index)
    ensures IndexesLast(init + [last], index[FirstLabel(last.name) := last])
  {
    var a := init + [last];
    var n0 := FirstLabel(last.name);
    var index' := index[n0 := last];
    forall n | n in index' ensures exists i :: IsLastWithLabel(a, i, n) && a[i] == index'[n] {
      if n == n0 {
        assert IsLastWithLabel(a, |a| - 1, n);
      } else {
        var i :| IsLastWithLabel(init, i, n) && init[i] == index[n];
        IsLastSnoc(init, last, i, n);
        assert a[i] == init[i];
      }
    }
  }

  /** `a_rec_dict` of `create_zone_changes`: the record set of each first label, the last one when several share it. */
  function RecordIndex(aRecords: seq<ResourceRecordSet>): (r: map<string, ResourceRecordSet>)
    ensures r.Keys == Labels(aRecords)
    ensures IndexesLast(aRecords, r)
  {
    if aRecords == [] then map[]
    else
      var last := aRecords[|aRecords| - 1];
      var init := aRecords[..|aRecords| - 1];
      assert aRecords == init + [last];
      var r := RecordIndex(init);
      LabelsSnoc(init, last);
      IndexSnoc(init, last, r);
      r[FirstLabel(last.name) := last]
  }

  /** No two A records share a first label. */
  predicate UniqueLabels(aRecords: seq<ResourceRecordSet>)
  {
    forall i, j ::
      0 <= i < |aRecords| && 0 <= j < |aRecords| && FirstLabel(aRecords[i].name) == FirstLabel(aRecords[j].name)
      ==> i == j
  }

  /** A hostname that labels no record has no address in the zone. */
  lemma ZoneIpsOfUnlabelled(aRecords: seq<ResourceRecordSet>, n: string)
    requires n !in Labels(aRecords)
    ensures IpsOf(ZoneHosts(aRecords), n) == {}
  {
    var zone := ZoneHosts(aRecords);
    forall ip ensures HostIP(n, ip) !in zone {
    }
  }

  /** With unique labels the index loses nothing: the zone's addresses for a hostname are those of its record. */
  lemma ZoneIpsFromIndex(aRecords: seq<ResourceRecordSet>, n: string)
    requires UniqueLabels(aRecords)
    ensures n in RecordIndex(aRecords) ==> IpsOf(ZoneHosts(aRecords), n) == ValueSet(RecordIndex(aRecords)[n].resourceRecords)
    ensures n !in RecordIndex(aRecords) ==> IpsOf(ZoneHosts(aRecords), n) == {}
  {
    var index := RecordIndex(aRecords);
    var zone := ZoneHosts(aRecords);
    if n in index {
      var i :| IsLastWithLabel(aRecords, i, n) && aRecords[i] == index[n];
      forall ip | ip in IpsOf(zone, n) ensures ip in ValueSet(index[n].resourceRecords) {
        assert HostIP(n, ip) in zone;
        var k :| 0 <= k < |aRecords| && n == FirstLabel(aRecords[k].name)
          && ip in ValueSet(aRecords[k].resourceRecords);
        assert k == i;
      }
      forall ip | ip in ValueSet(index[n].resourceRecords) ensures ip in IpsOf(zone, n) {
        assert HostIP(n, ip) in zone;
      }
    }
  }

  /** The existing record set of a hostname, if any: `a_rec_dict[hostname]` for a hostname in the key-set
      intersection, and no record for one in the key-set difference. */
  function Lookup(index: map<string, ResourceRecordSet>, hostname: string): (r: Option<ResourceRecordSet>)
    ensures r.Some? <==> hostname in index
    ensures r.Some? ==> r.value == index[hostname]
  {
    if hostname in index then Some(index[hostname]) else None
  }

  /** An indexed record set is one of the A records and carries its key as first label. */
  lemma IndexEntry(aRecords: seq<ResourceRecordSet>, n: string)
    requires n in RecordIndex(aRecords)
    ensures RecordIndex(aRecords)[n] in aRecords
    ensures FirstLabel(RecordIndex(aRecords)[n].name) == n
  {
    var i :| IsLastWithLabel(aRecords, i, n) && aRecords[i] == RecordIndex(aRecords)[n];
  }
}
