/** `get_tag_zone_diff`'s two set differences and `create_merged_diff`, which groups them by hostname. */
module Merge {
  import opened Wrappers
  import opened Models

  /** `(hosts_to_add, hosts_to_prune)`. */
  datatype ZoneDiff = ZoneDiff(hostsToAdd: set<HostIP>, hostsToPrune: set<HostIP>)

  /** `hosts_from_tag - hosts_from_zone` and `hosts_from_zone - hosts_from_tag`. */
  function TagZoneDiff(hostsFromTag: set<HostIP>, hostsFromZone: set<HostIP>): (d: ZoneDiff)
    ensures forall h :: h in d.hostsToAdd <==> h in hostsFromTag && h !in hostsFromZone
    ensures forall h :: h in d.hostsToPrune <==> h in hostsFromZone && h !in hostsFromTag
  {
    ZoneDiff(hostsFromTag - hostsFromZone, hostsFromZone - hostsFromTag)
  }

  /** Nothing is both added and pruned. */
  lemma DiffDisjoint(hostsFromTag: set<HostIP>, hostsFromZone: set<HostIP>)
    ensures TagZoneDiff(hostsFromTag, hostsFromZone).hostsToAdd !! TagZoneDiff(hostsFromTag, hostsFromZone).hostsToPrune
  {
  }

  /** Swapping the inventories swaps the two halves of the diff. */
  lemma DiffSwap(a: set<HostIP>, b: set<HostIP>)
    ensures TagZoneDiff(b, a) == ZoneDiff(TagZoneDiff(a, b).hostsToPrune, TagZoneDiff(a, b).hostsToAdd)
  {
  }

  /** A converged zone has an empty diff. */
  lemma DiffSelf(s: set<HostIP>)
    ensures TagZoneDiff(s, s) == ZoneDiff({}, {})
  {
  }

  /** Removing the pruned pairs from the zone and adding the new ones gives the tag inventory. */
  lemma DiffRebuildsTag(hostsFromTag: set<HostIP>, hostsFromZone: set<HostIP>)
    ensures var d := TagZoneDiff(hostsFromTag, hostsFromZone);
            (hostsFromZone - d.hostsToPrune) + d.hostsToAdd == hostsFromTag
  {
  }

  /** The per-hostname address sets of a snapshot: what each `defaultdict(set)` of `create_merged_diff` ends up holding. */
  function Group(s: set<HostIP>): (g: map<string, set<Ip>>)
    ensures g.Keys == Hostnames(s)
    ensures forall n :: n in g ==> g[n] == IpsOf(s, n) && g[n] != {}
  {
    forall n | n in Hostnames(s) ensures IpsOf(s, n) != {} {
      IpsOfNonEmpty(s, n);
    }
    map n | n in Hostnames(s) :: IpsOf(s, n)
  }

  /** Adding one pair adds its address to its own hostname only. */
  lemma IpsOfInsert(s: set<HostIP>, h: HostIP, n: string)
    ensures IpsOf(s + {h}, n) == IpsOf(s, n) + (if n == h.hostname then {h.ipAddress} else {})
  {
    var l := IpsOf(s + {h}, n);
    var r := IpsOf(s, n) + (if n == h.hostname then {h.ipAddress} else {});
    forall ip ensures ip in l <==> ip in r {
      assert ip in l <==> HostIP(n, ip) in s + {h};
    }
  }

  /** Adding one pair adds its hostname to the hostnames. */
  lemma HostnamesInsert(s: set<HostIP>, h: HostIP)
    ensures Hostnames(s + {h}) == Hostnames(s) + {h.hostname}
  {
    var l, r := Hostnames(s + {h}), Hostnames(s) + {h.hostname};
    forall n ensures n in l <==> n in r {
      if n in r && n != h.hostname {
        var x :| x in s && x.hostname == n;
        assert x in s + {h};
      }
    }
  }

  /** One step of `d[h.hostname].add(h.ip_address)`. */
  lemma GroupInsert(s: set<HostIP>, h: HostIP)
    ensures Group(s + {h}) ==
      Group(s)[h.hostname := (if h.hostname in Group(s) then Group(s)[h.hostname] else {}) + {h.ipAddress}]
  {
    var g, g' := Group(s), Group(s + {h});
    var expected := g[h.hostname := (if h.hostname in g then g[h.hostname] else {}) + {h.ipAddress}];
    assert g'.Keys == expected.Keys by {
      HostnamesInsert(s, h);
    }
    forall n | n in g' ensures g'[n] == expected[n] {
      assert g'[n] == IpsOf(s, n) + (if n == h.hostname then {h.ipAddress} else {}) by {
        IpsOfInsert(s, h, n);
      }
      if n == h.hostname && n !in g {
        IpsOfNonEmpty(s, n);
      }
    }
  }

  /** The loop `for h in hosts: d[h.hostname].add(h.ip_address)`, visiting the set in any order. */
  method GroupByHostname(hosts: set<HostIP>) returns (d: map<string, set<Ip>>)
    ensures d == Group(hosts)
  {
    d := map[];
    var rest := hosts;
    while rest != {}
      invariant rest <= hosts
      invariant d == Group(hosts - rest)
      decreases rest
    {
      var h :| h in rest;
      GroupInsert(hosts - rest, h);
      assert (hosts - rest) + {h} == hosts - (rest - {h});
      d := d[h.hostname := (if h.hostname in d then d[h.hostname] else {}) + {h.ipAddress}];
      rest := rest - {h};
    }
    assert hosts - rest == hosts;
  }

  /** `{'to_add': ..., 'to_prune': ...}` of one hostname; a missing key is `None`. */
  datatype HostChange = HostChange(toAdd: Option<set<Ip>>, toPrune: Option<set<Ip>>)

  /** The last two loops of `create_merged_diff`: one entry per key of either grouping. */
  function Combine(add: map<string, set<Ip>>, prune: map<string, set<Ip>>): (m: map<string, HostChange>)
    ensures m.Keys == add.Keys + prune.Keys
  {
    map n | n in add.Keys + prune.Keys ::
      HostChange(if n in add then Some(add[n]) else None, if n in prune then Some(prune[n]) else None)
  }

  /** The mapping `create_merged_diff` returns. */
  function MergedDiff(hostsToAdd: set<HostIP>, hostsToPrune: set<HostIP>): (m: map<string, HostChange>)
    ensures m.Keys == Hostnames(hostsToAdd) + Hostnames(hostsToPrune)
    ensures forall n :: n in m ==>
      && (m[n].toAdd.Some? <==> n in Hostnames(hostsToAdd))
      && (m[n].toPrune.Some? <==> n in Hostnames(hostsToPrune))
    ensures forall n, ip :: n in m && m[n].toAdd.Some? ==> (ip in m[n].toAdd.value <==> HostIP(n, ip) in hostsToAdd)
    ensures forall n, ip :: n in m && m[n].toPrune.Some? ==> (ip in m[n].toPrune.value <==> HostIP(n, ip) in hostsToPrune)
  {
    Combine(Group(hostsToAdd), Group(hostsToPrune))
  }

  /** The addresses of `'to_add'`, none when the key is absent. */
  function AddedOf(c: HostChange): set<Ip>
  {
    if c.toAdd.Some? then c.toAdd.value else {}
  }

  /** The addresses of `'to_prune'`, none when the key is absent. */
  function PrunedOf(c: HostChange): set<Ip>
  {
    if c.toPrune.Some? then c.toPrune.value else {}
  }

  /** For the merged diff of two snapshots, a hostname's zone addresses plus its `'to_add'` minus its `'to_prune'`
      are its tag addresses, and nothing is both added and pruned. */
  lemma MergedEntryRebuildsTag(hostsFromTag: set<HostIP>, hostsFromZone: set<HostIP>, n: string)
    requires var d := TagZoneDiff(hostsFromTag, hostsFromZone); n in MergedDiff(d.hostsToAdd, d.hostsToPrune)
    ensures var d := TagZoneDiff(hostsFromTag, hostsFromZone);
            var c := MergedDiff(d.hostsToAdd, d.hostsToPrune)[n];
            && (IpsOf(hostsFromZone, n) + AddedOf(c)) - PrunedOf(c) == IpsOf(hostsFromTag, n)
            && AddedOf(c) !! PrunedOf(c)
  {
    var d := TagZoneDiff(hostsFromTag, hostsFromZone);
    var c := MergedDiff(d.hostsToAdd, d.hostsToPrune)[n];
    assert AddedOf(c) == IpsOf(d.hostsToAdd, n) by {
      if c.toAdd.None? { IpsOfNonEmpty(d.hostsToAdd, n); }
    }
    assert PrunedOf(c) == IpsOf(d.hostsToPrune, n) by {
      if c.toPrune.None? { IpsOfNonEmpty(d.hostsToPrune, n); }
    }
    var l := (IpsOf(hostsFromZone, n) + AddedOf(c)) - PrunedOf(c);
    forall ip ensures ip in l <==> ip in IpsOf(hostsFromTag, n) {
      assert ip in l <==> HostIP(n, ip) in hostsFromTag;
    }
  }

  /** A hostname with no address in the zone has nothing to prune, and its `'to_add'` is exactly its tag
      addresses. */
  lemma NewHostEntry(hostsFromTag: set<HostIP>, hostsFromZone: set<HostIP>, n: string)
    requires IpsOf(hostsFromZone, n) == {}
    requires var d := TagZoneDiff(hostsFromTag, hostsFromZone); n in MergedDiff(d.hostsToAdd, d.hostsToPrune)
    ensures var d := TagZoneDiff(hostsFromTag, hostsFromZone);
            var c := MergedDiff(d.hostsToAdd, d.hostsToPrune)[n];
            c.toPrune.None? && c.toAdd == Some(IpsOf(hostsFromTag, n))
  {
    var d := TagZoneDiff(hostsFromTag, hostsFromZone);
    var c := MergedDiff(d.hostsToAdd, d.hostsToPrune)[n];
    assert n !in Hostnames(d.hostsToPrune) by {
      forall h | h in d.hostsToPrune ensures h.hostname != n {
        assert h.hostname == n ==> h.ipAddress in IpsOf(hostsFromZone, n);
      }
    }
    MergedEntryRebuildsTag(hostsFromTag, hostsFromZone, n);
  }

  /** Every hostname of the diff gets exactly one entry, whose address sets are those of the two halves. */
  lemma MergedDiffEntries(hostsToAdd: set<HostIP>, hostsToPrune: set<HostIP>, n: string)
    requires n in MergedDiff(hostsToAdd, hostsToPrune)
    ensures MergedDiff(hostsToAdd, hostsToPrune)[n].toAdd.Some? ==>
      MergedDiff(hostsToAdd, hostsToPrune)[n].toAdd.value == IpsOf(hostsToAdd, n) != {}
    ensures MergedDiff(hostsToAdd, hostsToPrune)[n].toPrune.Some? ==>
      MergedDiff(hostsToAdd, hostsToPrune)[n].toPrune.value == IpsOf(hostsToPrune, n) != {}
  {
  }

  /** The two loops `for hostname in d.keys(): d_to_change[hostname][key] = d[hostname]`, in any key order. */
  method MergeGroups(dToAdd: map<string, set<Ip>>, dToPrune: map<string, set<Ip>>) returns (dToChange: map<string, HostChange>)
    ensures dToChange == Combine(dToAdd, dToPrune)
  {
    dToChange := map[];
    var keys := dToAdd.Keys;
    while keys != {}
      invariant keys <= dToAdd.Keys
      invariant dToChange.Keys == dToAdd.Keys - keys
      invariant forall n :: n in dToChange ==> dToChange[n] == HostChange(Some(dToAdd[n]), None)
      decreases keys
    {
      var n :| n in keys;
      dToChange := dToChange[n := HostChange(Some(dToAdd[n]), None)];
      keys := keys - {n};
    }
    keys := dToPrune.Keys;
    while keys != {}
      invariant keys <= dToPrune.Keys
      invariant dToChange.Keys == dToAdd.Keys + (dToPrune.Keys - keys)
      invariant forall n :: n in dToChange ==>
        dToChange[n] == HostChange(if n in dToAdd then Some(dToAdd[n]) else None,
                                   if n in dToPrune && n !in keys then Some(dToPrune[n]) else None)
      decreases keys
    {
      var n :| n in keys;
      var entry := if n in dToChange then dToChange[n] else HostChange(None, None);
      dToChange := dToChange[n := entry.(toPrune := Some(dToPrune[n]))];
      keys := keys - {n};
    }
    var m := Combine(dToAdd, dToPrune);
    assert dToChange.Keys == m.Keys;
    forall n | n in m ensures dToChange[n] == m[n] {
    }
  }

  /** `create_merged_diff(hosts_to_add, hosts_to_prune)`, visiting sets and keys in any order. */
  method CreateMergedDiff(hostsToAdd: set<HostIP>, hostsToPrune: set<HostIP>) returns (dToChange: map<string, HostChange>)
    ensures dToChange == MergedDiff(hostsToAdd, hostsToPrune)
  {
    var dToAdd := GroupByHostname(hostsToAdd);
    var dToPrune := GroupByHostname(hostsToPrune);
    dToChange := MergeGroups(dToAdd, dToPrune);
  }
}
