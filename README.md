# ec2-route53-sync: a verified model of the reconciliation engine

`route53_sync.py` keeps the A records of one Route53 hosted zone in step with the running EC2 instances that carry a
hostname tag. A pass works in five steps:

1. It reads the tag inventory, a set of `HostIP(hostname, ip_address)`.
2. It flattens the zone's A records into a second set of the same kind.
3. It diffs the two sets.
4. It merges the diff into one `{to_add, to_prune}` entry per hostname.
5. It turns each entry into a CREATE, UPSERT or DELETE change and submits the changes in batches of 100.

This project models each step in Dafny and proves what each one promises. It also proves that the whole pass
converges under two conditions: the zone's A record names have distinct first labels, and no tag hostname holds a
dot (which `--fqdn` guarantees). Under those conditions, applying the change list to the flattened zone leaves
exactly the tag inventory. When either condition fails the claim is false, as "## Left out" explains. The claim
also rests on the model of Route53 accepting every change: in particular it assumes that `zone_name` is the name of
the hosted zone `zone_id`, without a trailing dot, which the script takes as two independent arguments and never
checks. It further assumes that Route53 stores a record's name exactly as submitted, so the tag hostnames must
already be in the form Route53 stores names in: lowercase, with no character that Route53 returns as an escape
code.

Modules, in pipeline order:

- `Wrappers`: `Option`, and a `Result` whose errors are Python's `KeyError(key)` and range's `ValueError`.
- `Strings`: `str.startswith`, and `FirstLabel`, which is `s.split('.')[0]`.
- `Models`: the `HostIP` value type, its structural equality and hash key, and grouping of a host set by hostname.
- `RecordSets`: record sets, and `create_resource_record_set`.
- `Instances`: `get_instance_tag`, the instance filter of `get_ec2_hosts`, and the tag inventory it builds.
- `Zone`: the A-record filter, the flattening of the zone, and the `a_rec_dict` index of `create_zone_changes`.
- `Merge`: the diff, and `create_merged_diff`. The three defaultdict loops of the latter are `GroupByHostname` and
  `MergeGroups`.
- `Changes`: `apply_rr_diff` and `create_zone_changes`, both as methods. `IsChangeFor` states what a valid change for
  one hostname is. It is an `IsUpdateFor` when the hostname has a record, and an `IsCreateFor` when it has none.
- `Batching`: `apply_zone_changes`, with Python's `range(0, n, step)` semantics. The Route53 client is a `ZoneStore`
  object whose `ChangeResourceRecordSets` appends each batch to a ghost log.
- `Convergence`: a model of what Route53 does with a change, and the convergence theorem.
- `Sync`: the `/hostedzone/` prefixing, and `sync_tag_with_zone` composed from the steps above.

Python iterates sets in an unspecified order at `route53_sync.py` lines 83-86, 100, 113, 125 and 161-162 (the
`to_add` set passed at line 132). The loops at
lines 87-90 iterate dict keys, whose order is open only because it follows the set loops at lines 83-86. The
methods that model those loops pick each next element with `:|`, so every contract holds for every iteration order. An IP is
`Option<string>`, because `ip_address` defaults to `None` and an instance may have no private address.

`HostIP` and `create_resource_record_set` also exist as copies in `ec2_route53_sync/models/__init__.py` and
`ec2_route53_sync/utils/__init__.py`. Each is modelled once. The table cites whichever copy the row's contract is
closest to. `HostIP` is at `route53_sync.py:10-26` and `ec2_route53_sync/models/__init__.py:4-20`.
`create_resource_record_set` is at `route53_sync.py:145-163` and `ec2_route53_sync/utils/__init__.py:3-21`.

Error behaviour that follows the code, not a richer design:

- A hostname with no zone record and only a `to_prune` entry makes `zone_diff[hostname]['to_add']` raise
  `KeyError('to_add')` at `route53_sync.py:132`. `CreateZoneChanges` models exactly that as
  `Failure(KeyError("to_add"))`. It is not a dedicated "inconsistent change" error.
- A hostname with no record that has both entries silently drops its `to_prune`, as the code does.
- `Convergence.PlanInputHasNoKeyError` proves that a diff computed from one pair of snapshots never reaches this
  case.
- A batch size of 0 raises `ValueError` from `range`. A negative batch size submits nothing.

## Model

| member | source | states |
|---|---|---|
| `Models.Equals` | ec2_route53_sync/models/__init__.py:9-12 | Two `HostIP`s are equal exactly when both hostname and ip_address agree; the same method is at route53_sync.py:15-18 |
| `Models.HashKey` | route53_sync.py:20-21 | Definition of the hash key as the pair (hostname, ip_address); that it agrees with `__eq__` is `HashAgreesWithEquals` |
| `Models.HashAgreesWithEquals` | ec2_route53_sync/models/__init__.py:14-15 | Equal values have equal hash keys, and conversely |
| `Models.DefaultAddress` | ec2_route53_sync/models/__init__.py:5-7 | `HostIP(hostname)` has no address: ip_address defaults to None |
| `Models.SeveralAddressesPerHost` | route53_sync.py:15-21 | One hostname with two different addresses gives two distinct set elements |
| `Models.Hostnames` | route53_sync.py:83-86 | The hostnames of a host set are exactly those of its elements (the keys the defaultdicts acquire) |
| `Models.IpsOf` | route53_sync.py:84 | The addresses collected for a hostname are exactly those paired with it in the set |
| `Models.IpsOfNonEmpty` | route53_sync.py:83-86 | A hostname gets a non-empty address set exactly when it occurs in the host set |
| `Models.EqualByHostname` | route53_sync.py:182-185 | Helper of the convergence proof: two host sets with the same addresses for every hostname are equal |
| `Strings.StartsWith` | route53_sync.py:180 | Definition of `str.startswith`: the string is at least as long as the prefix and begins with it; `Sync.NormalizeZoneId` is stated in it |
| `Strings.FirstLabel` | route53_sync.py:61 | `split('.')[0]` is the longest dot-free prefix, followed by a dot or the end of the string |
| `Strings.FirstLabelUnique` | route53_sync.py:106 | Any dot-free prefix ending at a dot or at the end is the first label |
| `Strings.FirstLabelOfDotted` | route53_sync.py:158 | The first label of `hostname.rest` is the hostname when it holds no dot |
| `RecordSets.ValuesOf` | route53_sync.py:95 | Definition: the `Value`s of a record list, position by position; `ValueSetOfRecords` is the property stated about it |
| `RecordSets.ValueSet` | route53_sync.py:95 | `set(rec['Value'] for rec in resource_records)`: exactly the values occurring in the list |
| `RecordSets.RecordsOf` | route53_sync.py:100 | One `{'Value': ip}` per address, in order |
| `RecordSets.ValueSetOfRecords` | route53_sync.py:100 | The values of the records built from a list are exactly the list's elements |
| `RecordSets.CreateResourceRecordSet` | ec2_route53_sync/utils/__init__.py:15-21 | Name is `hostname.zone_name.`, Type is `A`, TTL is the argument (default 300), and the Values are the addresses in input order |
| `RecordSets.CreateRoundTrip` | route53_sync.py:157-163 | For a hostname without a dot, flattening a created record recovers the hostname as first label and the addresses with the same length |
| `RecordSets.DocstringExample` | ec2_route53_sync/utils/__init__.py:10-13 | The doctest's record for `('foo', 'bar.baz', ['1.2.3.4', '5.6.7.8'])` |
| `Instances.GetInstanceTag` | route53_sync.py:29-33 | Fails with `KeyError(tag_name)` exactly when no tag has that key; otherwise returns the first matching tag's value, cut to its first label with `name_is_fqdn` |
| `Instances.TagHostname` | route53_sync.py:32 | The returned hostname is a prefix of the tag value: the whole value without `name_is_fqdn`, and with it a dot-free part that stops at the first dot |
| `Instances.Selected` | route53_sync.py:48 | Kept exactly when the VPC id is in `vpc_ids`, or `include_ec2` is set and the VPC id is absent or empty: an instance in a listed VPC is always kept, one in an unlisted non-empty VPC always dropped, and one with no or an empty VPC id kept under `include_ec2` |
| `Instances.FqdnHostnameHasNoDot` | route53_sync.py:32 | With `name_is_fqdn` the returned hostname holds no dot |
| `Instances.Ec2Hosts` | route53_sync.py:45-48 | Fails exactly when a selected instance lacks the tag; otherwise a `HostIP` is a member exactly when it is `HostIP(tag hostname, private ip)` of some selected instance (several instances may give the same member) |
| `Zone.FilterA` | route53_sync.py:55-56 | Keeps only record sets of Type `A`, every one of them, and no more than it is given; order and multiplicity are fixed by `FilterAOne` and `FilterAAppend` |
| `Zone.FilterAOne` | route53_sync.py:55-56 | A single record set is kept exactly when its Type is `A` |
| `Zone.FilterAAppend` | route53_sync.py:54-56 | Filtering a concatenation of pages is concatenating the filtered pages |
| `Zone.RecordHosts` | route53_sync.py:61-63 | A HostIP comes from a record set exactly when its hostname is the record's first label and its address is one of the record's Values |
| `Zone.ZoneHosts` | route53_sync.py:61-63 | A HostIP is in the flattened zone exactly when some A record has its hostname as first label and its address among its Values |
| `Zone.ZoneHostnamesHaveNoDot` | route53_sync.py:61 | No flattened hostname holds a dot |
| `Zone.Labels` | route53_sync.py:104-106 | The first labels of the A records |
| `Zone.RecordIndex` | route53_sync.py:104-107 | The `a_rec_dict` keys are exactly the first labels, and each maps to the last record with that label |
| `Zone.IndexEntry` | route53_sync.py:107 | An indexed record is one of the A records and carries the key as first label |
| `Zone.Lookup` | route53_sync.py:110-125 | Definition of the `dict` lookup: found exactly when the hostname is a key, and then yields its record; `IndexEntry` is the property stated about it |
| `Zone.ZoneIpsOfUnlabelled` | route53_sync.py:61-63 | A hostname that labels no record has no address in the flattened zone |
| `Zone.ZoneIpsFromIndex` | route53_sync.py:104-107 | With distinct first labels, a hostname's zone addresses are exactly the Values of its indexed record |
| `Merge.TagZoneDiff` | route53_sync.py:74-75 | `hosts_to_add` is tag minus zone and `hosts_to_prune` is zone minus tag, element by element |
| `Merge.DiffDisjoint` | route53_sync.py:74-75 | The two halves of the diff are disjoint |
| `Merge.DiffSwap` | route53_sync.py:74-75 | Swapping the snapshots swaps the halves |
| `Merge.DiffSelf` | route53_sync.py:74-75 | Diffing a set with itself gives two empty sets |
| `Merge.DiffRebuildsTag` | route53_sync.py:74-75 | Pruning and then adding turns the zone into the tag inventory |
| `Merge.Group` | route53_sync.py:80-86 | Grouping keys are the hostnames, each mapped to its non-empty address set |
| `Merge.IpsOfInsert` | route53_sync.py:84 | Adding one HostIP adds its address to its own hostname only |
| `Merge.HostnamesInsert` | route53_sync.py:84 | Adding one HostIP adds its hostname to the keys |
| `Merge.GroupInsert` | route53_sync.py:84 | `d[h.hostname].add(h.ip_address)` on a defaultdict is grouping the enlarged set |
| `Merge.GroupByHostname` | route53_sync.py:83-86 | The grouping loop computes the grouping of the whole set, for every iteration order |
| `Merge.Combine` | route53_sync.py:87-90 | The combined keys are the union of both groupings' keys |
| `Merge.MergedDiff` | route53_sync.py:79-91 | Keys are the union of both halves' hostnames; `to_add` is present exactly when the hostname is added and holds exactly its added addresses, and likewise for `to_prune` |
| `Merge.MergedDiffEntries` | route53_sync.py:87-90 | A present `to_add` or `to_prune` is the hostname's non-empty address set in that half |
| `Merge.AddedOf` | route53_sync.py:96-97 | Definition: the `'to_add'` addresses, none when the key is absent; `Changes.NewIps` is computed with it and `Merge.MergedEntryRebuildsTag` is stated in it |
| `Merge.PrunedOf` | route53_sync.py:98-99 | Definition: the `'to_prune'` addresses, none when the key is absent; `Changes.NewIps` is computed with it and `Merge.MergedEntryRebuildsTag` is stated in it |
| `Merge.MergedEntryRebuildsTag` | route53_sync.py:79-91 | For a diff of tag against zone, one entry turns a hostname's zone addresses into its tag addresses, and its two parts are disjoint |
| `Merge.NewHostEntry` | route53_sync.py:79-91 | A hostname with no zone address has no `to_prune`, and its `to_add` is exactly its tag addresses |
| `Merge.MergeGroups` | route53_sync.py:87-90 | The two key loops build the combined map |
| `Merge.CreateMergedDiff` | route53_sync.py:79-91 | `create_merged_diff` returns exactly the merged diff |
| `Changes.ListOf` | route53_sync.py:100 | Listing a set yields each element exactly once, in some order |
| `Changes.NewIps` | route53_sync.py:94-99 | The new addresses are (existing values plus `to_add`) minus `to_prune`, an absent key counting as empty |
| `Changes.ApplyRrDiff` | route53_sync.py:94-100 | The returned records hold exactly the new addresses, each once |
| `Changes.IsUpdateFor` | route53_sync.py:115-123 | Definition of a valid change for a recorded hostname: DELETE of the unmodified record when no address remains, otherwise UPSERT with only the records replaced by the new addresses, each once; its consequences are in `ExistingChangeEffect` |
| `Changes.IsCreateFor` | route53_sync.py:124-133 | Definition of a valid change for a hostname without a record: a CREATE of `hostname.zone_name.`, Type `A`, TTL 300, Values exactly the `to_add` addresses, each once; its consequences are in `NewChangeEffect` |
| `Changes.IsChangeFor` | route53_sync.py:113-133 | Definition: `IsUpdateFor` when the hostname has a record, `IsCreateFor` when it has none |
| `Changes.LeftIps` | route53_sync.py:117-133 | Definition of the addresses a change leaves on its name: none after DELETE, the submitted Values after CREATE or UPSERT; `ExistingChangeEffect`, `ApplyChangeIps` and the convergence lemmas are stated in it |
| `Changes.ExistingChangeEffect` | route53_sync.py:117-123 | A change for a recorded hostname keeps its name and leaves it no address (DELETE) or exactly the new ones (UPSERT) |
| `Changes.NewChangeEffect` | route53_sync.py:125-133 | For a hostname without a dot, a CREATE names `hostname.zone_name.`, whose first label is the hostname, and carries exactly the `to_add` addresses, whatever `to_prune` holds |
| `Changes.NoDuplicatesAppend` | route53_sync.py:113-133 | Appending the creates for new hostnames to the updates for recorded ones repeats no hostname |
| `Changes.BuildRecordIndex` | route53_sync.py:104-107 | The loop builds `a_rec_dict` as the index of the last record per first label |
| `Changes.ExistingHostChange` | route53_sync.py:114-123 | DELETE of the unmodified record when no address remains, otherwise UPSERT of the record with only its ResourceRecords replaced |
| `Changes.ExistingHostChanges` | route53_sync.py:113-123 | One DELETE or UPSERT per hostname in both the diff and the index, none of them a CREATE |
| `Changes.NewHostChanges` | route53_sync.py:125-133 | One CREATE per hostname of the diff without a record; fails with `KeyError('to_add')` exactly when such a hostname has no `to_add` |
| `Changes.CreateZoneChanges` | route53_sync.py:103-134 | Exactly one valid change per merged hostname, updates before creates; fails exactly when a hostname without a record lacks `to_add` |
| `Batching.Batches` | route53_sync.py:139-140 | Definition of the slices `changes[i:min(i+batch_size, n)]` for i = 0, batch_size, ...; its properties are the five rows after it |
| `Batching.BatchesConcat` | route53_sync.py:139-140 | The batches concatenate back to the change list |
| `Batching.BatchesBounded` | route53_sync.py:139-140 | Every batch holds between 1 and `batch_size` changes |
| `Batching.BatchAt` | route53_sync.py:140 | Batch k is the slice `changes[k*batch_size : min((k+1)*batch_size, n)]` |
| `Batching.BatchesCount` | route53_sync.py:139 | There are ceil(n / batch_size) batches, so none for an empty list |
| `Batching.LastBatchSize` | route53_sync.py:140 | The last batch holds `n mod batch_size` changes, or a full batch when that is 0 |
| `Batching.Submissions` | route53_sync.py:142 | One submission per batch, in order, all to the given zone id |
| `Batching.SubmitFirst` | route53_sync.py:139-140 | Submitting a non-empty list is its first slice followed by the submissions of the rest |
| `Batching.SubmitStep` | route53_sync.py:139-142 | One loop turn leaves exactly the batches from `i + batch_size` on still to send |
| `Batching.ZoneStore.constructor` | route53_sync.py:6 | A fresh client has submitted nothing |
| `Batching.ZoneStore.ChangeResourceRecordSets` | route53_sync.py:142 | A call appends its batch to the submission log |
| `Batching.ApplyZoneChanges` | route53_sync.py:137-142 | A positive batch size submits the batches in order; 0 raises `ValueError`; a negative size submits nothing |
| `Convergence.ApplyChange` | route53_sync.py:142 | Definition of the zone after one change: the pairs of the change's first label are dropped, and for CREATE and UPSERT replaced by the record's Values; its effect is stated in `ApplyChangeIps` |
| `Convergence.ApplyChanges` | route53_sync.py:142 | Definition: the changes are applied one after another, in list order |
| `Convergence.ApplyChangeIps` | route53_sync.py:117-133 | Route53's effect of a change: the first label of its name ends with no address (DELETE) or the record's Values, and every other hostname is untouched |
| `Convergence.PlanInput` | route53_sync.py:182-183 | Definition of `zone_diff` for two snapshots: the subtractions of lines 74-75 merged by `create_merged_diff`; `Convergence.PlanInputKeys` states which hostnames it holds |
| `Convergence.PlanInputKeys` | route53_sync.py:74-91 | A hostname is a key of the merged diff exactly when the tag inventory and the zone give it different address sets |
| `Convergence.NoMissingToAdd` | route53_sync.py:132 | For a diff of one pair of snapshots, a hostname without a record always has `to_add` |
| `Convergence.PlanInputHasNoKeyError` | route53_sync.py:125-133 | For such a diff the failure condition of `create_zone_changes` never holds |
| `Convergence.PlanHostnameHasNoDot` | route53_sync.py:74-75 | Every merged hostname is dot-free when the tag hostnames are |
| `Convergence.ChangeYieldsTagIps` | route53_sync.py:113-133 | When the zone's first labels are distinct and no tag hostname holds a dot, the change for a merged hostname names it and leaves it exactly its tag addresses |
| `Convergence.RecordedChangeYieldsTagIps` | route53_sync.py:113-123 | With distinct first labels, the DELETE or UPSERT for a recorded hostname leaves it exactly its tag addresses |
| `Convergence.MissingRecordChangeYieldsTagIps` | route53_sync.py:125-133 | The CREATE for a dot-free hostname without a record names it and carries exactly its tag addresses |
| `Convergence.PrefixIps` | route53_sync.py:139-142 | After a prefix of the changes, the hostnames covered carry their target addresses and the rest keep their zone addresses |
| `Convergence.ChangesReachTarget` | route53_sync.py:139-142 | Changes for distinct hostnames that each leave the target addresses turn a zone agreeing elsewhere into the target |
| `Convergence.UnchangedHostname` | route53_sync.py:87-90 | A hostname outside the merged diff has the same addresses in tag and zone |
| `Convergence.PlanConverges` | route53_sync.py:182-185 | Applying a change list `create_zone_changes` may return leaves the zone equal to the tag inventory |
| `Convergence.ConvergedZoneNeedsNoChange` | route53_sync.py:182-184 | A zone that matches the tag inventory gets an empty merged diff |
| `Sync.NormalizeZoneId` | route53_sync.py:180-181 | The result starts with `/hostedzone/`; a prefixed id is unchanged and a bare one gets the prefix |
| `Sync.NormalizeIdempotent` | route53_sync.py:180-181 | Normalising twice is normalising once |
| `Sync.NormalizeKeepsId` | route53_sync.py:181 | The normalised id ends with the given id |
| `Sync.FqdnTagHostsHaveNoDot` | route53_sync.py:45-48 | With `--fqdn` no tag hostname holds a dot |
| `Sync.PlanChanges` | route53_sync.py:182-184 | The plan for any tag set and zone: one valid `create_zone_changes` change per merged hostname, no hostname twice, and the `'to_add'` lookup never fails; under the two convergence conditions applying it makes the zone equal to the tag inventory |
| `Sync.SyncTagWithZone` | route53_sync.py:172-185 | Fails only when a selected instance lacks the tag, and then submits nothing; otherwise the change list it submits, in batches of 100 to the normalised id, is a `create_zone_changes` plan for the merged diff of the two snapshots (one valid change per merged hostname, no hostname twice), and under the two convergence conditions that plan makes the zone equal to the tag inventory |

## Left out

- EC2 and Route53 I/O are not modelled: the boto3 globals, the instance query with its tag-key and running-state
  filters, the `list_resource_record_sets` pagination loop, and the real `change_resource_record_sets` call.
  `SyncTagWithZone` takes the running instances and all of the zone's record sets as snapshots. Submission is a
  ghost log on `ZoneStore`.
- The click decorators and argument parsing, the `print` logging and the doctest runner are left out, because they
  are user interface and test plumbing.
- Python's `hash()` values and `__repr__` text are left out; only equality and the hash key's inputs matter.
- A record set is modelled only by Name, Type, TTL and `ResourceRecords`. Other Route53 fields, such as alias
  targets, are not modelled. A record set without `ResourceRecords` cannot be expressed, though it would make the
  Python code raise `KeyError`.
- `Convergence.ApplyChange` is a simplified model of Route53 that accepts every change. A change replaces the
  addresses of the first label of its name, whatever the rest of the name is. Route53's rejection of a batch is not
  modelled: a CREATE for an existing name, a DELETE that does not match, or a record named outside the hosted zone.
  The last happens for every CREATE when `zone_name` is not the name of the hosted zone `zone_id` or ends with a
  dot (`route53_sync.py` lines 131 and 170-171 never check that they agree); Route53 then rejects the batch,
  `change_resource_record_sets` raises, and the pass does not converge. `Convergence.PlanConverges` and the
  convergence clauses of `Sync.PlanChanges` and `Sync.SyncTagWithZone` assume that it agrees.
  `ApplyChange` also keeps a submitted name exactly as written, while Route53 stores names in lowercase and returns
  characters other than a-z, 0-9, `-` and `_` as escape codes. The script compares first labels case-sensitively
  (`route53_sync.py` lines 61, 74-75 and 106), so a tag hostname such as `Web1` is created as `Web1.example.com.`,
  read back as `web1`, and then deleted and created again on every pass: the zone never matches the tag inventory.
  The convergence claims therefore also assume that every tag hostname is already lowercase and free of such
  characters.
- Besides an accepting Route53 that keeps names as submitted, `Convergence.PlanConverges` assumes two things:
  - The A records' names have distinct first labels. Otherwise `a_rec_dict` keeps only the last record with a
    label, and the convergence claim is false.
  - No tag hostname holds a dot. Otherwise a CREATE for `a.b` would be flattened back as `a`.
  With `--fqdn`, `Sync.FqdnTagHostsHaveNoDot` discharges the second assumption.
- Python's aborting exceptions are results. `KeyError` and `ValueError` are returned as `Failure`/`Some` values,
  and nothing after the raising step runs.
- Setup metadata (`setup.py`) is not part of this model.
