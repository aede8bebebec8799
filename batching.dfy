/** `apply_zone_changes`: the change list is submitted to Route53 in consecutive batches. */
module Batching {
  import opened Wrappers
  import opened Changes

  const DefaultBatchSize: int := 100

  function Min(a: int, b: int): int
  {
    if a <= b then a else b
  }

  /** The slices `changes[i:min(i + batch_size, len(changes))]` for `i` in `range(0, len(changes), batch_size)`. */
  function Batches(changes: seq<Change>, batchSize: nat): seq<seq<Change>>
    requires batchSize > 0
    decreases |changes|
  {
    if changes == [] then []
    else
      var k := Min(batchSize, |changes|);
      [changes[..k]] + Batches(changes[k..], batchSize)
  }

  /** The batches one after the other. */
  function Concat(batches: seq<seq<Change>>): seq<Change>
  {
    if batches == [] then [] else batches[0] + Concat(batches[1..])
  }

  /** Concatenating the batches in submission order gives the change list back. */
  lemma {:induction false} BatchesConcat(changes: seq<Change>, batchSize: nat)
    requires batchSize > 0
    ensures Concat(Batches(changes, batchSize)) == changes
    decreases |changes|
  {
    if changes != [] {
      var k := Min(batchSize, |changes|);
      BatchesConcat(changes[k..], batchSize);
      assert changes[..k] + changes[k..] == changes;
    }
  }

  /** No batch is empty and none holds more than `batch_size` changes. */
  lemma {:induction false} BatchesBounded(changes: seq<Change>, batchSize: nat)
    requires batchSize > 0
    ensures forall b :: b in Batches(changes, batchSize) ==> 0 < |b| <= batchSize
    decreases |changes|
  {
    if changes != [] {
      BatchesBounded(changes[Min(batchSize, |changes|)..], batchSize);
    }
  }

  /** Batch `k` is the slice starting at `k * batch_size`. */
  lemma {:induction false} BatchAt(changes: seq<Change>, batchSize: nat, k: nat)
    requires batchSize > 0
    requires k < |Batches(changes, batchSize)|
    ensures k * batchSize < |changes|
    ensures Batches(changes, batchSize)[k] == changes[k * batchSize .. Min((k + 1) * batchSize, |changes|)]
    decreases |changes|
  {
    var m := Min(batchSize, |changes|);
    if k > 0 {
      var rest := changes[m..];
      BatchAt(rest, batchSize, k - 1);
      assert m == batchSize;
      assert (k - 1) * batchSize + batchSize == k * batchSize;
      assert k * batchSize + batchSize == (k + 1) * batchSize;
      assert rest[(k - 1) * batchSize .. Min(k * batchSize, |rest|)]
          == changes[k * batchSize .. Min((k + 1) * batchSize, |changes|)];
    }
  }

  /** There are `ceil(N / batch_size)` batches: none for an empty list. */
  lemma {:induction false} BatchesCount(changes: seq<Change>, batchSize: nat)
    requires batchSize > 0
    ensures |Batches(changes, batchSize)| == (|changes| + batchSize - 1) / batchSize
    decreases |changes|
  {
    var n := |changes|;
    if changes == [] {
      DivModUnique(batchSize - 1, batchSize, 0, batchSize - 1);
    } else if n <= batchSize {
      assert Batches(changes[n..], batchSize) == [];
      DivModUnique(n + batchSize - 1, batchSize, 1, n - 1);
    } else {
      var rest := changes[batchSize..];
      assert |Batches(changes, batchSize)| == 1 + |Batches(rest, batchSize)|;
      BatchesCount(rest, batchSize);
      var x := n - 1;
      assert |rest| + batchSize - 1 == x;
      DivStep(x, batchSize);
      assert x + batchSize == n + batchSize - 1;
    }
  }

  lemma MulAtLeast(a: int, d: int)
    requires a >= 1 && d > 0
    ensures a * d >= d
  {
  }

  /** Euclidean division is determined by quotient and remainder. */
  lemma DivModUnique(y: int, d: int, q: int, r: int)
    requires d > 0 && y == q * d + r && 0 <= r < d
    ensures y / d == q && y % d == r
  {
    var q', r' := y / d, y % d;
    assert (q - q') * d == r' - r;
    if q - q' >= 1 { MulAtLeast(q - q', d); }
    else if q' - q >= 1 { MulAtLeast(q' - q, d); }
  }

  lemma DivStep(x: int, d: int)
    requires d > 0 && x >= 0
    ensures (x + d) / d == x / d + 1 && (x + d) % d == x % d
  {
    DivModUnique(x + d, d, x / d + 1, x % d);
  }

  /** The last batch holds `N mod batch_size` changes, or `batch_size` when that divides `N`. */
  lemma {:induction false} LastBatchSize(changes: seq<Change>, batchSize: nat)
    requires batchSize > 0 && changes != []
    ensures var bs := Batches(changes, batchSize);
            |bs| > 0 && |bs[|bs| - 1]| == if |changes| % batchSize == 0 then batchSize else |changes| % batchSize
    decreases |changes|
  {
    var n := |changes|;
    if n > batchSize {
      LastBatchSize(changes[batchSize..], batchSize);
      DivStep(n - batchSize, batchSize);
    } else if n < batchSize {
      assert n % batchSize == n;
    } else {
      assert n % batchSize == 0;
    }
  }

  /** One call `change_resource_record_sets(HostedZoneId=..., ChangeBatch={'Changes': ...})`. */
  datatype Submission = Submission(hostedZoneId: string, changes: seq<Change>)

  /** The Route53 client, reduced to the record of what was submitted to it. */
  class ZoneStore {
    ghost var log: seq<Submission>

    constructor ()
      ensures log == []
    {
      log := [];
    }

    /** `r53_client.change_resource_record_sets`: the batch is appended to the log. */
    method ChangeResourceRecordSets(hostedZoneId: string, changes: seq<Change>)
      modifies this
      ensures log == old(log) + [Submission(hostedZoneId, changes)]
    {
      log := log + [Submission(hostedZoneId, changes)];
    }
  }

  /** The submissions for a list of batches, in order. */
  function Submissions(hostedZoneId: string, batches: seq<seq<Change>>): (s: seq<Submission>)
    ensures |s| == |batches|
    ensures forall k :: 0 <= k < |s| ==> s[k] == Submission(hostedZoneId, batches[k])
  {
    if batches == [] then [] else [Submission(hostedZoneId, batches[0])] + Submissions(hostedZoneId, batches[1..])
  }

  /** Submitting a non-empty list is submitting its first slice, then the batches of the rest. */
  lemma SubmitFirst(hostedZoneId: string, changes: seq<Change>, batchSize: nat)
    requires batchSize > 0 && changes != []
    ensures var k := Min(batchSize, |changes|);
      Submissions(hostedZoneId, Batches(changes, batchSize))
        == [Submission(hostedZoneId, changes[..k])] + Submissions(hostedZoneId, Batches(changes[k..], batchSize))
  {
    var k := Min(batchSize, |changes|);
    var bs := Batches(changes, batchSize);
    assert bs[0] == changes[..k];
    assert bs[1..] == Batches(changes[k..], batchSize);
  }

  /** One turn of the submission loop: sending `changes[i:next]` leaves the batches from `next` on to send. */
  lemma SubmitStep(log: seq<Submission>, hostedZoneId: string, changes: seq<Change>, batchSize: nat, i: nat,
                   sent: seq<Submission>)
    requires batchSize > 0 && i < |changes|
    requires log + Submissions(hostedZoneId, Batches(changes[i..], batchSize)) == sent
    ensures var next := Min(i + batchSize, |changes|);
      (log + [Submission(hostedZoneId, changes[i..next])])
        + Submissions(hostedZoneId, Batches(changes[next..], batchSize)) == sent
  {
    var next := Min(i + batchSize, |changes|);
    var rest := changes[i..];
    assert rest[..Min(batchSize, |rest|)] == changes[i..next];
    assert rest[Min(batchSize, |rest|)..] == changes[next..];
    SubmitFirst(hostedZoneId, rest, batchSize);
  }

  /** `apply_zone_changes(zone_id, changes, batch_size=100)`. A zero `batch_size` makes `range` raise
      `ValueError` before anything is sent; a negative one makes the range empty. */
  method ApplyZoneChanges(store: ZoneStore, zoneId: string, changes: seq<Change>, batchSize: int := DefaultBatchSize)
    returns (err: Option<Error>)
    modifies store
    ensures err == if batchSize == 0 then Some(ValueError) else None
    ensures batchSize > 0 ==> store.log == old(store.log) + Submissions(zoneId, Batches(changes, batchSize))
    ensures batchSize <= 0 ==> store.log == old(store.log)
  {
    var changesSize := |changes|;
    if batchSize == 0 {
      return Some(ValueError);
    }
    err := None;
    if batchSize < 0 {
      return;
    }
    var i := 0;
    ghost var sent := old(store.log) + Submissions(zoneId, Batches(changes, batchSize));
    while i < changesSize
      invariant 0 <= i
      invariant store.log + Submissions(zoneId, Batches(changes[Min(i, changesSize)..], batchSize)) == sent
      decreases changesSize - i
    {
      var next := Min(i + batchSize, changesSize);
      var changeBatch := changes[i..next];
      SubmitStep(store.log, zoneId, changes, batchSize, i, sent);
      store.ChangeResourceRecordSets(zoneId, changeBatch);
      i := i + batchSize;
      assert Min(i, changesSize) == next;
    }
    assert changes[changesSize..] == [];
  }
}
