/** The batch every stream adapter hands to its handler: four buckets
    (posts, reposts, likes, follows), each with a creates list and a deletes
    list. A create carries uri, cid, indexedAt and text; a delete only a uri. */
module Timer {
  import opened Wrappers
  import Seqs

  /** A timestamp in integer milliseconds since the epoch. */
  type Millis = int

  /** The largest time value a JavaScript Date holds, 8.64e15 ms either
      side of the epoch. */
  const MaxTime := 8_640_000_000_000_000

  /** A time value `toISOString` accepts: a number (`None` stands for NaN)
      within range. */
  predicate ValidTime(t: Option<int>)
  {
    t.Some? && -MaxTime <= t.value <= MaxTime
  }

  /** What `toISOString` throws for any other time value. */
  const InvalidTimeValue := "RangeError: Invalid time value"

  datatype FeedEvent = FeedEvent(uri: string)

  datatype FeedCreateEvent = FeedCreateEvent(uri: string, cid: string, indexedAt: Millis, text: string)

  datatype FeedOperation = FeedOperation(creates: seq<FeedCreateEvent>, deletes: seq<FeedEvent>)

  datatype FeedOperationsByType = FeedOperationsByType(
    posts: FeedOperation,
    reposts: FeedOperation,
    likes: FeedOperation,
    follows: FeedOperation)

  /** The four record kinds a batch is grouped by. */
  datatype Kind = Post | Repost | Like | Follow

  const NoOps := FeedOperation([], [])

  function Bucket(b: FeedOperationsByType, k: Kind): FeedOperation
  {
    match k
    case Post => b.posts
    case Repost => b.reposts
    case Like => b.likes
    case Follow => b.follows
  }

  /** The batch both classifiers start from: eight empty lists. */
  function EmptyBatch(): (b: FeedOperationsByType)
    ensures forall k :: Bucket(b, k).creates == [] && Bucket(b, k).deletes == []
  {
    FeedOperationsByType(NoOps, NoOps, NoOps, NoOps)
  }

  function OpSize(o: FeedOperation): nat
  {
    |o.creates| + |o.deletes|
  }

  /** Total number of operations in a batch. */
  function Size(b: FeedOperationsByType): nat
  {
    OpSize(b.posts) + OpSize(b.reposts) + OpSize(b.likes) + OpSize(b.follows)
  }

  /** A batch has no operation exactly when it is the empty batch. */
  lemma SizeZero(b: FeedOperationsByType)
    ensures Size(b) == 0 <==> b == EmptyBatch()
  {
  }

  function ConcatOps(a: FeedOperation, b: FeedOperation): FeedOperation
  {
    FeedOperation(a.creates + b.creates, a.deletes + b.deletes)
  }

  /** Bucket-wise concatenation: the operations of `a` first, then those of `b`. */
  function Concat(a: FeedOperationsByType, b: FeedOperationsByType): (r: FeedOperationsByType)
    ensures forall k :: Bucket(r, k).creates == Bucket(a, k).creates + Bucket(b, k).creates
    ensures forall k :: Bucket(r, k).deletes == Bucket(a, k).deletes + Bucket(b, k).deletes
    ensures Size(r) == Size(a) + Size(b)
  {
    FeedOperationsByType(
      ConcatOps(a.posts, b.posts), ConcatOps(a.reposts, b.reposts),
      ConcatOps(a.likes, b.likes), ConcatOps(a.follows, b.follows))
  }

  lemma ConcatEmpty(a: FeedOperationsByType)
    ensures Concat(a, EmptyBatch()) == a && Concat(EmptyBatch(), a) == a
  {
  }

  lemma ConcatAssoc(a: FeedOperationsByType, b: FeedOperationsByType, c: FeedOperationsByType)
    ensures Concat(Concat(a, b), c) == Concat(a, Concat(b, c))
  {
  }

  /** The batch holding one create in bucket `k` and nothing else. */
  function WithCreate(k: Kind, e: FeedCreateEvent): (b: FeedOperationsByType)
    ensures Bucket(b, k).creates == [e] && Bucket(b, k).deletes == []
    ensures forall j :: j != k ==> Bucket(b, j) == NoOps
    ensures Size(b) == 1
  {
    var one := FeedOperation([e], []);
    match k
    case Post => EmptyBatch().(posts := one)
    case Repost => EmptyBatch().(reposts := one)
    case Like => EmptyBatch().(likes := one)
    case Follow => EmptyBatch().(follows := one)
  }

  /** The batch holding one delete in bucket `k` and nothing else. */
  function WithDelete(k: Kind, e: FeedEvent): (b: FeedOperationsByType)
    ensures Bucket(b, k).deletes == [e] && Bucket(b, k).creates == []
    ensures forall j :: j != k ==> Bucket(b, j) == NoOps
    ensures Size(b) == 1
  {
    var one := FeedOperation([], [e]);
    match k
    case Post => EmptyBatch().(posts := one)
    case Repost => EmptyBatch().(reposts := one)
    case Like => EmptyBatch().(likes := one)
    case Follow => EmptyBatch().(follows := one)
  }

  /** `b` with its bucket `k` replaced by `o`. */
  function WithBucket(b: FeedOperationsByType, k: Kind, o: FeedOperation): FeedOperationsByType
  {
    match k
    case Post => b.(posts := o)
    case Repost => b.(reposts := o)
    case Like => b.(likes := o)
    case Follow => b.(follows := o)
  }

  /** Concatenating an empty bucket leaves each bucket of `b` as it is. */
  lemma ConcatNoOps(b: FeedOperationsByType)
    ensures ConcatOps(b.posts, NoOps) == b.posts && ConcatOps(b.reposts, NoOps) == b.reposts
    ensures ConcatOps(b.likes, NoOps) == b.likes && ConcatOps(b.follows, NoOps) == b.follows
  {
    OpsNoOps(b.posts);
    OpsNoOps(b.reposts);
    OpsNoOps(b.likes);
    OpsNoOps(b.follows);
  }

  lemma OpsNoOps(o: FeedOperation)
    ensures ConcatOps(o, NoOps) == o
  {
    assert o.creates + [] == o.creates && o.deletes + [] == o.deletes;
  }

  /** `opsByType[k].creates.push(e)`: appending one create to a bucket is
      concatenating the batch holding only that create. */
  function PushCreate(b: FeedOperationsByType, k: Kind, e: FeedCreateEvent): (r: FeedOperationsByType)
    ensures r == Concat(b, WithCreate(k, e))
  {
    var o := Bucket(b, k);
    ConcatNoOps(b);
    WithBucket(b, k, FeedOperation(o.creates + [e], o.deletes))
  }

  /** `opsByType[k].deletes.push(e)`, likewise. */
  function PushDelete(b: FeedOperationsByType, k: Kind, e: FeedEvent): (r: FeedOperationsByType)
    ensures r == Concat(b, WithDelete(k, e))
  {
    var o := Bucket(b, k);
    ConcatNoOps(b);
    WithBucket(b, k, FeedOperation(o.creates, o.deletes + [e]))
  }

  /** The batches of `bs` concatenated in order. */
  function ConcatAll(bs: seq<FeedOperationsByType>): FeedOperationsByType
    decreases |bs|
  {
    if bs == [] then EmptyBatch()
    else Concat(ConcatAll(bs[..|bs| - 1]), bs[|bs| - 1])
  }

  /** Adding one batch at the end concatenates it. */
  lemma ConcatAllSnoc(bs: seq<FeedOperationsByType>, i: nat)
    requires i < |bs|
    ensures ConcatAll(bs[..i + 1]) == Concat(ConcatAll(bs[..i]), bs[i])
  {
    assert bs[..i + 1][..i] == bs[..i];
  }

  /** Concatenation of the parts is the concatenation of the whole. */
  lemma {:induction false} ConcatAllAppend(a: seq<FeedOperationsByType>, b: seq<FeedOperationsByType>)
    ensures ConcatAll(a + b) == Concat(ConcatAll(a), ConcatAll(b))
    decreases |b|
  {
    if b == [] {
      Seqs.AppendEmpty(a);
      ConcatEmpty(ConcatAll(a));
    } else {
      var n := |b| - 1;
      Seqs.SnocSplit(a, b, n);
      calc {
        ConcatAll(a + b);
        Concat(ConcatAll(a + b[..n]), b[n]);
        { ConcatAllAppend(a, b[..n]); }
        Concat(Concat(ConcatAll(a), ConcatAll(b[..n])), b[n]);
        { ConcatAssoc(ConcatAll(a), ConcatAll(b[..n]), b[n]); }
        Concat(ConcatAll(a), Concat(ConcatAll(b[..n]), b[n]));
      }
    }
  }

  /** Batches of at most one entry each add up to at most one per batch. */
  lemma {:induction false} ConcatAllSize(bs: seq<FeedOperationsByType>)
    requires forall i :: 0 <= i < |bs| ==> Size(bs[i]) <= 1
    ensures Size(ConcatAll(bs)) <= |bs|
    decreases |bs|
  {
    if bs != [] {
      ConcatAllSize(bs[..|bs| - 1]);
    }
  }

  /** An entry is in a bucket of the concatenation exactly when it is in
      that bucket of one of the batches. */
  lemma {:induction false} ConcatAllMembers(bs: seq<FeedOperationsByType>, k: Kind)
    ensures forall e :: e in Bucket(ConcatAll(bs), k).creates <==> exists i :: 0 <= i < |bs| && e in Bucket(bs[i], k).creates
    ensures forall e :: e in Bucket(ConcatAll(bs), k).deletes <==> exists i :: 0 <= i < |bs| && e in Bucket(bs[i], k).deletes
    decreases |bs|
  {
    if bs != [] {
      var n := |bs| - 1;
      ConcatAllMembers(bs[..n], k);
      BucketConcat(ConcatAll(bs[..n]), bs[n], k);
      assert forall i :: 0 <= i < n ==> bs[..n][i] == bs[i];
    }
  }

  /** Bucket `k` of a concatenation is the concatenation of the buckets. */
  lemma BucketConcat(a: FeedOperationsByType, b: FeedOperationsByType, k: Kind)
    ensures Bucket(Concat(a, b), k) == ConcatOps(Bucket(a, k), Bucket(b, k))
  {
  }
}
