/** The repo-firehose adapter (src/util/firehose.ts): it classifies the
    operations of each commit into a batch, hands every batch to the
    handler in stream order, and stores the commit's sequence number as
    the cursor whenever it is a multiple of 20. */
module Firehose {
  import opened Wrappers
  import opened Timer
  import opened Store
  import opened Text
  import opened Stream
  import Handler

  datatype Action = Create | Update | Delete

  /** One operation of a commit; deletes carry no cid. */
  datatype RepoOp = RepoOp(action: Action, path: string, cid: Option<string>)

  /** A decoded record: its `text` field and its other fields by name. */
  datatype LexRecord = LexRecord(text: string, fields: map<string, string>)

  /** A commit: sequence number, author repo, operations, and the records
      of its CAR blocks, already decoded and keyed by cid. */
  datatype Commit = Commit(seqNo: int, repo: string, ops: seq<RepoOp>, blocks: map<string, LexRecord>)

  datatype RepoEvent = CommitEvent(commit: Commit) | OtherEvent(kind: string)

  /** What the subscription yields: a message that passed validation, one
      that did not (it is skipped), or a transport failure that ends the
      iteration. */
  datatype Frame = Message(evt: RepoEvent) | InvalidMessage | TransportError

  /** `lexicons.assertValidRecord(nsid, record)` succeeding. */
  type Validator = (string, LexRecord) -> bool

  const PostNsid := "app.bsky.feed.post"
  const RepostNsid := "app.bsky.feed.repost"
  const LikeNsid := "app.bsky.feed.like"
  const FollowNsid := "app.bsky.graph.follow"

  /** The collection a bucket holds. */
  function Nsid(k: Kind): string
  {
    match k
    case Post => PostNsid
    case Repost => RepostNsid
    case Like => LikeNsid
    case Follow => FollowNsid
  }

  /** The bucket of a collection, if it is one of the four. */
  function KindOf(collection: string): (k: Option<Kind>)
    ensures k.Some? ==> Nsid(k.value) == collection
    ensures k.None? ==> forall j :: Nsid(j) != collection
  {
    if collection == PostNsid then Some(Post)
    else if collection == RepostNsid then Some(Repost)
    else if collection == LikeNsid then Some(Like)
    else if collection == FollowNsid then Some(Follow)
    else None
  }

  /** The four collection names are distinct: each names its own bucket. */
  lemma KindOfNsid(k: Kind)
    ensures KindOf(Nsid(k)) == Some(k)
  {
    assert PostNsid[14] == 'p' && RepostNsid[14] == 'r' && LikeNsid[14] == 'l';
    assert FollowNsid[9] == 'g' && PostNsid[9] == 'f';
  }

  /** `op.path.split('/')[0]`. */
  function Collection(path: string): string
  {
    Split(path, '/')[0]
  }

  /** The collection is the text of the path before its first '/'. */
  lemma CollectionIsFirstSegment(path: string)
    ensures var c := Collection(path);
      |c| <= |path| && c == path[..|c|] && '/' !in c && (|c| == |path| || path[|c|] == '/')
  {
    SplitFirst(path, '/');
  }

  /** `at://{repo}/{path}`. */
  function AtUri(repo: string, path: string): string
  {
    "at://" + repo + "/" + path
  }

  /** `record.text` for a post; reposts, likes and follows carry `''`. */
  function RecordText(k: Kind, r: LexRecord): string
  {
    if k == Post then r.text else ""
  }

  /** What one operation adds to the batch, `t` being the clock value read
      for it. */
  function OpBatch(repo: string, op: RepoOp, blocks: map<string, LexRecord>, t: Millis, valid: Validator)
    : FeedOperationsByType
  {
    var uri := AtUri(repo, op.path);
    var kind := KindOf(Collection(op.path));
    match op.action
    case Update => EmptyBatch()
    case Create =>
      if op.cid.None? || op.cid.value !in blocks || kind.None? then EmptyBatch()
      else
        var record := blocks[op.cid.value];
        if valid(Nsid(kind.value), record)
        then WithCreate(kind.value, FeedCreateEvent(uri, op.cid.value, t, RecordText(kind.value, record)))
        else EmptyBatch()
    case Delete =>
      if kind.None? then EmptyBatch() else WithDelete(kind.value, FeedEvent(uri))
  }

  /** One operation adds at most one entry. Updates, creates without a
      cid or without their block add nothing; a delete in one of the four
      collections adds its uri to that bucket's deletes, unvalidated; a
      create adds to its collection's creates only when the validator
      accepts the record, with the cid, the clock value and the text
      (posts only). */
  lemma OpBatchSpec(repo: string, op: RepoOp, blocks: map<string, LexRecord>, t: Millis, valid: Validator)
    ensures Size(OpBatch(repo, op, blocks, t, valid)) <= 1
    ensures op.action == Update ==> OpBatch(repo, op, blocks, t, valid) == EmptyBatch()
    ensures (op.action == Create && (op.cid.None? || op.cid.value !in blocks)) ==>
              OpBatch(repo, op, blocks, t, valid) == EmptyBatch()
    ensures var b := OpBatch(repo, op, blocks, t, valid);
      forall k :: Bucket(b, k).deletes != [] <==> op.action == Delete && KindOf(Collection(op.path)) == Some(k)
    ensures var b := OpBatch(repo, op, blocks, t, valid);
      forall k :: Bucket(b, k).deletes != [] ==> Bucket(b, k).deletes == [FeedEvent(AtUri(repo, op.path))]
    ensures var b := OpBatch(repo, op, blocks, t, valid);
      forall k :: Bucket(b, k).creates != [] <==>
        && op.action == Create && op.cid.Some? && op.cid.value in blocks
        && KindOf(Collection(op.path)) == Some(k) && valid(Nsid(k), blocks[op.cid.value])
    ensures var b := OpBatch(repo, op, blocks, t, valid);
      forall k :: Bucket(b, k).creates != [] ==>
        Bucket(b, k).creates == [FeedCreateEvent(AtUri(repo, op.path), op.cid.value, t, RecordText(k, blocks[op.cid.value]))]
  {
  }

  /** The batch of an accepted create in bucket `k`. */
  lemma OpBatchCreate(repo: string, op: RepoOp, blocks: map<string, LexRecord>, t: Millis, valid: Validator, k: Kind)
    requires op.action == Create && op.cid.Some? && op.cid.value in blocks
    requires KindOf(Collection(op.path)) == Some(k) && valid(Nsid(k), blocks[op.cid.value])
    ensures OpBatch(repo, op, blocks, t, valid)
         == WithCreate(k, FeedCreateEvent(AtUri(repo, op.path), op.cid.value, t, RecordText(k, blocks[op.cid.value])))
  {
  }

  /** The batch of a delete in bucket `k`. */
  lemma OpBatchDelete(repo: string, op: RepoOp, blocks: map<string, LexRecord>, t: Millis, valid: Validator, k: Kind)
    requires op.action == Delete && KindOf(Collection(op.path)) == Some(k)
    ensures OpBatch(repo, op, blocks, t, valid) == WithDelete(k, FeedEvent(AtUri(repo, op.path)))
  {
  }

  /** The batch of each operation, `times[i]` being the clock value read
      for `ops[i]`. */
  function OpBatches(repo: string, ops: seq<RepoOp>, times: seq<Millis>, blocks: map<string, LexRecord>,
                     valid: Validator): (bs: seq<FeedOperationsByType>)
    requires |times| == |ops|
    ensures |bs| == |ops|
    ensures forall i :: 0 <= i < |ops| ==> bs[i] == OpBatch(repo, ops[i], blocks, times[i], valid)
  {
    seq(|ops|, i requires 0 <= i < |ops| => OpBatch(repo, ops[i], blocks, times[i], valid))
  }

  /** The batch of a commit: the batches of its operations, in order. */
  function Classify(repo: string, ops: seq<RepoOp>, times: seq<Millis>, blocks: map<string, LexRecord>,
                    valid: Validator): FeedOperationsByType
    requires |times| == |ops|
  {
    ConcatAll(OpBatches(repo, ops, times, blocks, valid))
  }

  /** No more entries than operations; no operation, no entry. */
  lemma ClassifySize(repo: string, ops: seq<RepoOp>, times: seq<Millis>,
                     blocks: map<string, LexRecord>, valid: Validator)
    requires |times| == |ops|
    ensures Size(Classify(repo, ops, times, blocks, valid)) <= |ops|
    ensures ops == [] ==> Classify(repo, ops, times, blocks, valid) == EmptyBatch()
  {
    var bs := OpBatches(repo, ops, times, blocks, valid);
    forall i | 0 <= i < |bs|
      ensures Size(bs[i]) <= 1
    {
      OpBatchSpec(repo, ops[i], blocks, times[i], valid);
    }
    ConcatAllSize(bs);
  }

  /** Classification keeps operation order: the batch of `a + b` is the
      batch of `a` followed, bucket by bucket, by the batch of `b`. */
  lemma ClassifyConcat(repo: string, a: seq<RepoOp>, ta: seq<Millis>, b: seq<RepoOp>, tb: seq<Millis>,
                       blocks: map<string, LexRecord>, valid: Validator)
    requires |ta| == |a| && |tb| == |b|
    ensures Classify(repo, a + b, ta + tb, blocks, valid)
         == Concat(Classify(repo, a, ta, blocks, valid), Classify(repo, b, tb, blocks, valid))
  {
    assert OpBatches(repo, a + b, ta + tb, blocks, valid)
        == OpBatches(repo, a, ta, blocks, valid) + OpBatches(repo, b, tb, blocks, valid);
    ConcatAllAppend(OpBatches(repo, a, ta, blocks, valid), OpBatches(repo, b, tb, blocks, valid));
  }

  /** An operation that adds nothing (an update, a create without cid or
      without its block, an unknown collection, an invalid record) does
      not stop or change the classification of the others. */
  lemma ClassifySkip(repo: string, a: seq<RepoOp>, ta: seq<Millis>, op: RepoOp, t: Millis,
                     b: seq<RepoOp>, tb: seq<Millis>, blocks: map<string, LexRecord>, valid: Validator)
    requires |ta| == |a| && |tb| == |b|
    requires OpBatch(repo, op, blocks, t, valid) == EmptyBatch()
    ensures Classify(repo, a + [op] + b, ta + [t] + tb, blocks, valid) == Classify(repo, a + b, ta + tb, blocks, valid)
  {
    var single := Classify(repo, [op], [t], blocks, valid);
    assert OpBatches(repo, [op], [t], blocks, valid) == [EmptyBatch()];
    assert [EmptyBatch()][..0] == [];
    ConcatEmpty(EmptyBatch());
    assert single == EmptyBatch();
    calc {
      Classify(repo, a + [op] + b, ta + [t] + tb, blocks, valid);
      { ClassifyConcat(repo, a + [op], ta + [t], b, tb, blocks, valid); }
      Concat(Classify(repo, a + [op], ta + [t], blocks, valid), Classify(repo, b, tb, blocks, valid));
      { ClassifyConcat(repo, a, ta, [op], [t], blocks, valid); ConcatEmpty(Classify(repo, a, ta, blocks, valid)); }
      Concat(Classify(repo, a, ta, blocks, valid), Classify(repo, b, tb, blocks, valid));
      { ClassifyConcat(repo, a, ta, b, tb, blocks, valid); }
      Classify(repo, a + b, ta + tb, blocks, valid);
    }
  }

  /** An entry is in a bucket of the commit's batch exactly when some
      operation of the commit put it there. */
  lemma ClassifyMembers(repo: string, ops: seq<RepoOp>, times: seq<Millis>,
                        blocks: map<string, LexRecord>, valid: Validator, k: Kind)
    requires |times| == |ops|
    ensures forall e :: e in Bucket(Classify(repo, ops, times, blocks, valid), k).creates <==>
              exists i :: 0 <= i < |ops| && e in Bucket(OpBatch(repo, ops[i], blocks, times[i], valid), k).creates
    ensures forall e :: e in Bucket(Classify(repo, ops, times, blocks, valid), k).deletes <==>
              exists i :: 0 <= i < |ops| && e in Bucket(OpBatch(repo, ops[i], blocks, times[i], valid), k).deletes
  {
    ConcatAllMembers(OpBatches(repo, ops, times, blocks, valid), k);
  }

  /** The clock values read while classifying the commit of frame `j`. */
  function CommitTimes(j: nat, c: Commit, clock: (nat, nat) -> Millis): (ts: seq<Millis>)
    ensures |ts| == |c.ops|
  {
    seq(|c.ops|, i requires 0 <= i < |c.ops| => clock(j, i))
  }

  predicate IsCommit(f: Frame)
  {
    f.Message? && f.evt.CommitEvent?
  }

  /** The batch of the commit in frame `j`. */
  function FrameBatch(frames: seq<Frame>, j: nat, clock: (nat, nat) -> Millis, valid: Validator): FeedOperationsByType
    requires j < |frames| && IsCommit(frames[j])
  {
    var c := frames[j].evt.commit;
    Classify(c.repo, c.ops, CommitTimes(j, c, clock), c.blocks, valid)
  }

  /** The batches handed to the handler for `frames`, in stream order. */
  function Dispatched(frames: seq<Frame>, clock: (nat, nat) -> Millis, valid: Validator): seq<FeedOperationsByType>
    decreases |frames|
  {
    if frames == [] then []
    else
      var n := |frames| - 1;
      Dispatched(frames[..n], clock, valid)
      + (if IsCommit(frames[n]) then [FrameBatch(frames, n, clock, valid)] else [])
  }

  /** The `sub_state` table after the cursor writes of `frames`. */
  function Checkpoints(state: SubState, service: string, frames: seq<Frame>): SubState
    decreases |frames|
  {
    if frames == [] then state
    else
      var n := |frames| - 1;
      var s := Checkpoints(state, service, frames[..n]);
      if IsCommit(frames[n]) && frames[n].evt.commit.seqNo % 20 == 0
      then SetCursor(s, service, frames[n].evt.commit.seqNo)
      else s
  }

  /** One more frame adds its batch, if it is a commit. */
  lemma DispatchedStep(frames: seq<Frame>, j: nat, clock: (nat, nat) -> Millis, valid: Validator)
    requires j < |frames|
    ensures Dispatched(frames[..j + 1], clock, valid)
         == Dispatched(frames[..j], clock, valid)
            + (if IsCommit(frames[j]) then [FrameBatch(frames, j, clock, valid)] else [])
  {
    assert frames[..j + 1][..j] == frames[..j] && frames[..j + 1][j] == frames[j];
  }

  /** One more frame writes its sequence number, if it is a commit whose
      number is a multiple of 20. */
  lemma CheckpointsStep(state: SubState, service: string, frames: seq<Frame>, j: nat)
    requires j < |frames|
    ensures Checkpoints(state, service, frames[..j + 1])
         == if IsCommit(frames[j]) && frames[j].evt.commit.seqNo % 20 == 0
            then SetCursor(Checkpoints(state, service, frames[..j]), service, frames[j].evt.commit.seqNo)
            else Checkpoints(state, service, frames[..j])
  {
    assert frames[..j + 1][..j] == frames[..j] && frames[..j + 1][j] == frames[j];
  }

  /** The positions of the commits among `frames`, in increasing order. */
  function CommitPositions(frames: seq<Frame>): (ps: seq<nat>)
    ensures forall m :: 0 <= m < |ps| ==> ps[m] < |frames| && IsCommit(frames[ps[m]])
    ensures forall m, m' :: 0 <= m < m' < |ps| ==> ps[m] < ps[m']
    ensures forall j :: 0 <= j < |frames| && IsCommit(frames[j]) ==> j in ps
    decreases |frames|
  {
    if frames == [] then []
    else
      var n := |frames| - 1;
      CommitPositions(frames[..n]) + (if IsCommit(frames[n]) then [n] else [])
  }

  /** One batch per commit, in the order of the commits: the m-th batch
      is the batch of the m-th commit. */
  lemma {:induction false} DispatchedInOrder(frames: seq<Frame>, clock: (nat, nat) -> Millis, valid: Validator)
    ensures |Dispatched(frames, clock, valid)| == |CommitPositions(frames)|
    ensures forall m :: 0 <= m < |CommitPositions(frames)| ==>
              Dispatched(frames, clock, valid)[m] == FrameBatch(frames, CommitPositions(frames)[m], clock, valid)
    decreases |frames|
  {
    if frames != [] {
      var n := |frames| - 1;
      DispatchedInOrder(frames[..n], clock, valid);
      forall j: nat | j < n && IsCommit(frames[..n][j])
        ensures FrameBatch(frames[..n], j, clock, valid) == FrameBatch(frames, j, clock, valid)
      {
        assert frames[..n][j] == frames[j];
      }
    }
  }

  /** The sequence number of the last commit of `frames` that is a
      multiple of 20. */
  function LastCheckpoint(frames: seq<Frame>): Option<int>
    decreases |frames|
  {
    if frames == [] then None
    else
      var n := |frames| - 1;
      if IsCommit(frames[n]) && frames[n].evt.commit.seqNo % 20 == 0
      then Some(frames[n].evt.commit.seqNo)
      else LastCheckpoint(frames[..n])
  }

  /** The stored cursor is the last multiple-of-20 sequence number seen,
      or the old one when there is none; a service without a row stays
      without one (the write is an update). No other row changes. */
  lemma {:induction false} CheckpointsStored(state: SubState, service: string, frames: seq<Frame>)
    ensures Checkpoints(state, service, frames).Keys == state.Keys
    ensures forall s :: s in state && s != service ==> Checkpoints(state, service, frames)[s] == state[s]
    ensures StoredCursor(Checkpoints(state, service, frames), service)
         == if service !in state then None
            else if LastCheckpoint(frames).Some? then LastCheckpoint(frames)
            else Some(state[service])
    decreases |frames|
  {
    if frames != [] {
      CheckpointsStored(state, service, frames[..|frames| - 1]);
    }
  }

  /** `FirehoseSubscription`: the firehose adapter for one service. */
  class FirehoseSubscription {
    const db: Database
    const service: string
    const timerHandler: Handler.FeedHandler
    /** The batches handed to `timerHandler.handleEvent`, in order. */
    var dispatched: seq<FeedOperationsByType>

    /** Construction initializes the handler with the database, once. */
    constructor (db: Database, service: string, timerHandler: Handler.FeedHandler)
      modifies timerHandler
      ensures this.db == db && this.service == service && this.timerHandler == timerHandler
      ensures dispatched == []
      ensures timerHandler.db == db && timerHandler.initializations == old(timerHandler.initializations) + 1
      ensures timerHandler.lastFileCheck == old(timerHandler.lastFileCheck)
    {
      this.db := db;
      this.service := service;
      this.timerHandler := timerHandler;
      dispatched := [];
      new;
      timerHandler.Initialize(db);
    }

    /** `getCursor`: `{cursor}` when the service has a row, `{}` otherwise. */
    function GetCursor(): (c: Option<int>)
      reads this, db
      ensures c.Some? <==> service in db.subState
      ensures c.Some? ==> c.value == db.subState[service]
    {
      StoredCursor(db.subState, service)
    }

    /** `updateCursor`: writes the row of this service, if it exists. */
    method UpdateCursor(cursor: int)
      modifies db`subState
      ensures db.subState == SetCursor(old(db.subState), service, cursor)
    {
      db.UpdateCursor(service, cursor);
    }

    /** `getOpsByType`: the operations of the commit sorted into the eight
        lists, `times[i]` being the clock value read for `evt.ops[i]`. */
    method GetOpsByType(evt: Commit, times: seq<Millis>, valid: Validator) returns (ops: FeedOperationsByType)
      requires |times| == |evt.ops|
      ensures ops == Classify(evt.repo, evt.ops, times, evt.blocks, valid)
    {
      ops := EmptyBatch();
      ghost var bs := OpBatches(evt.repo, evt.ops, times, evt.blocks, valid);
      var i := 0;
      while i < |evt.ops|
        invariant 0 <= i <= |evt.ops|
        invariant ops == ConcatAll(bs[..i])
      {
        ConcatAllSnoc(bs, i);
        ops := AddOp(ops, evt.repo, evt.ops[i], evt.blocks, times[i], valid);
        i := i + 1;
      }
      assert bs[..i] == bs;
    }

    /** One pass of the loop of `getOpsByType`: the operation `op` pushed
        onto the lists it belongs to, if any. */
    method AddOp(opsByType: FeedOperationsByType, repo: string, op: RepoOp, blocks: map<string, LexRecord>,
                 t: Millis, valid: Validator) returns (ops: FeedOperationsByType)
      ensures ops == Concat(opsByType, OpBatch(repo, op, blocks, t, valid))
    {
      var uri := AtUri(repo, op.path);
      var collection := Collection(op.path);
      ops := opsByType;
      if op.action == Update {
        ConcatEmpty(ops);
        return;
      }
      if op.action == Create {
        if op.cid.None? || op.cid.value !in blocks {
          ConcatEmpty(ops);
          return;
        }
        var record := blocks[op.cid.value];
        var strCid := op.cid.value;
        if collection == PostNsid && valid(PostNsid, record) {
          OpBatchCreate(repo, op, blocks, t, valid, Post);
          ops := PushCreate(ops, Post, FeedCreateEvent(uri, strCid, t, record.text));
        } else if collection == RepostNsid && valid(RepostNsid, record) {
          KindOfNsid(Repost);
          OpBatchCreate(repo, op, blocks, t, valid, Repost);
          ops := PushCreate(ops, Repost, FeedCreateEvent(uri, strCid, t, ""));
        } else if collection == LikeNsid && valid(LikeNsid, record) {
          KindOfNsid(Like);
          OpBatchCreate(repo, op, blocks, t, valid, Like);
          ops := PushCreate(ops, Like, FeedCreateEvent(uri, strCid, t, ""));
        } else if collection == FollowNsid && valid(FollowNsid, record) {
          KindOfNsid(Follow);
          OpBatchCreate(repo, op, blocks, t, valid, Follow);
          ops := PushCreate(ops, Follow, FeedCreateEvent(uri, strCid, t, ""));
        } else {
          ConcatEmpty(ops);
        }
      } else {
        if collection == PostNsid {
          OpBatchDelete(repo, op, blocks, t, valid, Post);
          ops := PushDelete(ops, Post, FeedEvent(uri));
        } else if collection == RepostNsid {
          KindOfNsid(Repost);
          OpBatchDelete(repo, op, blocks, t, valid, Repost);
          ops := PushDelete(ops, Repost, FeedEvent(uri));
        } else if collection == LikeNsid {
          KindOfNsid(Like);
          OpBatchDelete(repo, op, blocks, t, valid, Like);
          ops := PushDelete(ops, Like, FeedEvent(uri));
        } else if collection == FollowNsid {
          KindOfNsid(Follow);
          OpBatchDelete(repo, op, blocks, t, valid, Follow);
          ops := PushDelete(ops, Follow, FeedEvent(uri));
        } else {
          ConcatEmpty(ops);
        }
      }
    }

    /** One message of the stream: a commit's batch is handed on, and its
        `seq` is written as the cursor when it is a multiple of 20. */
    method HandleFrame(frames: seq<Frame>, j: nat, clock: (nat, nat) -> Millis, valid: Validator)
      requires j < |frames|
      modifies this`dispatched, db`subState
      ensures dispatched == old(dispatched)
        + (if IsCommit(frames[j]) then [FrameBatch(frames, j, clock, valid)] else [])
      ensures db.subState ==
        if IsCommit(frames[j]) && frames[j].evt.commit.seqNo % 20 == 0
        then SetCursor(old(db.subState), service, frames[j].evt.commit.seqNo)
        else old(db.subState)
    {
      var frame := frames[j];
      if frame.Message? && frame.evt.CommitEvent? {
        var evt := frame.evt.commit;
        var ops := GetOpsByType(evt, CommitTimes(j, evt, clock), valid);
        dispatched := dispatched + [ops];
        if evt.seqNo % 20 == 0 {
          UpdateCursor(evt.seqNo);
        }
      }
    }

    /** `run`: consumes the stream until it ends or fails. Non-commit and
        invalid messages are skipped; each commit's batch is dispatched in
        stream order, and the cursor is written with `seq` when `seq` is a
        multiple of 20. A failure schedules a restart after `delay`.
        `clock(j, i)` is the time read for operation `i` of frame `j`. */
    method Run(delay: int, frames: seq<Frame>, clock: (nat, nat) -> Millis, valid: Validator)
      returns (restart: Option<int>)
      modifies this`dispatched, db`subState
      ensures dispatched == old(dispatched) + Dispatched(Before(frames, TransportError), clock, valid)
      ensures db.subState == Checkpoints(old(db.subState), service, Before(frames, TransportError))
      ensures restart == if TransportError in frames then Some(delay) else None
    {
      var j := 0;
      while j < |frames|
        invariant 0 <= j <= |frames|
        invariant TransportError !in frames[..j]
        invariant dispatched == old(dispatched) + Dispatched(frames[..j], clock, valid)
        invariant db.subState == Checkpoints(old(db.subState), service, frames[..j])
      {
        if frames[j] == TransportError {
          BeforeAt(frames, TransportError, j);
          return Some(delay);
        }
        DispatchedStep(frames, j, clock, valid);
        CheckpointsStep(old(db.subState), service, frames, j);
        NotInStep(frames, TransportError, j);
        HandleFrame(frames, j, clock, valid);
        j := j + 1;
      }
      BeforeAt(frames, TransportError, j);
      return None;
    }
  }
}
