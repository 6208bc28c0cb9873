/**
 What whole downloads come to: with any peers, with peers that all store one
 chain, and when a download is sure to settle.
 */
module Downloads {
  import opened Types
  import opened Validators
  import Validation
  import opened Storage
  import opened Chain
  import Nodes
  import opened Ibd

  // ── What every reaction keeps ──────────────────────────────────────────────

  predicate HasSettled(ended: Option<Outcome>) {
    ended.Some? && (ended.value.InSync? || ended.value.Failed?)
  }

  predicate ReactionAt(script: seq<Attempt>, i: int, j: int) {
    0 <= i < |script| && script[i].Opened? && 0 <= j < |script[i].reactions|
  }

  /** Nothing taken in between: another peer, another round, or an end without a verdict. */
  predicate Paused(s: Session, next: Session) {
    && next.db == s.db && next.from == s.from && next.answers == s.answers
    && (next.ended == s.ended || (s.ended.None? && !HasSettled(next.ended)))
  }

  /** A reaction that is no answer takes nothing. */
  lemma OnlyPauses(p: Params, s: Session, reaction: Reaction, next: Session)
    requires s.ended.None? && !reaction.Answered? && next == ReactTo(p, s, reaction)
    ensures Paused(s, next)
  {
  }

  /** Every reaction and every pause keeps it. */
  ghost predicate Keeps(p: Params, holds: Session -> bool, script: seq<Attempt>) {
    && (forall s, i, j :: holds(s) && s.ended.None? && ReactionAt(script, i, j) ==>
          holds(ReactTo(p, s, script[i].reactions[j])))
    && (forall s, next :: holds(s) && Paused(s, next) ==> holds(next))
  }

  lemma ReactionKeeps(
    p: Params, holds: Session -> bool, s: Session, script: seq<Attempt>, i: nat, j: nat, next: Session)
    requires ReactionAt(script, i, j) && holds(s) && s.ended.None? && next == ReactTo(p, s, script[i].reactions[j])
    requires Keeps(p, holds, script)
    ensures holds(next)
  {
  }

  lemma {:induction false} SessionKeeps(
    p: Params, holds: Session -> bool, s: Session, script: seq<Attempt>, i: nat, j: nat)
    requires i < |script| && script[i].Opened? && j <= |script[i].reactions| && holds(s)
    requires Keeps(p, holds, script)
    ensures holds(SessionAfter(p, s, script[i].reactions, j))
    decreases |script[i].reactions| - j
  {
    if j < |script[i].reactions| && !s.left && s.ended.None? {
      var next := ReactTo(p, s, script[i].reactions[j]);
      ReactionKeeps(p, holds, s, script, i, j, next);
      SessionKeeps(p, holds, next, script, i, j + 1);
    }
  }

  /** Then the whole download keeps it. */
  lemma {:induction false} DownloadKeeps(
    p: Params, holds: Session -> bool, peers: nat, first: nat, script: seq<Attempt>, d: Download, k: nat)
    requires k <= |script| && holds(d.session)
    requires Keeps(p, holds, script)
    ensures holds(DownloadAfter(p, peers, first, script, d, k).session)
    decreases |script| - k, MAX_IBD_RETRIES - d.retries, d.session.ended.None?
  {
    if d.session.ended.None? {
      if d.peer >= peers {
        assert Paused(d.session, Again(d, first).session);
        DownloadKeeps(p, holds, peers, first, script, Again(d, first), k);
      } else if k == |script| {
        assert Paused(d.session, d.session.(ended := Some(Waiting)));
      } else {
        TryKeeps(p, holds, script, d, k);
        DownloadKeeps(p, holds, peers, first, script, Try(p, d, script[k]), k + 1);
      }
    }
  }

  lemma TryKeeps(p: Params, holds: Session -> bool, script: seq<Attempt>, d: Download, k: nat)
    requires k < |script| && holds(d.session)
    requires Keeps(p, holds, script)
    ensures holds(Try(p, d, script[k]).session)
  {
    if script[k].Opened? {
      var s := SessionAfter(p, d.session, script[k].reactions, 0);
      SessionKeeps(p, holds, d.session, script, k, 0);
      if s.ended.None? {
        assert Paused(s, s.(ended := Some(Waiting)));
      }
      assert Paused(s, s.(left := false));
    }
  }

  // ── Whatever the peers answer ──────────────────────────────────────────────

  /** From the height asked for on, block by block. Nothing says the blocks are valid, or that two answers agree. */
  ghost predicate Continues(serve: nat -> seq<Block>) {
    forall h: nat, i: nat :: i < |serve(h)| ==> serve(h)[i].header.height == h + i && NoOverflows(serve(h)[i].txs)
  }

  ghost predicate AllContinue(reactions: seq<Reaction>) {
    forall j :: 0 <= j < |reactions| && reactions[j].Answered? ==> Continues(reactions[j].serve)
  }

  ghost predicate ScriptContinues(script: seq<Attempt>) {
    forall k :: 0 <= k < |script| && script[k].Opened? ==> AllContinue(script[k].reactions)
  }

  /** The store is exactly that of a valid chain. */
  ghost predicate GoodStored(p: Params, registry: Registry, db: Db) {
    GoodChain(p, registry, StoredChain(db)) && db == DbOf(StoredChain(db), registry)
  }

  /** It is, the next request asks for what follows, and a failure names the height of what follows. */
  ghost predicate Safe(p: Params, registry: Registry, s: Session) {
    && GoodStored(p, registry, s.db) && (!HasSettled(s.ended) ==> s.from == |StoredChain(s.db)|)
    && (s.ended.Some? && s.ended.value.Failed? ==>
          s.ended.value.error.InvalidBlock? && s.ended.value.error.height == |StoredChain(s.db)|)
  }

  lemma AfterBatch(p: Params, registry: Registry, db: Db, chain: seq<Block>, from: nat, until: nat, batch: Batch)
    returns (reached: nat)
    requires Servable(chain) && Holds(p, registry, db, chain, from) && from <= until <= |chain|
    requires batch == StoreBatch(p, db, chain[from..until])
    ensures from <= reached <= until && Holds(p, registry, batch.db, chain, reached)
    ensures if batch.error.Some? then FailsAt(p, registry, chain, reached) else reached == until
    ensures batch.error.Some? ==> batch.error.value.InvalidBlock? && batch.error.value.height == reached
  {
    reached := Reach(Fails(p, registry, chain), from, until);
    BatchOfPeer(p, registry, db, chain, from, until, batch);
    ReachStops(Fails(p, registry, chain), from, until);
    PassedIsGood(p, registry, chain, from, reached);
  }

  lemma ServableMore(p: Params, registry: Registry, have: seq<Block>, blocks: seq<Block>, chain: seq<Block>)
    requires GoodChain(p, registry, have) && chain == have + blocks
    requires forall i: nat :: i < |blocks| ==> blocks[i].header.height == |have| + i && NoOverflows(blocks[i].txs)
    ensures Servable(chain)
  {
    GoodChainLinks(p, registry, have);
    forall i | 0 <= i < |chain| ensures chain[i].header.height == i && NoOverflows(chain[i].txs) {
      if i < |have| {
        forall tx | tx in have[i].txs ensures Validation.NoOverflow(tx) {
          ChainNeverOverflows(p, registry, have, i, tx);
        }
      } else {
        assert chain[i] == blocks[i - |have|];
      }
    }
  }

  lemma BatchIsSafe(
    p: Params, registry: Registry, db: Db, have: seq<Block>, blocks: seq<Block>, batch: Batch)
    returns (reached: nat)
    requires GoodChain(p, registry, have) && db == DbOf(have, registry) && batch == StoreBatch(p, db, blocks)
    requires forall i: nat :: i < |blocks| ==> blocks[i].header.height == |have| + i && NoOverflows(blocks[i].txs)
    ensures |have| <= reached <= |have + blocks| && GoodStored(p, registry, batch.db)
    ensures StoredChain(batch.db) == (have + blocks)[..reached]
    ensures if batch.error.Some? then batch.error.value.InvalidBlock? && batch.error.value.height == reached
            else reached == |have + blocks|
  {
    var chain := have + blocks;
    ServableMore(p, registry, have, blocks, chain);
    assert chain[..|have|] == have && chain[|have|..|chain|] == blocks;
    reached := AfterBatch(p, registry, db, chain, |have|, |chain|, batch);
    StoredChainOf(chain[..reached], registry);
  }

  lemma StoredBatchIsSafe(p: Params, registry: Registry, db: Db, blocks: seq<Block>, batch: Batch)
    returns (reached: nat)
    requires GoodStored(p, registry, db) && batch == StoreBatch(p, db, blocks)
    requires forall i: nat :: i < |blocks| ==>
      blocks[i].header.height == |StoredChain(db)| + i && NoOverflows(blocks[i].txs)
    ensures GoodStored(p, registry, batch.db)
    ensures |StoredChain(batch.db)| == reached && StoredChain(db) <= StoredChain(batch.db)
    ensures if batch.error.Some? then batch.error.value.InvalidBlock? && batch.error.value.height == reached
            else reached == |StoredChain(db)| + |blocks|
  {
    var have := StoredChain(db);
    reached := BatchIsSafe(p, registry, db, have, blocks, batch);
    assert have <= (have + blocks)[..reached];
  }

  /** One answer only adds valid blocks to what we hold. */
  lemma BatchStaysSafe(
    p: Params, registry: Registry, s: Session, blocks: seq<Block>, batch: Batch, next: Session, reached: nat)
    requires Safe(p, registry, s) && s.ended.None? && blocks != [] && next == AfterAnswer(s, blocks, batch)
    requires blocks[|blocks| - 1].header.height + 1 == s.from + |blocks|
    requires GoodStored(p, registry, batch.db) && |StoredChain(batch.db)| == reached
    requires if batch.error.Some? then batch.error.value.InvalidBlock? && batch.error.value.height == reached
             else reached == s.from + |blocks|
    ensures Safe(p, registry, next)
  {
  }

  lemma EmptyIsSafe(p: Params, registry: Registry, s: Session, next: Session)
    requires Safe(p, registry, s) && s.ended.None? && next == TakeAnswer(p, s, [])
    ensures Safe(p, registry, next) && next.db == s.db
  {
  }

  lemma AnswerIsSafe(p: Params, registry: Registry, s: Session, blocks: seq<Block>, next: Session)
    requires Safe(p, registry, s) && s.ended.None? && next == TakeAnswer(p, s, blocks)
    requires forall i: nat :: i < |blocks| ==> blocks[i].header.height == s.from + i && NoOverflows(blocks[i].txs)
    ensures Safe(p, registry, next) && StoredChain(s.db) <= StoredChain(next.db)
  {
    if blocks == [] {
      EmptyIsSafe(p, registry, s, next);
    } else {
      var batch := StoreBatch(p, s.db, blocks);
      var reached := StoredBatchIsSafe(p, registry, s.db, blocks, batch);
      BatchStaysSafe(p, registry, s, blocks, batch, next, reached);
    }
  }

  lemma StaysSafe(p: Params, registry: Registry, s: Session, next: Session)
    requires Safe(p, registry, s) && Paused(s, next)
    ensures Safe(p, registry, next) && StoredChain(next.db) == StoredChain(s.db)
  {
  }

  /** As `Safe`, and what we held is still there. */
  ghost function StillSafe(p: Params, registry: Registry, held: seq<Block>): Session -> bool {
    (s: Session) => Safe(p, registry, s) && held <= StoredChain(s.db)
  }

  lemma PrefixOn(a: seq<Block>, b: seq<Block>, c: seq<Block>)
    requires a <= b <= c
    ensures a <= c
  {
  }

  lemma ReactionIsSafe(
    p: Params, registry: Registry, held: seq<Block>, s: Session, reaction: Reaction, next: Session)
    requires Safe(p, registry, s) && held <= StoredChain(s.db) && s.ended.None? && next == ReactTo(p, s, reaction)
    requires reaction.Answered? ==> Continues(reaction.serve)
    ensures Safe(p, registry, next) && held <= StoredChain(next.db)
  {
    if reaction.Answered? {
      AnswerIsSafe(p, registry, s, reaction.serve(s.from), next);
      PrefixOn(held, StoredChain(s.db), StoredChain(next.db));
    } else {
      SilentIsSafe(p, registry, s, reaction, next);
    }
  }

  lemma SilentIsSafe(p: Params, registry: Registry, s: Session, reaction: Reaction, next: Session)
    requires Safe(p, registry, s) && s.ended.None? && next == ReactTo(p, s, reaction) && !reaction.Answered?
    ensures Safe(p, registry, next) && StoredChain(next.db) == StoredChain(s.db)
  {
    OnlyPauses(p, s, reaction, next);
    StaysSafe(p, registry, s, next);
  }

  lemma StartIsSafe(p: Params, registry: Registry, db: Db)
    requires GoodStored(p, registry, db)
    ensures Safe(p, registry, Starting(db).session)
  {
    LastHeight(p, registry, StoredChain(db));
  }

  /**
   Whatever chains the peers have and however they change, as long as answers
   start where they were asked to: the store is that of a valid chain at all
   times, and what we held stays.
   */
  lemma AnyPeersDownload(p: Params, registry: Registry, peers: nat, script: seq<Attempt>, db: Db)
    requires ScriptContinues(script) && GoodStored(p, registry, db)
    ensures var after := DownloadAfter(p, peers, FirstMissing(db), script, Starting(db), 0).session;
            Safe(p, registry, after) && StoredChain(db) <= StoredChain(after.db)
  {
    var held := StoredChain(db);
    var holds := StillSafe(p, registry, held);
    StartIsSafe(p, registry, db);
    forall s, i, j | holds(s) && s.ended.None? && ReactionAt(script, i, j)
      ensures holds(ReactTo(p, s, script[i].reactions[j]))
    {
      ReactionIsSafe(p, registry, held, s, script[i].reactions[j], ReactTo(p, s, script[i].reactions[j]));
    }
    forall s, next | holds(s) && Paused(s, next) ensures holds(next) {
      StaysSafe(p, registry, s, next);
    }
    DownloadKeeps(p, holds, peers, FirstMissing(db), script, Starting(db), 0);
  }

  // ── Peers that store one chain ─────────────────────────────────────────────

  ghost predicate Serves(chain: seq<Block>, serve: nat -> seq<Block>) {
    forall h: nat :: serve(h) == Nodes.Reply(BlocksOf(chain), h)
  }

  ghost predicate AllServe(chain: seq<Block>, script: seq<Attempt>) {
    forall i, j :: ReactionAt(script, i, j) && script[i].reactions[j].Answered? ==>
      Serves(chain, script[i].reactions[j].serve)
  }

  /** What a peer that stores `chain` answers when asked for the blocks from `from`. */
  lemma ReplyOfPeer(chain: seq<Block>, from: nat)
    requires from <= |chain|
    ensures Nodes.Reply(BlocksOf(chain), from) == chain[from..Min(from + BLOCKS_PER_REQUEST, |chain|)]
  {
    BlocksFromChain(chain, from);
    var rest := chain[from..];
    assert rest[..Min(|rest|, BLOCKS_PER_REQUEST)] == chain[from..Min(from + BLOCKS_PER_REQUEST, |chain|)];
  }

  /**
   We hold a valid prefix of the chain: all of it when in sync, exactly the blocks
   before the first invalid one after a failure, and otherwise a full request's
   worth for each answer.
   */
  ghost predicate OnTrack(p: Params, registry: Registry, chain: seq<Block>, start: nat, s: Session, n: nat) {
    && Holds(p, registry, s.db, chain, n) && start <= n
    && (s.ended == Some(InSync) ==> n == |chain|)
    && (s.ended.Some? && s.ended.value.Failed? ==> FailsAt(p, registry, chain, n))
    && (!HasSettled(s.ended) ==> s.from == n == start + BLOCKS_PER_REQUEST * s.answers)
  }

  lemma LastOfReply(chain: seq<Block>, from: nat, until: nat)
    requires Servable(chain) && from < until <= |chain|
    ensures var blocks := chain[from..until]; blocks[|blocks| - 1].header.height + 1 == until
  {
    assert chain[from..until][until - from - 1] == chain[until - 1];
  }

  lemma BatchOnTrack(
    p: Params, registry: Registry, chain: seq<Block>, start: nat, s: Session, n: nat, blocks: seq<Block>,
    batch: Batch, next: Session, m: nat)
    requires OnTrack(p, registry, chain, start, s, n) && s.ended.None? && blocks != []
    requires next == AfterAnswer(s, blocks, batch) && Holds(p, registry, batch.db, chain, m)
    requires |blocks| == Min(BLOCKS_PER_REQUEST, |chain| - n) && blocks[|blocks| - 1].header.height + 1 == n + |blocks|
    requires n <= m && if batch.error.Some? then FailsAt(p, registry, chain, m) else m == n + |blocks|
    ensures OnTrack(p, registry, chain, start, next, m)
  {
  }

  lemma AnswerOnTrack(
    p: Params, registry: Registry, chain: seq<Block>, start: nat, s: Session, n: nat, blocks: seq<Block>, next: Session)
    returns (m: nat)
    requires Servable(chain) && OnTrack(p, registry, chain, start, s, n) && s.ended.None?
    requires blocks == Nodes.Reply(BlocksOf(chain), s.from) && next == TakeAnswer(p, s, blocks)
    ensures OnTrack(p, registry, chain, start, next, m)
  {
    ReplyOfPeer(chain, n);
    var until := Min(n + BLOCKS_PER_REQUEST, |chain|);
    if until == n {
      m := n;
    } else {
      var batch := StoreBatch(p, s.db, blocks);
      LastOfReply(chain, n, until);
      m := AfterBatch(p, registry, s.db, chain, n, until, batch);
      BatchOnTrack(p, registry, chain, start, s, n, blocks, batch, next, m);
    }
  }

  ghost predicate Tracked(p: Params, registry: Registry, chain: seq<Block>, start: nat, s: Session) {
    exists n :: OnTrack(p, registry, chain, start, s, n)
  }

  ghost function Track(p: Params, registry: Registry, chain: seq<Block>, start: nat): Session -> bool {
    (s: Session) => Tracked(p, registry, chain, start, s)
  }

  lemma ReactionOnTrack(
    p: Params, registry: Registry, chain: seq<Block>, start: nat, s: Session, reaction: Reaction, next: Session)
    requires Servable(chain) && Track(p, registry, chain, start)(s) && s.ended.None?
    requires next == ReactTo(p, s, reaction) && (reaction.Answered? ==> Serves(chain, reaction.serve))
    ensures Track(p, registry, chain, start)(next)
  {
    if reaction.Answered? {
      ServedOnTrack(p, registry, chain, start, s, reaction, next);
    } else {
      SilentOnTrack(p, registry, chain, start, s, reaction, next);
    }
  }

  lemma ServedOnTrack(
    p: Params, registry: Registry, chain: seq<Block>, start: nat, s: Session, reaction: Reaction, next: Session)
    requires Servable(chain) && Track(p, registry, chain, start)(s) && s.ended.None?
    requires reaction.Answered? && Serves(chain, reaction.serve) && next == ReactTo(p, s, reaction)
    ensures Track(p, registry, chain, start)(next)
  {
    var blocks := reaction.serve(s.from);
    AnsweredOnTrack(p, registry, chain, start, s, blocks, next);
  }

  lemma SilentOnTrack(
    p: Params, registry: Registry, chain: seq<Block>, start: nat, s: Session, reaction: Reaction, next: Session)
    requires Track(p, registry, chain, start)(s) && s.ended.None?
    requires next == ReactTo(p, s, reaction) && !reaction.Answered?
    ensures Track(p, registry, chain, start)(next)
  {
    OnlyPauses(p, s, reaction, next);
    PausedOnTrack(p, registry, chain, start, s, next);
  }

  lemma AnsweredOnTrack(
    p: Params, registry: Registry, chain: seq<Block>, start: nat, s: Session, blocks: seq<Block>, next: Session)
    requires Servable(chain) && Track(p, registry, chain, start)(s) && s.ended.None?
    requires blocks == Nodes.Reply(BlocksOf(chain), s.from) && next == TakeAnswer(p, s, blocks)
    ensures Track(p, registry, chain, start)(next)
  {
    var n :| OnTrack(p, registry, chain, start, s, n);
    var m := AnswerOnTrack(p, registry, chain, start, s, n, blocks, next);
  }

  lemma PausedOnTrack(p: Params, registry: Registry, chain: seq<Block>, start: nat, s: Session, next: Session)
    requires Track(p, registry, chain, start)(s) && Paused(s, next)
    ensures Track(p, registry, chain, start)(next)
  {
    var n :| OnTrack(p, registry, chain, start, s, n);
    assert OnTrack(p, registry, chain, start, next, n);
  }

  lemma TrackKept(p: Params, registry: Registry, chain: seq<Block>, start: nat, script: seq<Attempt>)
    requires Servable(chain) && AllServe(chain, script)
    ensures Keeps(p, Track(p, registry, chain, start), script)
  {
    var holds := Track(p, registry, chain, start);
    forall s, i, j | holds(s) && s.ended.None? && ReactionAt(script, i, j)
      ensures holds(ReactTo(p, s, script[i].reactions[j]))
    {
      var next := ReactTo(p, s, script[i].reactions[j]);
      ReactionOnTrack(p, registry, chain, start, s, script[i].reactions[j], next);
    }
    forall s, next | holds(s) && Paused(s, next) ensures holds(next) {
      PausedOnTrack(p, registry, chain, start, s, next);
    }
  }

  lemma StartOnTrack(p: Params, registry: Registry, chain: seq<Block>, db: Db, start: nat)
    requires Holds(p, registry, db, chain, start)
    ensures FirstMissing(db) == start && OnTrack(p, registry, chain, start, Starting(db).session, start)
  {
    LastHeight(p, registry, chain[..start]);
  }

  // ── When a download settles ────────────────────────────────────────────────

  predicate AllAnswered(reactions: seq<Reaction>) {
    forall j :: 0 <= j < |reactions| ==> reactions[j].Answered?
  }

  predicate NoAnswers(attempt: Attempt) {
    attempt.Opened? ==> forall j :: 0 <= j < |attempt.reactions| ==> !attempt.reactions[j].Answered?
  }

  /**
   From `j` on, after `t` timeouts in a row, the connection ends with an error or a
   third timeout, if nothing ends it before.
   */
  predicate BreaksFrom(reactions: seq<Reaction>, t: nat, j: nat)
    requires j <= |reactions|
    decreases |reactions| - j
  {
    j < |reactions| &&
    match reactions[j]
    case Cancelled => false
    case SendFailed | Closed | BadFrame => true
    case TimedOut => t + 1 >= 3 || BreaksFrom(reactions, t + 1, j + 1)
    case _ => BreaksFrom(reactions, 0, j + 1)
  }

  predicate Breaks(attempt: Attempt) {
    attempt.Opened? ==> BreaksFrom(attempt.reactions, 0, 0)
  }

  /** Timeouts that the last peer left over only break it sooner. */
  lemma {:induction false} SessionBreaks(p: Params, s: Session, reactions: seq<Reaction>, t: nat, j: nat)
    requires j <= |reactions| && BreaksFrom(reactions, t, j) && t <= s.timeouts && !s.left && s.ended.None?
    ensures var after := SessionAfter(p, s, reactions, j);
            HasSettled(after.ended) || (after.left && after.ended.None?)
    decreases |reactions| - j
  {
    var next := ReactTo(p, s, reactions[j]);
    if next.ended.None? && !next.left {
      SessionBreaks(p, next, reactions, if reactions[j].TimedOut? then t + 1 else 0, j + 1);
    }
  }

  /** A connection is left for the next peer exactly when it breaks and nothing has ended the download before. */
  lemma {:induction false} SessionLeft(p: Params, s: Session, reactions: seq<Reaction>, j: nat)
    requires j <= |reactions| && !s.left && s.ended.None?
    ensures var after := SessionAfter(p, s, reactions, j);
            after.left <==> after.ended.None? && BreaksFrom(reactions, s.timeouts, j)
    decreases |reactions| - j
  {
    if j < |reactions| {
      var next := ReactTo(p, s, reactions[j]);
      if next.ended.None? && !next.left {
        SessionLeft(p, next, reactions, j + 1);
      }
    }
  }

  lemma {:induction false} SessionAnswered(p: Params, s: Session, reactions: seq<Reaction>, j: nat)
    requires j <= |reactions| && AllAnswered(reactions) && !s.left && s.ended.None?
    ensures var after := SessionAfter(p, s, reactions, j);
            && !after.left && (after.ended.None? || HasSettled(after.ended))
            && (after.ended.None? ==> after.answers == s.answers + |reactions| - j)
    decreases |reactions| - j
  {
    if j < |reactions| {
      var next := ReactTo(p, s, reactions[j]);
      if next.ended.None? {
        SessionAnswered(p, next, reactions, j + 1);
      }
    }
  }

  lemma {:induction false} SessionSilent(p: Params, s: Session, reactions: seq<Reaction>, j: nat)
    requires j <= |reactions| && NoAnswers(Opened(reactions))
    ensures SessionAfter(p, s, reactions, j).from == s.from
    ensures HasSettled(SessionAfter(p, s, reactions, j).ended) ==> HasSettled(s.ended)
    decreases |reactions| - j
  {
    if j < |reactions| && !s.left && s.ended.None? {
      SessionSilent(p, ReactTo(p, s, reactions[j]), reactions, j + 1);
    }
  }

  /**
   Attempt `k` is answered throughout and often enough for the blocks we lack,
   after attempts that were refused or broken off. A peer is left for it: the
   list is not used up, or only retried after attempts without any answer.
   */
  predicate AnsweredAt(script: seq<Attempt>, peers: nat, missing: nat, k: nat) {
    && k < |script| && (forall j :: 0 <= j < k ==> Breaks(script[j]))
    && script[k].Opened? && AllAnswered(script[k].reactions) && |script[k].reactions| * BLOCKS_PER_REQUEST > missing
    && (k < peers || (k < peers * (MAX_IBD_RETRIES + 1) && forall j :: 0 <= j < k ==> NoAnswers(script[j])))
  }

  ghost predicate AnsweredInTime(script: seq<Attempt>, peers: nat, missing: nat) {
    exists k: nat :: AnsweredAt(script, peers, missing, k)
  }

  /** The download is at attempt `k` of its round, and was not used up before attempt `good`. */
  ghost predicate StillThere(d: Download, peers: nat, first: nat, k: nat, good: nat) {
    && d.session.ended.None? && !d.session.left && d.peer <= peers && k == peers * d.retries + d.peer && k <= good
    && (good < peers || d.session.from == first)
  }

  lemma PeersUsedUp(d: Download, peers: nat, first: nat, k: nat, good: nat)
    requires StillThere(d, peers, first, k, good) && d.peer == peers && d.retries <= MAX_IBD_RETRIES
    requires good < peers || good < peers * (MAX_IBD_RETRIES + 1)
    ensures StillThere(Again(d, first), peers, first, k, good) && Again(d, first).retries == d.retries + 1
    ensures d.retries < MAX_IBD_RETRIES
  {
    assert peers * d.retries + peers == peers * (d.retries + 1);
  }

  /** An attempt before the answered one is survived, or settles the download itself. */
  lemma NotYet(
    p: Params, script: seq<Attempt>, d: Download, peers: nat, first: nat, missing: nat, k: nat, good: nat)
    requires AnsweredAt(script, peers, missing, good) && k < good && d.peer < peers
    requires StillThere(d, peers, first, k, good)
    ensures var next := Try(p, d, script[k]);
            HasSettled(next.session.ended)
            || (StillThere(next, peers, first, k + 1, good) && next.retries == d.retries)
  {
    assert Breaks(script[k]);
    if script[k].Opened? {
      SessionBreaks(p, d.session, script[k].reactions, 0, 0);
      if good >= peers {
        assert NoAnswers(script[k]);
        SessionSilent(p, d.session, script[k].reactions, 0);
      }
    }
  }

  /** The answered attempt settles it: otherwise more blocks would have come than there are. */
  lemma NowAnswered(
    p: Params, registry: Registry, chain: seq<Block>, start: nat, script: seq<Attempt>, d: Download, peers: nat,
    good: nat)
    requires start <= |chain| && AnsweredAt(script, peers, |chain| - start, good)
    requires d.session.ended.None? && !d.session.left
    requires Tracked(p, registry, chain, start, Try(p, d, script[good]).session)
    ensures HasSettled(Try(p, d, script[good]).session.ended)
  {
    var next := Try(p, d, script[good]);
    var n :| OnTrack(p, registry, chain, start, next.session, n);
    SessionAnswered(p, d.session, script[good].reactions, 0);
  }

  /** A connection that answers often enough settles the download, if a peer is left for it. */
  lemma {:induction false} SettlesInTime(
    p: Params, registry: Registry, chain: seq<Block>, start: nat, peers: nat, first: nat, script: seq<Attempt>,
    d: Download, k: nat, good: nat)
    requires Servable(chain) && AllServe(chain, script) && k <= |script| && start <= |chain|
    requires AnsweredAt(script, peers, |chain| - start, good) && StillThere(d, peers, first, k, good)
    requires Tracked(p, registry, chain, start, d.session) && d.retries <= MAX_IBD_RETRIES
    ensures HasSettled(DownloadAfter(p, peers, first, script, d, k).session.ended)
    decreases |script| - k, MAX_IBD_RETRIES - d.retries
  {
    if d.peer >= peers {
      PeersUsedUp(d, peers, first, k, good);
      PausedOnTrack(p, registry, chain, start, d.session, Again(d, first).session);
      SettlesInTime(p, registry, chain, start, peers, first, script, Again(d, first), k, good);
    } else {
      var next := Try(p, d, script[k]);
      TrackKept(p, registry, chain, start, script);
      TryKeeps(p, Track(p, registry, chain, start), script, d, k);
      if k == good {
        NowAnswered(p, registry, chain, start, script, d, peers, good);
      } else {
        NotYet(p, script, d, peers, first, |chain| - start, k, good);
        if !HasSettled(next.session.ended) {
          SettlesInTime(p, registry, chain, start, peers, first, script, next, k + 1, good);
        }
      }
    }
  }

  /**
   With peers that store one chain, valid or not: the download gets as far in it
   as it says, and it settles if a connection answers often enough in time.
   */
  lemma OneChainDownload(
    p: Params, registry: Registry, chain: seq<Block>, start: nat, peers: nat, script: seq<Attempt>, db: Db)
    returns (n: nat)
    requires Servable(chain) && AllServe(chain, script) && Holds(p, registry, db, chain, start)
    ensures var after := DownloadAfter(p, peers, FirstMissing(db), script, Starting(db), 0).session;
            && OnTrack(p, registry, chain, start, after, n)
            && (AnsweredInTime(script, peers, |chain| - start) ==> HasSettled(after.ended))
  {
    var first, d := FirstMissing(db), Starting(db);
    var after := DownloadAfter(p, peers, first, script, d, 0).session;
    StartOnTrack(p, registry, chain, db, start);
    assert Tracked(p, registry, chain, start, d.session);
    TrackKept(p, registry, chain, start, script);
    DownloadKeeps(p, Track(p, registry, chain, start), peers, first, script, d, 0);
    n :| OnTrack(p, registry, chain, start, after, n);
    if AnsweredInTime(script, peers, |chain| - start) {
      var good: nat :| AnsweredAt(script, peers, |chain| - start, good);
      SettlesInTime(p, registry, chain, start, peers, first, script, d, 0, good);
    }
  }

  /**
   Two timeouts before a peer hangs up count against the next peer, which is left
   after a single one of its own; only a new round starts from none.
   */
  lemma TimeoutsCarryOver(p: Params, d: Download, first: nat)
    requires d.session.ended.None? && !d.session.left && d.session.timeouts == 0
    requires d.session.from == first && d.retries < 5
    ensures var after := Try(p, d, Opened([TimedOut, TimedOut, Closed]));
            && Try(p, after, Opened([TimedOut])).peer == d.peer + 2
            && Try(p, Again(after, first), Opened([TimedOut])).session.ended == Some(Waiting)
            && Try(p, Again(after, first), Opened([TimedOut, TimedOut, TimedOut])).peer == 1
  {
    var after := Try(p, d, Opened([TimedOut, TimedOut, Closed]));
    ThreeReactions(p, d.session, TimedOut, TimedOut, Closed);
    var again := Again(after, first);
    ThreeReactions(p, again.session, TimedOut, TimedOut, TimedOut);
  }

  lemma ThreeReactions(p: Params, s: Session, a: Reaction, b: Reaction, c: Reaction)
    requires !s.left && s.ended.None?
    requires var t := ReactTo(p, s, a);
             !t.left && t.ended.None? && var u := ReactTo(p, t, b); !u.left && u.ended.None?
    ensures SessionAfter(p, s, [a, b, c], 0) == ReactTo(p, ReactTo(p, ReactTo(p, s, a), b), c)
  {
    var reactions := [a, b, c];
    assert SessionAfter(p, s, reactions, 0) == SessionAfter(p, ReactTo(p, s, a), reactions, 1);
    assert SessionAfter(p, ReactTo(p, s, a), reactions, 1)
        == SessionAfter(p, ReactTo(p, ReactTo(p, s, a), b), reactions, 2);
  }

  // ── When the peers are used up ─────────────────────────────────────────────

  /** The attempts left: the rest of this round, and while nothing has come of it five more rounds in all. */
  function AttemptsLeft(d: Download, peers: nat, first: nat): nat
    requires d.peer <= peers && d.retries <= 5
  {
    peers - d.peer + (if d.session.from == first then peers * (5 - d.retries) else 0)
  }

  lemma AttemptFails(p: Params, d: Download, attempt: Attempt)
    requires d.session.ended.None? && !d.session.left && Breaks(attempt) && NoAnswers(attempt)
    ensures var next := Try(p, d, attempt);
            && next.session.ended.None? && !next.session.left && next.session.from == d.session.from
            && next.peer == d.peer + 1 && next.retries == d.retries
  {
    if attempt.Opened? {
      SessionBreaks(p, d.session, attempt.reactions, 0, 0);
      SessionSilent(p, d.session, attempt.reactions, 0);
    }
  }

  lemma OneRoundLess(d: Download, peers: nat, first: nat)
    requires d.peer == peers && d.session.from == first && d.retries < 5 && d.session.ended.None?
    ensures Again(d, first).session.ended.None? && Again(d, first).peer == 0
    ensures AttemptsLeft(Again(d, first), peers, first) == AttemptsLeft(d, peers, first)
  {
    assert peers * (5 - d.retries) == peers + peers * (5 - (d.retries + 1));
  }

  /**
   When no attempt gets anything, the download gives up after exactly the attempts
   that were left. A script that ends before that leaves it waiting.
   */
  lemma {:induction false} GivesUp(
    p: Params, peers: nat, first: nat, script: seq<Attempt>, d: Download, k: nat)
    requires k <= |script| && (forall i :: k <= i < |script| ==> Breaks(script[i]) && NoAnswers(script[i]))
    requires d.session.ended.None? && !d.session.left && d.peer <= peers && d.retries <= 5 && peers > 0
    ensures DownloadAfter(p, peers, first, script, d, k).session.ended
         == Some(if |script| - k >= AttemptsLeft(d, peers, first) then PeersExhausted else Waiting)
    decreases |script| - k, MAX_IBD_RETRIES - d.retries
  {
    if d.peer == peers {
      if d.session.from == first && d.retries < 5 {
        OneRoundLess(d, peers, first);
        GivesUp(p, peers, first, script, Again(d, first), k);
      }
    } else if k < |script| {
      AttemptFails(p, d, script[k]);
      GivesUp(p, peers, first, script, Try(p, d, script[k]), k + 1);
    }
  }

  // ── An answer to an earlier request ────────────────────────────────────────

  /**
   We hold the chain already when the answer with its blocks from `n` on comes
   once more. Unless they are empty the download fails, though the chain is valid,
   and the tip record stays behind.
   */
  lemma LateAnswer(p: Params, registry: Registry, chain: seq<Block>, n: nat, h: nat, s: Session)
    requires GoodChain(p, registry, chain) && s.db == DbOf(chain, registry)
    requires 0 < n < |chain| && n <= h <= |chain| && EmptyFrom(chain, n, h) && (h < |chain| ==> chain[h].txs != [])
    ensures var next := TakeAnswer(p, s, chain[n..]);
            if h < |chain| then
              && next.ended == Some(Failed(InvalidBlock(h, Validation.InvalidTransaction)))
              && next.db == TipMoved(chain, registry, n, h)
            else
              && next.ended == (if |chain| - n < BLOCKS_PER_REQUEST then Some(InSync) else None)
              && next.db == s.db && next.from == |chain|
  {
    AnsweredTwice(p, registry, chain, n, h);
    GoodChainLinks(p, registry, chain);
    assert chain[n..][|chain| - n - 1] == chain[|chain| - 1];
  }
}
