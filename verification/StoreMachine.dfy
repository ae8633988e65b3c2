/** The document store as a concurrent state machine: writers under the shard locks, relaxed
    counters adjusted outside them, and the all-documents cache. */
module StoreMachine {
  import opened Base
  import opened Merging
  import opened Pages
  import opened Shards
  import opened Store
  import opened History

  /** One atomic adjustment of a counter. */
  datatype Adjust = Count(d: int) | Size(d: int)

  datatype Pc =
    | Idle
    // lock held, no write in progress
    | Holding(shard: nat, bulk: bool)
    // ++updateSeq_ done, the insert is still to come
    | Bumped(shard: nat, bulk: bool, op: Op, doc: Doc)
    // document erased, ++updateSeq_ is still to come
    | Erased(shard: nat, op: Op, gone: Doc)
    // write done, counters still to be adjusted, with or without the lock
    | Counting(shard: nat, bulk: bool, held: bool, unlockFirst: bool, pending: seq<Adjust>)
    // allDocsCacheMtx_ held: before the comparison, after a miss, copying shard `next`
    | CacheLocked
    | CacheMissed
    | Copying(at: nat, next: nat, acc: seq<Doc>, times: seq<nat>)

  /** An answered write: its outcome and the length of the log when it was decided. */
  datatype Answer = Answer(op: Op, outcome: Outcome, at: nat)

  /** An answered cache read: the reported sequence, the documents and, as history, the log lengths
      at the sequence read, at each shard copy and at the return. */
  datatype Listing = Listing(hit: bool, reported: nat, docs: seq<Doc>, at: nat, times: seq<nat>, end: nat)

  datatype State = State(
    shards: seq<seq<Doc>>, locks: seq<Option<nat>>,
    updateSeq: nat, docCount: nat, dataSize: nat,
    threads: seq<Pc>,
    cacheLock: Option<nat>, cacheSeq: nat, cacheDocs: seq<Doc>,
    // history: accepted writes in sequence order, and what was answered
    log: seq<Op>, cachedAt: nat, cacheTimes: seq<nat>,
    answers: seq<Answer>, listings: seq<Listing>)

  datatype Step =
    | Lock(t: nat, i: nat, bulk: bool)
    | Refuse(t: nat, op: Op)
    | Bump(t: nat, op: Op)
    | InsertDoc(t: nat)
    | EraseDoc(t: nat, op: Op)
    | BumpErased(t: nat)
    | UnlockEarly(t: nat)
    | AdjustCounter(t: nat)
    | Finish(t: nat)
    | Release(t: nat)
    | LockCache(t: nat)
    | CompareCache(t: nat)
    | ReadSequence(t: nat)
    | CopyShard(t: nat)
    | PublishCache(t: nat)

  datatype Config = Config(env: Env, n: nat, threads: nat)

  /** The counter changes a stored document asks for, in the order the code makes them. */
  function StoredAdjusts(env: Env, prev: Option<Doc>, d: Doc): seq<Adjust> {
    (if prev.None? then [Count(1)] else [Size(-(env.size(prev.value) as int))]) + [Size(env.size(d))]
  }

  function RemovedAdjusts(env: Env, d: Doc): seq<Adjust> {
    [Count(-1), Size(-(env.size(d) as int))]
  }

  ghost predicate Init(c: Config, s: State)
    requires c.n > 0
  {
    && s.shards == EmptyStore(c.n) && s.locks == seq(c.n, _ => None)
    && s.updateSeq == 0 && s.docCount == 0 && s.dataSize == 0
    && s.threads == seq(c.threads, _ => Idle)
    && s.cacheLock == None && s.cacheSeq == 0 && s.cacheDocs == []
    && s.log == [] && s.cachedAt == 0 && s.cacheTimes == seq(c.n, _ => 0)
    && s.answers == [] && s.listings == []
  }

  /** A write belongs to the lock the thread holds. */
  predicate Belongs(c: Config, pc: Pc, op: Op)
    requires c.n > 0
  {
    pc.Holding? && pc.shard == ShardOf(c.env, c.n, op.id) && pc.bulk == op.BulkSet?
  }

  ghost predicate Next(c: Config, s: State, s': State, step: Step)
    requires c.n > 0 && |s.shards| == c.n && |s.locks| == c.n
  {
    && step.t < |s.threads|
    && var t := step.t;
       var pc := s.threads[t];
       match step
       case Lock(_, i, bulk) =>
         pc.Idle? && i < c.n && s.locks[i] == None &&
         s' == s.(locks := s.locks[i := Some(t)], threads := s.threads[t := Holding(i, bulk)])
       case Refuse(_, op) =>
         Belongs(c, pc, op) &&
         var o := OutcomeOn(c.env, s.shards[pc.shard], op);
         o.Failed? &&
         s' == s.(answers := s.answers + [Answer(op, o, |s.log|)],
                  locks := if pc.bulk then s.locks else s.locks[pc.shard := None],
                  threads := if pc.bulk then s.threads else s.threads[t := Idle])
       case Bump(_, op) =>
         Belongs(c, pc, op) &&
         var o := OutcomeOn(c.env, s.shards[pc.shard], op);
         o.Stored? &&
         s' == s.(updateSeq := Wrap64(s.updateSeq + 1), log := s.log + [op],
                  answers := s.answers + [Answer(op, o, |s.log|)],
                  threads := s.threads[t := Bumped(pc.shard, pc.bulk, op, o.doc)])
       case InsertDoc(_) =>
         pc.Bumped? && pc.shard < c.n &&
         s' == s.(shards := s.shards[pc.shard := Insert(s.shards[pc.shard], pc.doc)],
                  threads := s.threads[t := Counting(pc.shard, pc.bulk, true, !pc.bulk,
                    StoredAdjusts(c.env, Find(s.shards[pc.shard], pc.op.id), pc.doc))])
       case EraseDoc(_, op) =>
         Belongs(c, pc, op) &&
         var o := OutcomeOn(c.env, s.shards[pc.shard], op);
         o.Removed? &&
         s' == s.(shards := s.shards[pc.shard := Erase(s.shards[pc.shard], op.id)],
                  threads := s.threads[t := Erased(pc.shard, op, o.doc)])
       case BumpErased(_) =>
         pc.Erased? &&
         s' == s.(updateSeq := Wrap64(s.updateSeq + 1), log := s.log + [pc.op],
                  answers := s.answers + [Answer(pc.op, Removed(pc.gone), |s.log|)],
                  threads := s.threads[t := Counting(pc.shard, false, true, false, RemovedAdjusts(c.env, pc.gone))])
       case UnlockEarly(_) =>
         pc.Counting? && pc.held && pc.unlockFirst && pc.shard < c.n &&
         s' == s.(locks := s.locks[pc.shard := None], threads := s.threads[t := pc.(held := false)])
       case AdjustCounter(_) =>
         pc.Counting? && pc.pending != [] && !(pc.held && pc.unlockFirst) &&
         var rest := s.(threads := s.threads[t := pc.(pending := pc.pending[1..])]);
         s' == (match pc.pending[0]
                case Count(d) => rest.(docCount := Wrap64(s.docCount + d))
                case Size(d) => rest.(dataSize := Wrap64(s.dataSize + d)))
       case Finish(_) =>
         pc.Counting? && pc.pending == [] && !(pc.held && pc.unlockFirst) && pc.shard < c.n &&
         s' == (if pc.held && pc.bulk then s.(threads := s.threads[t := Holding(pc.shard, true)])
                else if pc.held then s.(locks := s.locks[pc.shard := None], threads := s.threads[t := Idle])
                else s.(threads := s.threads[t := Idle]))
       case Release(_) =>
         pc.Holding? && pc.bulk && pc.shard < c.n &&
         s' == s.(locks := s.locks[pc.shard := None], threads := s.threads[t := Idle])
       case LockCache(_) =>
         pc.Idle? && s.cacheLock == None &&
         s' == s.(cacheLock := Some(t), threads := s.threads[t := CacheLocked])
       case CompareCache(_) =>
         pc.CacheLocked? &&
         s' == if s.cacheSeq == s.updateSeq
               then s.(cacheLock := None, threads := s.threads[t := Idle],
                       listings := s.listings +
                         [Listing(true, s.cacheSeq, s.cacheDocs, s.cachedAt, s.cacheTimes, |s.log|)])
               else s.(threads := s.threads[t := CacheMissed])
       case ReadSequence(_) =>
         pc.CacheMissed? &&
         s' == s.(cacheSeq := s.updateSeq, cachedAt := |s.log|, threads := s.threads[t := Copying(|s.log|, 0, [], [])])
       case CopyShard(_) =>
         pc.Copying? && pc.next < c.n && s.locks[pc.next] == None &&
         s' == s.(threads := s.threads[t := pc.(next := pc.next + 1,
                    acc := Merge(DocLess, pc.acc, s.shards[pc.next]), times := pc.times + [|s.log|])])
       case PublishCache(_) =>
         pc.Copying? && pc.next == c.n &&
         s' == s.(cacheDocs := pc.acc, cacheTimes := pc.times, cacheLock := None, threads := s.threads[t := Idle],
                  listings := s.listings + [Listing(false, s.cacheSeq, pc.acc, pc.at, pc.times, |s.log|)])
  }

  ghost predicate IsRun(c: Config, trace: seq<State>, steps: seq<Step>)
    requires c.n > 0
  {
    && |trace| == |steps| + 1
    && Init(c, trace[0])
    && (forall i | 0 <= i < |steps| :: |trace[i].shards| == c.n && |trace[i].locks| == c.n)
    && (forall i | 0 <= i < |steps| :: Next(c, trace[i], trace[i + 1], steps[i]))
  }

  // ---- The invariant, in parts -----------------------------------------------------------

  /** The shard lock a thread holds. */
  function Held(pc: Pc): Option<nat> {
    match pc
    case Holding(i, _) => Some(i)
    case Bumped(i, _, _, _) => Some(i)
    case Erased(i, _, _) => Some(i)
    case Counting(i, _, held, _, _) => if held then Some(i) else None
    case _ => None
  }

  predicate HoldsCache(pc: Pc) {
    pc.CacheLocked? || pc.CacheMissed? || pc.Copying?
  }

  /** Mutual exclusion: a lock is taken exactly when its owner is inside its critical section. */
  ghost predicate LocksOk(n: nat, threads: seq<Pc>, locks: seq<Option<nat>>, cacheLock: Option<nat>) {
    && |locks| == n
    && (forall t | 0 <= t < |threads| && Held(threads[t]).Some? ::
         Held(threads[t]).value < n && locks[Held(threads[t]).value] == Some(t))
    && (forall i | 0 <= i < n && locks[i].Some? ::
         locks[i].value < |threads| && Held(threads[locks[i].value]) == Some(i))
    && (forall t | 0 <= t < |threads| :: HoldsCache(threads[t]) <==> cacheLock == Some(t))
    && (cacheLock.Some? ==> cacheLock.value < |threads|)
  }

  ghost predicate LockInv(c: Config, s: State) {
    |s.shards| == c.n && |s.threads| == c.threads && LocksOk(c.n, s.threads, s.locks, s.cacheLock)
  }

  /** How far a shard may lag behind (or run ahead of) the replayed log, given its lock's owner. */
  ghost predicate ShardAgrees(env: Env, n: nat, i: nat, pc: Pc, shard: seq<Doc>, replayed: seq<Doc>)
    requires n > 0
  {
    match pc
    case Bumped(_, _, op, d) =>
      ShardOf(env, n, op.id) == i && OutcomeOn(env, shard, op) == Stored(d) && replayed == Insert(shard, d)
    case Erased(_, op, d) =>
      ShardOf(env, n, op.id) == i && OutcomeOn(env, replayed, op) == Removed(d) && shard == Erase(replayed, op.id)
    case _ => shard == replayed
  }

  function Owner(s: State, i: nat): Pc
    requires i < |s.locks|
  {
    if s.locks[i].Some? && s.locks[i].value < |s.threads| then s.threads[s.locks[i].value] else Idle
  }

  ghost predicate ShardInv(c: Config, s: State)
    requires c.n > 0
  {
    && |s.shards| == c.n && |s.locks| == c.n
    && WellPlaced(c.env, s.shards)
    && forall i | 0 <= i < c.n ::
         ShardAgrees(c.env, c.n, i, Owner(s, i), s.shards[i], Replay(c.env, c.n, s.log)[i])
  }

  ghost predicate LogInv(c: Config, s: State)
    requires c.n > 0
  {
    && AllAccepted(c.env, c.n, s.log)
    && s.updateSeq == Wrap64(|s.log|)
  }

  /** An answer is what the rules say of the store at its point in the log. */
  ghost predicate AnswerRight(c: Config, log: seq<Op>, a: Answer)
    requires c.n > 0
  {
    && a.at <= |log|
    && a.outcome == Decide(c.env, DocAt(c.env, c.n, log, a.at, a.op.id), a.op)
    && (!a.outcome.Failed? ==> a.at < |log| && log[a.at] == a.op)
  }

  /** The accepted writes, in the order they were answered. */
  function AcceptedOps(answers: seq<Answer>): (ops: seq<Op>)
    ensures |ops| <= |answers|
  {
    if answers == [] then []
    else
      var last := answers[|answers| - 1];
      AcceptedOps(answers[..|answers| - 1]) + if last.outcome.Failed? then [] else [last.op]
  }

  /** Every entry of the log is answered, once and in order, and every answer stands where the answers
      before it have brought the log. */
  ghost predicate AnswersInOrder(log: seq<Op>, answers: seq<Answer>) {
    && log == AcceptedOps(answers)
    && forall k | 0 <= k < |answers| :: answers[k].at == |AcceptedOps(answers[..k])|
  }

  ghost predicate AnswerInv(c: Config, s: State)
    requires c.n > 0
  {
    && AnswersInOrder(s.log, s.answers)
    && forall k | 0 <= k < |s.answers| :: AnswerRight(c, s.log, s.answers[k])
  }

  /** The counter changes a thread has still to make, by kind. */
  function PendingCount(a: seq<Adjust>): int {
    if a == [] then 0 else (if a[0].Count? then a[0].d else 0) + PendingCount(a[1..])
  }

  function PendingSize(a: seq<Adjust>): int {
    if a == [] then 0 else (if a[0].Size? then a[0].d else 0) + PendingSize(a[1..])
  }

  function Owed(env: Env, pc: Pc): seq<Adjust> {
    match pc
    case Counting(_, _, _, _, pending) => pending
    case Erased(_, _, d) => RemovedAdjusts(env, d)
    case _ => []
  }

  function OwedCount(env: Env, threads: seq<Pc>): int {
    if threads == [] then 0 else PendingCount(Owed(env, threads[0])) + OwedCount(env, threads[1..])
  }

  function OwedSize(env: Env, threads: seq<Pc>): int {
    if threads == [] then 0 else PendingSize(Owed(env, threads[0])) + OwedSize(env, threads[1..])
  }

  /** Conservation: counters plus what is still owed are the totals, modulo 2^64. */
  ghost predicate CountInv(c: Config, s: State) {
    && s.docCount == Wrap64(DocTotal(s.shards) - OwedCount(c.env, s.threads))
    && s.dataSize == Wrap64(SizeTotal(c.env, s.shards) - OwedSize(c.env, s.threads))
  }

  /** The copied shards, each as of its own point in the log. */
  function Copied(c: Config, log: seq<Op>, times: seq<nat>): (parts: seq<seq<Doc>>)
    requires c.n > 0 && |times| <= c.n
    requires forall i | 0 <= i < |times| :: times[i] <= |log|
    ensures |parts| == |times|
  {
    seq(|times|, i requires 0 <= i < |times| => Replay(c.env, c.n, log[..times[i]])[i])
  }

  /** `docs` merges one copy of every shard, none older than log position `at`. */
  ghost predicate Assembled(c: Config, log: seq<Op>, docs: seq<Doc>, at: nat, times: seq<nat>, copied: nat)
    requires c.n > 0
  {
    && |times| == copied <= c.n && at <= |log|
    && (forall i | 0 <= i < |times| :: at <= times[i] <= |log|)
    && docs == MergeAll(DocLess, Copied(c, log, times))
  }

  ghost predicate CacheInv(c: Config, s: State)
    requires c.n > 0
  {
    && s.cacheSeq == Wrap64(s.cachedAt) && s.cachedAt <= |s.log|
    && (forall t | 0 <= t < |s.threads| && s.threads[t].Copying? ::
         var pc := s.threads[t];
         pc.at == s.cachedAt && Assembled(c, s.log, pc.acc, pc.at, pc.times, pc.next))
    && ((forall t | 0 <= t < |s.threads| :: !s.threads[t].Copying?) ==>
         Assembled(c, s.log, s.cacheDocs, s.cachedAt, s.cacheTimes, c.n))
  }

  /** What a reader may rely on. */
  ghost predicate ListingRight(c: Config, log: seq<Op>, l: Listing)
    requires c.n > 0
  {
    && l.end <= |log| && l.reported == Wrap64(l.at)
    && Assembled(c, log, l.docs, l.at, l.times, c.n)
    && (forall i | 0 <= i < |l.times| :: l.times[i] <= l.end)
    && (l.hit ==> l.reported == Wrap64(l.end))
  }

  ghost predicate ListingInv(c: Config, s: State)
    requires c.n > 0
  {
    forall k | 0 <= k < |s.listings| :: ListingRight(c, s.log, s.listings[k])
  }

  ghost predicate Inv(c: Config, s: State)
    requires c.n > 0
  {
    && LockInv(c, s) && ShardInv(c, s) && LogInv(c, s) && AnswerInv(c, s)
    && CountInv(c, s) && CacheInv(c, s) && ListingInv(c, s)
  }
}
