/**
 Pushing the blocks of a tree to another store: a producer walks the tree into a bounded
 queue, a consumer starts uploads from it. Control changes hands only where the code
 awaits, so one step is the stretch of code between two awaits of one of the three.
 */
module Push {
  import opened Bytes

  datatype Block = Block(hash: Bytes, data: Bytes)

  datatype Outcome = Success | Skipped | Failed

  /** Where the producer is suspended: fetching the next block, or waiting for room with
      a block in hand, its wake-up called or not. */
  datatype Producer = Walking | Holding(block: Block, signalled: bool) | ProducerDone

  /** Where the consumer is suspended: before its first line, waiting for the producer,
      racing the active uploads, or waiting for the last of them after an abort. */
  datatype Consumer = Starting | AwaitingBlock(signalled: bool) | Racing(signalled: bool) | Draining | ConsumerDone

  /** An entry of the active list: still uploading, or counted but not yet removed. */
  datatype Task = Uploading(block: Block) | Finished(block: Block)

  datatype State = State(
    concurrency: nat,
    rest: seq<Block>,               // what the walk has still to yield
    producer: Producer,
    queue: seq<Block>,
    taken: seq<Block>,              // what the consumer has taken from the queue, in order
    active: seq<Task>,
    consumer: Consumer,
    walkDone: bool,
    aborted: bool,
    done: seq<(Block, Outcome)>)    // what has been counted, in order

  datatype Step =
    | WalkYields | WalkEnds | ProducerResumes | ConsumerResumes
    | UploadEnds(i: nat, outcome: Outcome) | TaskRetires(j: nat) | Aborts

  function Init(all: seq<Block>, concurrency: nat): State {
    State(concurrency, all, Walking, [], [], [], Starting, false, false, [])
  }

  function MaxQueue(s: State): nat {
    2 * s.concurrency
  }

  // ------------------------------------------------------------------ steps

  function WakeConsumer(c: Consumer): Consumer {
    if c == AwaitingBlock(false) then AwaitingBlock(true) else c
  }

  function FinishWalk(s: State): State {
    s.(producer := ProducerDone, walkDone := true, consumer := WakeConsumer(s.consumer))
  }

  /** Queue a block and go for the next one, or wait while there is no room. */
  function Offer(s: State, b: Block): State {
    if |s.queue| >= MaxQueue(s) then s.(producer := Holding(b, false))
    else s.(producer := Walking, queue := s.queue + [b], consumer := WakeConsumer(s.consumer))
  }

  /** Move `n` blocks from the queue into the active list, waking a waiting producer. */
  function Started(s: State, n: nat): State
    requires n <= |s.queue|
  {
    s.(queue := s.queue[n..], taken := s.taken + s.queue[..n], active := s.active + Uploads(s.queue[..n]),
       producer := if n > 0 && s.producer.Holding? && |s.queue| - n < MaxQueue(s) then s.producer.(signalled := true) else s.producer)
  }

  function Uploads(blocks: seq<Block>): seq<Task> {
    if blocks == [] then [] else Uploads(blocks[..|blocks| - 1]) + [Uploading(blocks[|blocks| - 1])]
  }

  function Room(s: State): nat {
    var free := if s.concurrency > |s.active| then s.concurrency - |s.active| else 0;
    if free < |s.queue| then free else |s.queue|
  }

  predicate KeepsGoing(s: State) {
    !s.walkDone || s.queue != [] || s.active != []
  }

  /** The consumer leaves its loop: it is done unless uploads are still active. */
  function Leave(s: State): State {
    s.(consumer := if s.active == [] then ConsumerDone else Draining)
  }

  /** The consumer from one await to the next. */
  function ConsumerRun(s: State): State {
    if !KeepsGoing(s) || s.aborted then Leave(s)
    else
      var t := Started(s, Room(s));
      if t.queue == [] && !t.walkDone && |t.active| < t.concurrency then t.(consumer := AwaitingBlock(false))
      else if t.active != [] then t.(consumer := Racing(false))
      else Leave(t)
  }

  predicate Enabled(s: State, step: Step) {
    match step
    case WalkYields => s.producer == Walking && s.rest != []
    case WalkEnds => s.producer == Walking && s.rest == []
    case ProducerResumes => s.producer.Holding? && s.producer.signalled
    case ConsumerResumes => s.consumer == Starting || s.consumer == AwaitingBlock(true) || s.consumer == Racing(true)
    case UploadEnds(i, _) => i < |s.active| && s.active[i].Uploading?
    case TaskRetires(j) => j < |s.active| && s.active[j].Finished?
    case Aborts => !s.aborted
  }

  function Apply(s: State, step: Step): State
    requires Enabled(s, step)
  {
    match step
    case WalkYields =>
      var t := s.(rest := s.rest[1..]);
      if s.aborted then FinishWalk(t) else Offer(t, s.rest[0])
    case WalkEnds => FinishWalk(s)
    case ProducerResumes =>
      if s.aborted
      then s.(producer := Walking, queue := s.queue + [s.producer.block], consumer := WakeConsumer(s.consumer))
      else Offer(s, s.producer.block)
    case ConsumerResumes => ConsumerRun(s)
    case UploadEnds(i, outcome) =>
      s.(active := s.active[i := Finished(s.active[i].block)], done := s.done + [(s.active[i].block, outcome)])
    case TaskRetires(j) =>
      var left := s.active[..j] + s.active[j + 1..];
      s.(active := left,
         consumer := if s.consumer.Racing? then Racing(true)
                     else if s.consumer.Draining? && left == [] then ConsumerDone else s.consumer)
    case Aborts => s.(aborted := true)
  }

  ghost predicate Legal(s: State, steps: seq<Step>)
    decreases |steps|, 0
  {
    steps == [] || (Legal(s, steps[..|steps| - 1]) && Enabled(Run(s, steps[..|steps| - 1]), steps[|steps| - 1]))
  }

  ghost function Run(s: State, steps: seq<Step>): State
    requires Legal(s, steps)
    decreases |steps|, 1
  {
    if steps == [] then s else Apply(Run(s, steps[..|steps| - 1]), steps[|steps| - 1])
  }

  // -------------------------------------------------------------- invariant

  function Hand(p: Producer): seq<Block> {
    if p.Holding? then [p.block] else []
  }

  /** The blocks that are uploading. */
  function InFlight(active: seq<Task>): seq<Block> {
    if active == [] then []
    else (if active[0].Uploading? then [active[0].block] else []) + InFlight(active[1..])
  }

  /** The blocks that have been counted. */
  function Counted(done: seq<(Block, Outcome)>): seq<Block> {
    if done == [] then [] else Counted(done[..|done| - 1]) + [done[|done| - 1].0]
  }

  /** The blocks leave the walk through the producer's hand and the queue, in walk order,
      and none is lost unless an abort drops the tail. */
  ghost predicate Ordered(all: seq<Block>, s: State) {
    if s.producer.ProducerDone? then s.taken + s.queue <= all && (!s.aborted ==> s.taken + s.queue == all)
    else s.taken + s.queue + Hand(s.producer) + s.rest == all
  }

  /** Every block taken from the queue is uploading or has been counted, never both. */
  ghost predicate Accounted(s: State) {
    Balanced(s.taken, s.done, s.active)
  }

  ghost predicate Balanced(taken: seq<Block>, done: seq<(Block, Outcome)>, active: seq<Task>) {
    multiset(taken) == multiset(Counted(done) + InFlight(active))
  }

  ghost predicate Bounded(s: State) {
    |s.queue| <= 2 * s.concurrency && |s.active| <= s.concurrency
  }

  /** Nobody waits without a reason: an unsignalled producer faces a full queue, an
      unsignalled consumer an empty queue and an unfinished walk, or a running upload. */
  ghost predicate Justified(s: State) {
    && (s.walkDone <==> s.producer.ProducerDone?)
    && (s.producer.Holding? ==> (s.producer.signalled <==> |s.queue| < 2 * s.concurrency))
    && match s.consumer
       case Starting => s.active == []
       case AwaitingBlock(signalled) => |s.active| < s.concurrency && (!signalled ==> s.queue == [] && !s.walkDone)
       case Racing(signalled) => !signalled ==> s.active != []
       case Draining => s.aborted && s.active != []
       case ConsumerDone => s.active == [] && (s.aborted || (s.walkDone && s.queue == []))
  }

  ghost predicate Inv(all: seq<Block>, s: State) {
    s.concurrency >= 1 && Ordered(all, s) && Bounded(s) && Justified(s)
  }

  lemma {:induction false} InFlightAppend(a: seq<Task>, b: seq<Task>)
    ensures InFlight(a + b) == InFlight(a) + InFlight(b)
  {
    if a == [] {
      assert a + b == b;
    } else {
      assert (a + b)[0] == a[0] && (a + b)[1..] == a[1..] + b;
      InFlightAppend(a[1..], b);
    }
  }

  lemma {:induction false} UploadsAre(blocks: seq<Block>)
    ensures |Uploads(blocks)| == |blocks| && InFlight(Uploads(blocks)) == blocks
  {
    if blocks != [] {
      var n := |blocks| - 1;
      UploadsAre(blocks[..n]);
      assert blocks == blocks[..n] + [blocks[n]];
      InFlightAppend(Uploads(blocks[..n]), [Uploading(blocks[n])]);
    }
  }

  lemma InFlightAt(active: seq<Task>, i: nat)
    requires i < |active|
    ensures InFlight(active)
         == InFlight(active[..i]) + (if active[i].Uploading? then [active[i].block] else []) + InFlight(active[i + 1..])
    ensures InFlight(active[..i] + active[i + 1..]) == InFlight(active[..i]) + InFlight(active[i + 1..])
  {
    assert active == active[..i] + active[i..];
    InFlightAppend(active[..i], active[i..]);
    assert active[i..][1..] == active[i + 1..];
    InFlightAppend(active[..i], active[i + 1..]);
  }

  /** A finished upload moves from the blocks in flight to the counted ones. */
  lemma CountingMoves(active: seq<Task>, i: nat, done: seq<(Block, Outcome)>, outcome: Outcome)
    requires i < |active| && active[i].Uploading?
    ensures multiset(Counted(done + [(active[i].block, outcome)]) + InFlight(active[i := Finished(active[i].block)]))
         == multiset(Counted(done) + InFlight(active))
  {
    var b, after := active[i].block, active[i := Finished(active[i].block)];
    InFlightAt(active, i);
    InFlightAt(after, i);
    assert after[..i] == active[..i] && after[i + 1..] == active[i + 1..];
    var e := done + [(b, outcome)];
    assert e[..|e| - 1] == done;
    Rearrange(Counted(done), InFlight(active[..i]), b, InFlight(active[i + 1..]));
  }

  lemma Rearrange<T>(d: seq<T>, x: seq<T>, b: T, y: seq<T>)
    ensures multiset((d + [b]) + (x + [] + y)) == multiset(d + (x + [b] + y))
  {
    assert (d + [b]) + (x + [] + y) == d + [b] + x + y;
    assert d + (x + [b] + y) == d + x + [b] + y;
  }

  lemma StartedKeeps(all: seq<Block>, s: State, n: nat)
    requires s.concurrency >= 1 && Ordered(all, s) && Bounded(s) && n <= Room(s)
    requires s.walkDone <==> s.producer.ProducerDone?
    requires s.producer.Holding? ==> (s.producer.signalled <==> |s.queue| < MaxQueue(s))
    ensures var t := Started(s, n);
      && Ordered(all, t) && Bounded(t) && (t.walkDone <==> t.producer.ProducerDone?)
      && (t.producer.Holding? ==> (t.producer.signalled <==> |t.queue| < MaxQueue(t)))
      && |t.active| == |s.active| + n
  {
    UploadsAre(s.queue[..n]);
    StartedOrdered(s.taken, s.queue, n);
  }

  lemma StartedOrdered(taken: seq<Block>, queue: seq<Block>, n: nat)
    requires n <= |queue|
    ensures taken + queue[..n] + queue[n..] == taken + queue
  {
    assert queue == queue[..n] + queue[n..];
  }

  lemma ConsumerKeeps(all: seq<Block>, s: State)
    requires Inv(all, s) && Enabled(s, ConsumerResumes)
    ensures Inv(all, ConsumerRun(s))
  {
    StartedKeeps(all, s, Room(s));
  }

  lemma OfferKeeps(all: seq<Block>, s: State, b: Block)
    requires s.concurrency >= 1 && Bounded(s) && !s.walkDone
    requires s.taken + s.queue + [b] + s.rest == all
    requires Justified(s.(producer := Walking))
    ensures Inv(all, Offer(s, b))
  {
    assert s.taken + s.queue + [b] + s.rest == s.taken + (s.queue + [b]) + [] + s.rest;
  }

  lemma WalkKeeps(all: seq<Block>, s: State)
    requires Inv(all, s) && Enabled(s, WalkYields)
    ensures Inv(all, Apply(s, WalkYields))
  {
    var t := s.(rest := s.rest[1..]);
    assert s.taken + s.queue + [] + s.rest == t.taken + t.queue + [s.rest[0]] + t.rest;
    if s.aborted {
      assert s.taken + s.queue <= all;
    } else {
      OfferKeeps(all, t, s.rest[0]);
    }
  }

  lemma ResumeKeeps(all: seq<Block>, s: State)
    requires Inv(all, s) && Enabled(s, ProducerResumes)
    ensures Inv(all, Apply(s, ProducerResumes))
  {
    OfferKeeps(all, s, s.producer.block);
    assert Apply(s, ProducerResumes) == Offer(s, s.producer.block);
  }

  lemma RetireKeeps(all: seq<Block>, s: State, j: nat)
    requires Inv(all, s) && Enabled(s, TaskRetires(j))
    ensures Inv(all, Apply(s, TaskRetires(j)))
  {
  }

  lemma WalkEndKeeps(all: seq<Block>, s: State)
    requires Inv(all, s) && Enabled(s, WalkEnds)
    ensures Inv(all, Apply(s, WalkEnds))
  {
    assert s.taken + s.queue + [] + [] == s.taken + s.queue;
  }

  lemma ConsumerAccounts(s: State)
    requires Accounted(s)
    ensures Accounted(ConsumerRun(s))
  {
    var r, t := ConsumerRun(s), Started(s, Room(s));
    StartedAccounts(s, Room(s));
    assert (r.taken, r.done, r.active) == (s.taken, s.done, s.active) || (r.taken, r.done, r.active) == (t.taken, t.done, t.active);
  }

  lemma UploadAccounts(s: State, i: nat, outcome: Outcome)
    requires Accounted(s) && Enabled(s, UploadEnds(i, outcome))
    ensures Accounted(Apply(s, UploadEnds(i, outcome)))
  {
    CountingMoves(s.active, i, s.done, outcome);
  }

  /** No step loses a taken block or counts one twice. */
  lemma StepAccounts(s: State, step: Step)
    requires Accounted(s) && Enabled(s, step)
    ensures Accounted(Apply(s, step))
  {
    match step
    case ConsumerResumes => ConsumerAccounts(s);
    case UploadEnds(i, outcome) => UploadAccounts(s, i, outcome);
    case TaskRetires(j) => RetireAccounts(s, j);
    case WalkYields => ProducerTakesNothing(s, step);
    case WalkEnds => ProducerTakesNothing(s, step);
    case ProducerResumes => ProducerTakesNothing(s, step);
    case Aborts => ProducerTakesNothing(s, step);
  }

  lemma ProducerTakesNothing(s: State, step: Step)
    requires Enabled(s, step) && (step.WalkYields? || step.WalkEnds? || step.ProducerResumes? || step.Aborts?)
    ensures var t := Apply(s, step); t.taken == s.taken && t.done == s.done && t.active == s.active
  {
  }

  lemma StartedAccounts(s: State, n: nat)
    requires Accounted(s) && n <= |s.queue|
    ensures Accounted(Started(s, n))
  {
    var q := s.queue[..n];
    UploadsAre(q);
    InFlightAppend(s.active, Uploads(q));
    Extend(s.taken, Counted(s.done), InFlight(s.active), q);
  }

  lemma Extend<T>(a: seq<T>, b: seq<T>, c: seq<T>, q: seq<T>)
    requires multiset(a) == multiset(b + c)
    ensures multiset(a + q) == multiset(b + (c + q))
  {
    assert b + (c + q) == (b + c) + q;
  }

  lemma RetireAccounts(s: State, j: nat)
    requires Accounted(s) && Enabled(s, TaskRetires(j))
    ensures Accounted(Apply(s, TaskRetires(j)))
  {
    RetireInFlight(s.active, j);
    var t := Apply(s, TaskRetires(j));
    assert t.taken == s.taken && t.done == s.done && InFlight(t.active) == InFlight(s.active);
  }

  lemma RetireInFlight(active: seq<Task>, j: nat)
    requires j < |active| && active[j].Finished?
    ensures InFlight(active[..j] + active[j + 1..]) == InFlight(active)
  {
    InFlightAt(active, j);
    NothingBetween(InFlight(active[..j]), InFlight(active[j + 1..]));
  }

  lemma NothingBetween<T>(x: seq<T>, y: seq<T>)
    ensures x + [] + y == x + y
  {
  }

  /** Every step of every run keeps the bounds, the account of the blocks, and the
      reason for each wait. */
  lemma StepKeeps(all: seq<Block>, s: State, step: Step)
    requires Inv(all, s) && Enabled(s, step)
    ensures Inv(all, Apply(s, step))
  {
    match step
    case WalkYields => WalkKeeps(all, s);
    case WalkEnds => WalkEndKeeps(all, s);
    case ProducerResumes => ResumeKeeps(all, s);
    case ConsumerResumes => ConsumerKeeps(all, s);
    case UploadEnds(i, outcome) =>
    case TaskRetires(j) => RetireKeeps(all, s, j);
    case Aborts =>
  }

  /** The walk, the queue, the uploads and the pending wake-ups still ahead. */
  function Remaining(s: State): nat {
    6 * |s.rest| + 4 * |s.queue| + Work(s.active)
    + (match s.producer case Walking => 2 case Holding(_, signalled) => 7 + (if signalled then 1 else 0) case ProducerDone => 0)
    + (if s.consumer == Starting || s.consumer == AwaitingBlock(true) || s.consumer == Racing(true) then 1 else 0)
    + (if s.aborted then 0 else 1)
  }

  function Work(active: seq<Task>): nat {
    if active == [] then 0
    else Work(active[..|active| - 1]) + if active[|active| - 1].Uploading? then 3 else 2
  }

  lemma {:induction false} WorkAppend(a: seq<Task>, b: seq<Task>)
    ensures Work(a + b) == Work(a) + Work(b)
  {
    if b == [] {
      assert a + b == a;
    } else {
      var n := |b| - 1;
      assert (a + b)[..|a + b| - 1] == a + b[..n];
      WorkAppend(a, b[..n]);
    }
  }

  lemma WorkAt(active: seq<Task>, i: nat)
    requires i < |active|
    ensures Work(active) == Work(active[..i]) + (if active[i].Uploading? then 3 else 2) + Work(active[i + 1..])
    ensures Work(active[..i] + active[i + 1..]) == Work(active[..i]) + Work(active[i + 1..])
  {
    var a, b, c := active[..i], [active[i]], active[i + 1..];
    assert active == (a + b) + c;
    WorkAppend(a + b, c);
    WorkAppend(a, b);
    WorkAppend(a, c);
    assert b[..0] == [];
  }

  lemma {:induction false} UploadsWork(blocks: seq<Block>)
    ensures Work(Uploads(blocks)) == 3 * |blocks|
  {
    if blocks != [] {
      var n := |blocks| - 1;
      UploadsWork(blocks[..n]);
      var u := Uploads(blocks);
      assert u[..|u| - 1] == Uploads(blocks[..n]);
    }
  }

  /** Every step uses up some of what is ahead, so a finite walk is pushed in finitely
      many steps: no wake-up is ever answered by another wake-up alone. */
  lemma StepShrinks(all: seq<Block>, s: State, step: Step)
    requires Inv(all, s) && Enabled(s, step)
    ensures Remaining(Apply(s, step)) < Remaining(s)
  {
    match step
    case WalkYields => WalkShrinks(s);
    case WalkEnds =>
    case ProducerResumes =>
    case ConsumerResumes => ConsumerShrinks(all, s);
    case UploadEnds(i, outcome) => UploadShrinks(s, i, outcome);
    case TaskRetires(j) => WorkAt(s.active, j);
    case Aborts =>
  }

  lemma WalkShrinks(s: State)
    requires Enabled(s, WalkYields)
    ensures Remaining(Apply(s, WalkYields)) < Remaining(s)
  {
  }

  lemma UploadShrinks(s: State, i: nat, outcome: Outcome)
    requires Enabled(s, UploadEnds(i, outcome))
    ensures Remaining(Apply(s, UploadEnds(i, outcome))) < Remaining(s)
  {
    var after := s.active[i := Finished(s.active[i].block)];
    WorkAt(s.active, i);
    WorkAt(after, i);
    assert after[..i] == s.active[..i] && after[i + 1..] == s.active[i + 1..];
  }

  lemma ConsumerShrinks(all: seq<Block>, s: State)
    requires Inv(all, s) && Enabled(s, ConsumerResumes)
    ensures Remaining(ConsumerRun(s)) < Remaining(s)
  {
    if KeepsGoing(s) && !s.aborted {
      StartedShrinks(s, Room(s));
    }
  }

  lemma StartedShrinks(s: State, n: nat)
    requires n <= |s.queue|
    ensures Work(Started(s, n).active) == Work(s.active) + 3 * n && |Started(s, n).queue| == |s.queue| - n
  {
    UploadsWork(s.queue[..n]);
    WorkAppend(s.active, Uploads(s.queue[..n]));
  }

  ghost predicate Final(s: State) {
    s.producer.ProducerDone? && s.consumer.ConsumerDone?
  }

  /** The producer waits for room and nobody has called its wake-up. */
  ghost predicate WaitsForRoom(s: State) {
    s.producer.Holding? && !s.producer.signalled
  }

  /** The one way to hang: an abort has sent the consumer home while the producer waits
      for room in a full queue. */
  ghost predicate Wedged(s: State) {
    s.aborted && s.consumer.ConsumerDone? && WaitsForRoom(s)
  }

  ghost predicate Stuck(s: State) {
    forall step :: Enabled(s, step) ==> step.Aborts?
  }

  /** A reachable state is stuck if and only if the push has returned or it is wedged;
      without an abort it has returned. */
  lemma StuckExactly(all: seq<Block>, s: State)
    requires Inv(all, s)
    ensures Stuck(s) <==> Final(s) || Wedged(s)
    ensures Stuck(s) && !s.aborted ==> Final(s)
  {
    if Stuck(s) {
      assert !Enabled(s, WalkYields) && !Enabled(s, WalkEnds) && !Enabled(s, ProducerResumes) && !Enabled(s, ConsumerResumes);
      if s.active != [] {
        ActiveIsNotStuck(s);
      }
    }
  }

  lemma ActiveIsNotStuck(s: State)
    requires s.active != []
    ensures !Stuck(s)
  {
    var step := if s.active[0].Uploading? then UploadEnds(0, Success) else TaskRetires(0);
    assert Enabled(s, step) && !step.Aborts?;
  }

  /** What a push that was not aborted has done when it returns: every block of the walk
      counted exactly once. */
  lemma FinalAccount(all: seq<Block>, s: State)
    requires Inv(all, s) && Accounted(s) && Final(s) && !s.aborted
    ensures multiset(Counted(s.done)) == multiset(all) && |s.done| == |all|
  {
    assert s.taken + [] == s.taken;
    assert Counted(s.done) + [] == Counted(s.done);
    assert |multiset(Counted(s.done))| == |multiset(all)|;
    CountedSize(s.done);
  }

  lemma {:induction false} CountedSize(done: seq<(Block, Outcome)>)
    ensures |Counted(done)| == |done|
  {
    if done != [] {
      CountedSize(done[..|done| - 1]);
    }
  }

  /** Every run from the start: the invariant holds, and its length is bounded. */
  lemma {:induction false} EveryRun(all: seq<Block>, concurrency: nat, steps: seq<Step>)
    requires concurrency >= 1 && Legal(Init(all, concurrency), steps)
    ensures var s := Run(Init(all, concurrency), steps);
      Inv(all, s) && Accounted(s) && s.concurrency == concurrency && |steps| + Remaining(s) <= 6 * |all| + 4
  {
    var s0 := Init(all, concurrency);
    if steps == [] {
      StartIsSound(all, concurrency);
    } else {
      var n := |steps| - 1;
      EveryRun(all, concurrency, steps[..n]);
      StepIsSound(all, Run(s0, steps[..n]), steps[n]);
    }
  }

  lemma StartIsSound(all: seq<Block>, concurrency: nat)
    requires concurrency >= 1
    ensures var s := Init(all, concurrency); Inv(all, s) && Accounted(s) && Remaining(s) <= 6 * |all| + 4
  {
    var s := Init(all, concurrency);
    assert s.taken + s.queue + Hand(s.producer) + s.rest == all;
  }

  lemma StepIsSound(all: seq<Block>, s: State, step: Step)
    requires Inv(all, s) && Accounted(s) && Enabled(s, step)
    ensures var t := Apply(s, step);
      Inv(all, t) && Accounted(t) && t.concurrency == s.concurrency && Remaining(t) < Remaining(s)
  {
    StepKeeps(all, s, step);
    StepAccounts(s, step);
    StepShrinks(all, s, step);
    ConcurrencyStays(s, step);
  }

  lemma ConcurrencyStays(s: State, step: Step)
    requires Enabled(s, step)
    ensures Apply(s, step).concurrency == s.concurrency
  {
  }

  /** A run that has nothing left to do and was never aborted has pushed everything. */
  lemma CompleteRun(all: seq<Block>, concurrency: nat, steps: seq<Step>)
    requires concurrency >= 1 && Legal(Init(all, concurrency), steps)
    requires Stuck(Run(Init(all, concurrency), steps)) && Aborts !in steps
    ensures var s := Run(Init(all, concurrency), steps);
      Final(s) && s.queue == [] && s.active == [] && s.taken == all && multiset(Counted(s.done)) == multiset(all) && |s.done| == |all|
  {
    var s := Run(Init(all, concurrency), steps);
    EveryRun(all, concurrency, steps);
    NeverAborted(all, concurrency, steps);
    StuckExactly(all, s);
    FinalAccount(all, s);
    assert s.taken + [] == s.taken;
  }

  lemma OnlyAborts(s: State, step: Step)
    requires Enabled(s, step)
    ensures Apply(s, step).aborted <==> s.aborted || step == Aborts
  {
  }

  lemma {:induction false} NeverAborted(all: seq<Block>, concurrency: nat, steps: seq<Step>)
    requires Legal(Init(all, concurrency), steps) && Aborts !in steps
    ensures !Run(Init(all, concurrency), steps).aborted
  {
    if steps != [] {
      var n := |steps| - 1;
      NeverAborted(all, concurrency, steps[..n]);
      OnlyAborts(Run(Init(all, concurrency), steps[..n]), steps[n]);
    }
  }

  /** The consumer's loop comes round to its test again without reaching an await. */
  ghost predicate Spins(s: State) {
    var t := Started(s, Room(s));
    && KeepsGoing(s) && !s.aborted
    && !(t.queue == [] && !t.walkDone && |t.active| < t.concurrency) && t.active == [] && KeepsGoing(t)
  }

  /** The loop spins if and only if there is no concurrency at all and the push is neither
      over nor aborted; it then comes round to the same state. */
  lemma NoConcurrencySpins(s: State)
    requires Bounded(s)
    ensures Spins(s) <==> s.concurrency == 0 && KeepsGoing(s) && !s.aborted
    ensures Spins(s) ==> Started(s, Room(s)) == s
  {
    var n := Room(s);
    StartedNone(s);
    if n > 0 {
      UploadsAre(s.queue[..n]);
      assert Started(s, n).active != [];
    }
  }

  // ---------------------------------------------------------------- session

  function Tally(done: seq<(Block, Outcome)>, outcome: Outcome): nat {
    if done == [] then 0
    else Tally(done[..|done| - 1], outcome) + if done[|done| - 1].1 == outcome then 1 else 0
  }

  function PushedBytes(done: seq<(Block, Outcome)>): nat {
    if done == [] then 0
    else
      var last := done[|done| - 1];
      PushedBytes(done[..|done| - 1]) + if last.1 == Success then |last.0.data| else 0
  }

  function FailedBlocks(done: seq<(Block, Outcome)>): seq<Block> {
    if done == [] then []
    else
      var last := done[|done| - 1];
      FailedBlocks(done[..|done| - 1]) + if last.1 == Failed then [last.0] else []
  }

  /** The three outcomes split the counted blocks. */
  lemma {:induction false} TalliesAddUp(done: seq<(Block, Outcome)>)
    ensures Tally(done, Success) + Tally(done, Skipped) + Tally(done, Failed) == |done|
    ensures |FailedBlocks(done)| == Tally(done, Failed)
  {
    if done != [] {
      TalliesAddUp(done[..|done| - 1]);
    }
  }

  /** The blocks whose uploads ended with an outcome, as the steps of a run say. */
  ghost function EndedWith(s: State, steps: seq<Step>, outcome: Outcome): (r: seq<Block>)
    requires Legal(s, steps)
  {
    if steps == [] then []
    else
      var n := |steps| - 1;
      EndedWith(s, steps[..n], outcome)
      + if steps[n].UploadEnds? && steps[n].outcome == outcome then [Run(s, steps[..n]).active[steps[n].i].block] else []
  }

  /** How many steps of a run end an upload with an outcome. */
  function Endings(steps: seq<Step>, outcome: Outcome): nat {
    if steps == [] then 0
    else Endings(steps[..|steps| - 1], outcome)
         + if steps[|steps| - 1].UploadEnds? && steps[|steps| - 1].outcome == outcome then 1 else 0
  }

  function TotalSize(blocks: seq<Block>): nat {
    if blocks == [] then 0 else TotalSize(blocks[..|blocks| - 1]) + |blocks[|blocks| - 1].data|
  }

  lemma TotalSizeSnoc(blocks: seq<Block>, b: Block)
    ensures TotalSize(blocks + [b]) == TotalSize(blocks) + |b.data|
  {
    assert (blocks + [b])[..|blocks|] == blocks;
  }

  /** What one step adds to what has been counted: nothing, unless it ends an upload. */
  lemma StepCounts(s: State, step: Step)
    requires Enabled(s, step)
    ensures step.UploadEnds? ==> Apply(s, step).done == s.done + [(s.active[step.i].block, step.outcome)]
    ensures !step.UploadEnds? ==> Apply(s, step).done == s.done
  {
  }

  lemma CountedOne(done: seq<(Block, Outcome)>, b: Block, o: Outcome, outcome: Outcome)
    ensures Tally(done + [(b, o)], outcome) == Tally(done, outcome) + if o == outcome then 1 else 0
    ensures FailedBlocks(done + [(b, o)]) == FailedBlocks(done) + if o == Failed then [b] else []
    ensures PushedBytes(done + [(b, o)]) == PushedBytes(done) + if o == Success then |b.data| else 0
  {
    assert (done + [(b, o)])[..|done|] == done;
  }

  lemma EndedNext(s: State, steps: seq<Step>, outcome: Outcome)
    requires steps != [] && Legal(s, steps)
    ensures Legal(s, steps[..|steps| - 1])
    ensures var n := |steps| - 1;
      EndedWith(s, steps, outcome)
      == EndedWith(s, steps[..n], outcome)
         + if steps[n].UploadEnds? && steps[n].outcome == outcome then [Run(s, steps[..n]).active[steps[n].i].block] else []
  {
  }

  /** What a run has counted so far is how its uploads ended. */
  ghost predicate CountedAs(done: seq<(Block, Outcome)>, outcome: Outcome, ended: seq<Block>, failed: seq<Block>, pushed: seq<Block>) {
    Tally(done, outcome) == |ended| && FailedBlocks(done) == failed && PushedBytes(done) == TotalSize(pushed)
  }

  lemma CountedAsMore(done: seq<(Block, Outcome)>, outcome: Outcome, ended: seq<Block>, failed: seq<Block>, pushed: seq<Block>,
                      b: Block, o: Outcome)
    requires CountedAs(done, outcome, ended, failed, pushed)
    ensures CountedAs(done + [(b, o)], outcome, ended + (if o == outcome then [b] else []),
                      failed + (if o == Failed then [b] else []), pushed + (if o == Success then [b] else []))
  {
    CountedOne(done, b, o, outcome);
    TotalSizeSnoc(pushed, b);
    assert pushed + [] == pushed;
  }

  lemma {:induction false} RunCounts(s0: State, steps: seq<Step>, outcome: Outcome)
    requires s0.done == [] && Legal(s0, steps)
    ensures CountedAs(Run(s0, steps).done, outcome, EndedWith(s0, steps, outcome), EndedWith(s0, steps, Failed), EndedWith(s0, steps, Success))
  {
    if steps != [] {
      var n := |steps| - 1;
      var step, before := steps[n], steps[..n];
      EndedNext(s0, steps, outcome);
      EndedNext(s0, steps, Failed);
      EndedNext(s0, steps, Success);
      var s := Run(s0, before);
      var e, f, p := EndedWith(s0, before, outcome), EndedWith(s0, before, Failed), EndedWith(s0, before, Success);
      RunCounts(s0, before, outcome);
      StepCounts(s, step);
      if step.UploadEnds? {
        CountedAsMore(s.done, outcome, e, f, p, s.active[step.i].block, step.outcome);
      } else {
        assert e + [] == e && f + [] == f && p + [] == p;
      }
    }
  }

  lemma {:induction false} EndingsAre(s: State, steps: seq<Step>, outcome: Outcome)
    requires Legal(s, steps)
    ensures |EndedWith(s, steps, outcome)| == Endings(steps, outcome)
  {
    if steps != [] {
      EndedNext(s, steps, outcome);
      EndingsAre(s, steps[..|steps| - 1], outcome);
    }
  }

  /** Over every run, the counters say how its uploads ended: each outcome is counted as
      often as a step carried it, the errors are the blocks that failed, in order, and the
      bytes are those of the blocks that succeeded. */
  lemma OutcomesAreCounted(all: seq<Block>, concurrency: nat, steps: seq<Step>, outcome: Outcome)
    requires Legal(Init(all, concurrency), steps)
    ensures var s0 := Init(all, concurrency); var done := Run(s0, steps).done;
      && Tally(done, outcome) == Endings(steps, outcome)
      && FailedBlocks(done) == EndedWith(s0, steps, Failed)
      && PushedBytes(done) == TotalSize(EndedWith(s0, steps, Success))
  {
    RunCounts(Init(all, concurrency), steps, outcome);
    EndingsAre(Init(all, concurrency), steps, outcome);
  }

  /** Every time the consumer goes round its loop, either the queue runs empty or all slots
      are taken; the blocks leave the queue from its front. */
  lemma ConsumerFills(s: State)
    requires KeepsGoing(s) && !s.aborted
    ensures var t := ConsumerRun(s);
      (t.queue == [] || |t.active| >= t.concurrency) && t.taken + t.queue == s.taken + s.queue
  {
    StartedFills(s, Room(s));
  }

  lemma StartedFills(s: State, n: nat)
    requires n == Room(s)
    ensures var t := Started(s, n);
      (t.queue == [] || |t.active| >= s.concurrency) && t.taken + t.queue == s.taken + s.queue
  {
    UploadsAre(s.queue[..n]);
    StartedOrdered(s.taken, s.queue, n);
  }

  lemma StartedNone(s: State)
    ensures Started(s, 0) == s
  {
    assert s.queue[0..] == s.queue && s.queue[..0] == [];
  }

  lemma StartedMore(s: State, n: nat)
    requires n < |s.queue|
    ensures Started(Started(s, n), 1) == Started(s, n + 1)
  {
    var b, t := s.queue[n], Started(s, n);
    assert t.queue[..1] == [b] && t.queue[1..] == s.queue[n + 1..];
    assert s.queue[..n + 1] == s.queue[..n] + [b] && s.queue[..n + 1][..n] == s.queue[..n];
    assert Uploads([b]) == [Uploading(b)];
    assert s.active + Uploads(s.queue[..n]) + [Uploading(b)] == s.active + (Uploads(s.queue[..n]) + [Uploading(b)]);
    assert s.taken + s.queue[..n] + [b] == s.taken + s.queue[..n + 1];
  }

  /** The variables shared by the producer, the consumer and the uploads. */
  class Session {
    const concurrency: nat
    var queue: seq<Block>
    var active: seq<Task>
    var walkDone: bool
    var aborted: bool
    var producer: Producer
    var consumer: Consumer
    var pushed: nat
    var skipped: nat
    var failed: nat
    var bytes: nat
    var completed: nat
    var errors: seq<Block>
    ghost var rest: seq<Block>
    ghost var taken: seq<Block>
    ghost var done: seq<(Block, Outcome)>

    ghost function Now(): State
      reads this
    {
      State(concurrency, rest, producer, queue, taken, active, consumer, walkDone, aborted, done)
    }

    /** The counters say what has been counted. */
    ghost predicate Valid()
      reads this
    {
      && pushed == Tally(done, Success) && skipped == Tally(done, Skipped) && failed == Tally(done, Failed)
      && bytes == PushedBytes(done) && completed == |done| && errors == FailedBlocks(done)
    }

    constructor (ghost all: seq<Block>, concurrency: nat)
      ensures Valid() && Now() == Init(all, concurrency)
    {
      this.concurrency := concurrency;
      queue, active, walkDone, aborted := [], [], false, false;
      producer, consumer := Walking, Starting;
      pushed, skipped, failed, bytes, completed, errors := 0, 0, 0, 0, 0, [];
      rest, taken, done := all, [], [];
    }

    method Wake()
      modifies this`consumer
      ensures consumer == WakeConsumer(old(consumer))
    {
      if consumer == AwaitingBlock(false) {
        consumer := AwaitingBlock(true);
      }
    }

    /** The walk hands over a block. */
    method WalkYield(block: Block)
      requires Valid() && Enabled(Now(), WalkYields) && block == rest[0]
      modifies this
      ensures Valid() && Now() == Apply(old(Now()), WalkYields)
    {
      rest := rest[1..];
      if aborted {
        producer, walkDone := ProducerDone, true;
        Wake();
        return;
      }
      if |queue| >= concurrency * 2 {
        producer := Holding(block, false);
        return;
      }
      queue := queue + [block];
      producer := Walking;
      Wake();
    }

    method WalkEnd()
      requires Valid() && Enabled(Now(), WalkEnds)
      modifies this
      ensures Valid() && Now() == Apply(old(Now()), WalkEnds)
    {
      producer, walkDone := ProducerDone, true;
      Wake();
    }

    /** The producer's wake-up runs: look at the queue again. */
    method ProducerResume()
      requires Valid() && Enabled(Now(), ProducerResumes)
      modifies this
      ensures Valid() && Now() == Apply(old(Now()), ProducerResumes)
    {
      var block := producer.block;
      if !aborted && |queue| >= concurrency * 2 {
        producer := Holding(block, false);
        return;
      }
      queue := queue + [block];
      producer := Walking;
      Wake();
    }

    /** Take one block from the queue and start its upload. */
    method StartUpload()
      requires Valid() && queue != []
      modifies this
      ensures Valid() && Now() == Started(old(Now()), 1)
    {
      var block := queue[0];
      queue := queue[1..];
      taken := taken + [block];
      if producer.Holding? && |queue| < concurrency * 2 {
        producer := producer.(signalled := true);
      }
      active := active + [Uploading(block)];
      assert Uploads([block]) == [Uploading(block)];
      assert old(queue)[..1] == [block];
    }

    /** Start uploads while there are blocks and free slots. */
    method StartUploads()
      requires Valid()
      modifies this
      ensures Valid() && Now() == Started(old(Now()), Room(old(Now())))
      ensures queue == [] || |active| >= concurrency
    {
      ghost var s := Now();
      ghost var n := 0;
      StartedNone(s);
      while |active| < concurrency && queue != []
        invariant Valid() && 0 <= n <= Room(s)
        invariant Now() == Started(s, n)
        invariant |active| == |s.active| + n && |queue| == |s.queue| - n
        decreases |queue|
      {
        StartUpload();
        StartedMore(s, n);
        UploadsAre(s.queue[..n + 1]);
        n := n + 1;
      }
    }

    /** The consumer's loop, up to its next await. */
    method ConsumerResume()
      requires Valid() && concurrency >= 1 && Enabled(Now(), ConsumerResumes)
      modifies this
      ensures Valid() && Now() == Apply(old(Now()), ConsumerResumes)
    {
      ghost var s := Now();
      if (!walkDone || queue != [] || active != []) && !aborted {
        StartUploads();
        if queue == [] && !walkDone && |active| < concurrency {
          consumer := AwaitingBlock(false);
          return;
        }
        if active != [] {
          consumer := Racing(false);
          return;
        }
      }
      consumer := if active == [] then ConsumerDone else Draining;
    }

    /** Add one block to the counters. */
    method Count(block: Block, outcome: Outcome)
      requires Valid()
      modifies `pushed, `skipped, `failed, `bytes, `completed, `errors, `done
      ensures Valid() && done == old(done) + [(block, outcome)]
      ensures pushed + skipped + failed == completed == old(completed) + 1
      ensures pushed == old(pushed) + (if outcome == Success then 1 else 0)
      ensures skipped == old(skipped) + (if outcome == Skipped then 1 else 0)
      ensures failed == old(failed) + (if outcome == Failed then 1 else 0)
      ensures bytes == old(bytes) + (if outcome == Success then |block.data| else 0)
      ensures errors == old(errors) + (if outcome == Failed then [block] else [])
    {
      match outcome {
        case Skipped => skipped := skipped + 1;
        case Success =>
          pushed := pushed + 1;
          bytes := bytes + |block.data|;
        case Failed =>
          failed := failed + 1;
          errors := errors + [block];
      }
      completed := completed + 1;
      done := done + [(block, outcome)];
      assert done[..|done| - 1] == old(done);
      TalliesAddUp(done);
    }

    /** An upload ends: count it with its outcome. */
    method UploadEnd(i: nat, outcome: Outcome)
      requires Valid() && Enabled(Now(), UploadEnds(i, outcome))
      modifies this
      ensures Valid() && Now() == Apply(old(Now()), UploadEnds(i, outcome))
      ensures pushed == old(pushed) + (if outcome == Success then 1 else 0)
      ensures skipped == old(skipped) + (if outcome == Skipped then 1 else 0)
      ensures failed == old(failed) + (if outcome == Failed then 1 else 0)
      ensures bytes == old(bytes) + (if outcome == Success then |old(active[i].block.data)| else 0)
      ensures errors == old(errors) + (if outcome == Failed then [old(active[i].block)] else [])
      ensures pushed + skipped + failed == completed == old(completed) + 1
    {
      ghost var s := Now();
      var block := active[i].block;
      active := active[i := Finished(block)];
      Count(block, outcome);
      assert Now() == s.(active := s.active[i := Finished(block)], done := s.done + [(block, outcome)]);
    }

    /** A counted upload leaves the active list. */
    method TaskRetire(j: nat)
      requires Valid() && Enabled(Now(), TaskRetires(j))
      modifies this
      ensures Valid() && Now() == Apply(old(Now()), TaskRetires(j))
    {
      active := active[..j] + active[j + 1..];
      if consumer.Racing? {
        consumer := Racing(true);
      } else if consumer.Draining? && active == [] {
        consumer := ConsumerDone;
      }
    }

    method Abort()
      requires Valid() && Enabled(Now(), Aborts)
      modifies this
      ensures Valid() && Now() == Apply(old(Now()), Aborts)
    {
      aborted := true;
    }
  }

  // --------------------------------------------------------------- an abort

  /** After an abort no step wakes the producer and none makes it wait. */
  lemma AbortFreezesWaits(s: State, step: Step)
    requires s.aborted && Enabled(s, step)
    ensures Apply(s, step).aborted && (WaitsForRoom(Apply(s, step)) <==> WaitsForRoom(s))
  {
    if step.ConsumerResumes? {
      assert Apply(s, step) == Leave(s);
    }
  }

  /** Splitting a run: its beginning leads to the state from which the rest runs. */
  lemma {:induction false} RunSplits(s: State, pre: seq<Step>, post: seq<Step>)
    requires Legal(s, pre + post)
    ensures Legal(s, pre) && Legal(Run(s, pre), post) && Run(s, pre + post) == Run(Run(s, pre), post)
  {
    if post == [] {
      assert pre + post == pre;
    } else {
      var n := |post| - 1;
      assert (pre + post)[..|pre + post| - 1] == pre + post[..n];
      RunSplits(s, pre, post[..n]);
    }
  }

  lemma {:induction false} AbortedRunFreezes(s: State, steps: seq<Step>)
    requires s.aborted && Legal(s, steps)
    ensures Run(s, steps).aborted && (WaitsForRoom(Run(s, steps)) <==> WaitsForRoom(s))
  {
    if steps != [] {
      var n := |steps| - 1;
      AbortedRunFreezes(s, steps[..n]);
      AbortFreezesWaits(Run(s, steps[..n]), steps[n]);
    }
  }

  /** What is left of a walk once the push is aborted: all of it, or all but the one block
      that the walk was fetching, and then the walk is over. */
  ghost predicate WalkStops(before: State, after: State) {
    || (after.rest == before.rest && (before.producer.ProducerDone? ==> after.producer.ProducerDone?))
    || (before.rest != [] && after.rest == before.rest[1..] && !before.producer.ProducerDone? && after.producer.ProducerDone?)
  }

  lemma AbortedStep(s: State, step: Step)
    requires s.aborted && Enabled(s, step)
    ensures var t := Apply(s, step);
      && t.aborted && t.taken == s.taken && s.queue <= t.queue && WalkStops(s, t)
      && t.queue + Hand(t.producer) == s.queue + Hand(s.producer)
  {
    if step.ConsumerResumes? {
      assert Apply(s, step) == Leave(s);
    }
  }

  /** After an abort no upload starts, and the walk takes at most one block more; a block
      that the producer holds may still be queued, and nothing else is. */
  lemma {:induction false} AbortStops(s: State, steps: seq<Step>)
    requires s.aborted && Legal(s, steps)
    ensures var t := Run(s, steps);
      && t.aborted && t.taken == s.taken && s.queue <= t.queue && WalkStops(s, t)
      && t.queue + Hand(t.producer) == s.queue + Hand(s.producer)
  {
    if steps != [] {
      var n := |steps| - 1;
      AbortStops(s, steps[..n]);
      AbortedStep(Run(s, steps[..n]), steps[n]);
    }
  }

  /** Which aborts hang: once an aborted push can go no further, it has not returned if
      and only if the producer was waiting for room, not yet woken, when the abort came. */
  lemma AbortHangsExactly(all: seq<Block>, concurrency: nat, pre: seq<Step>, post: seq<Step>)
    requires concurrency >= 1 && Legal(Init(all, concurrency), pre + [Aborts] + post)
    requires Stuck(Run(Init(all, concurrency), pre + [Aborts] + post))
    ensures Legal(Init(all, concurrency), pre)
    ensures !Final(Run(Init(all, concurrency), pre + [Aborts] + post)) <==> WaitsForRoom(Run(Init(all, concurrency), pre))
  {
    var s0 := Init(all, concurrency);
    RunSplits(s0, pre + [Aborts], post);
    RunSplits(s0, pre, [Aborts]);
    assert (pre + [Aborts])[..|pre|] == pre;
    var s := Run(s0, pre + [Aborts]);
    assert s == Run(s0, pre).(aborted := true);
    AbortedRunFreezes(s, post);
    EveryRun(all, concurrency, pre + [Aborts] + post);
    StuckExactly(all, Run(s, post));
  }

  lemma Then(s: State, steps: seq<Step>, step: Step)
    requires Legal(s, steps) && Enabled(Run(s, steps), step)
    ensures Legal(s, steps + [step]) && Run(s, steps + [step]) == Apply(Run(s, steps), step)
  {
    assert (steps + [step])[..|steps|] == steps;
  }

  /** Three blocks taken and queued, and a fourth held back, one upload at a time. */
  lemma FillUp(a: Block, b: Block, c: Block, d: Block) returns (steps: seq<Step>, s: State)
    ensures s == State(1, [], Holding(d, false), [b, c], [a], [Uploading(a)], Racing(false), false, false, [])
    ensures Legal(Init([a, b, c, d], 1), steps) && Run(Init([a, b, c, d], 1), steps) == s
  {
    var s0 := Init([a, b, c, d], 1);
    Then(s0, [], ConsumerResumes);
    var a1: seq<Step> := [] + [ConsumerResumes];
    assert Run(s0, a1) == s0.(consumer := AwaitingBlock(false));
    Then(s0, a1, WalkYields);
    var a2 := a1 + [WalkYields];
    assert Run(s0, a2) == s0.(rest := [b, c, d], queue := [a], consumer := AwaitingBlock(true));
    Then(s0, a2, ConsumerResumes);
    var a3 := a2 + [ConsumerResumes];
    assert Uploads([a]) == [Uploading(a)];
    assert Run(s0, a3) == s0.(rest := [b, c, d], taken := [a], active := [Uploading(a)], consumer := Racing(false));
    Then(s0, a3, WalkYields);
    var a4 := a3 + [WalkYields];
    Then(s0, a4, WalkYields);
    var a5 := a4 + [WalkYields];
    Then(s0, a5, WalkYields);
    steps := a5 + [WalkYields];
    s := State(1, [], Holding(d, false), [b, c], [a], [Uploading(a)], Racing(false), false, false, []);
    assert Run(s0, steps) == s;
  }

  /** A push of any four blocks with one upload at a time hangs when it is aborted while
      the producer waits: the consumer leaves without waking it. */
  lemma AbortCanWedge(a: Block, b: Block, c: Block, d: Block) returns (steps: seq<Step>)
    ensures Legal(Init([a, b, c, d], 1), steps)
    ensures Stuck(Run(Init([a, b, c, d], 1), steps)) && Wedged(Run(Init([a, b, c, d], 1), steps))
  {
    var s0 := Init([a, b, c, d], 1);
    var fill, s := FillUp(a, b, c, d);
    Then(s0, fill, Aborts);
    var a1 := fill + [Aborts];
    Then(s0, a1, UploadEnds(0, Success));
    var a2 := a1 + [UploadEnds(0, Success)];
    Then(s0, a2, TaskRetires(0));
    var a3 := a2 + [TaskRetires(0)];
    Then(s0, a3, ConsumerResumes);
    steps := a3 + [ConsumerResumes];
    assert Run(s0, steps) == s.(aborted := true, active := [], consumer := ConsumerDone, done := [(a, Success)]);
  }
}
