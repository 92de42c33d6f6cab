/** The locator queue and its workers as a system of atomic steps (mem_locators.hpp:34-62,
    mem_planner.hpp:114-153): one producer publishing a plan slot by slot, and any number of workers
    that poll, claim by compare-and-swap, rebuild their segment and store it. Every interleaving of
    the steps is a run. Atomic operations are taken to be sequentially consistent. */
module LocatorQueue {
  import opened MemConfig
  import opened RowStream

  /** What there is to do: the plan the producer pushes, and what each segment should come to. */
  datatype Job<Seg> = Job(plan: seq<Locator>, results: seq<Seg>)

  ghost predicate JobFits<Seg>(job: Job<Seg>) {
    |job.plan| == |job.results| <= MAX_LOCATORS
  }

  /** The producer is between pushes, or has written the first `fields` of the four words of a slot. */
  datatype Producer = Between | Writing(pos: nat, fields: nat)

  datatype Phase<Seg> =
    | Idle                          // about to load read_pos
    | HaveRead(r: nat)              // about to load write_pos
    | HaveBoth(r: nat)              // about to compare-and-swap
    | Claimed(k: nat)               // holds slot k
    | Holding(k: nat, seg: Seg)     // has rebuilt segment k
    | AtCheck(w: nat)               // found the queue empty at write_pos w, about to test completed
    | Quit(w: nat)                  // found it completed

  /** empties: empty polls of the current get_next_locator call, counted up to 2. taken: the slots
      this worker has claimed, in order. */
  datatype Worker<Seg> = Worker(phase: Phase<Seg>, empties: nat, taken: seq<nat>)

  datatype State<Seg> = State(slots: seq<Locator>, writePos: nat, readPos: nat, completed: bool,
                              producer: Producer, workers: seq<Worker<Seg>>, segments: map<nat, Seg>)

  datatype Step<Seg> =
    | BeginPush | WriteField | Publish | Complete
    | LoadRead(i: nat) | LoadWrite(i: nat) | Cas(i: nat) | CasFails(i: nat)
    | Rebuild(i: nat, seg: Seg) | Store(i: nat) | Check(i: nat)

  function WithField(l: Locator, field: nat, from: Locator): Locator {
    if field == 0 then l.(thread := from.thread)
    else if field == 1 then l.(offset := from.offset)
    else if field == 2 then l.(cpos := from.cpos)
    else l.(skip := from.skip)
  }

  ghost predicate Init<Seg>(s: State<Seg>) {
    && |s.slots| == MAX_LOCATORS && s.writePos == 0 && s.readPos == 0 && !s.completed
    && s.producer == Between && s.segments == map[]
    && forall i :: 0 <= i < |s.workers| ==> s.workers[i] == Worker(Idle, 0, [])
  }

  function SetPhase<Seg>(s: State<Seg>, i: nat, phase: Phase<Seg>): State<Seg>
    requires i < |s.workers|
  {
    s.(workers := s.workers[i := s.workers[i].(phase := phase)])
  }

  ghost predicate ProducerStep<Seg>(job: Job<Seg>, s: State<Seg>, s': State<Seg>, step: Step<Seg>) {
    match step
    case BeginPush =>
      && s.producer == Between && !s.completed && s.writePos < |job.plan|
      && s' == s.(producer := Writing(s.writePos, 0))
    case WriteField =>
      && s.producer.Writing? && s.producer.fields < 4 && s.producer.pos < |s.slots| && s.producer.pos < |job.plan|
      && var (p, f) := (s.producer.pos, s.producer.fields);
         s' == s.(slots := s.slots[p := WithField(s.slots[p], f, job.plan[p])], producer := Writing(p, f + 1))
    case Publish =>
      && s.producer.Writing? && s.producer.fields == 4
      && s' == s.(writePos := s.producer.pos + 1, producer := Between)
    case Complete =>
      && s.producer == Between && !s.completed && s.writePos == |job.plan|
      && s' == s.(completed := true)
    case _ => false
  }

  /** What execute_from_locator promises: from the right locator, the right segment. */
  ghost predicate RebuildSpec<Seg>(job: Job<Seg>, k: nat, l: Locator, seg: Seg) {
    k < |job.plan| && k < |job.results| && l == job.plan[k] ==> seg == job.results[k]
  }

  ghost predicate WorkerStep<Seg>(job: Job<Seg>, s: State<Seg>, s': State<Seg>, step: Step<Seg>) {
    match step
    case LoadRead(i) =>
      && i < |s.workers| && s.workers[i].phase.Idle?
      && s' == SetPhase(s, i, HaveRead(s.readPos))
    case LoadWrite(i) =>
      && i < |s.workers| && s.workers[i].phase.HaveRead?
      && var (r, n) := (s.workers[i].phase.r, s.workers[i].empties);
         if r != s.writePos then s' == SetPhase(s, i, HaveBoth(r))
         else if n == 0 then s' == s.(workers := s.workers[i := s.workers[i].(phase := Idle, empties := 1)])
         else s' == s.(workers := s.workers[i := s.workers[i].(phase := AtCheck(s.writePos), empties := 2)])
    case Cas(i) =>
      && i < |s.workers| && s.workers[i].phase.HaveBoth? && s.workers[i].phase.r == s.readPos
      && s' == s.(readPos := s.readPos + 1,
                  workers := s.workers[i := s.workers[i].(phase := Claimed(s.readPos), taken := s.workers[i].taken + [s.readPos])])
    case CasFails(i) =>
      && i < |s.workers| && s.workers[i].phase.HaveBoth?
      && s' == SetPhase(s, i, HaveRead(s.readPos))
    case Rebuild(i, seg) =>
      && i < |s.workers| && s.workers[i].phase.Claimed? && s.workers[i].phase.k < |s.slots|
      && RebuildSpec(job, s.workers[i].phase.k, s.slots[s.workers[i].phase.k], seg)
      && s' == SetPhase(s, i, Holding(s.workers[i].phase.k, seg))
    case Store(i) =>
      && i < |s.workers| && s.workers[i].phase.Holding?
      && s' == s.(segments := s.segments[s.workers[i].phase.k := s.workers[i].phase.seg],
                  workers := s.workers[i := s.workers[i].(phase := Idle, empties := 0)])
    case Check(i) =>
      && i < |s.workers| && s.workers[i].phase.AtCheck?
      && s' == SetPhase(s, i, if s.completed then Quit(s.workers[i].phase.w) else Idle)
    case _ => false
  }

  ghost predicate Next<Seg>(job: Job<Seg>, s: State<Seg>, s': State<Seg>, step: Step<Seg>) {
    ProducerStep(job, s, s', step) || WorkerStep(job, s, s', step)
  }

  /** states[0] starts, and steps[i] takes states[i] to states[i + 1]. */
  ghost predicate IsRun<Seg>(job: Job<Seg>, states: seq<State<Seg>>, steps: seq<Step<Seg>>) {
    && |states| == |steps| + 1 && Init(states[0])
    && forall i :: 0 <= i < |steps| ==> Next(job, states[i], states[i + 1], steps[i])
  }

  // ---- The invariant ----

  ghost predicate ProducerInv<Seg>(job: Job<Seg>, s: State<Seg>) {
    && |job.plan| <= |s.slots| == MAX_LOCATORS && s.readPos <= s.writePos <= |job.plan|
    && (s.completed ==> s.writePos == |job.plan| && s.producer == Between)
    && (forall k :: 0 <= k < s.writePos ==> s.slots[k] == job.plan[k])
    && (s.producer.Writing? ==>
          && s.producer.pos == s.writePos < |job.plan| && s.producer.fields <= 4
          && var (l, p, f) := (s.slots[s.writePos], job.plan[s.writePos], s.producer.fields);
             && (f > 0 ==> l.thread == p.thread) && (f > 1 ==> l.offset == p.offset)
             && (f > 2 ==> l.cpos == p.cpos) && (f > 3 ==> l.skip == p.skip))
  }

  ghost predicate HoldsSlot<Seg>(w: Worker<Seg>, k: nat) {
    (w.phase.Claimed? || w.phase.Holding?) && w.phase.k == k
  }

  /** An empty poll at write_pos v comes after everything the worker has taken. */
  ghost predicate Caught<Seg>(w: Worker<Seg>, v: nat) {
    forall j :: 0 <= j < |w.taken| ==> w.taken[j] < v
  }

  /** A worker's view is never ahead of the queue, and what it holds it has taken. */
  ghost predicate WorkerInv<Seg>(job: Job<Seg>, s: State<Seg>, w: Worker<Seg>) {
    && (forall j :: 0 <= j < |w.taken| ==> w.taken[j] < s.readPos)
    && (forall j, j' :: 0 <= j < j' < |w.taken| ==> w.taken[j] < w.taken[j'])
    && match w.phase
       case Idle => true
       case HaveRead(r) => r <= s.readPos
       case HaveBoth(r) => r <= s.readPos && (r == s.readPos ==> r < s.writePos)
       case Claimed(k) => w.taken != [] && w.taken[|w.taken| - 1] == k
       case Holding(k, seg) => w.taken != [] && w.taken[|w.taken| - 1] == k && k < |job.results| && seg == job.results[k]
       case AtCheck(v) => v <= s.readPos && Caught(w, v)
       case Quit(v) => v <= s.readPos && Caught(w, v) && s.completed
  }

  ghost predicate TakenBy<Seg>(s: State<Seg>, k: nat, i: nat) {
    i < |s.workers| && k in s.workers[i].taken
  }

  ghost predicate Taken<Seg>(s: State<Seg>, k: nat) {
    exists i: nat :: TakenBy(s, k, i)
  }

  /** Exactly the slots below read_pos are taken, each by one worker. */
  ghost predicate ClaimsInv<Seg>(s: State<Seg>) {
    && (forall k: nat :: Taken(s, k) <==> k < s.readPos)
    && (forall k: nat, i: nat, j: nat :: TakenBy(s, k, i) && TakenBy(s, k, j) ==> i == j)
  }

  /** A taken slot is stored, with the right segment, or its taker still holds it. */
  ghost predicate SegmentsInv<Seg>(job: Job<Seg>, s: State<Seg>) {
    && (forall k :: k in s.segments ==> k < s.readPos && k < |job.results| && s.segments[k] == job.results[k])
    && (forall k: nat, i: nat :: TakenBy(s, k, i) ==> k in s.segments || HoldsSlot(s.workers[i], k))
  }

  ghost predicate Inv<Seg>(job: Job<Seg>, s: State<Seg>) {
    && ProducerInv(job, s) && ClaimsInv(s) && SegmentsInv(job, s)
    && (forall i :: 0 <= i < |s.workers| ==> WorkerInv(job, s, s.workers[i]))
  }

  /** Claims depend only on who has taken what. */
  lemma {:induction false} SameClaims<Seg>(s: State<Seg>, s': State<Seg>)
    requires ClaimsInv(s) && s'.readPos == s.readPos && |s'.workers| == |s.workers|
    requires forall i :: 0 <= i < |s.workers| ==> s'.workers[i].taken == s.workers[i].taken
    ensures ClaimsInv(s')
    ensures forall k: nat, i: nat :: TakenBy(s', k, i) <==> TakenBy(s, k, i)
  {
    forall k: nat, i: nat
      ensures TakenBy(s', k, i) <==> TakenBy(s, k, i)
    {
    }
    forall k: nat
      ensures Taken(s', k) <==> Taken(s, k)
    {
      if Taken(s, k) {
        var i: nat :| TakenBy(s, k, i);
        assert TakenBy(s', k, i);
      }
      if Taken(s', k) {
        var i: nat :| TakenBy(s', k, i);
        assert TakenBy(s, k, i);
      }
    }
  }

  lemma {:induction false} ProducerKeepsInv<Seg>(job: Job<Seg>, s: State<Seg>, s': State<Seg>, step: Step<Seg>)
    requires JobFits(job) && Inv(job, s) && ProducerStep(job, s, s', step)
    ensures Inv(job, s')
  {
    SameClaims(s, s');
    forall i | 0 <= i < |s'.workers|
      ensures WorkerInv(job, s', s'.workers[i])
    {
      assert WorkerInv(job, s, s.workers[i]);
    }
  }

  /** A worker's step that claims and stores nothing leaves the others' claims and holdings alone. */
  lemma {:induction false} QuietStepKeepsInv<Seg>(job: Job<Seg>, s: State<Seg>, s': State<Seg>, i: nat, w: Worker<Seg>)
    requires Inv(job, s) && i < |s.workers| && s' == s.(workers := s.workers[i := w])
    requires w.taken == s.workers[i].taken && WorkerInv(job, s, w)
    requires forall k: nat :: HoldsSlot(s.workers[i], k) ==> HoldsSlot(w, k)
    ensures Inv(job, s')
  {
    SameClaims(s, s');
    forall j | 0 <= j < |s'.workers|
      ensures WorkerInv(job, s', s'.workers[j])
    {
      assert WorkerInv(job, s, s.workers[j]);
      assert WorkerInv(job, s, w);
    }
  }

  lemma {:induction false} CasClaimsOne<Seg>(job: Job<Seg>, s: State<Seg>, s': State<Seg>, i: nat)
    requires Inv(job, s) && WorkerStep(job, s, s', Cas(i))
    ensures ClaimsInv(s')
    ensures forall k: nat, j: nat :: TakenBy(s', k, j) <==> TakenBy(s, k, j) || (k == s.readPos && j == i)
  {
    var k0 := s.readPos;
    forall k: nat, j: nat
      ensures TakenBy(s', k, j) <==> TakenBy(s, k, j) || (k == k0 && j == i)
    {
      if k == k0 && j == i {
        assert s'.workers[i].taken[|s.workers[i].taken|] == k0;
      }
    }
    assert !Taken(s, k0);
    forall k: nat
      ensures Taken(s', k) <==> k < s'.readPos
    {
      if k == k0 {
        assert TakenBy(s', k, i);
      } else if Taken(s, k) {
        var j: nat :| TakenBy(s, k, j);
        assert TakenBy(s', k, j);
      }
    }
    forall k: nat, j: nat, j': nat | TakenBy(s', k, j) && TakenBy(s', k, j')
      ensures j == j'
    {
    }
  }

  lemma {:induction false} CasKeepsInv<Seg>(job: Job<Seg>, s: State<Seg>, s': State<Seg>, i: nat)
    requires JobFits(job) && Inv(job, s) && WorkerStep(job, s, s', Cas(i))
    ensures Inv(job, s')
  {
    CasClaimsOne(job, s, s', i);
    forall j | 0 <= j < |s'.workers|
      ensures WorkerInv(job, s', s'.workers[j])
    {
      assert WorkerInv(job, s, s.workers[j]);
    }
    forall k: nat, j: nat | TakenBy(s', k, j)
      ensures k in s'.segments || HoldsSlot(s'.workers[j], k)
    {
      if TakenBy(s, k, j) && j == i {
        assert k in s.segments || HoldsSlot(s.workers[i], k);
      }
    }
  }

  lemma {:induction false} StoreKeepsInv<Seg>(job: Job<Seg>, s: State<Seg>, s': State<Seg>, i: nat)
    requires JobFits(job) && Inv(job, s) && WorkerStep(job, s, s', Store(i))
    ensures Inv(job, s')
  {
    var w := s.workers[i];
    assert WorkerInv(job, s, w);
    assert w.taken[|w.taken| - 1] == w.phase.k;
    SameClaims(s, s');
    forall j | 0 <= j < |s'.workers|
      ensures WorkerInv(job, s', s'.workers[j])
    {
      assert WorkerInv(job, s, s.workers[j]);
    }
  }

  lemma {:induction false} QuietStep<Seg>(job: Job<Seg>, s: State<Seg>, s': State<Seg>, step: Step<Seg>, i: nat)
    requires JobFits(job) && Inv(job, s) && WorkerStep(job, s, s', step)
    requires step in {LoadRead(i), LoadWrite(i), CasFails(i), Check(i)} || (step.Rebuild? && step.i == i)
    ensures Inv(job, s')
  {
    assert WorkerInv(job, s, s.workers[i]);
    assert s' == s.(workers := s.workers[i := s'.workers[i]]);
    QuietStepKeepsInv(job, s, s', i, s'.workers[i]);
  }

  lemma {:induction false} StepKeepsInv<Seg>(job: Job<Seg>, s: State<Seg>, s': State<Seg>, step: Step<Seg>)
    requires JobFits(job) && Inv(job, s) && Next(job, s, s', step)
    ensures Inv(job, s')
  {
    if ProducerStep(job, s, s', step) {
      ProducerKeepsInv(job, s, s', step);
    } else {
      match step
      case Cas(i) => CasKeepsInv(job, s, s', i);
      case Store(i) => StoreKeepsInv(job, s, s', i);
      case LoadRead(i) => QuietStep(job, s, s', step, i);
      case LoadWrite(i) => QuietStep(job, s, s', step, i);
      case CasFails(i) => QuietStep(job, s, s', step, i);
      case Rebuild(i, seg) => QuietStep(job, s, s', step, i);
      case Check(i) => QuietStep(job, s, s', step, i);
    }
  }

  /** A null result: read_pos was loaded as r, write_pos is found equal to it, and the queue is empty
      now, however old r is. If the plan is completed by now, every locator has been claimed. */
  lemma {:induction false} EmptyPoll<Seg>(job: Job<Seg>, s: State<Seg>, i: nat)
    requires Inv(job, s) && i < |s.workers| && s.workers[i].phase.HaveRead?
    ensures s.workers[i].phase.r == s.writePos ==> s.readPos == s.writePos
    ensures s.workers[i].phase.r == s.writePos && s.completed ==> s.readPos == |job.plan|
  {
  }

  /** Every state of every run satisfies the invariant. */
  lemma {:induction false} RunKeepsInv<Seg>(job: Job<Seg>, states: seq<State<Seg>>, steps: seq<Step<Seg>>, n: nat)
    requires JobFits(job) && IsRun(job, states, steps) && n < |states|
    ensures Inv(job, states[n])
  {
    if n > 0 {
      RunKeepsInv(job, states, steps, n - 1);
      StepKeepsInv(job, states[n - 1], states[n], steps[n - 1]);
    } else {
      var s := states[0];
      assert forall i :: 0 <= i < |s.workers| ==> s.workers[i].taken == [];
      assert forall k: nat, i: nat :: !TakenBy(s, k, i);
    }
  }

  // ---- What every run promises ----

  /** Claims: exactly the slots below read_pos have been claimed, each by one worker, once, and in
      ascending order; none before it was published. */
  lemma {:induction false} ClaimsAreExclusive<Seg>(job: Job<Seg>, states: seq<State<Seg>>, steps: seq<Step<Seg>>, n: nat)
    requires JobFits(job) && IsRun(job, states, steps) && n < |states|
    ensures var s := states[n];
            && s.readPos <= s.writePos <= |job.plan|
            && (forall k: nat :: Taken(s, k) <==> k < s.readPos)
            && (forall k: nat, i: nat, j: nat :: TakenBy(s, k, i) && TakenBy(s, k, j) ==> i == j)
            && (forall i, j, j' :: 0 <= i < |s.workers| && 0 <= j < j' < |s.workers[i].taken| ==>
                  s.workers[i].taken[j] < s.workers[i].taken[j'])
  {
    RunKeepsInv(job, states, steps, n);
    var s := states[n];
    forall i, j, j' | 0 <= i < |s.workers| && 0 <= j < j' < |s.workers[i].taken|
      ensures s.workers[i].taken[j] < s.workers[i].taken[j']
    {
      assert WorkerInv(job, s, s.workers[i]);
    }
  }

  lemma {:induction false} WritePosGrows<Seg>(job: Job<Seg>, s: State<Seg>, s': State<Seg>, step: Step<Seg>)
    requires ProducerInv(job, s) && Next(job, s, s', step)
    ensures s.writePos <= s'.writePos
  {
  }

  lemma {:induction false} SlotsArePlanned<Seg>(job: Job<Seg>, s: State<Seg>, k: nat)
    requires Inv(job, s) && k < s.writePos
    ensures ProducerInv(job, s) && k < |job.plan| && k < |s.slots| && s.slots[k] == job.plan[k]
  {
  }

  /** A published slot is fully written, with the plan's locator, and keeps it for the rest of the run. */
  lemma {:induction false} PublishedSlotsAreFinal<Seg>(job: Job<Seg>, states: seq<State<Seg>>, steps: seq<Step<Seg>>, n: nat, m: nat, k: nat)
    requires JobFits(job) && IsRun(job, states, steps) && n <= m < |states| && k < states[n].writePos
    ensures k < states[m].writePos && k < |job.plan| && k < |states[n].slots| && k < |states[m].slots|
    ensures states[n].slots[k] == states[m].slots[k] == job.plan[k]
    decreases m
  {
    hide Inv, ProducerInv, Next;
    RunKeepsInv(job, states, steps, m);
    if n == m {
    } else {
      PublishedSlotsAreFinal(job, states, steps, n, m - 1, k);
      RunKeepsInv(job, states, steps, m - 1);
      SlotsArePlanned(job, states[m - 1], k);
      assert Next(job, states[m - 1], states[m], steps[m - 1]);
      WritePosGrows(job, states[m - 1], states[m], steps[m - 1]);
    }
    SlotsArePlanned(job, states[m], k);
  }

  ghost predicate NobodyHolds<Seg>(s: State<Seg>) {
    forall i :: 0 <= i < |s.workers| ==> !s.workers[i].phase.Claimed? && !s.workers[i].phase.Holding?
  }

  /** Once every locator has been claimed and every claim is stored, the segments are exactly the
      job's results, whichever worker did which and in whatever order. */
  lemma {:induction false} AllClaimedMeansAllRight<Seg>(job: Job<Seg>, states: seq<State<Seg>>, steps: seq<Step<Seg>>)
    requires JobFits(job) && IsRun(job, states, steps)
    requires var s := states[|states| - 1]; s.readPos == |job.plan| && NobodyHolds(s)
    ensures states[|states| - 1].segments == map k | 0 <= k < |job.plan| :: job.results[k]
  {
    RunKeepsInv(job, states, steps, |states| - 1);
    var s := states[|states| - 1];
    forall k: nat | k < |job.plan|
      ensures k in s.segments && s.segments[k] == job.results[k]
    {
      assert Taken(s, k);
      var i: nat :| TakenBy(s, k, i);
      assert k in s.segments || HoldsSlot(s.workers[i], k);
    }
  }

  // ---- Quitting ----

  ghost predicate AllQuit<Seg>(s: State<Seg>) {
    forall i :: 0 <= i < |s.workers| ==> s.workers[i].phase.Quit?
  }

  /** Some worker saw the whole plan published when it last found the queue empty. */
  ghost predicate SomeoneSawTheEnd<Seg>(job: Job<Seg>, s: State<Seg>) {
    exists i :: 0 <= i < |s.workers| && s.workers[i].phase == Quit(|job.plan|)
  }

  /** When all workers have quit, nothing is left over if and only if one of them polled after the
      last locator was published: completed is tested after that poll, not before it. */
  lemma {:induction false} NothingLeftIff<Seg>(job: Job<Seg>, states: seq<State<Seg>>, steps: seq<Step<Seg>>)
    requires JobFits(job) && IsRun(job, states, steps) && job.plan != []
    requires AllQuit(states[|states| - 1])
    ensures states[|states| - 1].readPos == |job.plan| <==> SomeoneSawTheEnd(job, states[|states| - 1])
  {
    var s := states[|states| - 1];
    RunKeepsInv(job, states, steps, |states| - 1);
    if s.readPos == |job.plan| {
      assert Taken(s, |job.plan| - 1);
      var i: nat :| TakenBy(s, |job.plan| - 1, i);
      assert WorkerInv(job, s, s.workers[i]);
      assert s.workers[i].phase.w == |job.plan|;
    }
    if SomeoneSawTheEnd(job, s) {
      var i :| 0 <= i < |s.workers| && s.workers[i].phase == Quit(|job.plan|);
      assert WorkerInv(job, s, s.workers[i]);
    }
  }

  function Alone<Seg>(slots: seq<Locator>, writePos: nat, completed: bool, producer: Producer, phase: Phase<Seg>, empties: nat): State<Seg> {
    State(slots, writePos, 0, completed, producer, [Worker(phase, empties, [])], map[])
  }

  lemma {:induction false} TwoEmptyPolls<Seg>(job: Job<Seg>, e: seq<Locator>)
    ensures var s := (phase: Phase<Seg>, n: nat) => Alone<Seg>(e, 0, false, Between, phase, n);
            && Next(job, s(Idle, 0), s(HaveRead(0), 0), LoadRead(0)) && Next(job, s(HaveRead(0), 0), s(Idle, 1), LoadWrite(0))
            && Next(job, s(Idle, 1), s(HaveRead(0), 1), LoadRead(0)) && Next(job, s(HaveRead(0), 1), s(AtCheck(0), 2), LoadWrite(0))
  {
  }

  lemma {:induction false} OnePush<Seg>(job: Job<Seg>, e: seq<Locator>, e1: seq<Locator>, e2: seq<Locator>, e3: seq<Locator>, e4: seq<Locator>)
    requires |job.plan| == 1 && |e| == MAX_LOCATORS
    requires e1 == e[0 := WithField(e[0], 0, job.plan[0])] && e2 == e1[0 := WithField(e1[0], 1, job.plan[0])]
    requires e3 == e2[0 := WithField(e2[0], 2, job.plan[0])] && e4 == e3[0 := WithField(e3[0], 3, job.plan[0])]
    ensures var s := (slots: seq<Locator>, p: Producer) => Alone<Seg>(slots, 0, false, p, AtCheck(0), 2);
            && Next(job, s(e, Between), s(e, Writing(0, 0)), BeginPush)
            && Next(job, s(e, Writing(0, 0)), s(e1, Writing(0, 1)), WriteField)
            && Next(job, s(e1, Writing(0, 1)), s(e2, Writing(0, 2)), WriteField)
            && Next(job, s(e2, Writing(0, 2)), s(e3, Writing(0, 3)), WriteField)
            && Next(job, s(e3, Writing(0, 3)), s(e4, Writing(0, 4)), WriteField)
            && Next(job, s(e4, Writing(0, 4)), Alone(e4, 1, false, Between, AtCheck(0), 2), Publish)
  {
  }

  lemma {:induction false} CompleteAndQuit<Seg>(job: Job<Seg>, e: seq<Locator>)
    requires |job.plan| == 1
    ensures Next(job, Alone(e, 1, false, Between, AtCheck(0), 2), Alone(e, 1, true, Between, AtCheck(0), 2), Complete)
    ensures Next(job, Alone(e, 1, true, Between, AtCheck(0), 2), Alone(e, 1, true, Between, Quit(0), 2), Check(0))
  {
  }

  /** It happens: a lone worker polls twice before the only locator is published, finds the plan
      completed, and quits with the locator unclaimed. */
  lemma {:induction false} EarlyQuitLosesALocator<Seg>(l: Locator, seg: Seg) returns (states: seq<State<Seg>>, steps: seq<Step<Seg>>)
    ensures IsRun(Job([l], [seg]), states, steps)
    ensures var s := states[|states| - 1];
            AllQuit(s) && |s.workers| == 1 && s.completed && s.writePos == 1 && s.readPos == 0 && s.segments == map[]
  {
    var job := Job([l], [seg]);
    var e := seq(MAX_LOCATORS, i => Locator(0, 0, 0, 0));
    var e1 := e[0 := WithField(e[0], 0, l)];
    var e2 := e1[0 := WithField(e1[0], 1, l)];
    var e3 := e2[0 := WithField(e2[0], 2, l)];
    var e4 := e3[0 := WithField(e3[0], 3, l)];
    steps := [LoadRead(0), LoadWrite(0), LoadRead(0), LoadWrite(0),
              BeginPush, WriteField, WriteField, WriteField, WriteField, Publish, Complete, Check(0)];
    states := [Alone(e, 0, false, Between, Idle, 0), Alone(e, 0, false, Between, HaveRead(0), 0),
               Alone(e, 0, false, Between, Idle, 1), Alone(e, 0, false, Between, HaveRead(0), 1),
               Alone(e, 0, false, Between, AtCheck(0), 2),
               Alone(e, 0, false, Writing(0, 0), AtCheck(0), 2), Alone(e1, 0, false, Writing(0, 1), AtCheck(0), 2),
               Alone(e2, 0, false, Writing(0, 2), AtCheck(0), 2), Alone(e3, 0, false, Writing(0, 3), AtCheck(0), 2),
               Alone(e4, 0, false, Writing(0, 4), AtCheck(0), 2), Alone(e4, 1, false, Between, AtCheck(0), 2),
               Alone(e4, 1, true, Between, AtCheck(0), 2), Alone(e4, 1, true, Between, Quit(0), 2)];
    TwoEmptyPolls(job, e);
    OnePush(job, e, e1, e2, e3, e4);
    CompleteAndQuit(job, e4);
    hide Next, WithField;
  }
}
