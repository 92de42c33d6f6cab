/** That the queue's runs get somewhere: a worker that asks while a locator is there gets it, and every
    plan can be carried out by any number of workers. */
module QueueRuns {
  import opened MemConfig
  import opened RowStream
  import opened LocatorQueue

  ghost function Last<Seg>(states: seq<State<Seg>>): State<Seg>
    requires states != []
  {
    states[|states| - 1]
  }

  lemma {:induction false} OneMoreStep<Seg>(job: Job<Seg>, states: seq<State<Seg>>, steps: seq<Step<Seg>>, s': State<Seg>, step: Step<Seg>)
    requires IsRun(job, states, steps) && Next(job, Last(states), s', step)
    ensures IsRun(job, states + [s'], steps + [step])
  {
    var states', steps' := states + [s'], steps + [step];
    forall i | 0 <= i < |steps'|
      ensures Next(job, states'[i], states'[i + 1], steps'[i])
    {
      if i < |steps| {
        assert Next(job, states[i], states[i + 1], steps[i]);
      }
    }
  }

  ghost function WithWorker<Seg>(s: State<Seg>, i: nat, w: Worker<Seg>): State<Seg>
    requires i < |s.workers|
  {
    s.(workers := s.workers[i := w])
  }

  lemma {:induction false} SameWorker<Seg>(s: State<Seg>, i: nat, w: Worker<Seg>, w': Worker<Seg>)
    requires i < |s.workers|
    ensures WithWorker(WithWorker(s, i, w), i, w') == WithWorker(s, i, w')
  {
    assert s.workers[i := w][i := w'] == s.workers[i := w'];
  }

  // ---- Publishing ----

  lemma {:induction false} FourFields(l: Locator, from: Locator)
    ensures WithField(WithField(WithField(WithField(l, 0, from), 1, from), 2, from), 3, from) == from
  {
  }

  lemma {:induction false} FieldSteps<Seg>(job: Job<Seg>, s: State<Seg>, k: nat, l: Locator, f: nat)
    requires k < |job.plan| && k < |s.slots| && f < 4
    ensures Next(job, s.(slots := s.slots[k := l], producer := Writing(k, f)),
                 s.(slots := s.slots[k := WithField(l, f, job.plan[k])], producer := Writing(k, f + 1)), WriteField)
  {
    assert s.slots[k := l][k := WithField(l, f, job.plan[k])] == s.slots[k := WithField(l, f, job.plan[k])];
  }

  /** The producer publishes its next locator. */
  lemma {:induction false} CanPublish<Seg>(job: Job<Seg>, states: seq<State<Seg>>, steps: seq<Step<Seg>>)
    returns (states': seq<State<Seg>>, steps': seq<Step<Seg>>)
    requires IsRun(job, states, steps)
    requires var s := Last(states); s.producer == Between && !s.completed && s.writePos < |job.plan| && s.writePos < |s.slots|
    ensures IsRun(job, states', steps') && states <= states'
    ensures var s, k := Last(states), Last(states).writePos;
            Last(states') == s.(slots := s.slots[k := job.plan[k]], writePos := k + 1)
  {
    var s := Last(states);
    var k, l := s.writePos, s.slots[s.writePos];
    var p := job.plan[k];
    var l1 := WithField(l, 0, p);
    var l2 := WithField(l1, 1, p);
    var l3 := WithField(l2, 2, p);
    var t0 := s.(slots := s.slots[k := l], producer := Writing(k, 0));
    assert s.slots[k := l] == s.slots;
    assert Next(job, s, t0, BeginPush);
    FieldSteps(job, s, k, l, 0);
    FieldSteps(job, s, k, l1, 1);
    FieldSteps(job, s, k, l2, 2);
    FieldSteps(job, s, k, l3, 3);
    FourFields(l, p);
    var t4 := s.(slots := s.slots[k := p], producer := Writing(k, 4));
    var t5 := s.(slots := s.slots[k := p], writePos := k + 1);
    assert Next(job, t4, t5, Publish);
    hide IsRun, Next, WithField;
    OneMoreStep(job, states, steps, t0, BeginPush);
    states', steps' := states + [t0], steps + [BeginPush];
    var t1 := s.(slots := s.slots[k := l1], producer := Writing(k, 1));
    OneMoreStep(job, states', steps', t1, WriteField);
    states', steps' := states' + [t1], steps' + [WriteField];
    var t2 := s.(slots := s.slots[k := l2], producer := Writing(k, 2));
    OneMoreStep(job, states', steps', t2, WriteField);
    states', steps' := states' + [t2], steps' + [WriteField];
    var t3 := s.(slots := s.slots[k := l3], producer := Writing(k, 3));
    OneMoreStep(job, states', steps', t3, WriteField);
    states', steps' := states' + [t3], steps' + [WriteField];
    OneMoreStep(job, states', steps', t4, WriteField);
    states', steps' := states' + [t4], steps' + [WriteField];
    OneMoreStep(job, states', steps', t5, Publish);
    states', steps' := states' + [t5], steps' + [Publish];
  }

  // ---- Claiming ----

  lemma {:induction false} ClaimSteps<Seg>(job: Job<Seg>, s: State<Seg>, i: nat, r: nat, n: nat)
    requires i < |s.workers| && s.readPos < s.writePos && r <= s.readPos
    ensures var w := s.workers[i].(empties := n);
            && Next(job, WithWorker(s, i, w.(phase := Idle)), WithWorker(s, i, w.(phase := HaveRead(s.readPos))), LoadRead(i))
            && Next(job, WithWorker(s, i, w.(phase := HaveRead(r))), WithWorker(s, i, w.(phase := HaveBoth(r))), LoadWrite(i))
            && Next(job, WithWorker(s, i, w.(phase := HaveBoth(r))), WithWorker(s, i, w.(phase := HaveRead(s.readPos))), CasFails(i))
            && Next(job, WithWorker(s, i, w.(phase := HaveBoth(s.readPos))),
                    WithWorker(s, i, w.(phase := Claimed(s.readPos), taken := w.taken + [s.readPos])).(readPos := s.readPos + 1), Cas(i))
  {
    var w := s.workers[i].(empties := n);
    SameWorker(s, i, w.(phase := Idle), w.(phase := HaveRead(s.readPos)));
    SameWorker(s, i, w.(phase := HaveRead(r)), w.(phase := HaveBoth(r)));
    SameWorker(s, i, w.(phase := HaveBoth(r)), w.(phase := HaveRead(s.readPos)));
    SameWorker(s, i, w.(phase := HaveBoth(s.readPos)), w.(phase := Claimed(s.readPos), taken := w.taken + [s.readPos]));
  }

  /** From the load of write_pos on: the claim succeeds, at once or after one failed compare-and-swap. */
  lemma {:induction false} ClaimFrom<Seg>(job: Job<Seg>, states: seq<State<Seg>>, steps: seq<Step<Seg>>, s: State<Seg>, i: nat, r: nat)
    returns (states': seq<State<Seg>>, steps': seq<Step<Seg>>)
    requires IsRun(job, states, steps) && i < |s.workers| && s.readPos < s.writePos && r <= s.readPos
    requires Last(states) == WithWorker(s, i, s.workers[i].(phase := HaveRead(r)))
    ensures IsRun(job, states', steps') && states <= states'
    ensures var w := s.workers[i];
            Last(states') == WithWorker(s, i, w.(phase := Claimed(s.readPos), taken := w.taken + [s.readPos])).(readPos := s.readPos + 1)
  {
    var w, k := s.workers[i], s.readPos;
    assert w.(empties := w.empties) == w;
    ClaimSteps(job, s, i, r, w.empties);
    ClaimSteps(job, s, i, k, w.empties);
    hide IsRun, Next, WithWorker;
    var t := WithWorker(s, i, w.(phase := HaveBoth(r)));
    OneMoreStep(job, states, steps, t, LoadWrite(i));
    states', steps' := states + [t], steps + [LoadWrite(i)];
    if r != k {
      t := WithWorker(s, i, w.(phase := HaveRead(k)));
      OneMoreStep(job, states', steps', t, CasFails(i));
      states', steps' := states' + [t], steps' + [CasFails(i)];
      t := WithWorker(s, i, w.(phase := HaveBoth(k)));
      OneMoreStep(job, states', steps', t, LoadWrite(i));
      states', steps' := states' + [t], steps' + [LoadWrite(i)];
    }
    t := WithWorker(s, i, w.(phase := Claimed(k), taken := w.taken + [k])).(readPos := k + 1);
    OneMoreStep(job, states', steps', t, Cas(i));
    states', steps' := states' + [t], steps' + [Cas(i)];
  }

  lemma {:induction false} SameState<Seg>(s: State<Seg>, i: nat)
    requires i < |s.workers|
    ensures WithWorker(s, i, s.workers[i]) == s
  {
    assert s.workers[i := s.workers[i]] == s.workers;
  }

  lemma {:induction false} NotAhead<Seg>(job: Job<Seg>, states: seq<State<Seg>>, steps: seq<Step<Seg>>, i: nat)
    requires JobFits(job) && IsRun(job, states, steps) && i < |Last(states).workers|
    ensures Last(states).workers[i].phase.HaveRead? ==> Last(states).workers[i].phase.r <= Last(states).readPos
  {
    RunKeepsInv(job, states, steps, |states| - 1);
    assert WorkerInv(job, Last(states), Last(states).workers[i]);
  }

  /** In any state of any run with a locator in the queue, a worker that asks for one gets the next. */
  lemma {:induction false} AskingGetsALocator<Seg>(job: Job<Seg>, states: seq<State<Seg>>, steps: seq<Step<Seg>>, i: nat)
    returns (states': seq<State<Seg>>, steps': seq<Step<Seg>>)
    requires JobFits(job) && IsRun(job, states, steps)
    requires var s := Last(states);
             s.readPos < s.writePos && i < |s.workers| && (s.workers[i].phase.Idle? || s.workers[i].phase.HaveRead?)
    ensures IsRun(job, states', steps') && states <= states'
    ensures var s, s' := Last(states), Last(states');
            && s'.readPos == s.readPos + 1 && i < |s'.workers|
            && s'.workers[i].taken == s.workers[i].taken + [s.readPos] && s'.workers[i].phase == Claimed(s.readPos)
            && s' == WithWorker(s, i, s'.workers[i]).(readPos := s'.readPos) && s'.workers[i].empties == s.workers[i].empties
  {
    var s := Last(states);
    NotAhead(job, states, steps, i);
    SameState(s, i);
    ClaimSteps(job, s, i, 0, s.workers[i].empties);
    var w := s.workers[i];
    assert w.(empties := w.empties) == w;
    hide IsRun, Next;
    if w.phase.Idle? {
      assert w.(phase := Idle) == w;
      var t := WithWorker(s, i, w.(phase := HaveRead(s.readPos)));
      OneMoreStep(job, states, steps, t, LoadRead(i));
      states', steps' := ClaimFrom(job, states + [t], steps + [LoadRead(i)], s, i, s.readPos);
    } else {
      assert w.(phase := HaveRead(w.phase.r)) == w;
      states', steps' := ClaimFrom(job, states, steps, s, i, w.phase.r);
    }
  }

  /** A worker that holds a published slot rebuilds its segment and stores it. */
  lemma {:induction false} CanStore<Seg>(job: Job<Seg>, states: seq<State<Seg>>, steps: seq<Step<Seg>>, i: nat, k: nat)
    returns (states': seq<State<Seg>>, steps': seq<Step<Seg>>)
    requires IsRun(job, states, steps) && k < |job.results|
    requires var s := Last(states); i < |s.workers| && s.workers[i].phase == Claimed(k) && k < |s.slots|
    ensures IsRun(job, states', steps') && states <= states'
    ensures var s := Last(states);
            Last(states') == WithWorker(s, i, s.workers[i].(phase := Idle, empties := 0)).(segments := s.segments[k := job.results[k]])
  {
    var s, seg := Last(states), job.results[k];
    var w := s.workers[i];
    var t := WithWorker(s, i, w.(phase := Holding(k, seg)));
    assert Next(job, s, t, Rebuild(i, seg));
    var t' := WithWorker(s, i, w.(phase := Idle, empties := 0)).(segments := s.segments[k := seg]);
    SameWorker(s, i, w.(phase := Holding(k, seg)), w.(phase := Idle, empties := 0));
    assert Next(job, t, t', Store(i));
    hide IsRun, Next, WithWorker;
    OneMoreStep(job, states, steps, t, Rebuild(i, seg));
    states', steps' := states + [t], steps + [Rebuild(i, seg)];
    OneMoreStep(job, states', steps', t', Store(i));
    states', steps' := states' + [t'], steps' + [Store(i)];
  }

  // ---- Giving up ----

  lemma {:induction false} PollSteps<Seg>(job: Job<Seg>, s: State<Seg>, i: nat, n: nat)
    requires i < |s.workers| && s.readPos == s.writePos
    ensures var w := s.workers[i].(empties := n);
            && Next(job, WithWorker(s, i, w.(phase := Idle)), WithWorker(s, i, w.(phase := HaveRead(s.readPos))), LoadRead(i))
            && Next(job, WithWorker(s, i, w.(phase := HaveRead(s.readPos))),
                    WithWorker(s, i, if n == 0 then w.(phase := Idle, empties := 1) else w.(phase := AtCheck(s.writePos), empties := 2)),
                    LoadWrite(i))
            && Next(job, WithWorker(s, i, w.(phase := AtCheck(s.writePos))),
                    WithWorker(s, i, w.(phase := if s.completed then Quit(s.writePos) else Idle)), Check(i))
  {
    var w := s.workers[i].(empties := n);
    SameWorker(s, i, w.(phase := Idle), w.(phase := HaveRead(s.readPos)));
    SameWorker(s, i, w.(phase := HaveRead(s.readPos)),
               if n == 0 then w.(phase := Idle, empties := 1) else w.(phase := AtCheck(s.writePos), empties := 2));
    SameWorker(s, i, w.(phase := AtCheck(s.writePos)), w.(phase := if s.completed then Quit(s.writePos) else Idle));
  }

  /** A worker that asks an empty queue polls it twice and then tests completion: it quits if the plan is
      completed, and asks again if not. */
  lemma {:induction false} AskingAnEmptyQueue<Seg>(job: Job<Seg>, states: seq<State<Seg>>, steps: seq<Step<Seg>>, i: nat)
    returns (states': seq<State<Seg>>, steps': seq<Step<Seg>>)
    requires IsRun(job, states, steps)
    requires var s := Last(states); s.readPos == s.writePos && i < |s.workers| && s.workers[i].phase.Idle? && s.workers[i].empties == 0
    ensures IsRun(job, states', steps') && states <= states'
    ensures steps' == steps + [LoadRead(i), LoadWrite(i), LoadRead(i), LoadWrite(i), Check(i)]
    ensures var s := Last(states);
            Last(states') == WithWorker(s, i, s.workers[i].(phase := if s.completed then Quit(s.writePos) else Idle, empties := 2))
  {
    var s, w := Last(states), Last(states).workers[i];
    SameState(s, i);
    assert w.(phase := Idle, empties := 0) == w;
    PollSteps(job, s, i, 0);
    PollSteps(job, s, i, 1);
    PollSteps(job, s, i, 2);
    hide IsRun, Next, WithWorker;
    var t := WithWorker(s, i, w.(phase := HaveRead(s.readPos)));
    assert w.(empties := 0) == w;
    OneMoreStep(job, states, steps, t, LoadRead(i));
    states', steps' := states + [t], steps + [LoadRead(i)];
    t := WithWorker(s, i, w.(phase := Idle, empties := 1));
    OneMoreStep(job, states', steps', t, LoadWrite(i));
    states', steps' := states' + [t], steps' + [LoadWrite(i)];
    t := WithWorker(s, i, w.(phase := HaveRead(s.readPos), empties := 1));
    OneMoreStep(job, states', steps', t, LoadRead(i));
    states', steps' := states' + [t], steps' + [LoadRead(i)];
    t := WithWorker(s, i, w.(phase := AtCheck(s.writePos), empties := 2));
    OneMoreStep(job, states', steps', t, LoadWrite(i));
    states', steps' := states' + [t], steps' + [LoadWrite(i)];
    t := WithWorker(s, i, w.(phase := if s.completed then Quit(s.writePos) else Idle, empties := 2));
    OneMoreStep(job, states', steps', t, Check(i));
    states', steps' := states' + [t], steps' + [Check(i)];
  }

  /** No worker quits before the plan is completed. */
  lemma {:induction false} QuitsWhenCompleted<Seg>(job: Job<Seg>, states: seq<State<Seg>>, steps: seq<Step<Seg>>, n: nat, i: nat)
    requires JobFits(job) && IsRun(job, states, steps) && n < |states| && i < |states[n].workers|
    ensures states[n].workers[i].phase.Quit? ==> states[n].completed && states[n].writePos == |job.plan|
  {
    RunKeepsInv(job, states, steps, n);
    assert WorkerInv(job, states[n], states[n].workers[i]);
  }

  // ---- Whole plans ----

  ghost function ResultsTo<Seg>(job: Job<Seg>, k: nat): map<nat, Seg>
    requires k <= |job.results|
  {
    map j: nat | j < k :: job.results[j]
  }

  /** k locators are published, claimed by worker 0, rebuilt and stored; the other workers wait. */
  ghost predicate CarriedOut<Seg>(job: Job<Seg>, s: State<Seg>, workers: nat, k: nat)
    requires k <= |job.results|
  {
    && |s.workers| == workers && |s.slots| == MAX_LOCATORS && s.writePos == s.readPos == k
    && s.producer == Between && !s.completed && s.segments == ResultsTo(job, k)
    && forall i :: 0 <= i < workers ==> s.workers[i].phase.Idle? && s.workers[i].empties == 0
  }

  lemma {:induction false} OneMoreLocator<Seg>(job: Job<Seg>, states: seq<State<Seg>>, steps: seq<Step<Seg>>, workers: nat, k: nat)
    returns (states': seq<State<Seg>>, steps': seq<Step<Seg>>)
    requires JobFits(job) && k < |job.plan| && workers > 0
    requires IsRun(job, states, steps) && CarriedOut(job, Last(states), workers, k)
    ensures IsRun(job, states', steps') && CarriedOut(job, Last(states'), workers, k + 1)
  {
    hide IsRun;
    states', steps' := CanPublish(job, states, steps);
    states', steps' := AskingGetsALocator(job, states', steps', 0);
    states', steps' := CanStore(job, states', steps', 0, k);
    assert ResultsTo(job, k)[k := job.results[k]] == ResultsTo(job, k + 1);
  }

  lemma {:induction false} LocatorsCarriedOut<Seg>(job: Job<Seg>, workers: nat, k: nat)
    returns (states: seq<State<Seg>>, steps: seq<Step<Seg>>)
    requires JobFits(job) && k <= |job.plan| && workers > 0
    ensures IsRun(job, states, steps) && CarriedOut(job, Last(states), workers, k)
    decreases k
  {
    if k == 0 {
      var slots := seq(MAX_LOCATORS, _ => Locator(0, 0, 0, 0));
      states := [State(slots, 0, 0, false, Between, seq(workers, _ => Worker(Idle, 0, [])), map[])];
      steps := [];
      assert ResultsTo(job, 0) == map[];
    } else {
      states, steps := LocatorsCarriedOut(job, workers, k - 1);
      states, steps := OneMoreLocator(job, states, steps, workers, k - 1);
    }
  }

  /** The first n workers have quit a completed plan, the others are about to ask. */
  ghost predicate Leaving<Seg>(job: Job<Seg>, s: State<Seg>, workers: nat, n: nat) {
    && |s.workers| == workers && s.writePos == s.readPos == |job.plan| == |job.results| && s.completed
    && s.segments == ResultsTo(job, |job.plan|)
    && (forall i :: 0 <= i < n <= workers ==> s.workers[i].phase == Quit(|job.plan|))
    && (forall i :: n <= i < workers ==> s.workers[i].phase.Idle? && s.workers[i].empties == 0)
  }

  lemma {:induction false} WorkersLeave<Seg>(job: Job<Seg>, states: seq<State<Seg>>, steps: seq<Step<Seg>>, workers: nat, n: nat)
    returns (states': seq<State<Seg>>, steps': seq<Step<Seg>>)
    requires IsRun(job, states, steps) && n <= workers && Leaving(job, Last(states), workers, n)
    ensures IsRun(job, states', steps') && Leaving(job, Last(states'), workers, workers)
    decreases workers - n
  {
    hide IsRun;
    if n == workers {
      states', steps' := states, steps;
    } else {
      states', steps' := AskingAnEmptyQueue(job, states, steps, n);
      states', steps' := WorkersLeave(job, states', steps', workers, n + 1);
    }
  }

  /** Every plan that fits can be carried out, by any number of workers: there is a run in which all its
      locators are claimed, all segments stored, and all workers quit. */
  lemma {:induction false} EveryPlanCanBeCarriedOut<Seg>(job: Job<Seg>, workers: nat)
    returns (states: seq<State<Seg>>, steps: seq<Step<Seg>>)
    requires JobFits(job) && workers > 0
    ensures IsRun(job, states, steps) && states != []
    ensures var s := states[|states| - 1];
            && |s.workers| == workers && s.readPos == |job.plan| && s.completed && NobodyHolds(s) && AllQuit(s)
            && (forall k: nat :: k in s.segments <==> k < |job.plan|)
            && (forall k: nat :: k < |job.plan| ==> s.segments[k] == job.results[k])
  {
    states, steps := LocatorsCarriedOut(job, workers, |job.plan|);
    var s := Last(states);
    var t := s.(completed := true);
    assert Next(job, s, t, Complete);
    OneMoreStep(job, states, steps, t, Complete);
    hide IsRun, Next;
    states, steps := WorkersLeave(job, states + [t], steps + [Complete], workers, 0);
  }
}
