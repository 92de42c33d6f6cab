/** That the feed's runs get somewhere: a reader that asks while there is a chunk for it gets that chunk,
    and any number of readers can see any feed to its end. */
module FeedRuns {
  import opened MemConfig
  import opened ChunkFeed

  ghost function Last<D>(states: seq<Feed<D>>): Feed<D>
    requires states != []
  {
    states[|states| - 1]
  }

  lemma {:induction false} OneMoreStep<D>(states: seq<Feed<D>>, steps: seq<Step<D>>, step: Step<D>, s': Feed<D>)
    requires IsRun(states, steps) && StepsTo(Last(states), step, s')
    ensures IsRun(states + [s'], steps + [step])
  {
    var states', steps' := states + [s'], steps + [step];
    forall k | 0 <= k < |steps'|
      ensures StepsTo(states'[k], steps'[k], states'[k + 1])
    {
      if k < |steps| {
        assert StepsTo(states[k], steps[k], states[k + 1]);
      }
    }
  }

  // ---- Adding ----

  /** The producer adds a chunk. */
  lemma {:induction false} CanAdd<D>(states: seq<Feed<D>>, steps: seq<Step<D>>, chunk: Chunk<D>)
    returns (states': seq<Feed<D>>, steps': seq<Step<D>>)
    requires IsRun(states, steps)
    requires var s := Last(states); s.producer == Between && !s.completed && s.count < MAX_CHUNKS && |s.cells| == MAX_CHUNKS
    ensures IsRun(states', steps') && states <= states'
    ensures var s := Last(states);
            Last(states') == s.(cells := s.cells[s.count := chunk], count := s.count + 1, added := s.added + [chunk])
  {
    var s := Last(states);
    var n := s.count;
    var t0 := s.(producer := Writing(n, chunk, 0));
    var half := s.cells[n].(data := chunk.data);
    var t1 := s.(cells := s.cells[n := half], producer := Writing(n, chunk, 1));
    assert s.cells[n := half][n := chunk] == s.cells[n := chunk];
    var t2 := s.(cells := s.cells[n := chunk], producer := Writing(n, chunk, 2));
    var t3 := s.(cells := s.cells[n := chunk], count := n + 1, added := s.added + [chunk]);
    assert StepsTo(s, BeginAdd(chunk), t0) && StepsTo(t0, WriteData, t1);
    assert StepsTo(t1, WriteCount, t2) && StepsTo(t2, Publish, t3);
    hide IsRun, StepsTo;
    OneMoreStep(states, steps, BeginAdd(chunk), t0);
    states', steps' := states + [t0], steps + [BeginAdd(chunk)];
    OneMoreStep(states', steps', WriteData, t1);
    states', steps' := states' + [t1], steps' + [WriteData];
    OneMoreStep(states', steps', WriteCount, t2);
    states', steps' := states' + [t2], steps' + [WriteCount];
    OneMoreStep(states', steps', Publish, t3);
    states', steps' := states' + [t3], steps' + [Publish];
  }

  // ---- Reading ----

  lemma {:induction false} SameReader<D>(s: Feed<D>, i: nat, r: Reader<D>, r': Reader<D>)
    requires i < |s.readers|
    ensures WithReader(WithReader(s, i, r), i, r') == WithReader(s, i, r')
  {
    assert s.readers[i := r][i := r'] == s.readers[i := r'];
  }

  lemma {:induction false} CellIsPublished<D>(states: seq<Feed<D>>, steps: seq<Step<D>>, n: nat)
    requires IsRun(states, steps) && n < Last(states).count
    ensures var s := Last(states); n < |s.added| && n < |s.cells| && s.cells[n] == s.added[n]
  {
    RunKeepsInv(states, steps, |states| - 1);
    var s := Last(states);
    assert s.cells[..s.count][n] == s.added[n];
  }

  /** In any state of any run in which a reader has not seen all that is published, and asks, it sees the
      next chunk. */
  lemma {:induction false} AskingSeesTheNext<D>(states: seq<Feed<D>>, steps: seq<Step<D>>, i: nat)
    returns (states': seq<Feed<D>>, steps': seq<Step<D>>)
    requires IsRun(states, steps)
    requires var s := Last(states); i < |s.readers| && s.readers[i].phase.Asking? && |s.readers[i].seen| < s.count
    ensures IsRun(states', steps') && states <= states' && steps' == steps + [LoadCount(i), ReadData(i), ReadCount(i)]
    ensures var s := Last(states);
            var seen := s.readers[i].seen;
            |seen| < |s.added| && Last(states') == WithReader(s, i, Reader(Asking, seen + [s.added[|seen|]]))
  {
    var s := Last(states);
    var seen := s.readers[i].seen;
    CellIsPublished(states, steps, |seen|);
    var chunk := s.added[|seen|];
    var t0, t1 := WithReader(s, i, Reader(Granted, seen)), WithReader(s, i, Reader(HalfRead(chunk.data), seen));
    var t2 := WithReader(s, i, Reader(Asking, seen + [chunk]));
    SameReader(s, i, Reader(Granted, seen), Reader(HalfRead(chunk.data), seen));
    SameReader(s, i, Reader(HalfRead(chunk.data), seen), Reader(Asking, seen + [chunk]));
    assert StepsTo(s, LoadCount(i), t0) && StepsTo(t0, ReadData(i), t1) && StepsTo(t1, ReadCount(i), t2);
    hide IsRun, StepsTo, WithReader;
    OneMoreStep(states, steps, LoadCount(i), t0);
    states', steps' := states + [t0], steps + [LoadCount(i)];
    OneMoreStep(states', steps', ReadData(i), t1);
    states', steps' := states' + [t1], steps' + [ReadData(i)];
    OneMoreStep(states', steps', ReadCount(i), t2);
    states', steps' := states' + [t2], steps' + [ReadCount(i)];
  }

  /** A reader that has seen all there is, and asks, quits if the feed is completed and asks again if not. */
  lemma {:induction false} AskingForMore<D>(states: seq<Feed<D>>, steps: seq<Step<D>>, i: nat)
    returns (states': seq<Feed<D>>, steps': seq<Step<D>>)
    requires IsRun(states, steps)
    requires var s := Last(states); i < |s.readers| && s.readers[i].phase.Asking? && |s.readers[i].seen| >= s.count
    ensures IsRun(states', steps') && states <= states' && steps' == steps + [LoadCount(i), TestCompleted(i)]
    ensures var s := Last(states);
            Last(states') == WithReader(s, i, Reader(if s.completed then Quit else Asking, s.readers[i].seen))
  {
    var s := Last(states);
    var seen, phase := s.readers[i].seen, if s.completed then Quit else Asking;
    var t0, t1 := WithReader(s, i, Reader(Refused, seen)), WithReader(s, i, Reader(phase, seen));
    SameReader(s, i, Reader(Refused, seen), Reader(phase, seen));
    assert StepsTo(s, LoadCount(i), t0) && StepsTo(t0, TestCompleted(i), t1);
    hide IsRun, StepsTo, WithReader;
    OneMoreStep(states, steps, LoadCount(i), t0);
    states', steps' := states + [t0], steps + [LoadCount(i)];
    OneMoreStep(states', steps', TestCompleted(i), t1);
    states', steps' := states' + [t1], steps' + [TestCompleted(i)];
  }

  /** No reader quits before the feed is completed. */
  lemma {:induction false} QuitsWhenCompleted<D>(states: seq<Feed<D>>, steps: seq<Step<D>>, k: nat, i: nat)
    requires IsRun(states, steps) && k < |states| && ReaderIs(states[k], i, Quit)
    ensures states[k].completed
  {
    RunKeepsInv(states, steps, k);
    assert ReaderInv(states[k], states[k].readers[i]);
  }

  // ---- Whole feeds ----

  ghost predicate AddedTo<D>(s: Feed<D>, chunks: seq<Chunk<D>>, readers: nat, n: nat)
    requires n <= |chunks|
  {
    && |s.cells| == MAX_CHUNKS && s.count == n && s.added == chunks[..n] && s.producer == Between && !s.completed
    && |s.readers| == readers && forall i :: 0 <= i < readers ==> s.readers[i] == Reader(Asking, [])
  }

  lemma {:induction false} ChunksAdded<D>(blank: Chunk<D>, chunks: seq<Chunk<D>>, readers: nat, n: nat)
    returns (states: seq<Feed<D>>, steps: seq<Step<D>>)
    requires |chunks| <= MAX_CHUNKS && n <= |chunks|
    ensures IsRun(states, steps) && AddedTo(Last(states), chunks, readers, n)
    decreases n
  {
    if n == 0 {
      states := [Feed(seq(MAX_CHUNKS, _ => blank), 0, false, Between, seq(readers, _ => Reader(Asking, [])), [])];
      steps := [];
    } else {
      states, steps := ChunksAdded(blank, chunks, readers, n - 1);
      hide IsRun;
      assert chunks[..n] == chunks[..n - 1] + [chunks[n - 1]];
      states, steps := CanAdd(states, steps, chunks[n - 1]);
    }
  }

  /** All chunks are there, the first m readers have seen them and quit, the others are about to ask. */
  ghost predicate ReadTo<D>(s: Feed<D>, chunks: seq<Chunk<D>>, readers: nat, m: nat) {
    && s.count == |chunks| && s.added == chunks && s.completed && |s.readers| == readers
    && (forall i :: 0 <= i < m <= readers ==> s.readers[i] == Reader(Quit, chunks))
    && (forall i :: m <= i < readers ==> s.readers[i] == Reader(Asking, []))
  }

  ghost predicate OfReader<D>(step: Step<D>, i: nat) {
    step == LoadCount(i) || step == ReadData(i) || step == ReadCount(i) || step == TestCompleted(i)
  }

  /** Step j is reader i's last load of the count, and nothing is published after it. */
  ghost predicate LastLoad<D>(steps: seq<Step<D>>, i: nat, j: nat) {
    && j < |steps| && steps[j] == LoadCount(i)
    && forall m :: j < m < |steps| ==> steps[m] != LoadCount(i) && !steps[m].Publish?
  }

  /** Reader i reads on from its n-th chunk and quits. */
  lemma {:induction false} ReadsOn<D>(states: seq<Feed<D>>, steps: seq<Step<D>>, chunks: seq<Chunk<D>>, i: nat, n: nat)
    returns (states': seq<Feed<D>>, steps': seq<Step<D>>)
    requires IsRun(states, steps) && n <= |chunks|
    requires var s := Last(states);
             s.count == |chunks| && s.added == chunks && s.completed && i < |s.readers| && s.readers[i] == Reader(Asking, chunks[..n])
    ensures IsRun(states', steps') && steps <= steps' && |steps'| >= |steps| + 2
    ensures Last(states') == WithReader(Last(states), i, Reader(Quit, chunks))
    ensures forall j :: |steps| <= j < |steps'| ==> OfReader(steps'[j], i)
    ensures LastLoad(steps', i, |steps'| - 2)
    decreases |chunks| - n
  {
    var s := Last(states);
    hide IsRun;
    if n == |chunks| {
      assert chunks[..n] == chunks;
      states', steps' := AskingForMore(states, steps, i);
    } else {
      states', steps' := AskingSeesTheNext(states, steps, i);
      assert chunks[..n] + [chunks[n]] == chunks[..n + 1];
      SameReader(s, i, Reader(Asking, chunks[..n + 1]), Reader(Quit, chunks));
      ghost var before := steps';
      states', steps' := ReadsOn(states', steps', chunks, i, n + 1);
      forall j | |steps| <= j < |steps'|
        ensures OfReader(steps'[j], i)
      {
        assert j < |before| ==> steps'[j] == before[j];
      }
    }
  }

  lemma {:induction false} LoadStaysLast<D>(steps: seq<Step<D>>, steps': seq<Step<D>>, i: nat, j: nat, m: nat)
    requires LastLoad(steps, i, j) && steps <= steps' && m != i
    requires forall k :: |steps| <= k < |steps'| ==> OfReader(steps'[k], m)
    ensures LastLoad(steps', i, j)
  {
    forall k | j < k < |steps'|
      ensures steps'[k] != LoadCount(i) && !steps'[k].Publish?
    {
      if k < |steps| {
        assert steps'[k] == steps[k];
      } else {
        assert OfReader(steps'[k], m);
      }
    }
  }

  lemma {:induction false} AllRead<D>(states: seq<Feed<D>>, steps: seq<Step<D>>, chunks: seq<Chunk<D>>, readers: nat, loads: seq<nat>)
    returns (states': seq<Feed<D>>, steps': seq<Step<D>>, loads': seq<nat>)
    requires IsRun(states, steps) && |loads| <= readers && ReadTo(Last(states), chunks, readers, |loads|)
    requires forall i :: 0 <= i < |loads| ==> LastLoad(steps, i, loads[i])
    ensures IsRun(states', steps') && |loads'| == readers && ReadTo(Last(states'), chunks, readers, readers)
    ensures forall i :: 0 <= i < readers ==> LastLoad(steps', i, loads'[i])
    decreases readers - |loads|
  {
    hide IsRun;
    var m := |loads|;
    if m == readers {
      states', steps', loads' := states, steps, loads;
    } else {
      assert chunks[..0] == [];
      states', steps' := ReadsOn(states, steps, chunks, m, 0);
      loads' := loads + [|steps'| - 2];
      forall i | 0 <= i < |loads'|
        ensures LastLoad(steps', i, loads'[i])
      {
        if i < m {
          LoadStaysLast(steps, steps', i, loads[i], m);
        }
      }
      states', steps', loads' := AllRead(states', steps', chunks, readers, loads');
    }
  }

  /** Any number of readers can see any feed to its end: there is a run in which all of them quit with every
      chunk seen, none published after their last load of the count. */
  lemma {:induction false} EveryFeedCanBeSeen<D>(blank: Chunk<D>, chunks: seq<Chunk<D>>, readers: nat)
    returns (states: seq<Feed<D>>, steps: seq<Step<D>>, loads: seq<nat>)
    requires |chunks| <= MAX_CHUNKS
    ensures IsRun(states, steps) && |loads| == readers
    ensures var s := states[|steps|];
            && s.added == chunks && s.completed && |s.readers| == readers
            && forall i :: 0 <= i < readers ==> s.readers[i] == Reader(Quit, chunks)
    ensures forall i :: 0 <= i < readers ==>
              && loads[i] < |steps| && steps[loads[i]] == LoadCount(i)
              && forall m :: loads[i] < m < |steps| ==> steps[m] != LoadCount(i) && !steps[m].Publish?
  {
    states, steps := ChunksAdded(blank, chunks, readers, |chunks|);
    assert chunks[..|chunks|] == chunks;
    var s := Last(states);
    var t := s.(completed := true);
    assert StepsTo(s, Complete, t);
    OneMoreStep(states, steps, Complete, t);
    hide StepsTo;
    states, steps, loads := AllRead(states + [t], steps + [Complete], chunks, readers, []);
    forall i | 0 <= i < readers
      ensures loads[i] < |steps| && steps[loads[i]] == LoadCount(i)
      ensures forall m :: loads[i] < m < |steps| ==> steps[m] != LoadCount(i) && !steps[m].Publish?
    {
      assert LastLoad(steps, i, loads[i]);
    }
  }
}
