/** The chunk feed (mem_context.hpp): one producer appends chunks, and every counter reads them all, in
    order, until it finds the feed completed. First the object as the producer sees it, then every
    interleaving of its atomic steps with those of any number of readers. Atomic operations are taken
    to be sequentially consistent. */
module ChunkFeed {
  import opened MemConfig

  datatype Chunk<D> = Chunk(data: D, count: nat)

  class MemContext<D> {
    const chunks: array<Chunk<D>>
    var chunksCount: nat
    var chunksCompleted: bool

    ghost predicate Valid()
      reads this
    {
      chunks.Length == MAX_CHUNKS && chunksCount <= MAX_CHUNKS
    }

    ghost function Added(): seq<Chunk<D>>
      requires Valid()
      reads this, chunks
    {
      chunks[..chunksCount]
    }

    constructor (blank: Chunk<D>)
      ensures Valid() && Added() == [] && !chunksCompleted && fresh(chunks)
    {
      chunks := new Chunk<D>[MAX_CHUNKS](_ => blank);
      chunksCount, chunksCompleted := 0, false;
    }

    method Clear()
      requires Valid()
      modifies this
      ensures Valid() && Added() == [] && !chunksCompleted
    {
      chunksCount := 0;
      chunksCompleted := false;
    }

    /** The array is not checked for room in the source; that there is some is the caller's part. */
    method AddChunk(data: D, count: nat)
      requires Valid() && chunksCount < MAX_CHUNKS
      modifies this`chunksCount, chunks
      ensures Valid() && Added() == old(Added()) + [Chunk(data, count)]
    {
      var chunkId := chunksCount;
      chunks[chunkId] := Chunk(data, count);
      chunksCount := chunkId + 1;
    }

    method SetCompleted()
      requires Valid()
      modifies this`chunksCompleted
      ensures Valid() && chunksCompleted
    {
      chunksCompleted := true;
    }

    method Size() returns (n: nat)
      requires Valid()
      ensures n == |Added()|
    {
      n := chunksCount;
    }
  }

  // ---- Steps ----

  /** The producer is between two chunks, or has written the first `fields` of the two words of a cell. */
  datatype Producer<D> = Between | Writing(id: nat, chunk: Chunk<D>, fields: nat)

  datatype Phase<D> =
    | Asking            // about to load chunks_count
    | Refused           // found no chunk, about to test chunks_completed
    | Granted           // about to read the chunk's data
    | HalfRead(data: D) // about to read its count
    | Quit

  /** A reader has seen chunks 0, 1, ... and asks for chunk |seen|. */
  datatype Reader<D> = Reader(phase: Phase<D>, seen: seq<Chunk<D>>)

  /** The context, the threads, and, for the record, the chunks published. */
  datatype Feed<D> = Feed(cells: seq<Chunk<D>>, count: nat, completed: bool, producer: Producer<D>,
                          readers: seq<Reader<D>>, added: seq<Chunk<D>>)

  datatype Step<D> =
    | BeginAdd(chunk: Chunk<D>) | WriteData | WriteCount | Publish | Complete
    | LoadCount(i: nat) | TestCompleted(i: nat) | ReadData(i: nat) | ReadCount(i: nat)

  ghost predicate Init<D>(s: Feed<D>) {
    && |s.cells| == MAX_CHUNKS && s.count == 0 && !s.completed && s.producer == Between && s.added == []
    && forall i :: 0 <= i < |s.readers| ==> s.readers[i] == Reader(Asking, [])
  }

  ghost predicate ReaderIs<D>(s: Feed<D>, i: nat, phase: Phase<D>) {
    i < |s.readers| && s.readers[i].phase == phase
  }

  ghost predicate Enabled<D>(s: Feed<D>, step: Step<D>) {
    match step
    case BeginAdd(_) => s.producer == Between && !s.completed && s.count < MAX_CHUNKS
    case WriteData => s.producer.Writing? && s.producer.fields == 0 && s.producer.id < |s.cells|
    case WriteCount => s.producer.Writing? && s.producer.fields == 1 && s.producer.id < |s.cells|
    case Publish => s.producer.Writing? && s.producer.fields == 2
    case Complete => s.producer == Between && !s.completed
    case LoadCount(i) => ReaderIs(s, i, Asking)
    case TestCompleted(i) => ReaderIs(s, i, Refused)
    case ReadData(i) => ReaderIs(s, i, Granted) && |s.readers[i].seen| < |s.cells|
    case ReadCount(i) => i < |s.readers| && s.readers[i].phase.HalfRead? && |s.readers[i].seen| < |s.cells|
  }

  ghost function WithReader<D>(s: Feed<D>, i: nat, r: Reader<D>): Feed<D>
    requires i < |s.readers|
  {
    s.(readers := s.readers[i := r])
  }

  /** One atomic load or store, and the code up to the next one. */
  ghost function Next<D>(s: Feed<D>, step: Step<D>): Feed<D>
    requires Enabled(s, step)
  {
    match step
    case BeginAdd(chunk) => s.(producer := Writing(s.count, chunk, 0))
    case WriteData =>
      var p := s.producer;
      s.(cells := s.cells[p.id := s.cells[p.id].(data := p.chunk.data)], producer := p.(fields := 1))
    case WriteCount =>
      var p := s.producer;
      s.(cells := s.cells[p.id := s.cells[p.id].(count := p.chunk.count)], producer := p.(fields := 2))
    case Publish => s.(count := s.producer.id + 1, producer := Between, added := s.added + [s.producer.chunk])
    case Complete => s.(completed := true)
    case LoadCount(i) =>
      WithReader(s, i, s.readers[i].(phase := if |s.readers[i].seen| >= s.count then Refused else Granted))
    case TestCompleted(i) => WithReader(s, i, s.readers[i].(phase := if s.completed then Quit else Asking))
    case ReadData(i) => WithReader(s, i, s.readers[i].(phase := HalfRead(s.cells[|s.readers[i].seen|].data)))
    case ReadCount(i) =>
      var r := s.readers[i];
      WithReader(s, i, Reader(Asking, r.seen + [Chunk(r.phase.data, s.cells[|r.seen|].count)]))
  }

  ghost predicate StepsTo<D>(s: Feed<D>, step: Step<D>, s': Feed<D>) {
    Enabled(s, step) && s' == Next(s, step)
  }

  ghost predicate IsRun<D>(states: seq<Feed<D>>, steps: seq<Step<D>>) {
    && |states| == |steps| + 1 && Init(states[0])
    && forall k :: 0 <= k < |steps| ==> StepsTo(states[k], steps[k], states[k + 1])
  }

  // ---- What every step keeps ----

  ghost predicate ProducerInv<D>(s: Feed<D>) {
    && |s.cells| == MAX_CHUNKS && s.count == |s.added| <= MAX_CHUNKS
    && s.cells[..s.count] == s.added
    && (s.completed ==> s.producer == Between)
    && (s.producer.Writing? ==>
          && s.producer.id == s.count < MAX_CHUNKS
          && (s.producer.fields >= 1 ==> s.cells[s.count].data == s.producer.chunk.data)
          && (s.producer.fields >= 2 ==> s.cells[s.count].count == s.producer.chunk.count))
  }

  /** A reader has seen the first chunks published, in order, whole and as they were published. */
  ghost predicate ReaderInv<D>(s: Feed<D>, r: Reader<D>) {
    && r.seen <= s.added
    && (r.phase.Granted? || r.phase.HalfRead? ==> |r.seen| < |s.added|)
    && (r.phase.HalfRead? ==> r.phase.data == s.added[|r.seen|].data)
    && (r.phase.Quit? ==> s.completed)
  }

  ghost predicate Inv<D>(s: Feed<D>) {
    ProducerInv(s) && forall i :: 0 <= i < |s.readers| ==> ReaderInv(s, s.readers[i])
  }

  lemma {:induction false} ProducerKeepsInv<D>(s: Feed<D>, step: Step<D>)
    requires Inv(s) && Enabled(s, step) && (step.BeginAdd? || step.WriteData? || step.WriteCount? || step.Publish? || step.Complete?)
    ensures Inv(Next(s, step))
  {
  }

  lemma {:induction false} ReaderKeepsInv<D>(s: Feed<D>, step: Step<D>, i: nat)
    requires Inv(s) && Enabled(s, step) && i < |s.readers|
    requires step == LoadCount(i) || step == TestCompleted(i) || step == ReadData(i) || step == ReadCount(i)
    ensures Inv(Next(s, step))
  {
  }

  lemma {:induction false} RunKeepsInv<D>(states: seq<Feed<D>>, steps: seq<Step<D>>, k: nat)
    requires IsRun(states, steps) && k < |states|
    ensures Inv(states[k])
  {
    if k == 0 {
    } else {
      RunKeepsInv(states, steps, k - 1);
      hide Inv, Next;
      assert StepsTo(states[k - 1], steps[k - 1], states[k]);
      match steps[k - 1]
      case LoadCount(i) => ReaderKeepsInv(states[k - 1], steps[k - 1], i);
      case TestCompleted(i) => ReaderKeepsInv(states[k - 1], steps[k - 1], i);
      case ReadData(i) => ReaderKeepsInv(states[k - 1], steps[k - 1], i);
      case ReadCount(i) => ReaderKeepsInv(states[k - 1], steps[k - 1], i);
      case _ => ProducerKeepsInv(states[k - 1], steps[k - 1]);
    }
  }

  /** In every interleaving, what a reader has seen is a prefix of what was added, in order. */
  lemma {:induction false} ReadersSeePrefixes<D>(states: seq<Feed<D>>, steps: seq<Step<D>>, k: nat, i: nat)
    requires IsRun(states, steps) && k < |states| && i < |states[k].readers|
    ensures states[k].readers[i].seen <= states[k].added && |states[k].added| == states[k].count <= MAX_CHUNKS
  {
    RunKeepsInv(states, steps, k);
    assert ReaderInv(states[k], states[k].readers[i]);
  }

  // ---- What a reader that quits has missed ----

  lemma {:induction false} AddedGrows<D>(states: seq<Feed<D>>, steps: seq<Step<D>>, j: nat, k: nat)
    requires IsRun(states, steps) && j <= k < |states|
    ensures states[j].added <= states[k].added
    ensures |states[j].added| == |states[k].added| <==> forall m :: j <= m < k ==> !steps[m].Publish?
    ensures (exists m :: j <= m < k && steps[m].Complete?) || states[j].completed ==> states[k].completed
    decreases k
  {
    if j >= k {
    } else {
      AddedGrows(states, steps, j, k - 1);
      assert StepsTo(states[k - 1], steps[k - 1], states[k]);
    }
  }

  lemma {:induction false} NothingAfterCompletion<D>(states: seq<Feed<D>>, steps: seq<Step<D>>, j: nat, k: nat)
    requires IsRun(states, steps) && j <= k < |states| && states[j].completed
    ensures states[k].added == states[j].added
    decreases k
  {
    if j >= k {
    } else {
      NothingAfterCompletion(states, steps, j, k - 1);
      AddedGrows(states, steps, j, k - 1);
      RunKeepsInv(states, steps, k - 1);
      assert StepsTo(states[k - 1], steps[k - 1], states[k]);
    }
  }

  /** Once refused, a reader stays with what it had seen when it loaded the count. */
  lemma {:induction false} RefusedSawAll<D>(states: seq<Feed<D>>, steps: seq<Step<D>>, i: nat, j: nat, k: nat)
    requires IsRun(states, steps) && j < k < |states| && steps[j] == LoadCount(i)
    requires forall m :: j < m < k ==> steps[m] != LoadCount(i)
    ensures i < |states[k].readers| == |states[j].readers|
    ensures states[k].readers[i].phase.Refused? || states[k].readers[i].phase.Quit? ==>
              states[k].readers[i].seen == states[j].added
    decreases k
  {
    assert StepsTo(states[k - 1], steps[k - 1], states[k]);
    if j + 1 < k {
      RefusedSawAll(states, steps, i, j, k - 1);
    } else {
      RunKeepsInv(states, steps, j);
      assert ReaderInv(states[j], states[j].readers[i]);
    }
  }

  /** A reader that has quit has seen every chunk exactly if none was published after its last load of
      the count. Having made that load after the feed was completed is enough; quitting on a completed
      feed alone is not (EarlyQuitMissesAChunk). */
  lemma {:induction false} MissesNothingIff<D>(states: seq<Feed<D>>, steps: seq<Step<D>>, i: nat, j: nat)
    requires IsRun(states, steps) && j < |steps| && steps[j] == LoadCount(i)
    requires forall m :: j < m < |steps| ==> steps[m] != LoadCount(i)
    requires ReaderIs(states[|steps|], i, Quit)
    ensures states[|steps|].readers[i].seen == states[|steps|].added <==> forall m :: j < m < |steps| ==> !steps[m].Publish?
    ensures states[j].completed ==> states[|steps|].readers[i].seen == states[|steps|].added
  {
    RefusedSawAll(states, steps, i, j, |steps|);
    AddedGrows(states, steps, j, |steps|);
    if states[j].completed {
      NothingAfterCompletion(states, steps, j, |steps|);
    }
  }

  /** It happens: a reader finds no chunk, one is published and the feed completed, and the reader quits
      without it. */
  lemma {:induction false} EarlyQuitMissesAChunk<D>(blank: Chunk<D>, chunk: Chunk<D>) returns (states: seq<Feed<D>>, steps: seq<Step<D>>)
    ensures IsRun(states, steps)
    ensures var s := states[|states| - 1];
            s.added == [chunk] && s.completed && s.readers == [Reader(Quit, [])]
  {
    var e := seq(MAX_CHUNKS, _ => blank);
    var e1 := e[0 := e[0].(data := chunk.data)];
    var e2 := e1[0 := e1[0].(count := chunk.count)];
    var asking, refused := [Reader<D>.Reader(Asking, [])], [Reader<D>.Reader(Refused, [])];
    steps := [LoadCount(0), BeginAdd(chunk), WriteData, WriteCount, Publish, Complete, TestCompleted(0)];
    states := [Feed(e, 0, false, Between, asking, []), Feed(e, 0, false, Between, refused, []),
               Feed(e, 0, false, Writing(0, chunk, 0), refused, []), Feed(e1, 0, false, Writing(0, chunk, 1), refused, []),
               Feed(e2, 0, false, Writing(0, chunk, 2), refused, []), Feed(e2, 1, false, Between, refused, [chunk]),
               Feed(e2, 1, true, Between, refused, [chunk]), Feed(e2, 1, true, Between, [Reader(Quit, [])], [chunk])];
  }
}
