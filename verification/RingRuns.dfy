/** What the ring's runs push, and that they get somewhere. */
module RingRuns {
  import opened MemConfig
  import opened Bits
  import opened RingQueue

  // ---- What is pushed ----

  /** The item of the last push begun. */
  function LastBegun<T>(steps: seq<Step<T>>): Option<T> {
    if steps == [] then None else
      match steps[|steps| - 1]
      case StartPush(item) => Some(item)
      case _ => LastBegun(steps[..|steps| - 1])
  }

  /** The items of the pushes completed: those whose tail was stored. */
  function Completed<T>(steps: seq<Step<T>>): seq<T> {
    if steps == [] then [] else
      var front := steps[..|steps| - 1];
      if steps[|steps| - 1].StoreTail? && LastBegun(front).Some? then Completed(front) + [LastBegun(front).value]
      else Completed(front)
  }

  lemma {:induction false} BeginsAndCompletes<T>(steps: seq<Step<T>>, step: Step<T>)
    ensures LastBegun(steps + [step]) == if step.StartPush? then Some(step.item) else LastBegun(steps)
    ensures Completed(steps + [step])
            == if step.StoreTail? && LastBegun(steps).Some? then Completed(steps) + [LastBegun(steps).value] else Completed(steps)
  {
    assert (steps + [step])[..|steps|] == steps;
  }

  /** In every run, what has been pushed is the items of the pushes completed, in order; and a push in
      progress carries the item it began with. */
  lemma {:induction false} PushedIsCompleted<T>(buffer: seq<T>, states: seq<Ring<T>>, steps: seq<Step<T>>, n: nat)
    requires IsRun(buffer, states, steps) && n <= |steps|
    ensures states[n].pushed == Completed(steps[..n])
    ensures !states[n].producer.PIdle? ==> LastBegun(steps[..n]) == Some(states[n].producer.item)
  {
    if n == 0 {
    } else {
      PushedIsCompleted(buffer, states, steps, n - 1);
      assert StepsTo(states[n - 1], steps[n - 1], states[n]);
      assert steps[..n] == steps[..n - 1] + [steps[n - 1]];
      hide Completed, LastBegun, IsRun;
      BeginsAndCompletes(steps[..n - 1], steps[n - 1]);
    }
  }

  // ---- That pushes and pops succeed ----

  ghost function Last<T>(states: seq<Ring<T>>): Ring<T>
    requires states != []
  {
    states[|states| - 1]
  }

  lemma {:induction false} OneMoreStep<T>(buffer: seq<T>, states: seq<Ring<T>>, steps: seq<Step<T>>, step: Step<T>, s': Ring<T>)
    requires IsRun(buffer, states, steps) && StepsTo(Last(states), step, s')
    ensures IsRun(buffer, states + [s'], steps + [step])
  {
    var states', steps' := states + [s'], steps + [step];
    forall i | 0 <= i < |steps'|
      ensures StepsTo(states'[i], steps'[i], states'[i + 1])
    {
      if i < |steps| {
        assert StepsTo(states[i], steps[i], states[i + 1]);
      }
    }
  }

  /** In any state of any run with room for one more, an idle producer can push: the four steps of push add
      the item to what has been pushed, and change nothing the consumer has. */
  lemma {:induction false} RoomMeansPush<T>(buffer: seq<T>, states: seq<Ring<T>>, steps: seq<Step<T>>, item: T)
    returns (states': seq<Ring<T>>, steps': seq<Step<T>>)
    requires IsRun(buffer, states, steps)
    requires var s := Last(states); s.producer.PIdle? && InFlight(s) < |s.buffer| - 1
    ensures IsRun(buffer, states', steps') && states <= states'
    ensures steps' == steps + [StartPush(item), CheckRoom, WriteCell, StoreTail]
    ensures var s, s' := Last(states), Last(states');
            s'.pushed == s.pushed + [item] && s'.popped == s.popped && s'.producer.PIdle? && s'.consumer == s.consumer
            && |s'.buffer| == |s.buffer|
  {
    var s := Last(states);
    RunKeepsInv(buffer, states, steps, |states| - 1);
    FullTest(s);
    var t0 := Next(s, StartPush(item));
    var t1 := Next(t0, CheckRoom);
    var t2 := Next(t1, WriteCell);
    var t3 := Next(t2, StoreTail);
    assert StepsTo(s, StartPush(item), t0) && StepsTo(t0, CheckRoom, t1) && StepsTo(t1, WriteCell, t2) && StepsTo(t2, StoreTail, t3);
    hide IsRun, StepsTo, Next, Inv;
    OneMoreStep(buffer, states, steps, StartPush(item), t0);
    states', steps' := states + [t0], steps + [StartPush(item)];
    OneMoreStep(buffer, states', steps', CheckRoom, t1);
    states', steps' := states' + [t1], steps' + [CheckRoom];
    OneMoreStep(buffer, states', steps', WriteCell, t2);
    states', steps' := states' + [t2], steps' + [WriteCell];
    OneMoreStep(buffer, states', steps', StoreTail, t3);
    states', steps' := states' + [t3], steps' + [StoreTail];
  }

  /** In any state of any run with an item in flight, an idle consumer can pop: the four steps of pop take
      the oldest item. */
  lemma {:induction false} ItemMeansPop<T>(buffer: seq<T>, states: seq<Ring<T>>, steps: seq<Step<T>>)
    returns (states': seq<Ring<T>>, steps': seq<Step<T>>)
    requires IsRun(buffer, states, steps)
    requires var s := Last(states); s.consumer.CIdle? && InFlight(s) > 0
    ensures IsRun(buffer, states', steps') && states <= states'
    ensures steps' == steps + [StartPop, CheckItem, ReadCell, StoreHead]
    ensures var s, s' := Last(states), Last(states');
            && |s.popped| < |s.pushed| && s'.popped == s.popped + [s.pushed[|s.popped|]] && s'.pushed == s.pushed
            && s'.consumer.CIdle? && s'.producer == s.producer && |s'.buffer| == |s.buffer|
  {
    var s := Last(states);
    RunKeepsInv(buffer, states, steps, |states| - 1);
    EmptyTest(s);
    var t0 := Next(s, StartPop);
    var t1 := Next(t0, CheckItem);
    var t2 := Next(t1, ReadCell);
    var t3 := Next(t2, StoreHead);
    assert StepsTo(s, StartPop, t0) && StepsTo(t0, CheckItem, t1) && StepsTo(t1, ReadCell, t2) && StepsTo(t2, StoreHead, t3);
    hide IsRun, StepsTo, Next, Inv;
    OneMoreStep(buffer, states, steps, StartPop, t0);
    states', steps' := states + [t0], steps + [StartPop];
    OneMoreStep(buffer, states', steps', CheckItem, t1);
    states', steps' := states' + [t1], steps' + [CheckItem];
    OneMoreStep(buffer, states', steps', ReadCell, t2);
    states', steps' := states' + [t2], steps' + [ReadCell];
    OneMoreStep(buffer, states', steps', StoreHead, t3);
    states', steps' := states' + [t3], steps' + [StoreHead];
  }

  /** Any items can be sent through any ring of two cells or more. */
  lemma {:induction false} ItemsGoThrough<T>(buffer: seq<T>, items: seq<T>)
    returns (states: seq<Ring<T>>, steps: seq<Step<T>>)
    requires |buffer| >= 2 && BitAnd(|buffer|, |buffer| - 1) == 0
    ensures IsRun(buffer, states, steps) && states != []
    ensures var s := states[|states| - 1];
            s.pushed == s.popped == items && s.producer.PIdle? && s.consumer.CIdle? && |s.buffer| == |buffer|
    decreases |items|
  {
    if items == [] {
      states, steps := [Ring(buffer, 0, 0, PIdle, CIdle, [], [])], [];
    } else {
      states, steps := ItemsGoThrough(buffer, items[..|items| - 1]);
      hide IsRun;
      states, steps := RoomMeansPush(buffer, states, steps, items[|items| - 1]);
      states, steps := ItemMeansPop(buffer, states, steps);
    }
  }
}
