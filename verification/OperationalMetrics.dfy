/**
 * The shared counters: threads that load and compare-exchange in any interleaving.
 *
 * A relaxed load may return any earlier value, and compare_exchange_weak may fail spuriously; a failing
 * exchange reloads. Each step below is one atomic operation of one thread.
 */
module OperationalMetrics {

  const MAXIMUM_SAFE_COUNTER := 9_007_199_254_740_991

  datatype Counter = EventsReceived | EventsPublished | EventsRejected | EventsLost

  type Thread = nat

  /** Where a thread is inside increment. */
  datatype Phase =
    | Idle
    | Looping(counter: Counter, count: nat, current: nat)
    | Marking(counter: Counter)

  datatype Step =
    | Load(thread: Thread, counter: Counter, count: nat, seen: nat)
    | CompareExchange(thread: Thread, spurious: bool)
    | FetchOr(thread: Thread)

  function Saturated(value: nat): nat {
    if value > MAXIMUM_SAFE_COUNTER then MAXIMUM_SAFE_COUNTER else value
  }

  /** The `next` of the loop, computed without overflow. */
  function NextValue(current: nat, count: nat): (next: nat)
    requires current <= MAXIMUM_SAFE_COUNTER
    ensures next == Saturated(current + count)
  {
    if count > MAXIMUM_SAFE_COUNTER - current then MAXIMUM_SAFE_COUNTER else current + count
  }

  function PhaseOf(threads: map<Thread, Phase>, thread: Thread): Phase {
    if thread in threads then threads[thread] else Idle
  }

  /** Some thread has met the cap and is about to set the saturation bit. */
  ghost predicate AboutToMark(threads: map<Thread, Phase>, counter: Counter) {
    exists t :: t in threads && threads[t] == Marking(counter)
  }

  lemma MoveKeepsMarks(threads: map<Thread, Phase>, thread: Thread, phase: Phase, counter: Counter)
    requires !PhaseOf(threads, thread).Marking? && AboutToMark(threads, counter)
    ensures AboutToMark(threads[thread := phase], counter)
  {
    var t :| t in threads && threads[t] == Marking(counter);
    assert t in threads[thread := phase] && threads[thread := phase][t] == Marking(counter);
  }

  lemma Capped(value: nat)
    ensures Saturated(value) <= MAXIMUM_SAFE_COUNTER
  {
  }

  lemma MarksWhatItReached(threads: map<Thread, Phase>, thread: Thread, after: Phase, phase: Phase, total: nat)
    requires phase.Looping? && phase.current == Saturated(total)
    requires after == if Saturated(phase.current + phase.count) == MAXIMUM_SAFE_COUNTER && phase.count != 0
                      then Marking(phase.counter) else Idle
    ensures phase.count > 0 && total + phase.count >= MAXIMUM_SAFE_COUNTER ==>
              AboutToMark(threads[thread := after], phase.counter)
  {
    if phase.count > 0 && total + phase.count >= MAXIMUM_SAFE_COUNTER {
      assert thread in threads[thread := after] && threads[thread := after][thread] == Marking(phase.counter);
    }
  }

  class Metrics {
    var values: map<Counter, nat>
    var saturation: bool
    var threads: map<Thread, Phase>

    /** Per counter, the completed increments in the order of their exchanges. */
    ghost var completed: map<Counter, seq<nat>>

    ghost predicate Valid()
      reads this
    {
      && (forall c: Counter :: c in values && c in completed && values[c] == Saturated(Sum(completed[c])))
      && (forall t | t in threads :: threads[t].Looping? ==> threads[t].current <= MAXIMUM_SAFE_COUNTER)
      && (forall c: Counter :: Reached(completed[c]) ==> saturation || AboutToMark(threads, c))
    }

    constructor ()
      ensures Valid() && !saturation && threads == map[]
      ensures forall c: Counter :: completed[c] == []
    {
      values := map[EventsReceived := 0, EventsPublished := 0, EventsRejected := 0, EventsLost := 0];
      completed := map[EventsReceived := [], EventsPublished := [], EventsRejected := [], EventsLost := []];
      saturation, threads := false, map[];
      new;
      forall c: Counter ensures c in values && c in completed && values[c] == 0 && completed[c] == [] {
        match c {
          case EventsReceived =>
          case EventsPublished =>
          case EventsRejected =>
          case EventsLost =>
        }
      }
    }

    /** counter.load */
    method TakeLoad(thread: Thread, counter: Counter, count: nat, seen: nat)
      requires Valid() && seen <= MAXIMUM_SAFE_COUNTER
      modifies this`threads
      ensures Valid()
      ensures threads == if PhaseOf(old(threads), thread).Idle?
                         then old(threads)[thread := Looping(counter, count, seen)] else old(threads)
    {
      hide Reached, Sum, AboutToMark;
      if PhaseOf(threads, thread).Idle? {
        forall c: Counter | AboutToMark(threads, c)
          ensures AboutToMark(threads[thread := Looping(counter, count, seen)], c)
        {
          MoveKeepsMarks(threads, thread, Looping(counter, count, seen), c);
        }
        threads := threads[thread := Looping(counter, count, seen)];
      }
    }

    /** counter.compare_exchange_weak */
    method TakeCompareExchange(thread: Thread, spurious: bool)
      requires Valid()
      modifies this`values, this`threads, this`completed
      ensures Valid()
      ensures var phase := PhaseOf(old(threads), thread);
              if phase.Looping? && !spurious && old(values)[phase.counter] == phase.current then
                && completed == old(completed)[phase.counter := old(completed)[phase.counter] + [phase.count]]
                && threads == old(threads)[thread := if values[phase.counter] == MAXIMUM_SAFE_COUNTER
                    && phase.count != 0
                                                     then Marking(phase.counter) else Idle]
              else
                && completed == old(completed) && values == old(values)
                && threads == if phase.Looping? then old(threads)[thread := phase.(current := values[phase.counter])]
                              else old(threads)
    {
      hide Reached, Sum, AboutToMark, Saturated;
      var phase := PhaseOf(threads, thread);
      if !phase.Looping? {
        return;
      }
      var exchanged := !spurious && values[phase.counter] == phase.current;
      var next := NextValue(phase.current, phase.count);
      var after :=
        if !exchanged then phase.(current := values[phase.counter])
        else if next == MAXIMUM_SAFE_COUNTER && phase.count != 0 then Marking(phase.counter)
        else Idle;
      forall c: Counter | AboutToMark(threads, c) ensures AboutToMark(threads[thread := after], c) {
        MoveKeepsMarks(threads, thread, after, c);
      }
      Capped(Sum(completed[phase.counter]));
      if exchanged {
        ghost var before := completed[phase.counter];
        SumOfMore(before, phase.count);
        ReachedByMore(before, phase.count);
        MarksWhatItReached(threads, thread, after, phase, Sum(before));
        values := values[phase.counter := next];
        completed := completed[phase.counter := before + [phase.count]];
      }
      threads := threads[thread := after];
    }

    /** degradation_mask_.fetch_or */
    method TakeFetchOr(thread: Thread)
      requires Valid()
      modifies this`saturation, this`threads
      ensures Valid()
      ensures if PhaseOf(old(threads), thread).Marking? then saturation && threads == old(threads)[thread := Idle]
              else saturation == old(saturation) && threads == old(threads)
    {
      if PhaseOf(threads, thread).Marking? {
        saturation := true;
        threads := threads[thread := Idle];
      }
    }

    /**
     * Any interleaving of any threads' steps: each counter is the sum of its completed increments, capped; and
     * once no thread is inside increment, the saturation bit is set if a positive increment met the cap.
     */
    method Run(schedule: seq<Step>)
      requires Valid()
      requires forall step | step in schedule && step.Load? :: step.seen <= MAXIMUM_SAFE_COUNTER
      modifies this
      ensures Valid()
      ensures forall c: Counter :: old(completed)[c] <= completed[c] && values[c] == Saturated(Sum(completed[c]))
      ensures (forall t | t in threads :: threads[t].Idle?) ==> forall c: Counter :: Reached(completed[c]) ==>
                saturation
      ensures old(saturation) ==> saturation
    {
      for i := 0 to |schedule|
        invariant Valid()
        invariant forall c: Counter :: old(completed)[c] <= completed[c]
        invariant old(saturation) ==> saturation
      {
        match schedule[i] {
          case Load(thread, counter, count, seen) =>
            assert schedule[i] in schedule;
            TakeLoad(thread, counter, count, seen);
          case CompareExchange(thread, spurious) => TakeCompareExchange(thread, spurious);
          case FetchOr(thread) => TakeFetchOr(thread);
        }
      }
    }
  }

  function Sum(counts: seq<nat>): nat {
    if counts == [] then 0 else Sum(counts[..|counts| - 1]) + counts[|counts| - 1]
  }

  /** Some positive increment found or left the counter at its cap. */
  ghost predicate Reached(counts: seq<nat>) {
    exists i :: 0 <= i < |counts| && counts[i] > 0 && Sum(counts[..i + 1]) >= MAXIMUM_SAFE_COUNTER
  }

  lemma SumOfMore(counts: seq<nat>, count: nat)
    ensures Sum(counts + [count]) == Sum(counts) + count
    ensures Saturated(Saturated(Sum(counts)) + count) == Saturated(Sum(counts) + count)
  {
    assert (counts + [count])[..|counts|] == counts;
  }

  lemma ReachedByMore(counts: seq<nat>, count: nat)
    ensures Reached(counts + [count]) <==> Reached(counts) || (count > 0 && Sum(counts) + count >= MAXIMUM_SAFE_COUNTER)
  {
    var more := counts + [count];
    SumOfMore(counts, count);
    assert more[..|counts| + 1] == more;
    assert forall i | 0 <= i < |counts| :: more[..i + 1] == counts[..i + 1] && more[i] == counts[i];
    if count > 0 && Sum(counts) + count >= MAXIMUM_SAFE_COUNTER {
      assert more[|counts|] > 0 && Sum(more[..|counts| + 1]) >= MAXIMUM_SAFE_COUNTER;
    }
    if Reached(counts) {
      var i :| 0 <= i < |counts| && counts[i] > 0 && Sum(counts[..i + 1]) >= MAXIMUM_SAFE_COUNTER;
      assert more[i] > 0 && Sum(more[..i + 1]) >= MAXIMUM_SAFE_COUNTER;
    }
  }

  /** The order of the exchanges does not matter: a counter is a commutative, saturating sum. */
  lemma {:induction false} SumOfPermutation(x: seq<nat>, y: seq<nat>)
    requires multiset(x) == multiset(y)
    ensures Sum(x) == Sum(y)
    decreases |x|
  {
    assert |x| == |multiset(x)| && |y| == |multiset(y)|;
    if x != [] {
      var front, last := x[..|x| - 1], x[|x| - 1];
      assert x == front + [last];
      assert last in multiset(y);
      var i :| 0 <= i < |y| && y[i] == last;
      var rest := y[..i] + y[i + 1..];
      assert y == y[..i] + [last] + y[i + 1..];
      assert multiset(rest) == multiset(y) - multiset{last};
      assert multiset(front) == multiset(x) - multiset{last};
      SumOfPermutation(front, rest);
      SumWithout(y, i);
    }
  }

  lemma {:induction false} SumWithout(counts: seq<nat>, i: nat)
    requires i < |counts|
    ensures Sum(counts) == Sum(counts[..i] + counts[i + 1..]) + counts[i]
    decreases |counts|
  {
    var front, last := counts[..|counts| - 1], counts[|counts| - 1];
    if i < |counts| - 1 {
      SumWithout(front, i);
      var rest := counts[..i] + counts[i + 1..];
      assert rest[..|rest| - 1] == front[..i] + front[i + 1..];
      assert front[..i] == counts[..i];
    } else {
      assert counts[..i] + counts[i + 1..] == front;
    }
  }
}
