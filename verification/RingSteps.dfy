/** The lock-free ring as a step machine: one producer thread and one consumer thread, each
    advancing by a single index load, slot access or index store, in any interleaving.

    A load of the other thread's index may return any value that index has held since the loading
    thread last looked (`k` counts the stores it has observed); a run in which every such load
    is current is a sequentially consistent run. */
module RingSteps {
  import opened Words

  /** Where the producer thread stands inside `try_push`, `full` or `size_estimate`. */
  datatype Producer<T> =
    | PIdle
    | PStarted(value: T, write: nat)   // own index loaded
    | PRoom(value: T, write: nat)      // other index loaded, room seen
    | PFilled(value: T, write: nat)    // slot written, index not yet stored
    | PSizing(write: nat)

  /** Where the consumer thread stands inside `try_pop`, `full` or `size_estimate`. */
  datatype Consumer<T> =
    | CIdle
    | CStarted(read: nat)
    | CHasItem(read: nat)
    | CMoved(read: nat, out: T)        // slot holds a moved-from husk
    | CCleared(read: nat, out: T)      // slot holds a default value
    | CSizing(write: nat, lengthAtLoad: nat)

  /** Shared memory, both program counters, and the history the theorems speak about: the values
      whose index store has happened, and how many remote stores each thread has observed. */
  datatype Ring<T> = Ring(
    buffer: seq<T>, writeIndex: nat, readIndex: nat,
    producer: Producer<T>, consumer: Consumer<T>,
    seenRead: nat, seenWrite: nat,
    pushed: seq<T>, popped: seq<T>)
  {
    function Contents(): seq<T>
      requires |popped| <= |pushed|
    {
      pushed[|popped|..]
    }
  }

  /** The real counters wrap at 2^64; with `wraps` false they count exactly and forever. */
  datatype Config<T> = Config(capacity: nat, wraps: bool, blank: T)
  {
    ghost predicate Valid() {
      2 <= capacity < TWO_TO_64 && IsPowerOfTwo(capacity)
    }

    function Counter(x: nat): nat {
      if wraps then Wrap(x) else x
    }

    function Distance(write: nat, read: nat): int {
      if wraps then Wrap(write - read) else write - read
    }

    function Slot(index: nat): (i: nat)
      requires capacity >= 1
      ensures i < capacity
    {
      BitAnd(index, capacity - 1)
    }
  }

  datatype Action<T> =
    | PushStart(value: T)
    | PushLoadRead(k: nat)
    | PushFill
    | PushStore
    | PopStart
    | PopLoadWrite(k: nat)
    | PopMove(husk: T)
    | PopClear
    | PopStore
    | ProducerSizeStart
    | ProducerSizeEnd(k: nat)
    | ConsumerSizeStart(k: nat)
    | ConsumerSizeEnd

  /** What a step makes visible to callers, at the instant the operation takes effect. */
  datatype RingEvent<T> =
    | Pushed(value: T)
    | RefusedFull
    | Popped(value: T)
    | RefusedEmpty

  ghost predicate Enabled<T>(s: Ring<T>, a: Action<T>) {
    match a
    case PushStart(_) => s.producer.PIdle?
    case PushLoadRead(k) => s.producer.PStarted? && s.seenRead <= k <= |s.popped|
    case PushFill => s.producer.PRoom?
    case PushStore => s.producer.PFilled?
    case PopStart => s.consumer.CIdle?
    case PopLoadWrite(k) => s.consumer.CStarted? && s.seenWrite <= k <= |s.pushed|
    case PopMove(_) => s.consumer.CHasItem?
    case PopClear => s.consumer.CMoved?
    case PopStore => s.consumer.CCleared?
    case ProducerSizeStart => s.producer.PIdle?
    case ProducerSizeEnd(k) => s.producer.PSizing? && s.seenRead <= k <= |s.popped|
    case ConsumerSizeStart(k) => s.consumer.CIdle? && s.seenWrite <= k <= |s.pushed|
    case ConsumerSizeEnd => s.consumer.CSizing?
  }

  /** Every load of the other thread's index returns its current value. */
  ghost predicate Current<T>(s: Ring<T>, a: Action<T>) {
    match a
    case PushLoadRead(k) => k == |s.popped|
    case ProducerSizeEnd(k) => k == |s.popped|
    case PopLoadWrite(k) => k == |s.pushed|
    case ConsumerSizeStart(k) => k == |s.pushed|
    case _ => true
  }

  ghost function Next<T>(c: Config<T>, s: Ring<T>, a: Action<T>): Ring<T>
    requires c.Valid() && |s.buffer| == c.capacity && Enabled(s, a)
  {
    match a
    case PushStart(v) => s.(producer := PStarted(v, s.writeIndex))
    case PushLoadRead(k) =>
      s.(seenRead := k,
         producer := if c.Distance(s.producer.write, c.Counter(k)) >= c.capacity then PIdle
                     else PRoom(s.producer.value, s.producer.write))
    case PushFill =>
      s.(buffer := s.buffer[c.Slot(s.producer.write) := s.producer.value],
         producer := PFilled(s.producer.value, s.producer.write))
    case PushStore =>
      s.(writeIndex := c.Counter(s.producer.write + 1),
         pushed := s.pushed + [s.producer.value],
         producer := PIdle)
    case PopStart => s.(consumer := CStarted(s.readIndex))
    case PopLoadWrite(k) =>
      s.(seenWrite := k,
         consumer := if s.consumer.read == c.Counter(k) then CIdle else CHasItem(s.consumer.read))
    case PopMove(husk) =>
      var slot := c.Slot(s.consumer.read);
      s.(buffer := s.buffer[slot := husk],
         consumer := CMoved(s.consumer.read, s.buffer[slot]))
    case PopClear =>
      s.(buffer := s.buffer[c.Slot(s.consumer.read) := c.blank],
         consumer := CCleared(s.consumer.read, s.consumer.out))
    case PopStore =>
      s.(readIndex := c.Counter(s.consumer.read + 1),
         popped := s.popped + [s.consumer.out],
         consumer := CIdle)
    case ProducerSizeStart => s.(producer := PSizing(s.writeIndex))
    case ProducerSizeEnd(k) => s.(seenRead := k, producer := PIdle)
    case ConsumerSizeStart(k) =>
      s.(seenWrite := k,
         consumer := CSizing(c.Counter(k), if |s.popped| <= |s.pushed| then |s.pushed| - |s.popped| else 0))
    case ConsumerSizeEnd => s.(consumer := CIdle)
  }

  /** Successes take effect at the index store, refusals at the load of the other index. */
  ghost function Emits<T>(c: Config<T>, s: Ring<T>, a: Action<T>): seq<RingEvent<T>>
    requires c.Valid() && Enabled(s, a)
  {
    match a
    case PushLoadRead(k) =>
      if c.Distance(s.producer.write, c.Counter(k)) >= c.capacity then [RefusedFull] else []
    case PushStore => [Pushed(s.producer.value)]
    case PopLoadWrite(k) => if s.consumer.read == c.Counter(k) then [RefusedEmpty] else []
    case PopStore => [Popped(s.consumer.out)]
    case _ => []
  }

  /** The value `size_estimate` returns when the step `a` ends a call to it. */
  ghost function Estimate<T>(c: Config<T>, s: Ring<T>, a: Action<T>): int
    requires Enabled(s, a) && (a.ProducerSizeEnd? || a.ConsumerSizeEnd?)
  {
    if a.ProducerSizeEnd? then c.Distance(s.producer.write, c.Counter(a.k))
    else c.Distance(s.consumer.write, s.readIndex)
  }

  ghost function Start<T>(c: Config<T>): Ring<T> {
    Ring(seq(c.capacity, _ => c.blank), 0, 0, PIdle, CIdle, 0, 0, [], [])
  }

  ghost predicate Run<T>(c: Config<T>, s: Ring<T>, actions: seq<Action<T>>)
    requires c.Valid() && |s.buffer| == c.capacity
    decreases |actions|
  {
    actions == [] || (Enabled(s, actions[0]) && Run(c, Next(c, s, actions[0]), actions[1..]))
  }

  ghost function After<T>(c: Config<T>, s: Ring<T>, actions: seq<Action<T>>): (t: Ring<T>)
    requires c.Valid() && |s.buffer| == c.capacity && Run(c, s, actions)
    ensures |t.buffer| == c.capacity
    decreases |actions|
  {
    if actions == [] then s else After(c, Next(c, s, actions[0]), actions[1..])
  }

  ghost function History<T>(c: Config<T>, s: Ring<T>, actions: seq<Action<T>>): seq<RingEvent<T>>
    requires c.Valid() && |s.buffer| == c.capacity && Run(c, s, actions)
    decreases |actions|
  {
    if actions == [] then [] else Emits(c, s, actions[0]) + History(c, Next(c, s, actions[0]), actions[1..])
  }

  /** A run in which no load is stale. */
  ghost predicate CurrentRun<T>(c: Config<T>, s: Ring<T>, actions: seq<Action<T>>)
    requires c.Valid() && |s.buffer| == c.capacity && Run(c, s, actions)
    decreases |actions|
  {
    actions == [] || (Current(s, actions[0]) && CurrentRun(c, Next(c, s, actions[0]), actions[1..]))
  }

  // ---------------------------------------------------------------------------------------------
  // The invariant

  ghost predicate ProducerInv<T>(c: Config<T>, s: Ring<T>)
    requires c.Valid() && |s.buffer| == c.capacity
  {
    match s.producer
    case PIdle => true
    case PStarted(_, w) => w == s.writeIndex
    case PRoom(_, w) => w == s.writeIndex && |s.pushed| < s.seenRead + c.capacity
    case PFilled(v, w) =>
      w == s.writeIndex && |s.pushed| < s.seenRead + c.capacity && s.buffer[|s.pushed| % c.capacity] == v
    case PSizing(w) => w == s.writeIndex
  }

  ghost predicate ConsumerInv<T>(c: Config<T>, s: Ring<T>)
    requires |s.popped| <= |s.pushed|
  {
    match s.consumer
    case CIdle => true
    case CStarted(r) => r == s.readIndex
    case CHasItem(r) => r == s.readIndex && |s.popped| < s.seenWrite
    case CMoved(r, out) =>
      r == s.readIndex && |s.popped| < s.seenWrite && |s.popped| < |s.pushed| && out == s.pushed[|s.popped|]
    case CCleared(r, out) =>
      r == s.readIndex && |s.popped| < s.seenWrite && |s.popped| < |s.pushed| && out == s.pushed[|s.popped|]
    case CSizing(w, _) => w == c.Counter(s.seenWrite)
  }

  /** The slots of the queued values hold them, except the one the consumer has moved out of. */
  ghost predicate SlotsHold<T>(c: Config<T>, s: Ring<T>)
    requires c.Valid() && |s.buffer| == c.capacity
  {
    forall i {:trigger s.pushed[i]} :: |s.popped| <= i < |s.pushed| ==>
      (i == |s.popped| && (s.consumer.CMoved? || s.consumer.CCleared?)) || s.buffer[i % c.capacity] == s.pushed[i]
  }

  ghost predicate Inv<T>(c: Config<T>, s: Ring<T>) {
    && c.Valid() && |s.buffer| == c.capacity
    && s.writeIndex == c.Counter(|s.pushed|) && s.readIndex == c.Counter(|s.popped|)
    && s.seenRead <= |s.popped| <= s.seenWrite <= |s.pushed| <= s.seenRead + c.capacity
    && s.popped == s.pushed[..|s.popped|]
    && ProducerInv(c, s) && ConsumerInv(c, s) && SlotsHold(c, s)
  }

  // ---------------------------------------------------------------------------------------------
  // Counters

  /** Wrapped counters answer every question the code asks exactly as counters that never wrap:
      their modular difference is the number of values in between, they are equal only when the
      exact counts are, and masking either picks the exact count modulo the capacity. */
  lemma CountersFaithful<T>(c: Config<T>, write: nat, read: nat)
    requires c.Valid() && read <= write < read + TWO_TO_64
    ensures c.Distance(c.Counter(write), c.Counter(read)) == write - read
    ensures c.Counter(write) == c.Counter(read) <==> write == read
    ensures c.Slot(c.Counter(write)) == write % c.capacity
    ensures c.Counter(c.Counter(write) + 1) == c.Counter(write + 1)
  {
    MaskOfWrapped(write, c.capacity);
    WrapFaithful(write, read);
  }

  // ---------------------------------------------------------------------------------------------
  // Preservation, one step at a time

  lemma StartInv<T>(c: Config<T>)
    requires c.Valid()
    ensures Inv(c, Start(c))
  {
  }

  lemma PushFillInv<T>(c: Config<T>, s: Ring<T>)
    requires Inv(c, s) && s.producer.PRoom?
    ensures Inv(c, Next(c, s, PushFill))
  {
    hide BitAnd, IsPowerOfTwo, Wrap;
    CountersFaithful(c, |s.pushed|, |s.pushed|);
    var t := Next(c, s, PushFill);
    forall i {:trigger t.pushed[i]} | |t.popped| <= i < |t.pushed|
      ensures i % c.capacity != |s.pushed| % c.capacity
    {
      SlotsDiffer(i, |s.pushed|, c.capacity);
    }
  }

  lemma PushStoreInv<T>(c: Config<T>, s: Ring<T>)
    requires Inv(c, s) && s.producer.PFilled?
    ensures Inv(c, Next(c, s, PushStore))
  {
    hide BitAnd, IsPowerOfTwo, Wrap;
    CountersFaithful(c, |s.pushed|, |s.pushed|);
    var t := Next(c, s, PushStore);
    assert forall i {:trigger t.pushed[i]} :: 0 <= i < |s.pushed| ==> t.pushed[i] == s.pushed[i];
  }

  lemma PopEraseInv<T>(c: Config<T>, s: Ring<T>, a: Action<T>)
    requires Inv(c, s) && Enabled(s, a) && (a.PopMove? || a.PopClear?)
    ensures Inv(c, Next(c, s, a))
  {
    hide BitAnd, IsPowerOfTwo, Wrap;
    CountersFaithful(c, |s.popped|, |s.popped|);
    var t := Next(c, s, a);
    assert s.pushed[|s.popped|] == s.pushed[|s.popped|];
    forall i {:trigger t.pushed[i]} | |t.popped| < i < |t.pushed|
      ensures i % c.capacity != |s.popped| % c.capacity
    {
      SlotsDiffer(|s.popped|, i, c.capacity);
    }
    if s.producer.PFilled? {
      SlotsDiffer(|s.popped|, |s.pushed|, c.capacity);
    }
  }

  lemma PopStoreInv<T>(c: Config<T>, s: Ring<T>)
    requires Inv(c, s) && s.consumer.CCleared?
    ensures Inv(c, Next(c, s, PopStore))
  {
    hide BitAnd, IsPowerOfTwo, Wrap;
    CountersFaithful(c, |s.popped|, |s.popped|);
    var t := Next(c, s, PopStore);
    assert t.popped == t.pushed[..|t.popped|];
    assert forall i {:trigger t.pushed[i]} :: 0 <= i < |s.pushed| ==> t.pushed[i] == s.pushed[i];
  }

  /** Every step of either thread, with loads as stale as allowed, keeps the invariant. */
  lemma StepInv<T>(c: Config<T>, s: Ring<T>, a: Action<T>)
    requires Inv(c, s) && Enabled(s, a)
    ensures Inv(c, Next(c, s, a))
  {
    hide BitAnd, IsPowerOfTwo, Wrap;
    match a
    case PushFill => PushFillInv(c, s);
    case PushStore => PushStoreInv(c, s);
    case PopMove(_) => PopEraseInv(c, s, a);
    case PopClear => PopEraseInv(c, s, a);
    case PopStore => PopStoreInv(c, s);
    case PushLoadRead(k) => CountersFaithful(c, |s.pushed|, k);
    case PopLoadWrite(k) => CountersFaithful(c, k, |s.popped|);
    case _ =>
  }

  lemma {:induction false} RunInv<T>(c: Config<T>, s: Ring<T>, actions: seq<Action<T>>)
    requires Inv(c, s) && Run(c, s, actions)
    ensures Inv(c, After(c, s, actions))
    decreases |actions|
  {
    if actions != [] {
      StepInv(c, s, actions[0]);
      RunInv(c, Next(c, s, actions[0]), actions[1..]);
    }
  }

  // ---------------------------------------------------------------------------------------------
  // Linearizability to a bounded FIFO queue

  /** What a bounded queue holding `q` may do. A refusal is held to account only when `exact`. */
  ghost predicate FifoAllows<T>(capacity: nat, exact: bool, q: seq<T>, e: RingEvent<T>) {
    match e
    case Pushed(_) => |q| < capacity
    case Popped(v) => q != [] && q[0] == v
    case RefusedFull => exact ==> |q| == capacity
    case RefusedEmpty => exact ==> q == []
  }

  ghost function FifoNext<T>(q: seq<T>, e: RingEvent<T>): seq<T>
    requires e.Popped? ==> q != []
  {
    match e
    case Pushed(v) => q + [v]
    case Popped(_) => q[1..]
    case _ => q
  }

  /** `es` is a legal sequential history of a bounded queue that leads from `q` to `end`. */
  ghost predicate FifoHistory<T>(capacity: nat, exact: bool, q: seq<T>, es: seq<RingEvent<T>>, end: seq<T>)
    decreases |es|
  {
    if es == [] then q == end
    else FifoAllows(capacity, exact, q, es[0]) && FifoHistory(capacity, exact, FifoNext(q, es[0]), es[1..], end)
  }

  lemma SingleEvent<T>(capacity: nat, exact: bool, q: seq<T>, e: RingEvent<T>, end: seq<T>)
    requires FifoAllows(capacity, exact, q, e) && FifoNext(q, e) == end
    ensures FifoHistory(capacity, exact, q, [e], end)
  {
    assert [e][1..] == [];
  }

  lemma PushStoreRefinesFifo<T>(c: Config<T>, s: Ring<T>, exact: bool)
    requires Inv(c, s) && s.producer.PFilled?
    ensures |Next(c, s, PushStore).popped| <= |Next(c, s, PushStore).pushed|
    ensures FifoHistory(c.capacity, exact, s.Contents(), Emits(c, s, PushStore), Next(c, s, PushStore).Contents())
  {
    var v := s.producer.value;
    assert (s.pushed + [v])[|s.popped|..] == s.Contents() + [v];
    SingleEvent(c.capacity, exact, s.Contents(), Pushed(v), s.Contents() + [v]);
  }

  lemma PopStoreRefinesFifo<T>(c: Config<T>, s: Ring<T>, exact: bool)
    requires Inv(c, s) && s.consumer.CCleared?
    ensures |Next(c, s, PopStore).popped| <= |Next(c, s, PopStore).pushed|
    ensures FifoHistory(c.capacity, exact, s.Contents(), Emits(c, s, PopStore), Next(c, s, PopStore).Contents())
  {
    var v := s.consumer.out;
    assert s.pushed[|s.popped| + 1..] == s.Contents()[1..];
    SingleEvent(c.capacity, exact, s.Contents(), Popped(v), s.Contents()[1..]);
  }

  lemma LoadRefinesFifo<T>(c: Config<T>, s: Ring<T>, a: Action<T>, exact: bool)
    requires Inv(c, s) && Enabled(s, a) && (exact ==> Current(s, a)) && (a.PushLoadRead? || a.PopLoadWrite?)
    ensures FifoHistory(c.capacity, exact, s.Contents(), Emits(c, s, a), s.Contents())
  {
    RefusalsWereTrue(c, s, a);
    if Emits(c, s, a) != [] {
      SingleEvent(c.capacity, exact, s.Contents(), Emits(c, s, a)[0], s.Contents());
    }
  }

  lemma StepRefinesFifo<T>(c: Config<T>, s: Ring<T>, a: Action<T>, exact: bool)
    requires Inv(c, s) && Enabled(s, a) && (exact ==> Current(s, a))
    ensures |Next(c, s, a).popped| <= |Next(c, s, a).pushed|
    ensures FifoHistory(c.capacity, exact, s.Contents(), Emits(c, s, a), Next(c, s, a).Contents())
  {
    match a
    case PushLoadRead(_) => LoadRefinesFifo(c, s, a, exact);
    case PopLoadWrite(_) => LoadRefinesFifo(c, s, a, exact);
    case PushStore => PushStoreRefinesFifo(c, s, exact);
    case PopStore => PopStoreRefinesFifo(c, s, exact);
    case _ =>
  }

  lemma {:induction false} FifoHistoryConcat<T>(capacity: nat, exact: bool, q: seq<T>, es: seq<RingEvent<T>>,
                                                mid: seq<T>,
                                                fs: seq<RingEvent<T>>, end: seq<T>)
    requires FifoHistory(capacity, exact, q, es, mid) && FifoHistory(capacity, exact, mid, fs, end)
    ensures FifoHistory(capacity, exact, q, es + fs, end)
    decreases |es|
  {
    if es == [] {
      assert es + fs == fs;
    } else {
      assert (es + fs)[1..] == es[1..] + fs;
      FifoHistoryConcat(capacity, exact, FifoNext(q, es[0]), es[1..], mid, fs, end);
    }
  }

  lemma {:induction false} RunRefinesFifo<T>(c: Config<T>, s: Ring<T>, actions: seq<Action<T>>, exact: bool)
    requires Inv(c, s) && Run(c, s, actions) && (exact ==> CurrentRun(c, s, actions))
    ensures Inv(c, After(c, s, actions))
    ensures FifoHistory(c.capacity, exact, s.Contents(), History(c, s, actions), After(c, s, actions).Contents())
    decreases |actions|
  {
    RunInv(c, s, actions);
    if actions != [] {
      var t := Next(c, s, actions[0]);
      StepRefinesFifo(c, s, actions[0], exact);
      StepInv(c, s, actions[0]);
      RunRefinesFifo(c, t, actions[1..], exact);
      FifoHistoryConcat(c.capacity, exact, s.Contents(), Emits(c, s, actions[0]), t.Contents(),
                        History(c, t, actions[1..]), After(c, s, actions).Contents());
    }
  }

  /** Every sequentially consistent interleaving of one producer and one consumer is linearizable
      to a bounded FIFO queue: the events, in the order they take effect, are a legal queue history
      ending in the ring's contents, and pushed == popped ++ contents. */
  lemma LinearizableToBoundedFifo<T>(c: Config<T>, actions: seq<Action<T>>)
    requires c.Valid() && Run(c, Start(c), actions) && CurrentRun(c, Start(c), actions)
    ensures var t := After(c, Start(c), actions);
            && |t.popped| <= |t.pushed| && t.pushed == t.popped + t.Contents() && |t.Contents()| <= c.capacity
            && FifoHistory(c.capacity, true, [], History(c, Start(c), actions), t.Contents())
  {
    StartInv(c);
    RunRefinesFifo(c, Start(c), actions, true);
    var t := After(c, Start(c), actions);
    assert t.pushed == t.pushed[..|t.popped|] + t.pushed[|t.popped|..];
  }

  /** The slot the producer is about to write or has written but not published is never one the
      consumer may be moving out of or clearing. */
  ghost predicate NoSlotRace<T>(c: Config<T>, s: Ring<T>)
    requires c.Valid()
  {
    (s.producer.PRoom? || s.producer.PFilled?) && (s.consumer.CHasItem? || s.consumer.CMoved? || s.consumer.CCleared?)
    ==> c.Slot(s.producer.write) != c.Slot(s.consumer.read)
  }

  /** With loads that may be stale, successful operations still form a legal queue history, the
      occupancy stays within the capacity, each pop returns the value of the matching push, and the
      two threads never touch the same slot. */
  lemma SafeUnderStaleLoads<T>(c: Config<T>, actions: seq<Action<T>>)
    requires c.Valid() && Run(c, Start(c), actions)
    ensures var t := After(c, Start(c), actions);
            && NoSlotRace(c, t)
            && |t.popped| <= |t.pushed| <= |t.popped| + c.capacity
            && (forall i :: 0 <= i < |t.popped| ==> t.popped[i] == t.pushed[i])
            && FifoHistory(c.capacity, false, [], History(c, Start(c), actions), t.Contents())
  {
    StartInv(c);
    RunRefinesFifo(c, Start(c), actions, false);
    var t := After(c, Start(c), actions);
    CountersFaithful(c, |t.pushed|, |t.popped|);
    CountersFaithful(c, |t.popped|, |t.popped|);
    if (t.producer.PRoom? || t.producer.PFilled?)
        && (t.consumer.CHasItem? || t.consumer.CMoved? || t.consumer.CCleared?) {
      SlotsDiffer(|t.popped|, |t.pushed|, c.capacity);
    }
  }

  /** A refusal is never invented: the count the refusing load returned makes the ring full (or
      empty), and that count was current at some instant since the thread last looked. */
  lemma RefusalsWereTrue<T>(c: Config<T>, s: Ring<T>, a: Action<T>)
    requires Inv(c, s) && Enabled(s, a)
    ensures Emits(c, s, a) == [RefusedFull] <==> a.PushLoadRead? && |s.pushed| - a.k == c.capacity
    ensures Emits(c, s, a) == [RefusedEmpty] <==> a.PopLoadWrite? && a.k == |s.popped|
    ensures Emits(c, s, a) == [RefusedFull] ==> s.seenRead <= a.k <= |s.popped|
    ensures Emits(c, s, a) == [RefusedEmpty] ==> s.seenWrite == |s.popped|
  {
    match a
    case PushLoadRead(k) => CountersFaithful(c, |s.pushed|, k);
    case PopLoadWrite(k) => CountersFaithful(c, k, |s.popped|);
    case _ =>
  }

  // ---------------------------------------------------------------------------------------------
  // size_estimate and full from either owning thread

  /** Whatever a sizing consumer loaded was the exact length at that instant. */
  ghost predicate SizingExact<T>(s: Ring<T>) {
    |s.popped| <= s.seenWrite && (s.consumer.CSizing? ==> s.consumer.lengthAtLoad == s.seenWrite - |s.popped|)
  }

  lemma {:induction false} RunSizingExact<T>(c: Config<T>, s: Ring<T>, actions: seq<Action<T>>)
    requires Inv(c, s) && Run(c, s, actions) && CurrentRun(c, s, actions) && SizingExact(s)
    ensures SizingExact(After(c, s, actions))
    decreases |actions|
  {
    if actions != [] {
      StepInv(c, s, actions[0]);
      RunSizingExact(c, Next(c, s, actions[0]), actions[1..]);
    }
  }

  /** Even with stale loads an estimate is a possible length: the subtraction never wraps. */
  lemma StaleEstimateInRange<T>(c: Config<T>, actions: seq<Action<T>>, a: Action<T>)
    requires c.Valid() && Run(c, Start(c), actions) && Enabled(After(c, Start(c), actions), a)
    requires a.ProducerSizeEnd? || a.ConsumerSizeEnd?
    ensures var t := After(c, Start(c), actions);
            && 0 <= Estimate(c, t, a) <= c.capacity
            && Estimate(c, t, a) == if a.ProducerSizeEnd? then |t.pushed| - a.k else t.seenWrite - |t.popped|
  {
    StartInv(c);
    RunInv(c, Start(c), actions);
    var t := After(c, Start(c), actions);
    if a.ProducerSizeEnd? {
      CountersFaithful(c, |t.pushed|, a.k);
    } else {
      CountersFaithful(c, t.seenWrite, |t.popped|);
    }
  }

  /** What `full` answers when the step `a` ends a call to it: it makes the same loads and compares. */
  ghost predicate FullAnswer<T>(c: Config<T>, s: Ring<T>, a: Action<T>)
    requires Enabled(s, a) && (a.ProducerSizeEnd? || a.ConsumerSizeEnd?)
  {
    Estimate(c, s, a) >= c.capacity
  }

  /** In every sequentially consistent interleaving, a size estimate made by the producer thread is
      the exact queue length when it ends, one made by the consumer thread is the exact length when it
      loaded the write index; the subtraction never wraps, and `full` tells exactly whether the length
      was the capacity at the same instant. */
  lemma SizeEstimateExact<T>(c: Config<T>, actions: seq<Action<T>>, a: Action<T>)
    requires c.Valid() && Run(c, Start(c), actions) && CurrentRun(c, Start(c), actions)
    requires Enabled(After(c, Start(c), actions), a) && Current(After(c, Start(c), actions), a)
    requires a.ProducerSizeEnd? || a.ConsumerSizeEnd?
    ensures var t := After(c, Start(c), actions);
            && 0 <= Estimate(c, t, a) <= c.capacity
            && (a.ProducerSizeEnd? ==> Estimate(c, t, a) == |t.pushed| - |t.popped|)
            && (a.ConsumerSizeEnd? ==> Estimate(c, t, a) == t.consumer.lengthAtLoad)
            && (FullAnswer(c, t, a) <==> c.capacity == if a.ProducerSizeEnd? then |t.pushed| - |t.popped|
                                                       else t.consumer.lengthAtLoad)
  {
    StartInv(c);
    RunInv(c, Start(c), actions);
    RunSizingExact(c, Start(c), actions);
    var t := After(c, Start(c), actions);
    CountersFaithful(c, |t.pushed|, |t.popped|);
    CountersFaithful(c, t.seenWrite, |t.popped|);
  }

  // ---------------------------------------------------------------------------------------------
  // empty from either owning thread: the read index first, then the write index

  ghost predicate OfConsumer<T>(a: Action<T>) {
    a.PopStart? || a.PopLoadWrite? || a.PopMove? || a.PopClear? || a.PopStore? || a.ConsumerSizeStart?
        || a.ConsumerSizeEnd?
  }

  lemma {:induction false} OthersKeepOwnIndex<T>(c: Config<T>, s: Ring<T>, actions: seq<Action<T>>)
    requires Inv(c, s) && Run(c, s, actions)
    ensures Inv(c, After(c, s, actions))
    ensures (forall a :: a in actions ==> OfConsumer(a)) ==> After(c, s, actions).pushed == s.pushed
    ensures (forall a :: a in actions ==> !OfConsumer(a)) ==> After(c, s, actions).popped == s.popped
    decreases |actions|
  {
    if actions != [] {
      StepInv(c, s, actions[0]);
      OthersKeepOwnIndex(c, Next(c, s, actions[0]), actions[1..]);
      assert actions[0] in actions && forall a :: a in actions[1..] ==> a in actions;
      hide Inv, Enabled;
    }
  }

  /** `empty` loads the read index in state `s` and the write index after any steps of the other thread; the
      producer's answer is exact when it loaded the read index, the consumer's when it loaded the write index. */
  lemma EmptyExact<T>(c: Config<T>, s: Ring<T>, between: seq<Action<T>>)
    requires Inv(c, s) && Run(c, s, between)
    ensures var t := After(c, s, between);
            && ((forall a :: a in between ==> OfConsumer(a))
                ==> (s.readIndex == t.writeIndex <==> |s.pushed| == |s.popped|))
            && ((forall a :: a in between ==> !OfConsumer(a))
                ==> (s.readIndex == t.writeIndex <==> |t.pushed| == |t.popped|))
  {
    OthersKeepOwnIndex(c, s, between);
    var t := After(c, s, between);
    CountersFaithful(c, |s.pushed|, |s.popped|);
    CountersFaithful(c, |t.pushed|, |t.popped|);
  }

  // ---------------------------------------------------------------------------------------------
  // Wrapping counters refine counters that never wrap

  /** The state the wrapping ring is in when the ring with exact counters is in state `s`. */
  ghost function Narrow<T>(c: Config<T>, s: Ring<T>): Ring<T> {
    s.(writeIndex := c.Counter(s.writeIndex), readIndex := c.Counter(s.readIndex),
       producer := match s.producer
                   case PIdle => PIdle
                   case PStarted(v, w) => PStarted(v, c.Counter(w))
                   case PRoom(v, w) => PRoom(v, c.Counter(w))
                   case PFilled(v, w) => PFilled(v, c.Counter(w))
                   case PSizing(w) => PSizing(c.Counter(w)),
       consumer := match s.consumer
                   case CIdle => CIdle
                   case CStarted(r) => CStarted(c.Counter(r))
                   case CHasItem(r) => CHasItem(c.Counter(r))
                   case CMoved(r, out) => CMoved(c.Counter(r), out)
                   case CCleared(r, out) => CCleared(c.Counter(r), out)
                   case CSizing(w, n) => CSizing(c.Counter(w), n))
  }

  lemma LoadNarrows<T>(c: Config<T>, s: Ring<T>, a: Action<T>)
    requires c.Valid() && Inv(c.(wraps := false), s) && Enabled(s, a)
    requires a.PushLoadRead? || a.PopLoadWrite?
    ensures Enabled(Narrow(c, s), a)
    ensures Next(c, Narrow(c, s), a) == Narrow(c, Next(c.(wraps := false), s, a))
    ensures Emits(c, Narrow(c, s), a) == Emits(c.(wraps := false), s, a)
  {
    hide BitAnd, IsPowerOfTwo, Wrap;
    if a.PushLoadRead? {
      CountersFaithful(c, |s.pushed|, a.k);
    } else {
      CountersFaithful(c, a.k, |s.popped|);
    }
  }

  lemma FillNarrows<T>(c: Config<T>, s: Ring<T>, a: Action<T>)
    requires c.Valid() && Inv(c.(wraps := false), s) && Enabled(s, a)
    requires a.PushFill?
    ensures Enabled(Narrow(c, s), a)
    ensures Next(c, Narrow(c, s), a) == Narrow(c, Next(c.(wraps := false), s, a))
    ensures Emits(c, Narrow(c, s), a) == Emits(c.(wraps := false), s, a)
  {
    hide BitAnd, IsPowerOfTwo, Wrap;
    MaskOfWrapped(|s.pushed|, c.capacity);
  }

  lemma EraseNarrows<T>(c: Config<T>, s: Ring<T>, a: Action<T>)
    requires c.Valid() && Inv(c.(wraps := false), s) && Enabled(s, a)
    requires a.PopMove? || a.PopClear?
    ensures Enabled(Narrow(c, s), a)
    ensures Next(c, Narrow(c, s), a) == Narrow(c, Next(c.(wraps := false), s, a))
    ensures Emits(c, Narrow(c, s), a) == Emits(c.(wraps := false), s, a)
  {
    hide BitAnd, IsPowerOfTwo, Wrap;
    MaskOfWrapped(|s.popped|, c.capacity);
  }

  lemma StoreNarrows<T>(c: Config<T>, s: Ring<T>, a: Action<T>)
    requires c.Valid() && Inv(c.(wraps := false), s) && Enabled(s, a)
    requires a.PushStore? || a.PopStore?
    ensures Enabled(Narrow(c, s), a)
    ensures Next(c, Narrow(c, s), a) == Narrow(c, Next(c.(wraps := false), s, a))
    ensures Emits(c, Narrow(c, s), a) == Emits(c.(wraps := false), s, a)
  {
    hide BitAnd, IsPowerOfTwo, Wrap;
    WrapFaithful(|s.pushed|, |s.pushed|);
    WrapFaithful(|s.popped|, |s.popped|);
  }

  lemma StepNarrows<T>(c: Config<T>, s: Ring<T>, a: Action<T>)
    requires c.Valid() && Inv(c.(wraps := false), s) && Enabled(s, a)
    ensures Enabled(Narrow(c, s), a)
    ensures Next(c, Narrow(c, s), a) == Narrow(c, Next(c.(wraps := false), s, a))
    ensures Emits(c, Narrow(c, s), a) == Emits(c.(wraps := false), s, a)
  {
    hide BitAnd, IsPowerOfTwo, Wrap;
    match a
    case PushLoadRead(_) => LoadNarrows(c, s, a);
    case PopLoadWrite(_) => LoadNarrows(c, s, a);
    case PushFill => FillNarrows(c, s, a);
    case PopMove(_) => EraseNarrows(c, s, a);
    case PopClear => EraseNarrows(c, s, a);
    case PushStore => StoreNarrows(c, s, a);
    case PopStore => StoreNarrows(c, s, a);
    case _ =>
  }

  /** Forever, and in both directions: the ring with 64-bit counters makes exactly the runs of the ring whose
      counters never wrap; along them it emits the same events, takes the same branches and touches the same slots. */
  lemma {:induction false} WrappingRefinesUnbounded<T>(c: Config<T>, s: Ring<T>, actions: seq<Action<T>>)
    requires c.Valid() && Inv(c.(wraps := false), s)
    ensures Run(c, Narrow(c, s), actions) <==> Run(c.(wraps := false), s, actions)
    ensures Run(c, Narrow(c, s), actions) ==>
              && After(c, Narrow(c, s), actions) == Narrow(c, After(c.(wraps := false), s, actions))
              && History(c, Narrow(c, s), actions) == History(c.(wraps := false), s, actions)
    decreases |actions|
  {
    if actions != [] {
      var u := c.(wraps := false);
      assert Enabled(Narrow(c, s), actions[0]) <==> Enabled(s, actions[0]);
      if Enabled(s, actions[0]) {
        StepNarrows(c, s, actions[0]);
        StepInv(u, s, actions[0]);
        WrappingRefinesUnbounded(c, Next(u, s, actions[0]), actions[1..]);
      }
      hide Next, Emits, Enabled, Inv, Narrow;
    }
  }

  /** So every run of the real ring from its start is a run with exact counters, and leads to the same history. */
  lemma RealRunsAreUnbounded<T>(c: Config<T>, actions: seq<Action<T>>)
    requires c.Valid()
    ensures Run(c, Start(c), actions) <==> Run(c.(wraps := false), Start(c), actions)
    ensures Run(c, Start(c), actions) ==>
              && After(c, Start(c), actions) == Narrow(c, After(c.(wraps := false), Start(c), actions))
              && History(c, Start(c), actions) == History(c.(wraps := false), Start(c), actions)
  {
    var u := c.(wraps := false);
    StartInv(u);
    assert Start(u) == Start(c) && Narrow(c, Start(c)) == Start(c);
    WrappingRefinesUnbounded(c, Start(c), actions);
  }
}
