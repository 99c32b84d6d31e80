/** The ring object: a buffer and two wrapping indices, updated in place. Each method is proved to be
    an uninterrupted run of the step machine of RingSteps, and to do what a bounded queue does. */
module SpscRings {
  import opened Words
  import opened RingSteps

  class SpscRing<T> {
    const capacity: nat
    const blank: T
    const buffer: array<T>
    var writeIndex: u64
    var readIndex: u64
    ghost var state: Ring<T>  // the step-machine state this object is in

    ghost function Machine(): Config<T> {
      Config(capacity, true, blank)
    }

    ghost predicate Valid()
      reads this, buffer
    {
      && Inv(Machine(), state) && state.producer.PIdle? && state.consumer.CIdle?
      && buffer.Length == capacity && state.buffer == buffer[..]
      && state.writeIndex == writeIndex && state.readIndex == readIndex
    }

    ghost function Contents(): (q: seq<T>)
      requires Valid()
      reads this, buffer
    {
      state.Contents()
    }

    constructor (capacity: nat, blank: T)
      requires 2 <= capacity < TWO_TO_64 && IsPowerOfTwo(capacity)
      ensures Valid() && Contents() == [] && this.capacity == capacity && this.blank == blank && fresh(buffer)
      ensures state == Start(Machine())
    {
      this.capacity := capacity;
      this.blank := blank;
      buffer := new T[capacity](_ => blank);
      writeIndex, readIndex := 0, 0;
      state := Start(Config(capacity, true, blank));
      new;
      StartInv(Machine());
      assert buffer[..] == state.buffer;
    }

    method TryPush(value: T) returns (ok: bool)
      requires Valid()
      modifies this, buffer
      ensures Valid()
      ensures ok <==> |old(Contents())| < capacity
      ensures Contents() == if ok then old(Contents()) + [value] else old(Contents())
      ensures Performs(Machine(), old(state), PushSteps(old(state), value, ok), state)
    {
      hide AfterPush, Inv, Performs, PushSteps, BitAnd, Wrap;
      PushRuns(Machine(), state, value);
      state := AfterPush(Machine(), state, value);
      var write: int := writeIndex;
      var read: int := readIndex;
      if Wrap(write - read) >= capacity {
        return false;
      }
      var slot := BitAnd(write, capacity - 1);
      buffer[slot] := value;
      assert buffer[..] == old(buffer[..])[slot := value];
      writeIndex := Wrap(write + 1);
      return true;
    }

    method TryPop(out: T) returns (ok: bool, value: T)
      requires Valid()
      modifies this, buffer
      ensures Valid()
      ensures ok <==> old(Contents()) != []
      ensures ok ==> value == old(Contents())[0] && Contents() == old(Contents())[1..]
      ensures !ok ==> value == out && Contents() == old(Contents())
      ensures Performs(Machine(), old(state), PopSteps(old(state), blank, ok), state)
    {
      hide AfterPop, Inv, Performs, PopSteps, BitAnd, Wrap;
      PopRuns(Machine(), state, blank);
      state := AfterPop(Machine(), state, blank);
      value := out;
      var read: int := readIndex;
      var write: int := writeIndex;
      if read == write {
        return false, value;
      }
      var slot := BitAnd(read, capacity - 1);
      value := buffer[slot];
      buffer[slot] := blank;
      assert buffer[..] == old(buffer[..])[slot := blank];
      readIndex := Wrap(read + 1);
      ok := true;
    }

    method Empty() returns (r: bool)
      requires Valid()
      ensures r <==> Contents() == []
    {
      LengthFaithful(Machine(), state);
      hide Inv, Wrap;
      r := readIndex == writeIndex;
    }

    method Full() returns (r: bool)
      requires Valid()
      ensures r <==> |Contents()| == capacity
    {
      LengthFaithful(Machine(), state);
      hide Inv, Wrap;
      r := Wrap(writeIndex - readIndex) >= capacity;
    }

    method SizeEstimate() returns (n: nat)
      requires Valid()
      ensures n == |Contents()|
    {
      LengthFaithful(Machine(), state);
      hide Inv, Wrap;
      n := Wrap(writeIndex - readIndex);
    }
  }

  /** What the indices say of the length. */
  lemma LengthFaithful<T>(c: Config<T>, s: Ring<T>)
    requires Inv(c, s) && c.wraps
    ensures Wrap(s.writeIndex - s.readIndex) == |s.Contents()| <= c.capacity
    ensures s.readIndex == s.writeIndex <==> s.Contents() == []
  {
    hide BitAnd, Wrap, IsPowerOfTwo;
    CountersFaithful(c, |s.pushed|, |s.popped|);
  }

  /** `actions` is a sequentially consistent run of the step machine from `s` to `t`. */
  ghost predicate Performs<T>(c: Config<T>, s: Ring<T>, actions: seq<Action<T>>, t: Ring<T>) {
    c.Valid() && |s.buffer| == c.capacity && Run(c, s, actions) && CurrentRun(c, s, actions)
        && After(c, s, actions) == t
  }

  /** The steps of one push made while the consumer stands still. */
  ghost function PushSteps<T>(s: Ring<T>, value: T, ok: bool): seq<Action<T>> {
    [PushStart(value), PushLoadRead(|s.popped|)] + if ok then [PushFill, PushStore] else []
  }

  /** The steps of one pop made while the producer stands still. */
  ghost function PopSteps<T>(s: Ring<T>, husk: T, ok: bool): seq<Action<T>> {
    [PopStart, PopLoadWrite(|s.pushed|)] + if ok then [PopMove(husk), PopClear, PopStore] else []
  }

  lemma FirstStep<T>(c: Config<T>, s: Ring<T>, a: Action<T>, rest: seq<Action<T>>, t: Ring<T>)
    requires c.Valid() && |s.buffer| == c.capacity && Enabled(s, a) && Current(s, a)
    requires Performs(c, Next(c, s, a), rest, t)
    ensures Performs(c, s, [a] + rest, t)
  {
    hide BitAnd, Wrap, IsPowerOfTwo;
    assert ([a] + rest)[1..] == rest;
  }

  ghost function AfterPush<T>(c: Config<T>, s: Ring<T>, value: T): Ring<T>
    requires Inv(c, s) && s.producer.PIdle?
  {
    var s2 := Next(c, Next(c, s, PushStart(value)), PushLoadRead(|s.popped|));
    if s2.producer.PRoom? then Next(c, Next(c, s2, PushFill), PushStore) else s2
  }

  ghost function AfterPop<T>(c: Config<T>, s: Ring<T>, husk: T): Ring<T>
    requires Inv(c, s) && s.consumer.CIdle?
  {
    var s2 := Next(c, Next(c, s, PopStart), PopLoadWrite(|s.pushed|));
    if s2.consumer.CHasItem? then Next(c, Next(c, Next(c, s2, PopMove(husk)), PopClear), PopStore) else s2
  }

  /** From room in the ring to the published value. */
  lemma PushTail<T>(c: Config<T>, s2: Ring<T>)
    requires Inv(c, s2) && s2.producer.PRoom?
    ensures var s4 := Next(c, Next(c, s2, PushFill), PushStore);
            Inv(c, s4) && Performs(c, s2, [PushFill, PushStore], s4)
  {
    hide BitAnd, Wrap, IsPowerOfTwo;
    var s3 := Next(c, s2, PushFill);
    var s4 := Next(c, s3, PushStore);
    StepInv(c, s2, PushFill);
    StepInv(c, s3, PushStore);
    FirstStep(c, s3, PushStore, [], s4);
    FirstStep(c, s2, PushFill, [PushStore], s4);
  }

  /** From a value in the ring to the slot given back. */
  lemma PopTail<T>(c: Config<T>, s2: Ring<T>, husk: T)
    requires c.Valid() && |s2.buffer| == c.capacity && s2.consumer.CHasItem?
    ensures Performs(c, s2, [PopMove(husk), PopClear, PopStore],
                     Next(c, Next(c, Next(c, s2, PopMove(husk)), PopClear), PopStore))
  {
    hide BitAnd, Wrap, IsPowerOfTwo;
    var s3 := Next(c, s2, PopMove(husk));
    var s4 := Next(c, s3, PopClear);
    var s5 := Next(c, s4, PopStore);
    FirstStep(c, s4, PopStore, [], s5);
    FirstStep(c, s3, PopClear, [PopStore], s5);
    FirstStep(c, s2, PopMove(husk), [PopClear, PopStore], s5);
    assert [PopMove(husk)] + [PopClear, PopStore] == [PopMove(husk), PopClear, PopStore];
  }

  lemma PushPerforms<T>(c: Config<T>, s: Ring<T>, value: T)
    requires Inv(c, s) && s.producer.PIdle?
    ensures var s2 := Next(c, Next(c, s, PushStart(value)), PushLoadRead(|s.popped|));
            Performs(c, s, PushSteps(s, value, s2.producer.PRoom?), AfterPush(c, s, value))
    ensures Inv(c, AfterPush(c, s, value))
  {
    hide BitAnd, Wrap, IsPowerOfTwo;
    var s1 := Next(c, s, PushStart(value));
    var s2 := Next(c, s1, PushLoadRead(|s.popped|));
    StepInv(c, s, PushStart(value));
    StepInv(c, s1, PushLoadRead(|s.popped|));
    if s2.producer.PRoom? {
      PushTail(c, s2);
      var s4 := Next(c, Next(c, s2, PushFill), PushStore);
      hide Performs, Inv;
      FirstStep(c, s1, PushLoadRead(|s.popped|), [PushFill, PushStore], s4);
      FirstStep(c, s, PushStart(value), [PushLoadRead(|s.popped|), PushFill, PushStore], s4);
      assert PushSteps(s, value, true) == [PushStart(value)] + [PushLoadRead(|s.popped|), PushFill, PushStore];
    } else {
      FirstStep(c, s1, PushLoadRead(|s.popped|), [], s2);
      FirstStep(c, s, PushStart(value), [PushLoadRead(|s.popped|)], s2);
      assert PushSteps(s, value, false) == [PushStart(value)] + [PushLoadRead(|s.popped|)];
    }
  }

  lemma PopKeepsInv<T>(c: Config<T>, s: Ring<T>, husk: T)
    requires Inv(c, s) && s.consumer.CIdle?
    ensures Inv(c, AfterPop(c, s, husk))
  {
    hide BitAnd, Wrap, IsPowerOfTwo;
    var s1 := Next(c, s, PopStart);
    var s2 := Next(c, s1, PopLoadWrite(|s.pushed|));
    StepInv(c, s, PopStart);
    StepInv(c, s1, PopLoadWrite(|s.pushed|));
    if s2.consumer.CHasItem? {
      StepInv(c, s2, PopMove(husk));
      StepInv(c, Next(c, s2, PopMove(husk)), PopClear);
      StepInv(c, Next(c, Next(c, s2, PopMove(husk)), PopClear), PopStore);
    }
  }

  lemma PopPerforms<T>(c: Config<T>, s: Ring<T>, husk: T)
    requires Inv(c, s) && s.consumer.CIdle?
    ensures var s2 := Next(c, Next(c, s, PopStart), PopLoadWrite(|s.pushed|));
            Performs(c, s, PopSteps(s, husk, s2.consumer.CHasItem?), AfterPop(c, s, husk))
  {
    hide BitAnd, Wrap, IsPowerOfTwo;
    var s1 := Next(c, s, PopStart);
    var s2 := Next(c, s1, PopLoadWrite(|s.pushed|));
    if s2.consumer.CHasItem? {
      PopTail(c, s2, husk);
      var s5 := Next(c, Next(c, Next(c, s2, PopMove(husk)), PopClear), PopStore);
      hide Performs;
      FirstStep(c, s1, PopLoadWrite(|s.pushed|), [PopMove(husk), PopClear, PopStore], s5);
      FirstStep(c, s, PopStart, [PopLoadWrite(|s.pushed|), PopMove(husk), PopClear, PopStore], s5);
      assert PopSteps(s, husk, true) == [PopStart] + [PopLoadWrite(|s.pushed|), PopMove(husk), PopClear, PopStore];
    } else {
      FirstStep(c, s1, PopLoadWrite(|s.pushed|), [], s2);
      FirstStep(c, s, PopStart, [PopLoadWrite(|s.pushed|)], s2);
      assert PopSteps(s, husk, false) == [PopStart] + [PopLoadWrite(|s.pushed|)];
    }
  }

  lemma PushEffect<T>(c: Config<T>, s: Ring<T>, value: T)
    requires Inv(c, s) && s.producer.PIdle?
    ensures var s2 := Next(c, Next(c, s, PushStart(value)), PushLoadRead(|s.popped|));
            var room := |s.pushed| - |s.popped| < c.capacity;
            && (s2.producer.PRoom? <==> room)
            && AfterPush(c, s, value)
            == if room then s.(seenRead := |s.popped|, buffer := s.buffer[c.Slot(s.writeIndex) := value],
                               writeIndex := c.Counter(s.writeIndex + 1), pushed := s.pushed + [value])
               else s.(seenRead := |s.popped|)
  {
    hide BitAnd, Wrap, IsPowerOfTwo;
    CountersFaithful(c, |s.pushed|, |s.popped|);
    assert c.Distance(s.writeIndex, c.Counter(|s.popped|)) == |s.pushed| - |s.popped|;
    hide Config.Slot, Config.Counter, Config.Distance, Inv, Config.Valid;
  }

  lemma PopEffect<T>(c: Config<T>, s: Ring<T>, husk: T)
    requires Inv(c, s) && s.consumer.CIdle?
    ensures var s2, some := Next(c, Next(c, s, PopStart), PopLoadWrite(|s.pushed|)), |s.popped| < |s.pushed|;
            && (s2.consumer.CHasItem? <==> some)
            && AfterPop(c, s, husk)
            == if some then s.(seenWrite := |s.pushed|, buffer := s.buffer[c.Slot(s.readIndex) := c.blank],
                               readIndex := c.Counter(s.readIndex + 1),
                               popped := s.popped + [s.buffer[c.Slot(s.readIndex)]])
               else s.(seenWrite := |s.pushed|)
  {
    hide BitAnd, Wrap, IsPowerOfTwo;
    CountersFaithful(c, |s.pushed|, |s.popped|);
    Overwritten(s.buffer, c.Slot(s.readIndex), husk, c.blank);
    assert s.readIndex == c.Counter(|s.pushed|) <==> |s.popped| == |s.pushed|;
    hide Config.Slot, Config.Counter, Config.Distance, Inv, Config.Valid;
  }

  lemma Overwritten<T>(buffer: seq<T>, slot: nat, husk: T, blank: T)
    requires slot < |buffer|
    ensures buffer[slot := husk][slot := blank] == buffer[slot := blank]
  {
  }

  /** The oldest value lies in the read slot. */
  lemma ReadSlotHolds<T>(c: Config<T>, s: Ring<T>)
    requires Inv(c, s) && s.consumer.CIdle? && |s.popped| < |s.pushed|
    ensures s.buffer[c.Slot(s.readIndex)] == s.Contents()[0]
  {
    hide BitAnd, Wrap, IsPowerOfTwo;
    CountersFaithful(c, |s.popped|, |s.popped|);
    assert s.pushed[|s.popped|] == s.Contents()[0];
  }

  /** The effect of an uninterrupted push, in closed form. */
  lemma PushRuns<T>(c: Config<T>, s: Ring<T>, value: T)
    requires Inv(c, s) && s.producer.PIdle? && c.wraps
    ensures var t, ok := AfterPush(c, s, value), Wrap(s.writeIndex - s.readIndex) < c.capacity;
            && c.capacity > 0 && Inv(c, t) && t.producer.PIdle? && t.consumer == s.consumer
            && Performs(c, s, PushSteps(s, value, ok), t)
            && (ok <==> |s.Contents()| < c.capacity)
            && t.Contents() == (if ok then s.Contents() + [value] else s.Contents())
            && t.buffer == (if ok then s.buffer[BitAnd(s.writeIndex, c.capacity - 1) := value] else s.buffer)
            && t.writeIndex == (if ok then Wrap(s.writeIndex + 1) else s.writeIndex) && t.readIndex == s.readIndex
  {
    hide AfterPush, Next, Performs, PushSteps, SlotsHold, BitAnd, Wrap;
    PushPerforms(c, s, value);
    PushEffect(c, s, value);
    LengthFaithful(c, s);
    assert (s.pushed + [value])[|s.popped|..] == s.Contents() + [value];
  }

  /** The effect of an uninterrupted pop, in closed form. */
  lemma PopRuns<T>(c: Config<T>, s: Ring<T>, husk: T)
    requires Inv(c, s) && s.consumer.CIdle? && c.wraps
    ensures var t, ok := AfterPop(c, s, husk), s.readIndex != s.writeIndex;
            && c.capacity > 0 && Inv(c, t) && t.consumer.CIdle? && t.producer == s.producer
            && Performs(c, s, PopSteps(s, husk, ok), t)
            && (ok <==> s.Contents() != [])
            && t.Contents() == (if ok then s.Contents()[1..] else s.Contents())
            && (ok ==> s.buffer[BitAnd(s.readIndex, c.capacity - 1)] == s.Contents()[0])
            && t.buffer == (if ok then s.buffer[BitAnd(s.readIndex, c.capacity - 1) := c.blank] else s.buffer)
            && t.readIndex == (if ok then Wrap(s.readIndex + 1) else s.readIndex) && t.writeIndex == s.writeIndex
  {
    hide AfterPop, Next, Performs, PopSteps, SlotsHold, BitAnd, Wrap;
    PopPerforms(c, s, husk);
    PopKeepsInv(c, s, husk);
    PopEffect(c, s, husk);
    LengthFaithful(c, s);
    if |s.popped| < |s.pushed| {
      ReadSlotHolds(c, s);
      assert s.pushed[|s.popped| + 1..] == s.Contents()[1..];
    }
  }
}
