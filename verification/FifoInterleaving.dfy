/** The FIFO shared by an interrupt handler that pushes and a main loop that pulls.

    The driver takes no lock (fifo.h:60-69), so the two sides interleave between the reads and writes of
    the shared indices. Each action below is one such access: a push is test, store, publish; a pull is
    test, read, publish. The `barrier()` calls keep the three in program order. */
module FifoInterleaving {
  import opened Fifo

  datatype Producer<T> = ProducerReady | MustStore(item: T) | MustPublishWrite(item: T, nextWrite: nat)
  datatype Consumer<T> = ConsumerReady | MustRead | MustPublishRead(item: T, nextRead: nat)

  /** `pushed` and `pulled` are the histories of published pushes and completed pulls. */
  datatype State<T> = State(
    slots: seq<T>, size: nat, mask: nat, readIndex: nat, writeIndex: nat,
    producer: Producer<T>, consumer: Consumer<T>, pushed: seq<T>, pulled: seq<T>)

  datatype Action<T> = TestFull(item: T) | StoreSlot | PublishWrite | TestEmpty | ReadSlot | PublishRead

  function Initial<T>(slots: seq<T>): State<T>
    requires slots != []
  {
    State(slots, |slots|, 2 * |slots| - 1, 0, 0, ProducerReady, ConsumerReady, [], [])
  }

  ghost predicate Inv<T>(s: State<T>) {
    && LegalSize(s.size) && |s.slots| == s.size && s.mask == 2 * s.size - 1
    && |s.pulled| <= |s.pushed| <= |s.pulled| + s.size
    && s.writeIndex == |s.pushed| % (2 * s.size)
    && s.readIndex == |s.pulled| % (2 * s.size)
    && s.pulled <= s.pushed
    && (forall k {:trigger s.pushed[k]} :: |s.pulled| <= k < |s.pushed| ==> s.slots[k % s.size] == s.pushed[k])
    && (s.producer.ProducerReady? || |s.pushed| < |s.pulled| + s.size)
    && (s.producer.MustPublishWrite? ==>
          && s.producer.nextWrite == Next(s.writeIndex, s.mask)
          && s.slots[|s.pushed| % s.size] == s.producer.item)
    && (s.consumer.ConsumerReady? || |s.pulled| < |s.pushed|)
    && (s.consumer.MustPublishRead? ==>
          && s.consumer.nextRead == Next(s.readIndex, s.mask)
          && s.consumer.item == s.pushed[|s.pulled|])
  }

  /** One access by either side; an action of a side that is not due leaves the state alone. */
  ghost function Step<T>(s: State<T>, a: Action<T>): State<T>
    requires Slot(s.writeIndex, s.mask) < |s.slots| && Slot(s.readIndex, s.mask) < |s.slots|
  {
    match (a, s.producer, s.consumer)
    case (TestFull(item), ProducerReady, _) =>
      if UsedSize(s.writeIndex, s.readIndex, s.mask) == s.size then s else s.(producer := MustStore(item))
    case (StoreSlot, MustStore(item), _) =>
      s.(slots := s.slots[Slot(s.writeIndex, s.mask) := item],
         producer := MustPublishWrite(item, Next(s.writeIndex, s.mask)))
    case (PublishWrite, MustPublishWrite(item, nextWrite), _) =>
      s.(writeIndex := nextWrite, producer := ProducerReady, pushed := s.pushed + [item])
    case (TestEmpty, _, ConsumerReady) =>
      if s.writeIndex == s.readIndex then s else s.(consumer := MustRead)
    case (ReadSlot, _, MustRead) =>
      s.(consumer := MustPublishRead(s.slots[Slot(s.readIndex, s.mask)], Next(s.readIndex, s.mask)))
    case (PublishRead, _, MustPublishRead(item, nextRead)) =>
      s.(readIndex := nextRead, consumer := ConsumerReady, pulled := s.pulled + [item])
    case _ => s
  }

  /** The invariant read through the masks. */
  lemma Indices<T>(s: State<T>)
    requires Inv(s)
    ensures UsedSize(s.writeIndex, s.readIndex, s.mask) == |s.pushed| - |s.pulled|
    ensures s.writeIndex == s.readIndex <==> |s.pushed| == |s.pulled|
    ensures Slot(s.writeIndex, s.mask) == |s.pushed| % s.size < |s.slots|
    ensures Slot(s.readIndex, s.mask) == |s.pulled| % s.size < |s.slots|
    ensures Next(s.writeIndex, s.mask) == (|s.pushed| + 1) % (2 * s.size)
    ensures Next(s.readIndex, s.mask) == (|s.pulled| + 1) % (2 * s.size)
  {
    IndexArithmetic(s.size, |s.pushed|, |s.pulled|);
    IndexArithmetic(s.size, |s.pulled|, |s.pulled|);
  }

  /** A store never lands on a slot whose item has not been pulled yet. */
  lemma StoreSparesUnread<T>(s: State<T>, k: nat)
    requires Inv(s) && s.producer.MustStore? && |s.pulled| <= k < |s.pushed|
    ensures Slot(s.writeIndex, s.mask) != k % s.size
  {
    Indices(s);
    SlotsDiffer(s.size, k, |s.pushed|);
  }

  lemma StepKeepsInvariant<T>(s: State<T>, a: Action<T>)
    requires Inv(s)
    ensures Slot(s.writeIndex, s.mask) < |s.slots| && Slot(s.readIndex, s.mask) < |s.slots|
    ensures Inv(Step(s, a))
    ensures s.pushed <= Step(s, a).pushed && s.pulled <= Step(s, a).pulled && Step(s, a).size == s.size
  {
    Indices(s);
    if s.producer.MustStore? {
      forall k | |s.pulled| <= k < |s.pushed| ensures Slot(s.writeIndex, s.mask) != k % s.size {
        StoreSparesUnread(s, k);
      }
    }
  }

  /** Any schedule of the two sides. */
  ghost function Run<T>(s: State<T>, schedule: seq<Action<T>>): (end: State<T>)
    requires Inv(s)
    ensures Inv(end)
    ensures s.pushed <= end.pushed && s.pulled <= end.pulled && end.size == s.size
    decreases |schedule|
  {
    if schedule == [] then s
    else
      StepKeepsInvariant(s, schedule[0]);
      Run(Step(s, schedule[0]), schedule[1..])
  }

  lemma InitialIsValid<T>(slots: seq<T>)
    requires LegalSize(|slots|)
    ensures Inv(Initial(slots))
  {
  }

  /** Main result: for every legal size and every interleaving, what came out is a prefix of what went in,
      the used size the driver reports is the number of items in between and at most `size`, and every
      one of those items is still intact in its slot. */
  lemma EveryInterleavingIsAQueue<T>(slots: seq<T>, schedule: seq<Action<T>>)
    requires LegalSize(|slots|)
    ensures Inv(Initial(slots))
    ensures var end := Run(Initial(slots), schedule);
      && end.pulled <= end.pushed
      && UsedSize(end.writeIndex, end.readIndex, end.mask) == |end.pushed| - |end.pulled| <= |slots|
      && |end.slots| == |slots|
      && forall k :: |end.pulled| <= k < |end.pushed| ==> end.slots[k % |slots|] == end.pushed[k]
  {
    InitialIsValid(slots);
    Indices(Run(Initial(slots), schedule));
  }

  // ----- Every slot is usable: the ring fills to exactly `size`, and only then refuses

  ghost function PushSchedule<T>(items: seq<T>): seq<Action<T>> {
    if items == [] then [] else [TestFull(items[0]), StoreSlot, PublishWrite] + PushSchedule(items[1..])
  }

  lemma RunOne<T>(s: State<T>, a: Action<T>, rest: seq<Action<T>>)
    requires Inv(s)
    ensures Slot(s.writeIndex, s.mask) < |s.slots| && Slot(s.readIndex, s.mask) < |s.slots|
    ensures Inv(Step(s, a))
    ensures Run(s, [a] + rest) == Run(Step(s, a), rest)
  {
    StepKeepsInvariant(s, a);
    var schedule := [a] + rest;
    assert schedule[0] == a && schedule[1..] == rest;
  }

  lemma OnePush<T>(s: State<T>, item: T)
    requires Inv(s) && s.producer.ProducerReady?
    ensures var end := Run(s, [TestFull(item), StoreSlot, PublishWrite]);
      && end.producer.ProducerReady? && end.pulled == s.pulled
      && end.pushed == if |s.pushed| - |s.pulled| == s.size then s.pushed else s.pushed + [item]
  {
    Indices(s);
    RunOne(s, TestFull(item), [StoreSlot, PublishWrite]);
    assert [TestFull(item)] + [StoreSlot, PublishWrite] == [TestFull(item), StoreSlot, PublishWrite];
    var s1 := Step(s, TestFull(item));
    RunOne(s1, StoreSlot, [PublishWrite]);
    assert [Action<T>.StoreSlot] + [PublishWrite] == [StoreSlot, PublishWrite];
    var s2 := Step(s1, StoreSlot);
    RunOne(s2, PublishWrite, []);
    assert [Action<T>.PublishWrite] + [] == [PublishWrite];
  }

  lemma {:induction false} RunConcat<T>(s: State<T>, first: seq<Action<T>>, second: seq<Action<T>>)
    requires Inv(s)
    ensures Run(s, first + second) == Run(Run(s, first), second)
    decreases |first|
  {
    if first == [] {
      assert first + second == second;
    } else {
      var a, rest := first[0], first[1..];
      RunOne(s, a, rest);
      RunOne(s, a, rest + second);
      assert first == [a] + rest && first + second == [a] + (rest + second);
      RunConcat(Step(s, a), rest, second);
    }
  }

  ghost function Room<T>(s: State<T>): nat
    requires Inv(s)
  {
    s.size - (|s.pushed| - |s.pulled|)
  }

  function Accepted<T>(items: seq<T>, room: nat): seq<T> {
    if |items| <= room then items else items[..room]
  }

  lemma PushFirst<T>(s: State<T>, items: seq<T>) returns (s': State<T>)
    requires Inv(s) && s.producer.ProducerReady? && items != []
    ensures Inv(s') && s'.producer.ProducerReady? && s'.pulled == s.pulled
    ensures Run(s, PushSchedule(items)) == Run(s', PushSchedule(items[1..]))
    ensures Room(s) == 0 ==> s'.pushed == s.pushed && Room(s') == 0
    ensures Room(s) > 0 ==> s'.pushed == s.pushed + [items[0]] && Room(s') == Room(s) - 1
  {
    var one := [TestFull(items[0]), StoreSlot, PublishWrite];
    OnePush(s, items[0]);
    RunConcat(s, one, PushSchedule(items[1..]));
    s' := Run(s, one);
  }

  /** A producer left alone gets its items in up to the last slot; the rest are refused. */
  lemma {:induction false} FillsToTheLastSlot<T>(s: State<T>, items: seq<T>)
    requires Inv(s) && s.producer.ProducerReady?
    ensures Run(s, PushSchedule(items)).pulled == s.pulled
    ensures Run(s, PushSchedule(items)).pushed == s.pushed + Accepted(items, Room(s))
    decreases |items|
  {
    if items == [] {
    } else {
      var s' := PushFirst(s, items);
      FillsToTheLastSlot(s', items[1..]);
      AcceptedStep(s.pushed, items, Room(s));
    }
  }

  lemma AcceptedStep<T>(before: seq<T>, items: seq<T>, room: nat)
    requires items != []
    ensures room == 0 ==> before + Accepted(items, room) == before + Accepted(items[1..], 0)
    ensures room > 0 ==> before + Accepted(items, room) == before + [items[0]] + Accepted(items[1..], room - 1)
  {
  }

  // ----- And it drains to the last item: the consumer is refused only when nothing is left

  ghost function PullSchedule<T>(n: nat): seq<Action<T>> {
    if n == 0 then [] else [TestEmpty, ReadSlot, PublishRead] + PullSchedule(n - 1)
  }

  ghost function Pull3<T>(s: State<T>): State<T>
    requires Inv(s)
  {
    Run(s, [TestEmpty, ReadSlot, PublishRead])
  }

  /** The three accesses of a pull, one after the other. */
  lemma PullInSteps<T>(s: State<T>) returns (s1: State<T>, s2: State<T>)
    requires Inv(s)
    ensures Inv(s1) && Inv(s2)
    ensures Slot(s.writeIndex, s.mask) < |s.slots| && Slot(s.readIndex, s.mask) < |s.slots| && s1 == Step(s, TestEmpty)
    ensures Slot(s1.writeIndex, s1.mask) < |s1.slots| && Slot(s1.readIndex, s1.mask) < |s1.slots|
    ensures s2 == Step(s1, ReadSlot)
    ensures Slot(s2.writeIndex, s2.mask) < |s2.slots| && Slot(s2.readIndex, s2.mask) < |s2.slots|
    ensures Pull3(s) == Step(s2, PublishRead)
  {
    RunOne(s, TestEmpty, [ReadSlot, PublishRead]);
    assert [Action<T>.TestEmpty] + [ReadSlot, PublishRead] == [TestEmpty, ReadSlot, PublishRead];
    s1 := Step(s, TestEmpty);
    RunOne(s1, ReadSlot, [PublishRead]);
    assert [Action<T>.ReadSlot] + [PublishRead] == [ReadSlot, PublishRead];
    s2 := Step(s1, ReadSlot);
    RunOne(s2, PublishRead, []);
    assert [Action<T>.PublishRead] + [] == [PublishRead];
  }

  /** One pull gets the oldest item there is, and is refused exactly when everything pushed has been pulled. */
  lemma OnePull<T>(s: State<T>)
    requires Inv(s) && s.consumer.ConsumerReady?
    ensures Pull3(s).consumer.ConsumerReady? && Pull3(s).pushed == s.pushed
    ensures Pull3(s).pulled == if |s.pulled| == |s.pushed| then s.pulled else s.pulled + [s.pushed[|s.pulled|]]
  {
    Indices(s);
    var s1, s2 := PullInSteps(s);
  }

  lemma PullFirst<T>(s: State<T>, n: nat) returns (s': State<T>)
    requires Inv(s) && s.consumer.ConsumerReady? && n > 0
    ensures Inv(s') && s'.consumer.ConsumerReady? && s'.pushed == s.pushed && |s.pulled| <= |s.pushed|
    ensures |s'.pulled| == if |s.pulled| == |s.pushed| then |s.pulled| else |s.pulled| + 1
    ensures Run(s, PullSchedule(n)) == Run(s', PullSchedule(n - 1))
  {
    OnePull(s);
    RunConcat(s, [TestEmpty, ReadSlot, PublishRead], PullSchedule(n - 1));
    s' := Pull3(s);
  }

  lemma {:induction false} PullsDrain<T>(s: State<T>, n: nat)
    requires Inv(s) && s.consumer.ConsumerReady?
    ensures Run(s, PullSchedule(n)).pushed == s.pushed
    ensures |Run(s, PullSchedule(n)).pulled| == if |s.pulled| + n <= |s.pushed| then |s.pulled| + n else |s.pushed|
    decreases n
  {
    if n > 0 {
      var s' := PullFirst(s, n);
      PullsDrain(s', n - 1);
    }
  }

  /** A consumer left alone gets the items in order, down to the last one, also from a full ring; nothing is refused
      before everything pushed has come out. */
  lemma DrainsToTheLastItem<T>(s: State<T>, n: nat)
    requires Inv(s) && s.consumer.ConsumerReady?
    ensures Run(s, PullSchedule(n)).pushed == s.pushed
    ensures Run(s, PullSchedule(n)).pulled
         == if |s.pulled| + n <= |s.pushed| then s.pushed[..|s.pulled| + n] else s.pushed
  {
    PullsDrain(s, n);
  }
}
