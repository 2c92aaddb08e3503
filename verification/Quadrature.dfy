/** Decoding the encoders' quadrature signals, and the filter against fast reversals (input.c). */
module Quadrature {
  import opened EncoderValues

  const ENCODER_INACTIVE_THRESHOLD := 100
  const ENCODER_DEBOUNCE_CYCLE_TIMEOUT := 6
  const AMBIGUOUS := -127

  const ENCODER_ACTION_BY_STATE: seq<int> := [
    0, -1, 1, -127,
    1, 0, -127, -1,
    -1, -127, 0, 1,
    -127, 1, -1, 0
  ]

  // ----- The decoder against the shaft

  /** The two channel levels. */
  datatype Levels = Levels(a: bool, b: bool)

  /** The table lookup of encoder_scan. */
  function Action(prev: Levels, now: Levels): int {
    ENCODER_ACTION_BY_STATE[
      (if now.a then 4 else 0) + (if now.b then 8 else 0) + (if prev.a then 1 else 0) + (if prev.b then 2 else 0)]
  }

  /** The levels a shaft at position `p` shows: a Gray code of period four. */
  function Code(p: int): Levels {
    Levels(p % 4 == 1 || p % 4 == 2, p % 4 == 2 || p % 4 == 3)
  }

  predicate TwoBitJump(prev: Levels, now: Levels) {
    prev.a != now.a && prev.b != now.b
  }

  /** One scan decodes the movement of the shaft; only a two-bit jump is ambiguous. */
  lemma ActionIsMovement(p: int, now: Levels)
    ensures TwoBitJump(Code(p), now) <==> Action(Code(p), now) == AMBIGUOUS
    ensures !TwoBitJump(Code(p), now) ==>
              -1 <= Action(Code(p), now) <= 1 && Code(p + Action(Code(p), now)) == now
    ensures forall q :: p - 1 <= q <= p + 1 && Code(q) == now ==> Action(Code(p), now) == q - p
  {
    if p % 4 == 0 {
    } else if p % 4 == 1 {
    } else if p % 4 == 2 {
    } else {
    }
  }

  predicate NoTwoBitJumps(samples: seq<Levels>) {
    forall i :: 0 <= i < |samples| - 1 ==> !TwoBitJump(samples[i], samples[i + 1])
  }

  /** The sum of the decoded actions over a stream of samples. */
  function Displacement(samples: seq<Levels>): int {
    if |samples| < 2 then 0 else Action(samples[0], samples[1]) + Displacement(samples[1..])
  }

  /** A movement of the shaft that shows `samples`: one position per sample, never more than a step apart. */
  predicate Shows(positions: seq<int>, samples: seq<Levels>) {
    && |positions| == |samples|
    && (forall i :: 0 <= i < |positions| ==> Code(positions[i]) == samples[i])
    && (forall i :: 0 <= i < |positions| - 1 ==> positions[i] - 1 <= positions[i + 1] <= positions[i] + 1)
  }

  /** Whatever movement produced the samples, its displacement is the sum of the decoded actions. */
  lemma {:induction false} DecodesDisplacement(positions: seq<int>, samples: seq<Levels>)
    requires Shows(positions, samples) && samples != []
    ensures Displacement(samples) == positions[|positions| - 1] - positions[0]
  {
    if |samples| == 1 {
    } else {
      var ps, ss := positions[1..], samples[1..];
      assert forall i :: 0 <= i < |ps| ==> ps[i] == positions[i + 1];
      assert Shows(ps, ss) by {
        forall i | 0 <= i < |ps| - 1 ensures ps[i] - 1 <= ps[i + 1] <= ps[i] + 1 {
          assert positions[i + 1] - 1 <= positions[i + 1 + 1];
        }
      }
      DecodesDisplacement(ps, ss);
      ActionIsMovement(positions[0], samples[1]);
      assert Code(positions[0 + 1]) == samples[1];
    }
  }

  /** Samples without two-bit jumps are always shown by some movement, from any position with the right code. */
  lemma {:induction false} SomeMovementShows(samples: seq<Levels>, start: int) returns (positions: seq<int>)
    requires samples != [] && NoTwoBitJumps(samples) && Code(start) == samples[0]
    ensures Shows(positions, samples) && positions[0] == start
    decreases |samples|
  {
    if |samples| == 1 {
      positions := [start];
    } else {
      ActionIsMovement(start, samples[1]);
      assert !TwoBitJump(samples[0], samples[0 + 1]);
      var rest := SomeMovementShows(samples[1..], start + Action(samples[0], samples[1]));
      positions := [start] + rest;
    }
  }

  // ----- The reversal filter

  /** What is kept per encoder. */
  datatype Channel = Channel(pending: int, inactive: nat, lastMovement: int, cycles: nat)

  predicate IsChannel(c: Channel) {
    IsInt8(c.pending) && c.inactive <= ENCODER_INACTIVE_THRESHOLD && -1 <= c.lastMovement <= 1
  }

  predicate IsIdle(action: int) {
    action == 0 || action <= AMBIGUOUS
  }

  /** Whether an event in direction `dir` is added to the tally: after a pause of six scans, or in the
      direction of the previous event. */
  predicate Accepted(c: Channel, dir: int) {
    c.inactive + 1 >= ENCODER_DEBOUNCE_CYCLE_TIMEOUT || c.lastMovement == dir
  }

  function Direction(action: int): int {
    if action < 0 then -1 else 1
  }

  /** What one scan does to one encoder. */
  function Scanned(c: Channel, action: int): Channel {
    if IsIdle(action) then
      if c.inactive < ENCODER_INACTIVE_THRESHOLD then c.(inactive := c.inactive + 1) else c
    else if Accepted(c, Direction(action)) then
      Channel(Wrap8(c.pending + Direction(action)), 0, Direction(action), (c.cycles + c.inactive + 1) % 0x1_0000)
    else c.(inactive := 0, lastMovement := Direction(action))
  }

  /** A scan that samples these levels, or a call of get_encoder_value. */
  datatype Op = Sample(now: Levels) | Take

  /** One encoder in the course of a run. Beside what the firmware keeps stand three unbounded totals: the
      counts returned, the events the filter rejected, and how often the pending count has wrapped upwards
      more than downwards. */
  datatype Tally = Tally(prev: Levels, c: Channel, returned: int, rejected: int, wraps: int)

  /** The net number of wraps by which `pending` misses int8. */
  function Wraps(pending: int): int {
    if pending > 127 then 1 else if pending < -128 then -1 else 0
  }

  function Counted(t: Tally, action: int): Tally {
    var t', dir := t.(c := Scanned(t.c, action)), Direction(action);
    if IsIdle(action) then t'
    else if Accepted(t.c, dir) then t'.(wraps := t.wraps + Wraps(t.c.pending + dir))
    else t'.(rejected := t.rejected + dir)
  }

  function Ran(t: Tally, op: Op): Tally {
    match op
    case Take => t.(c := t.c.(pending := 0), returned := t.returned + t.c.pending)
    case Sample(now) => Counted(t, Action(t.prev, now)).(prev := now)
  }

  function RanAll(t: Tally, ops: seq<Op>): Tally
    decreases |ops|
  {
    if ops == [] then t else RanAll(Ran(t, ops[0]), ops[1..])
  }

  /** The levels sampled in a run, after those before it. */
  function Sampled(prev: Levels, ops: seq<Op>): (samples: seq<Levels>)
    ensures |samples| > 0 && samples[0] == prev
    decreases |ops|
  {
    if ops == [] then [prev]
    else match ops[0]
      case Take => Sampled(prev, ops[1..])
      case Sample(now) => [prev] + Sampled(now, ops[1..])
  }

  /** What the firmware has accounted for. */
  function Accounted(t: Tally): int {
    t.returned + t.c.pending + t.rejected
  }

  /** Between `t` and the later `end` the shaft's `movement` has been accounted for, except for 256 counts at
      each wrap of the pending count. */
  predicate AddsUp(t: Tally, end: Tally, movement: int) {
    Accounted(end) - Accounted(t) == movement - 256 * (end.wraps - t.wraps)
  }

  lemma AddsUpInTurn(t: Tally, middle: Tally, end: Tally, first: int, second: int)
    requires AddsUp(t, middle, first) && AddsUp(middle, end, second)
    ensures AddsUp(t, end, first + second)
  {
  }

  /** Main result: over every run of scans and reads, in whatever order, the movement of the shaft that
      produced the samples has been returned, is pending, or was rejected by the filter, but for the wraps. */
  lemma {:induction false} NothingIsLost(t: Tally, ops: seq<Op>, positions: seq<int>)
    requires IsChannel(t.c) && Shows(positions, Sampled(t.prev, ops))
    ensures IsChannel(RanAll(t, ops).c)
    ensures AddsUp(t, RanAll(t, ops), positions[|positions| - 1] - positions[0])
    decreases |ops|
  {
    if ops == [] {
    } else if ops[0].Take? {
      NothingIsLost(Ran(t, ops[0]), ops[1..], positions);
    } else {
      var now, next, last := ops[0].now, Ran(t, ops[0]), positions[|positions| - 1];
      FollowsTheShaft(positions, t.prev, Sampled(now, ops[1..]));
      ScanLosesNothing(t, now, positions[0], positions[1]);
      NothingIsLost(next, ops[1..], positions[1..]);
      AddsUpInTurn(t, next, RanAll(t, ops), positions[1] - positions[0], last - positions[1]);
    }
  }

  /** The rest of a movement shows the rest of the samples. */
  lemma FollowsTheShaft(positions: seq<int>, prev: Levels, samples: seq<Levels>)
    requires samples != [] && Shows(positions, [prev] + samples)
    ensures |positions| > 1 && Shows(positions[1..], samples)
    ensures Code(positions[0]) == prev && Code(positions[1]) == samples[0]
    ensures positions[0] - 1 <= positions[1] <= positions[0] + 1
  {
    var ps := positions[1..];
    assert positions[0] - 1 <= positions[0 + 1] <= positions[0] + 1;
    assert positions[1] == ps[0] && ([prev] + samples)[1] == samples[0];
    forall i | 0 <= i < |ps| ensures ps[i] == positions[i + 1] && Code(ps[i]) == samples[i] {
      assert ([prev] + samples)[i + 1] == samples[i];
    }
    forall i | 0 <= i < |ps| - 1 ensures ps[i] - 1 <= ps[i + 1] <= ps[i] + 1 {
      assert positions[i + 1] - 1 <= positions[i + 1 + 1] <= positions[i + 1] + 1;
    }
  }

  /** One scan accounts for the one step, if any, that the shaft has made. */
  lemma ScanLosesNothing(t: Tally, now: Levels, p: int, q: int)
    requires IsChannel(t.c) && Code(p) == t.prev && Code(q) == now && p - 1 <= q <= p + 1
    ensures var t' := Ran(t, Sample(now));
      IsChannel(t'.c) && t'.prev == now && AddsUp(t, t', q - p)
  {
    ActionIsMovement(p, now);
  }

  /** Reads come often enough that no more than `budget` samples come before the first of them and no more than
      127 between two, or after the last. */
  predicate ReadInTime(ops: seq<Op>, budget: nat)
    decreases |ops|
  {
    || ops == []
    || (ops[0].Take? && ReadInTime(ops[1..], 127))
    || (ops[0].Sample? && budget > 0 && ReadInTime(ops[1..], budget - 1))
  }

  /** Then the pending count never wraps. */
  lemma {:induction false} NeverWraps(t: Tally, ops: seq<Op>, budget: nat)
    requires ReadInTime(ops, budget) && -127 <= t.c.pending - budget && t.c.pending + budget <= 127
    ensures RanAll(t, ops).wraps == t.wraps
    decreases |ops|
  {
    if ops == [] {
    } else if ops[0].Take? {
      NeverWraps(Ran(t, ops[0]), ops[1..], 127);
    } else {
      NeverWraps(Ran(t, ops[0]), ops[1..], budget - 1);
    }
  }

  /** Hence with at most 127 samples between two reads, whatever they are, everything adds up exactly. */
  lemma ReadInTimeLosesNothing(t: Tally, ops: seq<Op>, positions: seq<int>)
    requires t.c.pending == 0 && ReadInTime(ops, 127)
    requires IsChannel(t.c) && Shows(positions, Sampled(t.prev, ops))
    ensures Accounted(RanAll(t, ops)) - Accounted(t) == positions[|positions| - 1] - positions[0]
  {
    NothingIsLost(t, ops, positions);
    NeverWraps(t, ops, 127);
  }

  /** The samples of a steady turn by `n` steps upwards from position `p`. */
  function SteadyTurn(p: int, n: nat): seq<Op>
    decreases n
  {
    if n == 0 then [] else [Sample(Code(p + 1))] + SteadyTurn(p + 1, n - 1)
  }

  /** And 127 is the most: the 128th sample of a steady turn wraps. */
  lemma {:induction false} TheNextOneWraps(t: Tally, p: int, n: nat)
    requires IsChannel(t.c) && t.prev == Code(p) && Accepted(t.c, 1) && t.c.pending + n <= 128
    ensures RanAll(t, SteadyTurn(p, n)).wraps == t.wraps + if t.c.pending + n == 128 then 1 else 0
    decreases n
  {
    if n > 0 {
      ActionIsMovement(p, Code(p + 1));
      var turn, next := SteadyTurn(p, n), Ran(t, Sample(Code(p + 1)));
      assert turn[1..] == SteadyTurn(p + 1, n - 1);
      if n > 1 {
        TheNextOneWraps(next, p + 1, n - 1);
      } else {
        assert RanAll(t, turn) == RanAll(next, []) == next;
      }
    }
  }

  /** The same for any samples without two-bit jumps: the decoded displacement is accounted for. */
  lemma DecodedIsAccountedFor(t: Tally, ops: seq<Op>)
    requires IsChannel(t.c) && NoTwoBitJumps(Sampled(t.prev, ops))
    ensures AddsUp(t, RanAll(t, ops), Displacement(Sampled(t.prev, ops)))
  {
    var samples := Sampled(t.prev, ops);
    var start := SomePosition(t.prev);
    var positions := SomeMovementShows(samples, start);
    DecodesDisplacement(positions, samples);
    NothingIsLost(t, ops, positions);
  }

  /** Every pair of levels is shown by some position. */
  lemma SomePosition(levels: Levels) returns (p: int)
    ensures Code(p) == levels
  {
    p := if levels.a then (if levels.b then 2 else 1) else (if levels.b then 3 else 0);
  }

  // ----- Which events the filter rejects

  /** A scan that shows a movement, up or down. */
  predicate IsEvent(action: int) {
    action == 1 || action == -1
  }

  /** The actions decoded in a run. */
  function Decoded(prev: Levels, ops: seq<Op>): (actions: seq<int>)
    decreases |ops|
  {
    if ops == [] then []
    else match ops[0]
      case Take => Decoded(prev, ops[1..])
      case Sample(now) => [Action(prev, now)] + Decoded(now, ops[1..])
  }

  /** The sum of the events; idle scans and two-bit jumps do not count. */
  function EventSum(actions: seq<int>): int
    decreases |actions|
  {
    if actions == [] then 0
    else
      var last := actions[|actions| - 1];
      EventSum(actions[..|actions| - 1]) + if IsEvent(last) then last else 0
  }

  /** The event at `j` is the last one. */
  ghost predicate IsLastEvent(actions: seq<int>, j: int) {
    0 <= j < |actions| && IsEvent(actions[j]) && forall k :: j < k < |actions| ==> !IsEvent(actions[k])
  }

  ghost predicate NoEvents(actions: seq<int>) {
    forall k :: 0 <= k < |actions| ==> !IsEvent(actions[k])
  }

  /** An event in direction `dir`, coming after the scans `before` since power-up, is too early: fewer than six
      scans after an event in the other direction, or the first of all and among the first five scans. */
  ghost predicate TooEarly(before: seq<int>, dir: int) {
    || (exists j :: IsLastEvent(before, j) && |before| - j < 6 && before[j] == -dir)
    || (NoEvents(before) && |before| < 5)
  }

  /** The sum of the events that come too early. */
  ghost function EarlySum(actions: seq<int>): int
    decreases |actions|
  {
    if actions == [] then 0
    else
      var before, last := actions[..|actions| - 1], actions[|actions| - 1];
      EarlySum(before) + if IsEvent(last) && TooEarly(before, last) then last else 0
  }

  /** What the filter remembers of the actions since power-up. */
  ghost predicate Remembers(c: Channel, actions: seq<int>) {
    && (NoEvents(actions) ==> c.lastMovement == 0 && c.inactive == AtMost100(|actions|))
    && (forall j :: IsLastEvent(actions, j) ==>
          c.lastMovement == actions[j] && c.inactive == AtMost100(|actions| - 1 - j))
  }

  function AtMost100(n: int): int {
    if n < 100 then n else 100
  }

  lemma {:induction false} LastEvent(actions: seq<int>) returns (j: int)
    ensures if j < 0 then NoEvents(actions) else IsLastEvent(actions, j)
    decreases |actions|
  {
    if actions == [] {
      j := -1;
    } else if IsEvent(actions[|actions| - 1]) {
      j := |actions| - 1;
    } else {
      j := LastEvent(actions[..|actions| - 1]);
    }
  }

  /** One more event is accepted exactly when it does not come too early. */
  lemma AcceptedUnlessTooEarly(c: Channel, before: seq<int>, dir: int)
    requires Remembers(c, before) && IsEvent(dir)
    ensures Accepted(c, dir) <==> !TooEarly(before, dir)
  {
    var j := LastEvent(before);
    if j >= 0 {
      assert forall k :: IsLastEvent(before, k) ==> k == j;
    }
  }

  lemma RemembersOneMore(c: Channel, before: seq<int>, action: int)
    requires Remembers(c, before) && action in ENCODER_ACTION_BY_STATE
    ensures Remembers(Scanned(c, action), before + [action])
  {
    var actions, c' := before + [action], Scanned(c, action);
    assert actions[|before|] == action && forall k :: 0 <= k < |before| ==> actions[k] == before[k];
    if IsEvent(action) {
      assert IsLastEvent(actions, |before|);
      assert forall k :: IsLastEvent(actions, k) ==> k == |before|;
    } else {
      assert NoEvents(actions) ==> NoEvents(before);
      assert forall k :: IsLastEvent(actions, k) ==> IsLastEvent(before, k);
    }
  }

  /** The cycles an event adds: the scans since the event before it, or since power-up, at most 101; none if it
      is rejected. */
  lemma CyclesSinceLastEvent(c: Channel, before: seq<int>, dir: int)
    requires Remembers(c, before) && IsEvent(dir)
    ensures var cycles := Scanned(c, dir).cycles;
      && (TooEarly(before, dir) ==> cycles == c.cycles)
      && (!TooEarly(before, dir) && NoEvents(before) ==>
            cycles == (c.cycles + if |before| + 1 < 101 then |before| + 1 else 101) % 0x1_0000)
      && (!TooEarly(before, dir) ==> forall j :: IsLastEvent(before, j) ==>
            cycles == (c.cycles + if |before| - j < 101 then |before| - j else 101) % 0x1_0000)
  {
    AcceptedUnlessTooEarly(c, before, dir);
  }

  /** As the arrays start out: no event yet, and "unknown movement". */
  predicate PoweredUp(c: Channel) {
    IsChannel(c) && c.inactive == 0 && c.lastMovement == 0
  }

  lemma {:induction false} RanOneMore(t: Tally, ops: seq<Op>, op: Op)
    ensures RanAll(t, ops + [op]) == Ran(RanAll(t, ops), op)
    ensures Decoded(t.prev, ops + [op])
         == Decoded(t.prev, ops) + if op.Sample? then [Action(RanAll(t, ops).prev, op.now)] else []
    decreases |ops|
  {
    if ops == [] {
      assert ops + [op] == [op] && [op][1..] == [];
      assert RanAll(t, [op]) == RanAll(Ran(t, op), []);
    } else {
      assert (ops + [op])[1..] == ops[1..] + [op];
      RanOneMore(Ran(t, ops[0]), ops[1..], op);
    }
  }

  lemma SumsOneMore(actions: seq<int>, action: int)
    ensures EventSum(actions + [action]) == EventSum(actions) + if IsEvent(action) then action else 0
    ensures EarlySum(actions + [action])
         == EarlySum(actions) + if IsEvent(action) && TooEarly(actions, action) then action else 0
  {
    var longer := actions + [action];
    assert longer[..|longer| - 1] == actions && longer[|longer| - 1] == action;
  }

  lemma ActionIsInTheTable(prev: Levels, now: Levels)
    ensures Action(prev, now) in ENCODER_ACTION_BY_STATE
    ensures IsEvent(Action(prev, now)) <==> !IsIdle(Action(prev, now))
  {
  }

  lemma OneActionMore(t: Tally, actions: seq<int>, action: int)
    requires IsChannel(t.c) && Remembers(t.c, actions)
    requires -127 <= action <= 1 && (IsEvent(action) <==> !IsIdle(action))
    ensures var t' := Counted(t, action);
      && IsChannel(t'.c)
      && t'.rejected - t.rejected == (if IsEvent(action) && TooEarly(actions, action) then action else 0)
      && AddsUp(t, t', if IsEvent(action) then action else 0)
  {
    if IsEvent(action) {
      AcceptedUnlessTooEarly(t.c, actions, action);
    }
  }

  /** What one scan adds. */
  lemma OneScanMore(t: Tally, actions: seq<int>, now: Levels)
    requires IsChannel(t.c) && Remembers(t.c, actions)
    ensures var t', actions' := Ran(t, Sample(now)), actions + [Action(t.prev, now)];
      && Remembers(t'.c, actions') && IsChannel(t'.c)
      && t'.rejected - t.rejected == EarlySum(actions') - EarlySum(actions)
      && AddsUp(t, t', EventSum(actions') - EventSum(actions))
  {
    var action := Action(t.prev, now);
    ActionIsInTheTable(t.prev, now);
    RemembersOneMore(t.c, actions, action);
    SumsOneMore(actions, action);
    OneActionMore(t, actions, action);
  }

  /** Main result on the filter: over every run since power-up, with or without two-bit jumps, the rejected
      events are exactly those that come too early, and all others have been returned or are pending. */
  lemma {:induction false} OnlyEarlyEventsAreRejected(t: Tally, ops: seq<Op>)
    requires PoweredUp(t.c)
    ensures var end, actions := RanAll(t, ops), Decoded(t.prev, ops);
      && Remembers(end.c, actions) && IsChannel(end.c)
      && end.rejected - t.rejected == EarlySum(actions)
      && AddsUp(t, end, EventSum(actions))
    decreases |ops|
  {
    if ops == [] {
    } else {
      var before, op := ops[..|ops| - 1], ops[|ops| - 1];
      assert ops == before + [op];
      OnlyEarlyEventsAreRejected(t, before);
      RanOneMore(t, before, op);
      var middle, actions := RanAll(t, before), Decoded(t.prev, before);
      if op.Sample? {
        OneScanMore(middle, actions, op.now);
        AddsUpInTurn(t, middle, Ran(middle, op), EventSum(actions), EventSum(Decoded(t.prev, ops)) - EventSum(actions));
      } else {
        assert actions + [] == actions;
        assert RanAll(t, ops).c == middle.c.(pending := 0);
      }
    }
  }

  /** The very first click is lost if it comes at once: the filter cannot tell it from a reversal. */
  lemma FirstClickIsLost(t: Tally, now: Levels)
    requires PoweredUp(t.c) && IsEvent(Action(t.prev, now))
    ensures var end := RanAll(t, [Sample(now)]);
      end.c.pending == t.c.pending && end.returned == t.returned && end.rejected == t.rejected + Action(t.prev, now)
  {
    var ops := [Sample(now)];
    assert ops[1..] == [];
    assert Decoded(t.prev, ops) == [Action(t.prev, now)] + Decoded(now, []) == [Action(t.prev, now)];
    SumsOneMore([], Action(t.prev, now));
    assert [] + [Action(t.prev, now)] == [Action(t.prev, now)];
    OnlyEarlyEventsAreRejected(t, ops);
    assert RanAll(t, ops) == RanAll(Ran(t, ops[0]), []) == Ran(t, ops[0]);
    AcceptedUnlessTooEarly(t.c, [], Action(t.prev, now));
  }

  /** No event comes within the first five scans, and events in different directions are six scans apart. */
  predicate IsUnhurried(actions: seq<int>) {
    && (forall k :: 0 <= k < |actions| && IsEvent(actions[k]) ==> k >= 5)
    && (forall j, k :: 0 <= j < k < |actions| && IsEvent(actions[j]) && IsEvent(actions[k]) ==>
          actions[j] == actions[k] || k - j >= 6)
  }

  lemma {:induction false} NothingIsEarly(actions: seq<int>)
    requires IsUnhurried(actions)
    ensures EarlySum(actions) == 0
    decreases |actions|
  {
    if actions != [] {
      var before, last := actions[..|actions| - 1], actions[|actions| - 1];
      NothingIsEarly(before);
    }
  }

  /** So when the knob is turned in one direction only, or stands for six scans before each reversal, the counts
      returned and pending add up to the movement of the shaft, but for the wraps. */
  lemma UnhurriedTurnsCount(t: Tally, ops: seq<Op>, positions: seq<int>)
    requires PoweredUp(t.c) && Shows(positions, Sampled(t.prev, ops)) && IsUnhurried(Decoded(t.prev, ops))
    ensures var end := RanAll(t, ops);
      end.returned + end.c.pending - (t.returned + t.c.pending)
      == positions[|positions| - 1] - positions[0] - 256 * (end.wraps - t.wraps)
  {
    NothingIsLost(t, ops, positions);
    OnlyEarlyEventsAreRejected(t, ops);
    NothingIsEarly(Decoded(t.prev, ops));
  }

  // ----- Bursts

  function ScannedAll(c: Channel, actions: seq<int>): Channel
    decreases |actions|
  {
    if actions == [] then c else ScannedAll(Scanned(c, actions[0]), actions[1..])
  }

  /** Scans between two events of a burst: fewer than five, and no event among them. */
  predicate IsPause(pause: seq<int>) {
    |pause| + 1 < ENCODER_DEBOUNCE_CYCLE_TIMEOUT && forall a :: a in pause ==> IsIdle(a)
  }

  /** Events in alternating directions, the first in direction `dir`, with the given pauses between them. */
  function Burst(dir: int, pauses: seq<seq<int>>): seq<int>
    decreases |pauses|
  {
    [dir] + if pauses == [] then [] else pauses[0] + Burst(-dir, pauses[1..])
  }

  lemma {:induction false} ScannedConcat(c: Channel, first: seq<int>, second: seq<int>)
    ensures ScannedAll(c, first + second) == ScannedAll(ScannedAll(c, first), second)
    decreases |first|
  {
    if first == [] {
      assert first + second == second;
    } else {
      assert (first + second)[1..] == first[1..] + second;
      ScannedConcat(Scanned(c, first[0]), first[1..], second);
    }
  }

  lemma {:induction false} PauseOnlyCounts(c: Channel, pause: seq<int>)
    requires forall a :: a in pause ==> IsIdle(a)
    requires c.inactive + |pause| <= ENCODER_INACTIVE_THRESHOLD
    ensures ScannedAll(c, pause) == c.(inactive := c.inactive + |pause|)
    decreases |pause|
  {
    if pause == [] {
    } else {
      assert pause[0] in pause;
      PauseOnlyCounts(Scanned(c, pause[0]), pause[1..]);
    }
  }

  /** A burst of reversals contributes its first event at most, however long it goes on. */
  lemma {:induction false} BurstCountsOnce(c: Channel, dir: int, pauses: seq<seq<int>>)
    requires dir == 1 || dir == -1
    requires forall p :: p in pauses ==> IsPause(p)
    ensures ScannedAll(c, Burst(dir, pauses)).pending == if Accepted(c, dir) then Wrap8(c.pending + dir) else c.pending
    ensures var end := ScannedAll(c, Burst(dir, pauses));
      end.inactive == 0 && end.lastMovement == if |pauses| % 2 == 0 then dir else -dir
    decreases |pauses|
  {
    var c1 := Scanned(c, dir);
    if pauses == [] {
      assert Burst(dir, pauses) == [dir];
      assert ScannedAll(c1, []) == c1;
    } else {
      var rest := Burst(-dir, pauses[1..]);
      assert pauses[0] in pauses;
      assert Burst(dir, pauses)[1..] == pauses[0] + rest;
      ScannedConcat(c1, pauses[0], rest);
      PauseOnlyCounts(c1, pauses[0]);
      BurstCountsOnce(ScannedAll(c1, pauses[0]), -dir, pauses[1..]);
    }
  }

  // ----- The sixteen encoders

  const ENCODERS := 16

  class Scanner {
    const encoderState: array<int>           // pending movement, an int8 each
    const inactiveCounter: array<nat>
    const lastMovement: array<int>
    const eventCycleCounts: array<nat>
    var prev: seq<Levels>

    ghost predicate Valid()
      reads this
    {
      && encoderState.Length == inactiveCounter.Length == lastMovement.Length == eventCycleCounts.Length == ENCODERS
      && encoderState != lastMovement && inactiveCounter != eventCycleCounts
      && |prev| == ENCODERS
    }

    function ChannelOf(i: nat): Channel
      requires Valid() && i < ENCODERS
      reads this, encoderState, inactiveCounter, lastMovement, eventCycleCounts
    {
      Channel(encoderState[i], inactiveCounter[i], lastMovement[i], eventCycleCounts[i])
    }

    constructor ()
      ensures Valid() && fresh(encoderState) && fresh(inactiveCounter) && fresh(lastMovement) && fresh(eventCycleCounts)
      ensures forall i :: 0 <= i < ENCODERS ==> ChannelOf(i) == Channel(0, 0, 0, 0xFFFF)
      ensures forall i :: 0 <= i < ENCODERS ==> prev[i] == Levels(false, false)
    {
      encoderState := new int[ENCODERS](_ => 0);
      inactiveCounter := new nat[ENCODERS](_ => 0);
      lastMovement := new int[ENCODERS](_ => 0);
      eventCycleCounts := new nat[ENCODERS](_ => 0xFFFF);
      prev := seq(ENCODERS, _ => Levels(false, false));
    }

    /** The decoding loop of encoder_scan, once the levels of all encoders have been clocked in. */
    method EncoderScan(now: seq<Levels>)
      requires Valid() && |now| == ENCODERS
      modifies this`prev, encoderState, inactiveCounter, lastMovement, eventCycleCounts
      ensures Valid() && prev == now
      ensures forall i :: 0 <= i < ENCODERS ==> ChannelOf(i) == old(Scanned(ChannelOf(i), Action(prev[i], now[i])))
    {
      for i := 0 to ENCODERS
        modifies encoderState, inactiveCounter, lastMovement, eventCycleCounts
        invariant forall j :: 0 <= j < i ==> ChannelOf(j) == old(Scanned(ChannelOf(j), Action(prev[j], now[j])))
        invariant forall j :: i <= j < ENCODERS ==> ChannelOf(j) == old(ChannelOf(j))
      {
        ScanOne(i, Action(prev[i], now[i]));
      }
      prev := now;
    }

    /** The body of the loop. */
    method ScanOne(i: nat, encoderAction: int)
      requires Valid() && i < ENCODERS
      modifies encoderState, inactiveCounter, lastMovement, eventCycleCounts
      ensures ChannelOf(i) == Scanned(old(ChannelOf(i)), encoderAction)
      ensures forall j :: 0 <= j < ENCODERS && j != i ==> ChannelOf(j) == old(ChannelOf(j))
    {
      if encoderAction == 0 || encoderAction <= AMBIGUOUS {
        if inactiveCounter[i] < ENCODER_INACTIVE_THRESHOLD {
          inactiveCounter[i] := inactiveCounter[i] + 1;
        }
      } else {
        var cycleCount := inactiveCounter[i] + 1;
        var lastMove := lastMovement[i];
        if encoderAction < 0 {
          if cycleCount >= ENCODER_DEBOUNCE_CYCLE_TIMEOUT {
            encoderState[i] := Wrap8(encoderState[i] - 1);
            eventCycleCounts[i] := (eventCycleCounts[i] + cycleCount) % 0x1_0000;
            lastMovement[i] := -1;
          } else if lastMove == -1 {
            encoderState[i] := Wrap8(encoderState[i] - 1);
            eventCycleCounts[i] := (eventCycleCounts[i] + cycleCount) % 0x1_0000;
          } else {
            lastMovement[i] := -1;
          }
        } else {
          if cycleCount >= ENCODER_DEBOUNCE_CYCLE_TIMEOUT {
            encoderState[i] := Wrap8(encoderState[i] + 1);
            eventCycleCounts[i] := (eventCycleCounts[i] + cycleCount) % 0x1_0000;
            lastMovement[i] := 1;
          } else if lastMove == 1 {
            encoderState[i] := Wrap8(encoderState[i] + 1);
            eventCycleCounts[i] := (eventCycleCounts[i] + cycleCount) % 0x1_0000;
          } else {
            lastMovement[i] := 1;
          }
        }
        inactiveCounter[i] := 0;
      }
    }

    /** get_encoder_value: return the pending movement and start over. */
    method GetEncoderValue(i: nat) returns (value: int)
      requires Valid() && i < ENCODERS
      modifies encoderState
      ensures value == old(encoderState[i])
      ensures ChannelOf(i) == old(ChannelOf(i)).(pending := 0)
      ensures forall j :: 0 <= j < ENCODERS && j != i ==> ChannelOf(j) == old(ChannelOf(j))
    {
      value := encoderState[i];
      encoderState[i] := 0;
    }

    /** get_encoder_cycle_count */
    method GetEncoderCycleCount(i: nat) returns (count: nat)
      requires Valid() && i < ENCODERS
      modifies eventCycleCounts
      ensures count == old(eventCycleCounts[i])
      ensures ChannelOf(i) == old(ChannelOf(i)).(cycles := 0)
      ensures forall j :: 0 <= j < ENCODERS && j != i ==> ChannelOf(j) == old(ChannelOf(j))
    {
      count := eventCycleCounts[i];
      eventCycleCounts[i] := 0;
    }
  }
}
