/** Debouncing the encoder switches (input.c): a switch counts as closed if any of the last ten samples
    saw it closed.

    A 16-bit switch word is modelled as the set of switches whose bit is 1; `|`, `&` and `^` are then
    union, intersection and symmetric difference. */
module SwitchDebounce {

  const BUFFER_SIZE := 10

  type Switch = n: nat | n < 16
  type Word = set<Switch>

  function Or(samples: seq<Word>): Word {
    if samples == [] then {} else samples[0] + Or(samples[1..])
  }

  function Xor(a: Word, b: Word): Word {
    (a - b) + (b - a)
  }

  /** A bit of the "or" is set exactly when some sample has it. */
  lemma {:induction false} OrIsAnyOf(samples: seq<Word>, s: Switch)
    ensures s in Or(samples) <==> exists i :: 0 <= i < |samples| && s in samples[i]
  {
    if samples == [] {
    } else {
      OrIsAnyOf(samples[1..], s);
      if i :| 0 <= i < |samples[1..]| && s in samples[1..][i] {
        assert s in samples[i + 1];
      }
      if i :| 0 < i < |samples| && s in samples[i] {
        assert s in samples[1..][i - 1];
      }
    }
  }

  lemma {:induction false} OrConcat(first: seq<Word>, second: seq<Word>)
    ensures Or(first + second) == Or(first) + Or(second)
  {
    if first == [] {
      assert first + second == second;
    } else {
      assert (first + second)[1..] == first[1..] + second;
      OrConcat(first[1..], second);
    }
  }

  // ----- The driver

  class Debouncer {
    const buffer: array<Word>
    var pos: nat
    var state: Word
    var prev: Word
    var up: Word
    var down: Word
    ghost var history: seq<Word>      // every sample so far, after ten open ones

    ghost predicate Valid()
      reads this, buffer
    {
      && buffer.Length == BUFFER_SIZE && pos < BUFFER_SIZE && |history| >= BUFFER_SIZE
      && buffer[pos..] + buffer[..pos] == LastTen(history)
    }

    constructor ()
      ensures Valid() && fresh(buffer) && state == prev == up == down == {}
      ensures |history| == BUFFER_SIZE && forall i :: 0 <= i < BUFFER_SIZE ==> history[i] == {}
    {
      buffer := new Word[BUFFER_SIZE](_ => {});
      pos, state, prev, up, down := 0, {}, {}, {}, {};
      new;
      history := buffer[..];
      assert buffer[pos..] == history && buffer[..pos] == [] && history + [] == history;
      assert history[|history| - BUFFER_SIZE..] == history;
    }

    /** The debounce part of encoder_scan: store the switch sample in the ring. */
    method AddSample(sample: Word)
      requires Valid()
      modifies this`pos, this`history, buffer
      ensures Valid() && history == old(history) + [sample]
    {
      ghost var ring := buffer[pos..] + buffer[..pos];
      buffer[pos] := sample;
      pos := (pos + 1) % BUFFER_SIZE;
      history := history + [sample];
      assert buffer[pos..] + buffer[..pos] == ring[1..] + [sample];
    }

    /** update_encoder_switch_state */
    method Update() returns (result: Word)
      requires Valid()
      modifies this`state, this`prev, this`up, this`down
      ensures Valid() && result == state == prev == Or(LastTen(history))
      ensures up == Released(old(prev), state) && down == Pressed(old(prev), state)
    {
      state := {};
      for i := 0 to BUFFER_SIZE
        modifies this`state
        invariant state == Or(buffer[..i])
      {
        OrConcat(buffer[..i], [buffer[i]]);
        assert buffer[..i] + [buffer[i]] == buffer[..i + 1];
        assert Or([buffer[i]]) == buffer[i];
        state := state + buffer[i];
      }
      assert buffer[..BUFFER_SIZE] == buffer[..pos] + buffer[pos..];
      OrConcat(buffer[..pos], buffer[pos..]);
      OrConcat(buffer[pos..], buffer[..pos]);
      up := Xor(prev, state) * prev;
      down := Xor(prev, state) * state;
      prev := state;
      return state;
    }
  }

  function LastTen(history: seq<Word>): seq<Word>
    requires |history| >= BUFFER_SIZE
  {
    history[|history| - BUFFER_SIZE..]
  }

  function Released(prev: Word, state: Word): Word {
    Xor(prev, state) * prev
  }

  function Pressed(prev: Word, state: Word): Word {
    Xor(prev, state) * state
  }

  // ----- What the main loop gets to see of one switch

  datatype Op = Sample(word: Word) | Poll
  datatype Edge = Down | Up

  /** The edges reported for switch `s` over a run that starts with the samples `history` and state `prev`. */
  function Edges(history: seq<Word>, prev: Word, ops: seq<Op>, s: Switch): seq<Edge>
    requires |history| >= BUFFER_SIZE
    decreases |ops|
  {
    if ops == [] then []
    else match ops[0]
      case Sample(word) => Edges(history + [word], prev, ops[1..], s)
      case Poll =>
        var state := Or(LastTen(history));
        (if s in Pressed(prev, state) then [Down] else [])
        + (if s in Released(prev, state) then [Up] else [])
        + Edges(history, state, ops[1..], s)
  }

  /** A list of edges that strictly alternates, beginning with `first`. */
  predicate Alternates(edges: seq<Edge>, first: Edge) {
    edges == [] || (edges[0] == first && Alternates(edges[1..], if first.Down? then Up else Down))
  }

  /** Main result: over any interleaving of samples and polls the edges of each switch strictly alternate,
      beginning with a press for a switch that starts open. */
  lemma {:induction false} EdgesAlternate(history: seq<Word>, prev: Word, ops: seq<Op>, s: Switch)
    requires |history| >= BUFFER_SIZE
    ensures Alternates(Edges(history, prev, ops, s), if s in prev then Up else Down)
    decreases |ops|
  {
    if ops == [] {
    } else {
      match ops[0]
      case Sample(word) =>
        EdgesAlternate(history + [word], prev, ops[1..], s);
      case Poll =>
        var state := Or(LastTen(history));
        var rest := Edges(history, state, ops[1..], s);
        EdgesAlternate(history, state, ops[1..], s);
        assert [] + rest == rest;
        assert ([Down] + rest)[1..] == rest && ([Up] + rest)[1..] == rest;
    }
  }

  /** The masks of a poll are disjoint. A release is reported exactly for a switch that was closed and whose
      last ten samples were all open, a press for one that was open and of which some sample was closed. */
  lemma EdgesNeedSamples(history: seq<Word>, prev: Word, s: Switch)
    requires |history| >= BUFFER_SIZE
    ensures var state := Or(LastTen(history));
      && Pressed(prev, state) !! Released(prev, state)
      && (s in Released(prev, state) <==>
            s in prev && forall i :: |history| - BUFFER_SIZE <= i < |history| ==> s !in history[i])
      && (s in Pressed(prev, state) <==>
            s !in prev && exists i :: |history| - BUFFER_SIZE <= i < |history| && s in history[i])
  {
    PollSees(history, s);
  }

  // ----- What the filter is for

  function SamplesOf(ops: seq<Op>): seq<Word> {
    if ops == [] then []
    else (if ops[0].Sample? then [ops[0].word] else []) + SamplesOf(ops[1..])
  }

  predicate HasPoll(ops: seq<Op>) {
    exists i :: 0 <= i < |ops| && ops[i].Poll?
  }

  /** Some sample among the ten from `i` on saw switch `s` closed. */
  predicate SeenFrom(samples: seq<Word>, i: nat, s: Switch)
    requires i + BUFFER_SIZE <= |samples|
  {
    exists j :: i <= j < i + BUFFER_SIZE && s in samples[j]
  }

  /** A poll sees the switch exactly when one of the last ten samples did. */
  lemma PollSees(history: seq<Word>, s: Switch)
    requires |history| >= BUFFER_SIZE
    ensures s in Or(LastTen(history)) <==> SeenFrom(history, |history| - BUFFER_SIZE, s)
  {
    var start := |history| - BUFFER_SIZE;
    OrIsAnyOf(LastTen(history), s);
    if i :| 0 <= i < |LastTen(history)| && s in LastTen(history)[i] {
      assert s in history[start + i];
    }
    if i :| start <= i < |history| && s in history[i] {
      assert s in LastTen(history)[i - start];
    }
  }

  /** A contact that bounces while it is held, but never stays open for ten samples in a row, is reported as
      one press, however the samples and polls interleave; as nothing if it was reported before. */
  lemma {:induction false} BouncingIsOnePress(history: seq<Word>, prev: Word, ops: seq<Op>, s: Switch)
    requires |history| >= BUFFER_SIZE
    requires var all := history + SamplesOf(ops);
      forall i :: |history| - BUFFER_SIZE <= i <= |all| - BUFFER_SIZE ==> SeenFrom(all, i, s)
    ensures Edges(history, prev, ops, s) == if s !in prev && HasPoll(ops) then [Down] else []
    decreases |ops|
  {
    if ops == [] {
    } else if ops[0].Sample? {
      var history' := history + [ops[0].word];
      assert history + SamplesOf(ops) == history' + SamplesOf(ops[1..]);
      BouncingIsOnePress(history', prev, ops[1..], s);
      PollsLater(ops);
    } else {
      var all, start := history + SamplesOf(ops), |history| - BUFFER_SIZE;
      assert SamplesOf(ops) == SamplesOf(ops[1..]);
      assert SeenFrom(all, start, s);
      assert SeenFrom(history, start, s) by {
        var j :| start <= j < start + BUFFER_SIZE && s in all[j];
        assert s in history[j];
      }
      PollSees(history, s);
      BouncingIsOnePress(history, Or(LastTen(history)), ops[1..], s);
      assert ops[0].Poll?;
    }
  }

  lemma PollsLater(ops: seq<Op>)
    requires ops != [] && ops[0].Sample?
    ensures HasPoll(ops) <==> HasPoll(ops[1..])
  {
    if i :| 0 <= i < |ops| && ops[i].Poll? {
      assert ops[1..][i - 1].Poll?;
    }
    if i :| 0 <= i < |ops[1..]| && ops[1..][i].Poll? {
      assert ops[i + 1].Poll?;
    }
  }

  /** A switch that has been open for ten samples and stays open is reported as one release, if it was
      reported closed before, and as nothing otherwise. */
  lemma {:induction false} OpenIsOneRelease(history: seq<Word>, prev: Word, ops: seq<Op>, s: Switch)
    requires |history| >= BUFFER_SIZE
    requires var all := history + SamplesOf(ops);
      forall j :: |history| - BUFFER_SIZE <= j < |all| ==> s !in all[j]
    ensures Edges(history, prev, ops, s) == if s in prev && HasPoll(ops) then [Up] else []
    decreases |ops|
  {
    if ops == [] {
    } else if ops[0].Sample? {
      var history' := history + [ops[0].word];
      assert history + SamplesOf(ops) == history' + SamplesOf(ops[1..]);
      OpenIsOneRelease(history', prev, ops[1..], s);
      PollsLater(ops);
    } else {
      var all, start := history + SamplesOf(ops), |history| - BUFFER_SIZE;
      assert SamplesOf(ops) == SamplesOf(ops[1..]);
      assert forall j :: start <= j < |history| ==> history[j] == all[j];
      PollSees(history, s);
      OpenIsOneRelease(history, Or(LastTen(history)), ops[1..], s);
      assert ops[0].Poll?;
    }
  }
}
