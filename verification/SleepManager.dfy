/** The sleep manager's lock counts (sleepmgr.h, xmega/sleepmgr.h). */
module SleepManager {

  datatype Mode = Active | Idle | EStdby | PSave | Stdby | PDown

  const NR_OF_MODES := 6

  function Index(m: Mode): (i: nat)
    ensures i < NR_OF_MODES
  {
    match m
    case Active => 0
    case Idle => 1
    case EStdby => 2
    case PSave => 3
    case Stdby => 4
    case PDown => 5
  }

  function ModeAt(i: nat): (m: Mode)
    requires i < NR_OF_MODES
    ensures Index(m) == i
  {
    match i
    case 0 => Active
    case 1 => Idle
    case 2 => EStdby
    case 3 => PSave
    case 4 => Stdby
    case _ => PDown
  }

  lemma IndexIsInjective(m: Mode, n: Mode)
    ensures Index(m) == Index(n) ==> m == n
  {
  }

  // ----- Runs of locks and unlocks

  datatype Op = Lock(mode: Mode) | Unlock(mode: Mode)

  /** How many more locks than unlocks of mode `m` a run holds. */
  function Net(ops: seq<Op>, m: Mode): int {
    if ops == [] then 0
    else
      var last := ops[|ops| - 1];
      Net(ops[..|ops| - 1], m) + (if last == Lock(m) then 1 else if last == Unlock(m) then -1 else 0)
  }

  lemma NetOneMore(ops: seq<Op>, op: Op, m: Mode)
    ensures Net(ops + [op], m) == Net(ops, m) + if op == Lock(m) then 1 else if op == Unlock(m) then -1 else 0
  {
    assert (ops + [op])[..|ops|] == ops;
  }

  /** The count of mode `m` after a run from sleepmgr_init: the deepest mode starts with one extra. */
  function Count(ops: seq<Op>, m: Mode): int {
    Net(ops, m) + if m == PDown then 1 else 0
  }

  /** No unlock of the run came when its mode had no lock outstanding. */
  predicate Matched(ops: seq<Op>) {
    ops == []
    || (Matched(ops[..|ops| - 1]) && forall m: Mode :: Net(ops, m) >= 0)
  }

  /** The shallowest mode with a lock outstanding, or the deepest mode if there is none. */
  predicate IsDeepestAllowed(m: Mode, ops: seq<Op>) {
    && (Net(ops, m) > 0 || m == PDown)
    && forall n: Mode :: Index(n) < Index(m) ==> Net(ops, n) == 0
  }

  /** There is only one such mode. */
  lemma DeepestAllowedIsUnique(m: Mode, n: Mode, ops: seq<Op>)
    requires IsDeepestAllowed(m, ops) && IsDeepestAllowed(n, ops)
    ensures m == n
  {
    assert Index(m) < Index(n) ==> Net(ops, m) == 0;
    assert Index(n) < Index(m) ==> Net(ops, n) == 0;
    IndexIsInjective(m, n);
  }

  // ----- The search

  /** The index at which the search stops; the length of the array if it runs off the end. */
  function SearchFrom(locks: seq<nat>, i: nat): (r: nat)
    requires i <= |locks|
    ensures i <= r <= |locks|
    decreases |locks| - i
  {
    if i == |locks| || locks[i] != 0 then i else SearchFrom(locks, i + 1)
  }

  /** The search stops at the first non-zero count, and stays inside the array exactly when there is one. */
  lemma {:induction false} SearchStops(locks: seq<nat>, i: nat)
    requires i <= |locks|
    ensures SearchFrom(locks, i) < |locks| <==> exists j :: i <= j < |locks| && locks[j] != 0
    ensures forall j :: i <= j < SearchFrom(locks, i) ==> locks[j] == 0
    ensures SearchFrom(locks, i) < |locks| ==> locks[SearchFrom(locks, i)] != 0
    decreases |locks| - i
  {
    if i == |locks| || locks[i] != 0 {
    } else {
      SearchStops(locks, i + 1);
    }
  }

  /** The counts after a run, provided that none went below zero. */
  predicate AreCounts(locks: seq<nat>, ops: seq<Op>) {
    |locks| == NR_OF_MODES && forall m: Mode :: locks[Index(m)] == Count(ops, m)
  }

  /** Main result: over every run of locks and unlocks that pass their assertions, the search runs off the
      array exactly when the deepest mode has been unlocked once more than it has been locked and no other
      mode is held; otherwise it finds the deepest mode that is allowed. */
  lemma SearchLeavesTheArrayExactlyWhen(locks: seq<nat>, ops: seq<Op>)
    requires AreCounts(locks, ops)
    ensures SearchFrom(locks, 0) == NR_OF_MODES
       <==> Net(ops, PDown) == -1 && forall m: Mode :: m != PDown ==> Net(ops, m) == 0
    ensures SearchFrom(locks, 0) < NR_OF_MODES ==> IsDeepestAllowed(ModeAt(SearchFrom(locks, 0)), ops)
  {
    SearchStops(locks, 0);
    var r := SearchFrom(locks, 0);
    if r == NR_OF_MODES {
      forall m: Mode ensures Count(ops, m) == 0 {
        assert locks[Index(m)] == 0;
      }
      assert forall m: Mode :: Net(ops, m) == Count(ops, m) - if m == PDown then 1 else 0;
    } else {
      var found := ModeAt(r);
      assert locks[Index(found)] == Count(ops, found) > 0;
      assert found != PDown ==> Net(ops, found) > 0;
      forall n: Mode | Index(n) < Index(found) ensures Net(ops, n) == 0 {
        assert locks[Index(n)] == 0;
      }
    }
  }

  /** After an unmatched unlock of the deepest mode the search still ends exactly when some mode is held. */
  lemma AfterAnUnmatchedUnlock(locks: seq<nat>, ops: seq<Op>)
    requires AreCounts(locks, ops) && Net(ops, PDown) == -1
    ensures SearchFrom(locks, 0) < NR_OF_MODES <==> exists m: Mode :: Net(ops, m) > 0
  {
    SearchLeavesTheArrayExactlyWhen(locks, ops);
    forall m: Mode ensures m != PDown ==> Net(ops, m) >= 0 {
      assert locks[Index(m)] == Count(ops, m);
    }
  }

  /** With matched unlocks the search never leaves the array. */
  lemma MatchedLocksEndTheSearch(locks: seq<nat>, ops: seq<Op>)
    requires AreCounts(locks, ops) && Matched(ops)
    ensures SearchFrom(locks, 0) < NR_OF_MODES
  {
    SearchLeavesTheArrayExactlyWhen(locks, ops);
  }

  /** The shortest run that it happens to: one unlock right after sleepmgr_init, which the assertion admits. */
  lemma OneUnlockTooMany()
    ensures Count([], PDown) > 0
    ensures AreCounts([0, 0, 0, 0, 0, 0], [Unlock(PDown)]) && SearchFrom([0, 0, 0, 0, 0, 0], 0) == NR_OF_MODES
  {
    forall m: Mode ensures Net([Unlock(PDown)], m) == if m == PDown then -1 else 0 {
      NetOneMore([], Unlock(PDown), m);
      assert [] + [Unlock(PDown)] == [Unlock(PDown)];
    }
    SearchStops([0, 0, 0, 0, 0, 0], 0);
  }

  // ----- The driver

  datatype SearchResult = Found(mode: Mode) | LeftTheArray

  class SleepManager {
    const locks: array<nat>       // sleepmgr_locks, a uint8 each
    ghost var history: seq<Op>    // every lock and unlock since sleepmgr_init

    /** Each count is the number of its locks outstanding, plus one for the deepest mode, and fits a uint8. */
    ghost predicate Valid()
      reads this, locks
    {
      AreCounts(locks[..], history) && forall i :: 0 <= i < locks.Length ==> locks[i] <= 0xff
    }

    constructor (locks: array<nat>)
      requires locks.Length == NR_OF_MODES
      ensures this.locks == locks
    {
      this.locks := locks;
    }

    /** sleepmgr_init */
    method Init()
      requires locks.Length == NR_OF_MODES
      modifies this, locks
      ensures Valid() && history == []
    {
      for i := 0 to NR_OF_MODES - 1
        modifies locks
        invariant forall j :: 0 <= j < i ==> locks[j] == 0
      {
        locks[i] := 0;
      }
      locks[NR_OF_MODES - 1] := 1;
      history := [];
    }

    /** sleepmgr_lock_mode; its assertion wants a count below 0xff. */
    method LockMode(mode: Mode)
      requires Valid() && locks[Index(mode)] < 0xff
      modifies this, locks
      ensures Valid() && history == old(history) + [Lock(mode)]
    {
      locks[Index(mode)] := locks[Index(mode)] + 1;
      history := history + [Lock(mode)];
      forall m: Mode ensures locks[..][Index(m)] == Count(history, m) {
        NetOneMore(old(history), Lock(mode), m);
        IndexIsInjective(m, mode);
        assert old(locks[..])[Index(m)] == Count(old(history), m);
      }
    }

    /** sleepmgr_unlock_mode. Its assertion only wants a non-zero count, so for the deepest mode one unlock
        too many goes through. */
    method UnlockMode(mode: Mode)
      requires Valid() && locks[Index(mode)] > 0
      modifies this, locks
      ensures Valid() && history == old(history) + [Unlock(mode)]
      ensures Net(old(history), mode) > 0 || (mode == PDown && Net(old(history), mode) == 0)
      ensures Net(old(history), mode) == 0 ==>
                (SearchFrom(locks[..], 0) < NR_OF_MODES <==> exists m: Mode :: Net(history, m) > 0)
    {
      assert old(locks[..])[Index(mode)] == Count(old(history), mode);
      locks[Index(mode)] := locks[Index(mode)] - 1;
      history := history + [Unlock(mode)];
      forall m: Mode ensures locks[..][Index(m)] == Count(history, m) {
        NetOneMore(old(history), Unlock(mode), m);
        IndexIsInjective(m, mode);
        assert old(locks[..])[Index(m)] == Count(old(history), m);
      }
      if Net(old(history), mode) == 0 {
        NetOneMore(old(history), Unlock(mode), mode);
        AfterAnUnmatchedUnlock(locks[..], history);
      }
    }

    /** sleepmgr_get_sleep_mode. The search has no bound of its own; the model notices when it leaves the array. */
    method GetSleepMode() returns (r: SearchResult)
      requires Valid()
      ensures r.LeftTheArray? <==> Net(history, PDown) == -1 && forall m: Mode :: m != PDown ==> Net(history, m) == 0
      ensures r.Found? ==> IsDeepestAllowed(r.mode, history)
    {
      SearchLeavesTheArrayExactlyWhen(locks[..], history);
      var i := 0;
      while i < NR_OF_MODES && locks[i] == 0
        invariant 0 <= i <= NR_OF_MODES && SearchFrom(locks[..], i) == SearchFrom(locks[..], 0)
      {
        i := i + 1;
      }
      r := if i < NR_OF_MODES then Found(ModeAt(i)) else LeftTheArray;
    }
  }
}
