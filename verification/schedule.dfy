// Who speaks when.
//
// The two-party driver lets persona A open and then alternates B and A; the
// three-way driver draws each speaker at random among the personas other than
// the one that spoke last. This module gives both orders as schedules (lists
// of persona indices) and proves what they mean for a run.

module Schedule {
  import opened Transcript
  import opened Dialogue

  datatype Option<T> = None | Some(value: T)

  /** The number of personas the three-way driver draws from. */
  const CANDIDATES: nat := 3

  /** How many times a loop over `range(steps)` runs: a negative count runs none. */
  function RangeLength(steps: int): nat
  {
    if steps < 0 then 0 else steps
  }

  // ---------------------------------------------------------------------------
  // Three-way turn selection

  /**
   * The indices below `n`, in increasing order, other than `last`; `None`
   * excludes nothing.
   */
  function Available(n: nat, last: Option<nat>): (r: seq<nat>)
    ensures forall i: nat :: i in r <==> i < n && last != Some(i)
    ensures forall a, b | 0 <= a < b < |r| :: r[a] < r[b]
    ensures |r| == if last.Some? && last.value < n then n - 1 else n
  {
    if n == 0 then []
    else
      var below := Available(n - 1, last);
      assert forall a | 0 <= a < |below| :: below[a] in below;
      below + (if last == Some(n - 1) then [] else [n - 1])
  }

  /** The personas the three-way driver may pick when `last` spoke last. */
  function Eligible(last: Option<nat>): (r: seq<nat>)
    ensures last == None ==> r == [0, 1, 2]
    ensures |r| >= 2
  {
    Available(CANDIDATES, last)
  }

  /** The index of the persona that spoke last once `schedule` has run after `last`. */
  function LastSpeaker(last: Option<nat>, schedule: seq<nat>): Option<nat>
  {
    if schedule == [] then last else Some(schedule[|schedule| - 1])
  }

  /** Every pick of `schedule` was eligible at the moment it was drawn. */
  predicate NoRepeat(last: Option<nat>, schedule: seq<nat>)
  {
    forall k | 0 <= k < |schedule| :: schedule[k] in Eligible(LastSpeaker(last, schedule[..k]))
  }

  /**
   * Pick `k` of a schedule is eligible exactly when it is one of the three
   * personas and differs from the pick before it (from `last` for the first).
   */
  lemma EligibleAt(last: Option<nat>, schedule: seq<nat>, k: nat)
    requires k < |schedule|
    ensures schedule[k] in Eligible(LastSpeaker(last, schedule[..k])) <==>
      schedule[k] < CANDIDATES &&
      (if k == 0 then last != Some(schedule[k]) else schedule[k] != schedule[k - 1])
  {
    var before := LastSpeaker(last, schedule[..k]);
    assert before == if k == 0 then last else Some(schedule[k - 1]);
    assert schedule[k] in Available(CANDIDATES, before) <==>
      schedule[k] < CANDIDATES && before != Some(schedule[k]);
  }

  /**
   * A schedule obeys the selection rule exactly when it names only the three
   * personas, does not start with the one that spoke last before it, and
   * never names the same persona twice in a row.
   */
  lemma NoRepeatIff(last: Option<nat>, schedule: seq<nat>)
    ensures NoRepeat(last, schedule) <==>
      Speakers(schedule, CANDIDATES) &&
      (schedule != [] && last.Some? ==> schedule[0] != last.value) &&
      (forall k | 0 < k < |schedule| :: schedule[k] != schedule[k - 1])
  {
    if NoRepeat(last, schedule) {
      forall k | 0 <= k < |schedule|
        ensures schedule[k] < CANDIDATES
        ensures k == 0 ==> last != Some(schedule[k])
        ensures k > 0 ==> schedule[k] != schedule[k - 1]
      {
        EligibleAt(last, schedule, k);
      }
    }
    if Speakers(schedule, CANDIDATES) &&
       (schedule != [] && last.Some? ==> schedule[0] != last.value) &&
       (forall k | 0 < k < |schedule| :: schedule[k] != schedule[k - 1])
    {
      forall k | 0 <= k < |schedule|
        ensures schedule[k] in Eligible(LastSpeaker(last, schedule[..k]))
      {
        EligibleAt(last, schedule, k);
      }
    }
  }

  /** A schedule that obeys the rule may be extended by exactly the eligible picks. */
  lemma NoRepeatSnoc(last: Option<nat>, schedule: seq<nat>, next: nat)
    requires NoRepeat(last, schedule)
    ensures NoRepeat(last, schedule + [next]) <==> next in Eligible(LastSpeaker(last, schedule))
  {
    var s := schedule + [next];
    assert s[..|schedule|] == schedule;
    forall k | 0 <= k < |schedule|
      ensures s[k] == schedule[k] && s[..k] == schedule[..k]
    {
    }
  }

  /**
   * In a three-way run every persona's history grows by two entries per turn
   * it took, and the turns of the three add up to the length of the run.
   */
  lemma {:induction false} ThreeWayCounts(schedule: seq<nat>)
    requires Speakers(schedule, CANDIDATES)
    ensures multiset(schedule)[0] + multiset(schedule)[1] + multiset(schedule)[2] == |schedule|
  {
    if schedule != [] {
      var s' := schedule[..|schedule| - 1];
      ThreeWayCounts(s');
      assert schedule == s' + [schedule[|schedule| - 1]];
    }
  }

  /**
   * A three-way run of `schedule` grows each persona's history by two entries
   * per turn it took, so the three together grow by two entries per turn.
   */
  lemma ThreeWayLengths(histories: seq<seq<Msg>>, prompt: string, schedule: seq<nat>,
                        gens: seq<Generator>)
    requires |histories| == |gens| == CANDIDATES && Speakers(schedule, CANDIDATES)
    ensures var r := Play(histories, prompt, schedule, gens);
      (forall i | 0 <= i < CANDIDATES ::
        |r.histories[i]| == |histories[i]| + 2 * multiset(schedule)[i]) &&
      |r.histories[0]| + |r.histories[1]| + |r.histories[2]|
        == |histories[0]| + |histories[1]| + |histories[2]| + 2 * |schedule|
  {
    forall i | 0 <= i < CANDIDATES
      ensures |Play(histories, prompt, schedule, gens).histories[i]|
           == |histories[i]| + 2 * multiset(schedule)[i]
    {
      HistoryLengths(histories, prompt, schedule, gens, i);
    }
    ThreeWayCounts(schedule);
  }

  // ---------------------------------------------------------------------------
  // Two-party alternation

  /** Persona A (index 0) opens; then `rounds` rounds of B (index 1) and A. */
  function PairSchedule(rounds: nat): (s: seq<nat>)
    ensures Speakers(s, 2)
  {
    seq(2 * rounds + 1, k => k % 2)
  }

  /** One more round appends a turn of B and then a turn of A. */
  lemma PairScheduleNext(rounds: nat)
    ensures PairSchedule(rounds + 1) == PairSchedule(rounds) + [1, 0]
  {
    var s, t := PairSchedule(rounds), PairSchedule(rounds + 1);
    forall k | 0 <= k < |t|
      ensures t[k] == (s + [1, 0])[k]
    {
      if k >= |s| {
        assert k == 2 * rounds + 1 || k == 2 * rounds + 2;
      }
    }
  }

  /** A speaks `rounds + 1` times and B speaks `rounds` times. */
  lemma {:induction false} PairScheduleCounts(rounds: nat)
    ensures multiset(PairSchedule(rounds))[0] == rounds + 1
    ensures multiset(PairSchedule(rounds))[1] == rounds
  {
    if rounds == 0 {
      assert PairSchedule(0) == [0];
    } else {
      PairScheduleCounts(rounds - 1);
      PairScheduleNext(rounds - 1);
    }
  }

  /**
   * After a two-party run of `rounds` rounds, A's history holds `rounds + 1`
   * more exchanges and B's holds `rounds` more.
   */
  lemma PairLengths(histA: seq<Msg>, histB: seq<Msg>, prompt: string, rounds: nat,
                    genA: Generator, genB: Generator)
    ensures var r := Play([histA, histB], prompt, PairSchedule(rounds), [genA, genB]);
      |r.histories[0]| == |histA| + 2 * (rounds + 1) &&
      |r.histories[1]| == |histB| + 2 * rounds
  {
    PairScheduleCounts(rounds);
    HistoryLengths([histA, histB], prompt, PairSchedule(rounds), [genA, genB], 0);
    HistoryLengths([histA, histB], prompt, PairSchedule(rounds), [genA, genB], 1);
  }

  /**
   * In a two-party run A answers the initial prompt first; in each round B
   * answers A's most recent reply and then A answers B's reply of that round.
   */
  lemma PairPromptPassing(histA: seq<Msg>, histB: seq<Msg>, prompt: string, rounds: nat,
                          genA: Generator, genB: Generator)
    ensures var log := Play([histA, histB], prompt, PairSchedule(rounds), [genA, genB]).log;
      |log| == 2 * rounds + 1 &&
      log[0].speaker == 0 && log[0].prompt == prompt &&
      forall j | 0 <= j < rounds ::
        log[2 * j + 1].speaker == 1 && log[2 * j + 1].prompt == log[2 * j].reply &&
        log[2 * j + 2].speaker == 0 && log[2 * j + 2].prompt == log[2 * j + 1].reply
  {
    var s := PairSchedule(rounds);
    PlayBaton([histA, histB], prompt, s, [genA, genB]);
    var log := Play([histA, histB], prompt, s, [genA, genB]).log;
    forall j | 0 <= j < rounds
      ensures log[2 * j + 1].speaker == 1 && log[2 * j + 2].speaker == 0
    {
      assert s[2 * j + 1] == (2 * j + 1) % 2 == 1;
      assert s[2 * j + 2] == (2 * j + 2) % 2 == 0;
    }
  }
}
