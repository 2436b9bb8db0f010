// What a run of turns does to a group of personas.
//
// Both conversation drivers pass a single "current prompt" along: the persona
// whose turn it is answers the prompt, and its reply becomes the prompt of the
// next turn. They differ only in who speaks when. This module states the
// effect of such a run as a function of the speaker schedule, and proves what
// it does to every persona's history.

module Dialogue {
  import opened Transcript

  /** One turn: which persona spoke, what it was given, what it answered. */
  datatype Turn = Turn(speaker: nat, prompt: string, reply: string)

  /**
   * The state of a run: every persona's history (in list order), the prompt
   * the next speaker will get, and the turns taken so far.
   */
  datatype Stage = Stage(histories: seq<seq<Msg>>, prompt: string, log: seq<Turn>)

  /** Every speaker in `schedule` is one of the `n` personas. */
  predicate Speakers(schedule: seq<nat>, n: nat)
  {
    forall k | 0 <= k < |schedule| :: schedule[k] < n
  }

  /** Persona `who` answers the current prompt; its reply is the next prompt. */
  function Step(st: Stage, who: nat, gens: seq<Generator>): Stage
    requires who < |st.histories| == |gens|
  {
    var h := st.histories[who];
    var reply := Reply(h, st.prompt, gens[who]);
    Stage(st.histories[who := Respond(h, st.prompt, gens[who])], reply,
          st.log + [Turn(who, st.prompt, reply)])
  }

  /**
   * The run that starts from `histories` with `prompt` and lets the personas
   * of `schedule` speak in that order; persona `i` replies with `gens[i]`.
   */
  function Play(histories: seq<seq<Msg>>, prompt: string, schedule: seq<nat>,
                gens: seq<Generator>): (r: Stage)
    requires |gens| == |histories| && Speakers(schedule, |histories|)
    ensures |r.histories| == |histories| && |r.log| == |schedule|
    ensures forall k | 0 <= k < |schedule| :: r.log[k].speaker == schedule[k]
  {
    if schedule == [] then Stage(histories, prompt, [])
    else Step(Play(histories, prompt, schedule[..|schedule| - 1], gens), schedule[|schedule| - 1], gens)
  }

  /** The exchanges persona `who` took part in, in the order of `log`. */
  function TurnsOf(log: seq<Turn>, who: nat): seq<Exchange>
  {
    if log == [] then []
    else
      var t := log[|log| - 1];
      TurnsOf(log[..|log| - 1], who) + (if t.speaker == who then [Exchange(t.prompt, t.reply)] else [])
  }

  /**
   * Playing one more turn appends the prompt and the reply to that speaker's
   * history, and the reply becomes the prompt.
   */
  lemma PlayNext(histories: seq<seq<Msg>>, prompt: string, schedule: seq<nat>, who: nat,
                 gens: seq<Generator>)
    requires |gens| == |histories| && Speakers(schedule, |histories|) && who < |histories|
    ensures Speakers(schedule + [who], |histories|)
    ensures var st := Play(histories, prompt, schedule, gens);
      var r := Play(histories, prompt, schedule + [who], gens);
      r.histories == st.histories[who := Respond(st.histories[who], st.prompt, gens[who])] &&
      r.prompt == Reply(st.histories[who], st.prompt, gens[who])
  {
    assert (schedule + [who])[..|schedule|] == schedule;
  }

  /**
   * One turn appends the prompt and the reply to the speaker's history only,
   * and records one exchange for the speaker only.
   */
  lemma StepEffect(st: Stage, who: nat, gens: seq<Generator>, i: nat)
    requires who < |st.histories| == |gens| && i < |st.histories|
    ensures var r := Step(st, who, gens);
      r.histories[i] == st.histories[i]
                        + (if i == who then [Msg(User, st.prompt), Msg(Assistant, r.prompt)] else []) &&
      TurnsOf(r.log, i) == TurnsOf(st.log, i)
                           + (if i == who then [Exchange(st.prompt, r.prompt)] else [])
  {
    var r := Step(st, who, gens);
    assert r.log[..|r.log| - 1] == st.log;
  }

  /**
   * Every persona's history ends up as it was plus the entries of exactly
   * the turns it took, in order; no other persona's history is touched.
   */
  lemma {:induction false} PlayHistories(histories: seq<seq<Msg>>, prompt: string,
                                         schedule: seq<nat>, gens: seq<Generator>)
    requires |gens| == |histories| && Speakers(schedule, |histories|)
    ensures var r := Play(histories, prompt, schedule, gens);
      forall i | 0 <= i < |histories| :: r.histories[i] == histories[i] + Entries(TurnsOf(r.log, i))
  {
    if schedule != [] {
      var s' := schedule[..|schedule| - 1];
      var who := schedule[|schedule| - 1];
      var p := Play(histories, prompt, s', gens);
      var r := Play(histories, prompt, schedule, gens);
      PlayHistories(histories, prompt, s', gens);
      forall i | 0 <= i < |histories|
        ensures r.histories[i] == histories[i] + Entries(TurnsOf(r.log, i))
      {
        assert r == Step(p, who, gens);
        StepEffect(p, who, gens, i);
        assert p.histories[i] == histories[i] + Entries(TurnsOf(p.log, i));
        if i == who {
          EntriesSnoc(TurnsOf(p.log, i), Exchange(p.prompt, r.prompt));
        } else {
          assert TurnsOf(r.log, i) == TurnsOf(p.log, i);
        }
      }
    }
  }

  /**
   * The prompt travels: the first turn answers the initial prompt, every
   * later turn answers the reply of the turn before it, and the prompt left
   * for a next turn is the last reply (or the initial prompt if nobody spoke).
   */
  lemma {:induction false} PlayBaton(histories: seq<seq<Msg>>, prompt: string,
                                     schedule: seq<nat>, gens: seq<Generator>)
    requires |gens| == |histories| && Speakers(schedule, |histories|)
    ensures var r := Play(histories, prompt, schedule, gens);
      (schedule != [] ==> r.log[0].prompt == prompt) &&
      (forall k | 0 < k < |schedule| :: r.log[k].prompt == r.log[k - 1].reply) &&
      r.prompt == (if schedule == [] then prompt else r.log[|schedule| - 1].reply)
  {
    if schedule != [] {
      var s' := schedule[..|schedule| - 1];
      var p := Play(histories, prompt, s', gens);
      var r := Play(histories, prompt, schedule, gens);
      PlayBaton(histories, prompt, s', gens);
      assert r.log[..|s'|] == p.log;
    }
  }

  /**
   * The last turn of a run keeps the log of the run before it, and its reply
   * is what the speaker's model says given the speaker's history so far
   * followed by the prompt of that turn.
   */
  lemma LastReply(histories: seq<seq<Msg>>, prompt: string, schedule: seq<nat>,
                  gens: seq<Generator>)
    requires |gens| == |histories| && Speakers(schedule, |histories|) && schedule != []
    ensures var n := |schedule| - 1;
      var who := schedule[n];
      var r := Play(histories, prompt, schedule, gens);
      r.log[..n] == Play(histories, prompt, schedule[..n], gens).log &&
      r.log[n].reply == gens[who](histories[who] + Entries(TurnsOf(r.log[..n], who))
                                  + [Msg(User, r.log[n].prompt)])
  {
    var n := |schedule| - 1;
    var who := schedule[n];
    var s' := schedule[..n];
    var p := Play(histories, prompt, s', gens);
    var r := Play(histories, prompt, schedule, gens);
    assert r == Step(p, who, gens);
    assert r.log[..n] == p.log;
    assert r.log[n] == Turn(who, p.prompt, r.prompt);
    PlayHistories(histories, prompt, s', gens);
    assert p.histories[who] == histories[who] + Entries(TurnsOf(p.log, who));
  }

  /**
   * Each reply is what the speaker's model says when given the speaker's
   * whole history so far (its earlier turns included) followed by the prompt
   * of that turn.
   */
  lemma {:induction false} PlayReplies(histories: seq<seq<Msg>>, prompt: string,
                                       schedule: seq<nat>, gens: seq<Generator>)
    requires |gens| == |histories| && Speakers(schedule, |histories|)
    ensures var r := Play(histories, prompt, schedule, gens);
      forall k | 0 <= k < |schedule| ::
        r.log[k].reply == gens[schedule[k]](histories[schedule[k]]
                                            + Entries(TurnsOf(r.log[..k], schedule[k]))
                                            + [Msg(User, r.log[k].prompt)])
  {
    if schedule != [] {
      var n := |schedule| - 1;
      var s' := schedule[..n];
      var p := Play(histories, prompt, s', gens);
      var r := Play(histories, prompt, schedule, gens);
      PlayReplies(histories, prompt, s', gens);
      LastReply(histories, prompt, schedule, gens);
      forall k | 0 <= k < |schedule|
        ensures r.log[k].reply == gens[schedule[k]](histories[schedule[k]]
                                                  + Entries(TurnsOf(r.log[..k], schedule[k]))
                                                  + [Msg(User, r.log[k].prompt)])
      {
        if k < n {
          PrefixOfPrefix(r.log, p.log, k);
          assert schedule[k] == s'[k];
        }
      }
    }
  }

  /** What a prefix of `a` agrees with `a` on. */
  lemma PrefixOfPrefix<T>(a: seq<T>, b: seq<T>, k: nat)
    requires |b| <= |a| && b == a[..|b|] && k < |b|
    ensures a[k] == b[k] && a[..k] == b[..k]
  {
  }

  /**
   * A run keeps every persona's history well formed: what it adds to a
   * history is whole user/assistant exchanges.
   */
  lemma PlayKeepsWellFormed(histories: seq<seq<Msg>>, prompt: string, schedule: seq<nat>,
                            gens: seq<Generator>, who: nat, systemMessage: string)
    requires |gens| == |histories| && Speakers(schedule, |histories|) && who < |histories|
    requires WellFormed(histories[who], systemMessage)
    ensures WellFormed(Play(histories, prompt, schedule, gens).histories[who], systemMessage)
  {
    var r := Play(histories, prompt, schedule, gens);
    PlayHistories(histories, prompt, schedule, gens);
    AppendEntriesWellFormed(histories[who], systemMessage, TurnsOf(r.log, who));
  }

  /** A persona takes part in exactly as many turns as it appears in the schedule. */
  lemma {:induction false} TurnCounts(histories: seq<seq<Msg>>, prompt: string,
                                      schedule: seq<nat>, gens: seq<Generator>, who: nat)
    requires |gens| == |histories| && Speakers(schedule, |histories|)
    ensures |TurnsOf(Play(histories, prompt, schedule, gens).log, who)| == multiset(schedule)[who]
  {
    if schedule != [] {
      var s' := schedule[..|schedule| - 1];
      var r := Play(histories, prompt, schedule, gens);
      TurnCounts(histories, prompt, s', gens, who);
      assert r.log[..|s'|] == Play(histories, prompt, s', gens).log;
      assert schedule == s' + [schedule[|schedule| - 1]];
    }
  }

  /**
   * Hence a persona's history grows by exactly two entries for each time it
   * appears in the schedule.
   */
  lemma HistoryLengths(histories: seq<seq<Msg>>, prompt: string,
                       schedule: seq<nat>, gens: seq<Generator>, who: nat)
    requires |gens| == |histories| && Speakers(schedule, |histories|) && who < |histories|
    ensures |Play(histories, prompt, schedule, gens).histories[who]|
         == |histories[who]| + 2 * multiset(schedule)[who]
  {
    PlayHistories(histories, prompt, schedule, gens);
    TurnCounts(histories, prompt, schedule, gens, who);
  }
}
