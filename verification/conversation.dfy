// The personas and the two conversation drivers, as objects whose state the
// methods update in place.

module Conversation {
  import opened Transcript
  import opened Dialogue
  import opened Schedule

  /**
   * A persona: a fixed framing (its system message), the remote model it
   * talks to and a history that only ever grows.
   */
  class ConversationModel {
    /** The remote model; it is given the whole history and returns a reply. */
    const model: Generator
    const systemMessage: string
    /** The name shown next to the persona's replies. */
    const humanName: string
    var history: seq<Msg>

    /** The history is the system entry followed by user/assistant pairs. */
    ghost predicate Valid()
      reads this
    {
      WellFormed(history, systemMessage)
    }

    constructor (model: Generator, systemMessage: string, humanName: string)
      ensures this.model == model && this.systemMessage == systemMessage
      ensures this.humanName == humanName
      ensures history == Opening(systemMessage)
      ensures Valid()
    {
      this.model := model;
      this.systemMessage := systemMessage;
      this.humanName := humanName;
      history := [Msg(System, systemMessage)];
    }

    /**
     * Appends the prompt as a user entry, asks the model with the whole
     * history, appends its reply as an assistant entry and returns it.
     */
    method HandlePrompt(prompt: string) returns (reply: string)
      modifies this
      ensures history == old(history) + [Msg(User, prompt), Msg(Assistant, reply)]
      ensures reply == model(old(history) + [Msg(User, prompt)])
      ensures old(Valid()) ==> Valid()
    {
      history := history + [Msg(User, prompt)];
      reply := model(history);
      history := history + [Msg(Assistant, reply)];
      if old(Valid()) {
        RespondWellFormed(old(history), systemMessage, prompt, model);
      }
    }
  }

  /** Two personas that take turns: A opens, then B and A alternate. */
  class ConversationPair {
    const modelA: ConversationModel
    const modelB: ConversationModel

    constructor (modelA: ConversationModel, modelB: ConversationModel)
      ensures this.modelA == modelA && this.modelB == modelB
    {
      this.modelA := modelA;
      this.modelB := modelB;
    }

    /**
     * A answers `initialPrompt`; then, `steps` times, B answers A's last reply
     * and A answers B's. Returns A's history followed by B's.
     */
    method StartConversation(initialPrompt: string, steps: int) returns (all: seq<Msg>)
      requires modelA != modelB
      modifies modelA, modelB
      ensures [modelA.history, modelB.history]
           == Play([old(modelA.history), old(modelB.history)], initialPrompt,
                   PairSchedule(RangeLength(steps)), [modelA.model, modelB.model]).histories
      ensures all == modelA.history + modelB.history
    {
      ghost var start := [modelA.history, modelB.history];
      ghost var gens := [modelA.model, modelB.model];
      var responseA := modelA.HandlePrompt(initialPrompt);
      PairOpening(start, initialPrompt, gens);
      var i := 0;
      while i < steps
        invariant 0 <= i <= RangeLength(steps)
        invariant Play(start, initialPrompt, PairSchedule(i), gens).histories
               == [modelA.history, modelB.history]
        invariant Play(start, initialPrompt, PairSchedule(i), gens).prompt == responseA
      {
        ghost var hA, hB := modelA.history, modelB.history;
        var responseB := modelB.HandlePrompt(responseA);
        ghost var a := responseA;
        responseA := modelA.HandlePrompt(responseB);
        PairRound(start, initialPrompt, i, gens, hA, hB, a);
        i := i + 1;
      }
      assert i == RangeLength(steps);
      assert start == [old(modelA.history), old(modelB.history)];
      all := modelA.history + modelB.history;
    }
  }

  /**
   * Three personas; each turn goes to one drawn at random among those that
   * did not speak last. The last speaker is remembered across runs.
   */
  class ThreeWayConversation {
    const models: seq<ConversationModel>
    var lastModelIndex: Option<nat>

    /** Three distinct personas, and the last speaker (if any) is one of them. */
    ghost predicate Valid()
      reads this
    {
      |models| == CANDIDATES &&
      models[0] != models[1] && models[1] != models[2] && models[0] != models[2] &&
      (lastModelIndex.Some? ==> lastModelIndex.value < CANDIDATES)
    }

    /** Every persona's history, in list order. */
    ghost function Histories(): seq<seq<Msg>>
      reads models
      requires |models| == CANDIDATES
    {
      [models[0].history, models[1].history, models[2].history]
    }

    /** Every persona's model, in list order. */
    ghost function Generators(): seq<Generator>
      requires |models| == CANDIDATES
    {
      [models[0].model, models[1].model, models[2].model]
    }

    constructor (modelA: ConversationModel, modelB: ConversationModel, modelC: ConversationModel)
      requires modelA != modelB && modelB != modelC && modelA != modelC
      ensures models == [modelA, modelB, modelC] && lastModelIndex == None
      ensures Valid()
    {
      models := [modelA, modelB, modelC];
      lastModelIndex := None;
    }

    /**
     * Lists the personas other than the last speaker and picks one of them
     * (the code draws it at random; any of them may come out).
     */
    method PickNext() returns (next: nat)
      requires Valid()
      ensures next in Eligible(lastModelIndex) && next < CANDIDATES
    {
      var availableModels := Eligible(lastModelIndex);
      assert availableModels[0] in availableModels;
      next :| next in availableModels;
    }

    /**
     * One turn of a run: picks a persona other than the last speaker, records
     * it as the last speaker and lets it answer `prompt`. `who` is the index
     * picked.
     */
    method TakeTurn(prompt: string) returns (reply: string, ghost who: nat)
      requires Valid()
      modifies this, models
      ensures Valid()
      ensures who in Eligible(old(lastModelIndex)) && lastModelIndex == Some(who)
      ensures Histories() == old(Histories())[who := Respond(old(Histories())[who], prompt, Generators()[who])]
      ensures reply == Reply(old(Histories())[who], prompt, Generators()[who])
    {
      var nextModelIndex := PickNext();
      var nextModel := models[nextModelIndex];
      ghost var hs := Histories();
      lastModelIndex := Some(nextModelIndex);
      reply := nextModel.HandlePrompt(prompt);
      who := nextModelIndex;
      ghost var h := Respond(hs[who], prompt, nextModel.model);
      if who == 0 {
        assert Histories() == [h, hs[1], hs[2]] == hs[0 := h];
      } else if who == 1 {
        assert Histories() == [hs[0], h, hs[2]] == hs[1 := h];
      } else {
        assert Histories() == [hs[0], hs[1], h] == hs[2 := h];
      }
    }

    /**
     * Runs `steps` turns: each picks a persona other than the last speaker,
     * records it as the last speaker and passes it the current prompt, whose
     * reply becomes the next prompt. Returns all histories concatenated in
     * list order. `schedule` is the sequence of picks.
     */
    method StartConversation(initialPrompt: string, steps: int)
      returns (all: seq<Msg>, ghost schedule: seq<nat>)
      requires Valid()
      modifies this, models
      ensures Valid()
      ensures |schedule| == RangeLength(steps)
      ensures NoRepeat(old(lastModelIndex), schedule)
      ensures Speakers(schedule, CANDIDATES)
      ensures lastModelIndex == LastSpeaker(old(lastModelIndex), schedule)
      ensures Histories() == Play(old(Histories()), initialPrompt, schedule, Generators()).histories
      ensures all == models[0].history + models[1].history + models[2].history
    {
      ghost var start := Histories();
      ghost var first := lastModelIndex;
      var currentPrompt := initialPrompt;
      schedule := [];
      var i := 0;
      while i < steps
        invariant Valid()
        invariant 0 <= i <= RangeLength(steps) && |schedule| == i
        invariant NoRepeat(first, schedule) && Speakers(schedule, CANDIDATES)
        invariant lastModelIndex == LastSpeaker(first, schedule)
        invariant Play(start, initialPrompt, schedule, Generators()).histories == Histories()
        invariant Play(start, initialPrompt, schedule, Generators()).prompt == currentPrompt
      {
        ghost var who;
        currentPrompt, who := TakeTurn(currentPrompt);
        ThreeWayStep(start, initialPrompt, first, schedule, Generators(), who);
        schedule := schedule + [who];
        i := i + 1;
      }
      all := Concat([models[0].history, models[1].history, models[2].history]);
      ConcatThree(models[0].history, models[1].history, models[2].history);
    }
  }

  /**
   * One turn of the three-way driver: an eligible pick extends a schedule
   * that obeys the selection rule to one that still does, ends it with the
   * pick, and lets the picked persona answer the current prompt.
   */
  lemma ThreeWayStep(start: seq<seq<Msg>>, prompt: string, first: Option<nat>,
                     schedule: seq<nat>, gens: seq<Generator>, who: nat)
    requires |start| == |gens| == CANDIDATES
    requires Speakers(schedule, CANDIDATES) && NoRepeat(first, schedule)
    requires who in Eligible(LastSpeaker(first, schedule))
    ensures Speakers(schedule + [who], CANDIDATES) && NoRepeat(first, schedule + [who])
    ensures LastSpeaker(first, schedule + [who]) == Some(who)
    ensures var st := Play(start, prompt, schedule, gens);
      var r := Play(start, prompt, schedule + [who], gens);
      r.histories == st.histories[who := Respond(st.histories[who], st.prompt, gens[who])] &&
      r.prompt == Reply(st.histories[who], st.prompt, gens[who])
  {
    NoRepeatSnoc(first, schedule, who);
    PlayNext(start, prompt, schedule, who, gens);
  }

  /** The opening turn of the two-party driver: A answers the initial prompt. */
  lemma PairOpening(start: seq<seq<Msg>>, prompt: string, gens: seq<Generator>)
    requires |start| == |gens| == 2
    ensures var r := Play(start, prompt, PairSchedule(0), gens);
      r.histories == [Respond(start[0], prompt, gens[0]), start[1]] &&
      r.prompt == Reply(start[0], prompt, gens[0])
  {
    var s := PairSchedule(0);
    assert s == [0] by {
      assert |s| == 1 && s[0] == 0;
    }
    assert s == [] + [0];
    PlayNext(start, prompt, [], 0, gens);
    var h0 := Respond(start[0], prompt, gens[0]);
    assert start[0 := h0] == [h0, start[1]];
  }

  /**
   * One round of the two-party driver: B answers A's last reply `a`, then A
   * answers B; together they extend the alternating schedule by one round.
   */
  lemma PairRound(start: seq<seq<Msg>>, prompt: string, rounds: nat, gens: seq<Generator>,
                  hA: seq<Msg>, hB: seq<Msg>, a: string)
    requires |start| == |gens| == 2
    requires Play(start, prompt, PairSchedule(rounds), gens).histories == [hA, hB]
    requires Play(start, prompt, PairSchedule(rounds), gens).prompt == a
    ensures var b := Reply(hB, a, gens[1]);
      var r := Play(start, prompt, PairSchedule(rounds + 1), gens);
      r.histories == [Respond(hA, b, gens[0]), Respond(hB, a, gens[1])] &&
      r.prompt == Reply(hA, b, gens[0])
  {
    PairScheduleNext(rounds);
    PlayNext(start, prompt, PairSchedule(rounds), 1, gens);
    PlayNext(start, prompt, PairSchedule(rounds) + [1], 0, gens);
    assert PairSchedule(rounds) + [1] + [0] == PairSchedule(rounds + 1);
  }

  /** The lists of `lists` joined end to end, in order. */
  function Concat(lists: seq<seq<Msg>>): seq<Msg>
  {
    if lists == [] then [] else lists[0] + Concat(lists[1..])
  }

  /** Joining three histories puts them one after another in list order. */
  lemma ConcatThree(a: seq<Msg>, b: seq<Msg>, c: seq<Msg>)
    ensures Concat([a, b, c]) == a + b + c
  {
    assert [a, b, c][1..] == [b, c] && [b, c][1..] == [c] && [c][1..] == [];
    assert Concat([c]) == c;
    assert Concat([b, c]) == b + c;
  }
}
