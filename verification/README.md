# Persona debates: conversation bookkeeping and turn selection

The program stages debates between chatbot personas. A persona
(`ConversationModel`) has a fixed framing, its system message, and a
conversation history that only ever grows. The history starts with one system
entry. Each prompt the persona handles appends a user entry and then the
assistant entry holding the remote model's reply.

Two drivers pass a single "current prompt" from persona to persona:

- `ConversationPair` lets persona A answer the initial prompt. It then runs
  `steps` rounds in which B answers A's last reply and A answers B's.
- `ThreeWayConversation` draws each speaker among the three personas other
  than the one that spoke last. It remembers that last speaker across runs.

Both drivers return every history, concatenated in list order.

The model is written in the program's own imperative form:

- Each persona is a `class` with a `seq<Msg>` history field.
- The drivers are classes whose methods run `while` loops over the personas
  and carry loop invariants.

Every method is proved against a specification function. `Play` gives the
state after a run: every history, the pending prompt and the log of turns. It
is a function of the starting histories, the initial prompt, the schedule of
speakers and the personas' models. Lemmas then state what a run means:
- who spoke;
- what each persona was given;
- what its history holds;
- how long it is;
- the no-repeat rule.

Files, one module each:

- `transcript.dfy` (`Transcript`): messages and histories of one persona.
  - `Respond` is the functional form of one exchange.
  - `WellFormed` is the shape every history keeps.
  - `Entries`/`Parse` convert between exchanges and history entries.
- `dialogue.dfy` (`Dialogue`): `Play`, a run of turns over a schedule, and
  what it does to every history.
- `schedule.dfy` (`Schedule`): the two drivers' speaking orders.
  - The three-way eligibility rule and its characterisation.
  - The two-party alternation.
  - Turn counts and history lengths.
- `conversation.dfy` (`Conversation`): the three classes and their methods.
- `scenario.dfy` (`Scenario`): a worked three-way run with a stub model that
  acknowledges its last prompt.

The remote model is a parameter. Each persona holds a total function
`Generator = seq<Msg> -> string`. It is called with the whole history, and its
result is the reply.

## Model

| member | source | states |
|---|---|---|
| Conversation.ConversationModel.constructor | main.py:15-19 | a new persona keeps its model, system message and display name; its history is exactly one system entry holding the system message, and that history is well formed |
| Conversation.ConversationModel.HandlePrompt | main.py:21-31 | the new history is the old one plus a user entry with the prompt and an assistant entry with the reply; the reply, which is also returned, is the model's answer to the old history extended by the user entry; a well-formed history stays well formed |
| Transcript.RespondAppends | main.py:23-29 | one exchange grows a history by exactly two entries and leaves every earlier entry unchanged; the model sees the whole history up to and including the new user entry |
| Transcript.RespondWellFormed | main.py:23-29 | one exchange keeps a history well formed |
| Transcript.EntriesAt | main.py:23-29 | among the entries after the system entry, exchange k sits at positions 2k (the prompt, as a user entry) and 2k+1 (the reply, as an assistant entry) |
| Transcript.EntriesSnoc | main.py:23-29 | one more exchange adds exactly its user entry and then its assistant entry at the end |
| Transcript.ParseEntries | main.py:23-29 | reading back the entries of any list of exchanges gives that list (the round trip) |
| Transcript.EntriesPaired | main.py:23-29 | the entries of any exchanges form user/assistant pairs |
| Transcript.PairedAppend | main.py:23-29 | user/assistant pairs followed by further pairs are still pairs |
| Transcript.PairedIsEntries | main.py:23-29 | a run of user/assistant pairs is exactly the entries of the exchanges it records (the other round trip) |
| Transcript.AppendEntriesWellFormed | main.py:19-29 | appending the entries of any exchanges to a well-formed history keeps it well formed |
| Transcript.WellFormedIsOpeningAndEntries | main.py:19-29 | every well-formed history is the opening system entry followed by the entries of the exchanges it records |
| Transcript.WellFormedAlternates | main.py:19-29 | a well-formed history has odd length, starts with the system entry, and has user entries at odd positions and assistant entries at even positions after that |
| Transcript.AlternatingWellFormed | main.py:19-29 | conversely, a history with that alternating layout is well formed |
| Conversation.ConversationPair.constructor | main.py:35-37 | the pair keeps persona A and persona B |
| Conversation.ConversationPair.StartConversation | main.py:39-52 | both histories end as the two-party schedule for `max(steps, 0)` rounds leaves them when played from the old histories; the result is A's history followed by B's |
| Conversation.PairOpening | main.py:41 | the seed turn: A answers the initial prompt; B's history is unchanged; A's reply becomes the pending prompt |
| Conversation.PairRound | main.py:45-50 | one round: B answers A's last reply, then A answers B's reply; it extends the schedule by one round |
| Schedule.PairSchedule | main.py:41-50 | the two-party order names only persona 0 (A) and persona 1 (B) |
| Schedule.PairScheduleNext | main.py:45-50 | each further round appends a turn of B and then a turn of A |
| Schedule.PairScheduleCounts | main.py:41-50 | over `rounds` rounds, A speaks `rounds + 1` times and B speaks `rounds` times |
| Schedule.PairLengths | main.py:41-50 | after a two-party run, A's history has grown by `2 * (rounds + 1)` entries and B's by `2 * rounds` |
| Schedule.PairPromptPassing | main.py:41-49 | A answers the initial prompt first; in every round, B answers A's most recent reply and then A answers B's reply from that round |
| Conversation.ThreeWayConversation.constructor | main.py:57-61 | the driver keeps the three personas in order, and no one has spoken yet |
| Conversation.ThreeWayConversation.PickNext | main.py:69-71 | the pick is one of the three personas and is not the last speaker |
| Conversation.ThreeWayConversation.TakeTurn | main.py:69-77 | one turn: the pick is eligible and is recorded as the last speaker; only the picked persona's history changes, by one exchange with the current prompt; the reply is that persona's model's answer |
| Conversation.ThreeWayConversation.StartConversation | main.py:63-80 | runs `max(steps, 0)` turns; every pick obeys the no-repeat rule starting from the remembered last speaker; the last speaker afterwards is the final pick, or unchanged when no turn ran; the histories are what `Play` of the picks gives; the result joins the three histories in list order |
| Conversation.ThreeWayStep | main.py:69-77 | an eligible pick extends a rule-abiding schedule to one that still obeys the rule, becomes the last speaker, and plays one more turn |
| Schedule.Available | main.py:69 | exactly the indices below n other than the last speaker, in increasing order, and as many as that leaves |
| Schedule.Eligible | main.py:69 | with no last speaker all three personas are eligible, and at least two always are |
| Schedule.EligibleAt | main.py:69-71 | pick k is eligible exactly when it is below 3 and differs from the pick before it, or from the remembered last speaker for the first pick |
| Schedule.NoRepeatIff | main.py:67-75 | a schedule obeys the selection rule exactly when it names only personas 0-2, its first pick differs from the remembered last speaker, and no persona is picked twice in a row |
| Schedule.NoRepeatSnoc | main.py:69-75 | a rule-abiding schedule can be extended by exactly the picks eligible after its last speaker |
| Schedule.ThreeWayCounts | main.py:67-77 | the three personas' turn counts add up to the length of the run |
| Schedule.ThreeWayLengths | main.py:67-77 | each history grows by two entries per turn of its persona, so the three together grow by two entries per turn of the run; with `StartConversation` that is `2 * max(steps, 0)` |
| Dialogue.Play | main.py:65-77 | a run keeps the number of personas and logs one turn per pick, spoken by that pick |
| Dialogue.PlayNext | main.py:77 | one more turn appends the pending prompt and the reply to the speaker's history only; the reply becomes the pending prompt |
| Dialogue.StepEffect | main.py:77 | one turn touches only the speaker's history, and records one exchange for the speaker only |
| Dialogue.PlayHistories | main.py:65-77 | after a run, every history is what it was plus the entries of exactly its own persona's turns, in order |
| Dialogue.PlayBaton | main.py:65-77 | the first turn answers the initial prompt; every later turn answers the reply of the turn before it; the pending prompt is the last reply, or the initial prompt when no turn ran |
| Dialogue.LastReply | main.py:77 | the last turn's reply is the speaker's model's answer to its history so far extended by that turn's prompt |
| Dialogue.PlayReplies | main.py:65-77 | every reply is the speaker's model's answer to that persona's whole history so far (its earlier turns included) extended by the turn's prompt |
| Dialogue.TurnCounts | main.py:67-77 | a persona takes exactly as many turns as the schedule names it |
| Dialogue.HistoryLengths | main.py:67-77 | a persona's history grows by exactly two entries for each time the schedule names it |
| Dialogue.PlayKeepsWellFormed | main.py:19-31 | a run of either driver keeps every persona's history well formed (its system entry followed by user/assistant pairs); with `StartConversation` this carries `ConversationModel.Valid` across a whole run |
| Conversation.ConcatThree | main.py:80 | joining the three histories puts them one after another in list order |
| Scenario.AckPicks | main.py:67-75 | the picks 1, 0, 2, 1 obey the selection rule from a fresh driver |
| Scenario.AckTurn1 | main.py:77 | with an acknowledging stub model, persona 1's answer to the initial prompt is its only exchange |
| Scenario.AckTurn2 | main.py:77 | persona 0 then acknowledges persona 1's reply |
| Scenario.AckTurn3 | main.py:77 | persona 2 then acknowledges persona 0's reply |
| Scenario.AckRun | main.py:63-80 | after the picks 1, 0, 2, 1 from three fresh personas, every history holds exactly its own persona's exchanges, with the entries spelled out; persona 1's two exchanges are in order; the pending prompt is the initial prompt acknowledged four times |

## Behaviour of the code at the edges

- `last_model_index` is initialised only in the three-way driver's
  constructor (main.py:61), is assigned on every turn (main.py:75), and is
  never reset. A second run therefore continues the
  no-repeat rule from the previous run. `StartConversation` states its rule
  relative to the last speaker at the start of the call.
- Neither driver rejects a negative step count: `range(steps)` is then empty,
  so no loop iteration runs (`|schedule| == RangeLength(steps)` in the
  three-way driver, `PairSchedule(RangeLength(steps))` in the two-party one).
- The candidate indices are fixed to `range(3)` (main.py:69, `CANDIDATES`);
  there is no check on the number of personas.
- In a two-party run A takes `max(steps, 0) + 1` exchanges and B takes
  `max(steps, 0)` (`PairLengths` with `RangeLength(steps)` rounds), so
  together they add `2 * (2 * max(steps, 0) + 1)` entries; a negative
  `steps` still runs A's seed turn (main.py:41).

## Left out

- The remote model and its client (main.py:16, main.py:25) are outside the model. Each persona holds a total reply function of the whole history; the constructor takes that function instead of a model name.
- Failures of the remote call are not modelled, because the reply function is total. In the code, a failing call leaves the user entry already appended (main.py:23) and, in the three-way driver, the last speaker already updated (main.py:75).
- Console output (main.py:27, main.py:43, main.py:48, main.py:50) is not modelled. `humanName` is kept but is used only for printing.
- The credential assignment and the unused imports (main.py:1-10) are environment plumbing.
- The module-level persona setup and the run script after line 84 of main.py are configuration data and a call to the remote service.
- The default `steps = 5` of both drivers is not modelled: callers pass `steps` explicitly.
- Conversation.ThreeWayConversation.PickNext: the pick is any eligible index (a nondeterministic choice). The uniform distribution of `random.choice` (main.py:71) is not captured.
- Conversation.ConversationPair.StartConversation: requires A and B to be different persona objects. The code also accepts one object in both seats, in which case a single history receives every turn; the model does not cover that aliasing.
- Conversation.ThreeWayConversation.constructor: requires three different persona objects, and `StartConversation` keeps that invariant. The code accepts the same object in several seats; the model does not cover that aliasing.
