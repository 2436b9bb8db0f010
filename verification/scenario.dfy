// A worked run of the three-way driver with a stub model that acknowledges
// the prompt it was last given: three fresh personas, four turns picked as
// 1, 0, 2, 1.

module Scenario {
  import opened Transcript
  import opened Dialogue
  import opened Schedule

  /** A stub model: "ACK:" followed by the content of the last entry it sees. */
  function Ack(h: seq<Msg>): string
  {
    if h == [] then "" else "ACK:" + h[|h| - 1].content
  }

  /** `p` acknowledged `n` times. */
  function Acked(n: nat, p: string): string
  {
    if n == 0 then p else "ACK:" + Acked(n - 1, p)
  }

  /** The three fresh personas of the run. */
  function Fresh(a: string, b: string, c: string): seq<seq<Msg>>
  {
    [Opening(a), Opening(b), Opening(c)]
  }

  /** The picks 1, 0, 2, 1 obey the selection rule from a fresh start. */
  lemma AckPicks()
    ensures NoRepeat(None, [1, 0, 2, 1])
  {
    var s := [1, 0, 2, 1];
    forall k | 0 <= k < |s|
      ensures s[k] in Eligible(LastSpeaker(None, s[..k]))
    {
      EligibleAt(None, s, k);
    }
  }

  /** Persona 1 acknowledges the initial prompt. */
  lemma AckTurn1(a: string, b: string, c: string, p: string)
    ensures var r := Play(Fresh(a, b, c), p, [1], [Ack, Ack, Ack]);
      r.histories == [[Msg(System, a)],
                      [Msg(System, b), Msg(User, p), Msg(Assistant, Acked(1, p))],
                      [Msg(System, c)]] &&
      r.prompt == Acked(1, p)
  {
    var hs, gens := Fresh(a, b, c), [Ack, Ack, Ack];
    assert Acked(0, p) == p;
    assert Play(hs, p, [], gens) == Stage(hs, p, []);
    assert [1] == [] + [1];
    PlayNext(hs, p, [], 1, gens);
    var h1 := [Msg(System, b), Msg(User, p), Msg(Assistant, Acked(1, p))];
    assert Respond(hs[1], p, Ack) == h1;
    assert hs[1 := h1] == [[Msg(System, a)], h1, [Msg(System, c)]];
  }

  /** Persona 0 acknowledges persona 1. */
  lemma AckTurn2(a: string, b: string, c: string, p: string)
    ensures var r := Play(Fresh(a, b, c), p, [1, 0], [Ack, Ack, Ack]);
      r.histories == [[Msg(System, a), Msg(User, Acked(1, p)), Msg(Assistant, Acked(2, p))],
                      [Msg(System, b), Msg(User, p), Msg(Assistant, Acked(1, p))],
                      [Msg(System, c)]] &&
      r.prompt == Acked(2, p)
  {
    var hs, gens := Fresh(a, b, c), [Ack, Ack, Ack];
    AckTurn1(a, b, c, p);
    assert [1, 0] == [1] + [0];
    PlayNext(hs, p, [1], 0, gens);
    var st := Play(hs, p, [1], gens);
    var h0 := [Msg(System, a), Msg(User, Acked(1, p)), Msg(Assistant, Acked(2, p))];
    assert Respond(st.histories[0], st.prompt, Ack) == h0;
    assert st.histories[0 := h0] == [h0, st.histories[1], st.histories[2]];
  }

  /** Persona 2 acknowledges persona 0. */
  lemma AckTurn3(a: string, b: string, c: string, p: string)
    ensures var r := Play(Fresh(a, b, c), p, [1, 0, 2], [Ack, Ack, Ack]);
      r.histories == [[Msg(System, a), Msg(User, Acked(1, p)), Msg(Assistant, Acked(2, p))],
                      [Msg(System, b), Msg(User, p), Msg(Assistant, Acked(1, p))],
                      [Msg(System, c), Msg(User, Acked(2, p)), Msg(Assistant, Acked(3, p))]] &&
      r.prompt == Acked(3, p)
  {
    var hs, gens := Fresh(a, b, c), [Ack, Ack, Ack];
    AckTurn2(a, b, c, p);
    assert [1, 0, 2] == [1, 0] + [2];
    PlayNext(hs, p, [1, 0], 2, gens);
    var st := Play(hs, p, [1, 0], gens);
    var h2 := [Msg(System, c), Msg(User, Acked(2, p)), Msg(Assistant, Acked(3, p))];
    assert Respond(st.histories[2], st.prompt, Ack) == h2;
    assert st.histories[2 := h2] == [st.histories[0], st.histories[1], h2];
  }

  /**
   * Persona 1 speaks again and acknowledges persona 2: every reply
   * acknowledges the one before it, and each history holds exactly the
   * exchanges of its own persona, persona 1's both of them in order.
   */
  lemma AckRun(a: string, b: string, c: string, p: string)
    ensures var r := Play(Fresh(a, b, c), p, [1, 0, 2, 1], [Ack, Ack, Ack]);
      r.histories ==
        [[Msg(System, a), Msg(User, Acked(1, p)), Msg(Assistant, Acked(2, p))],
         [Msg(System, b), Msg(User, p), Msg(Assistant, Acked(1, p)),
          Msg(User, Acked(3, p)), Msg(Assistant, Acked(4, p))],
         [Msg(System, c), Msg(User, Acked(2, p)), Msg(Assistant, Acked(3, p))]] &&
      r.prompt == Acked(4, p)
  {
    var hs, gens := Fresh(a, b, c), [Ack, Ack, Ack];
    AckTurn3(a, b, c, p);
    assert [1, 0, 2, 1] == [1, 0, 2] + [1];
    PlayNext(hs, p, [1, 0, 2], 1, gens);
    var st := Play(hs, p, [1, 0, 2], gens);
    var h1 := [Msg(System, b), Msg(User, p), Msg(Assistant, Acked(1, p)),
               Msg(User, Acked(3, p)), Msg(Assistant, Acked(4, p))];
    assert Respond(st.histories[1], st.prompt, Ack) == h1;
    assert st.histories[1 := h1] == [st.histories[0], h1, st.histories[2]];
  }
}
