// Messages and transcripts of one persona.
//
// A persona's conversation history is a system entry holding its framing,
// followed by one user/assistant pair per exchange. This module gives that
// shape as a predicate and as a function of the exchanges, and the functional
// form of one exchange (what `handle_prompt` does to a history).

module Transcript {

  datatype Role = System | User | Assistant

  datatype Msg = Msg(role: Role, content: string)

  /** One exchange: the prompt a persona was given and the reply it produced. */
  datatype Exchange = Exchange(prompt: string, reply: string)

  /**
   * The remote language model of one persona: it is given the whole ordered
   * history and returns the text of a reply.
   */
  type Generator = seq<Msg> -> string

  /** The history of a freshly constructed persona. */
  function Opening(systemMessage: string): seq<Msg>
  {
    [Msg(System, systemMessage)]
  }

  /** A run of user entries each followed by an assistant entry. */
  predicate Paired(body: seq<Msg>)
  {
    if body == [] then true
    else
      |body| >= 2 && body[|body| - 2].role == User && body[|body| - 1].role == Assistant &&
      Paired(body[..|body| - 2])
  }

  /**
   * A history as the persona builds it: the opening system entry, followed by
   * a user entry and an assistant entry for each exchange.
   */
  predicate WellFormed(h: seq<Msg>, systemMessage: string)
  {
    |h| >= 1 && h[0] == Msg(System, systemMessage) && Paired(h[1..])
  }

  /** The roles of a history alternate as in a transcript, position by position. */
  predicate Alternating(h: seq<Msg>, systemMessage: string)
  {
    |h| % 2 == 1 && h[0] == Msg(System, systemMessage) &&
    forall i | 1 <= i < |h| :: h[i].role == (if i % 2 == 1 then User else Assistant)
  }

  /** The reply `gen` gives once `prompt` is appended to `h` as a user entry. */
  function Reply(h: seq<Msg>, prompt: string, gen: Generator): string
  {
    gen(h + [Msg(User, prompt)])
  }

  /** The history after one exchange: the prompt as a user entry, then the reply. */
  function Respond(h: seq<Msg>, prompt: string, gen: Generator): seq<Msg>
  {
    h + [Msg(User, prompt), Msg(Assistant, Reply(h, prompt, gen))]
  }

  /**
   * One exchange only appends: it grows the history by exactly two entries,
   * keeps every earlier entry, and the generator sees the whole history up to
   * and including the new user entry.
   */
  lemma RespondAppends(h: seq<Msg>, prompt: string, gen: Generator)
    ensures var r := Respond(h, prompt, gen);
      |r| == |h| + 2 && r[..|h|] == h &&
      r[|h|] == Msg(User, prompt) &&
      r[|h| + 1] == Msg(Assistant, gen(r[..|h| + 1]))
  {
    assert Respond(h, prompt, gen)[..|h| + 1] == h + [Msg(User, prompt)];
  }

  /** The user/assistant entries that a sequence of exchanges leaves in a history. */
  function Entries(exs: seq<Exchange>): (r: seq<Msg>)
    ensures |r| == 2 * |exs|
  {
    if exs == [] then []
    else
      var last := exs[|exs| - 1];
      Entries(exs[..|exs| - 1]) + [Msg(User, last.prompt), Msg(Assistant, last.reply)]
  }

  /** The exchanges recorded in a run of user/assistant entries (the inverse of Entries). */
  function Parse(body: seq<Msg>): seq<Exchange>
  {
    if |body| < 2 then []
    else Parse(body[..|body| - 2]) + [Exchange(body[|body| - 2].content, body[|body| - 1].content)]
  }

  /** Exchange `k` sits at entries `2k` (its prompt) and `2k + 1` (its reply). */
  lemma {:induction false} EntriesAt(exs: seq<Exchange>, k: nat)
    requires k < |exs|
    ensures Entries(exs)[2 * k] == Msg(User, exs[k].prompt)
    ensures Entries(exs)[2 * k + 1] == Msg(Assistant, exs[k].reply)
  {
    if k < |exs| - 1 {
      EntriesAt(exs[..|exs| - 1], k);
    }
  }

  /** The entries of one more exchange are two more entries at the end. */
  lemma EntriesSnoc(exs: seq<Exchange>, x: Exchange)
    ensures Entries(exs + [x]) == Entries(exs) + [Msg(User, x.prompt), Msg(Assistant, x.reply)]
  {
    assert (exs + [x])[..|exs|] == exs;
  }

  /** Parsing the entries of some exchanges gives those exchanges back. */
  lemma {:induction false} ParseEntries(exs: seq<Exchange>)
    ensures Parse(Entries(exs)) == exs
  {
    if exs != [] {
      var init := exs[..|exs| - 1];
      var e := Entries(exs);
      assert e[..|e| - 2] == Entries(init);
      ParseEntries(init);
      assert exs == init + [exs[|exs| - 1]];
    }
  }

  /** The entries of any exchanges are paired. */
  lemma {:induction false} EntriesPaired(exs: seq<Exchange>)
    ensures Paired(Entries(exs))
  {
    if exs != [] {
      var e := Entries(exs);
      EntriesPaired(exs[..|exs| - 1]);
      assert e[..|e| - 2] == Entries(exs[..|exs| - 1]);
    }
  }

  /** Paired entries followed by more paired entries are paired. */
  lemma {:induction false} PairedAppend(body: seq<Msg>, more: seq<Msg>)
    requires Paired(body) && Paired(more)
    ensures Paired(body + more)
  {
    if more != [] {
      var m' := more[..|more| - 2];
      PairedAppend(body, m');
      var r := body + more;
      assert r[..|r| - 2] == body + m';
    } else {
      assert body + more == body;
    }
  }

  /** Appending the entries of any exchanges keeps a history well formed. */
  lemma AppendEntriesWellFormed(h: seq<Msg>, systemMessage: string, exs: seq<Exchange>)
    requires WellFormed(h, systemMessage)
    ensures WellFormed(h + Entries(exs), systemMessage)
  {
    var b, e := h[1..], Entries(exs);
    EntriesPaired(exs);
    PairedAppend(b, e);
    assert (h + e)[1..] == b + e;
  }

  /** One exchange keeps a history well formed. */
  lemma RespondWellFormed(h: seq<Msg>, systemMessage: string, prompt: string, gen: Generator)
    requires WellFormed(h, systemMessage)
    ensures WellFormed(Respond(h, prompt, gen), systemMessage)
  {
    var r := Respond(h, prompt, gen);
    var body := r[1..];
    assert body[..|body| - 2] == h[1..];
    assert r[0] == h[0];
  }

  /** Paired entries are the entries of the exchanges they record. */
  lemma {:induction false} PairedIsEntries(body: seq<Msg>)
    requires Paired(body)
    ensures body == Entries(Parse(body))
  {
    if body != [] {
      var b' := body[..|body| - 2];
      var u, a := body[|body| - 2], body[|body| - 1];
      var x := Exchange(u.content, a.content);
      PairedIsEntries(b');
      EntriesSnoc(Parse(b'), x);
      assert body == b' + [u, a];
    }
  }

  /**
   * Every well-formed history is the opening entry followed by the entries of
   * the exchanges it records; with AppendEntriesWellFormed this says that the
   * well-formed histories are exactly those.
   */
  lemma WellFormedIsOpeningAndEntries(h: seq<Msg>, systemMessage: string)
    requires WellFormed(h, systemMessage)
    ensures h == Opening(systemMessage) + Entries(Parse(h[1..]))
  {
    PairedIsEntries(h[1..]);
    assert h == [h[0]] + h[1..];
  }

  /**
   * A well-formed history has odd length, starts with the system entry and
   * alternates user and assistant entries after it.
   */
  lemma {:induction false} WellFormedAlternates(h: seq<Msg>, systemMessage: string)
    requires WellFormed(h, systemMessage)
    ensures Alternating(h, systemMessage)
  {
    if |h| > 1 {
      var h' := h[..|h| - 2];
      assert h'[1..] == h[1..][..|h| - 3];
      WellFormedAlternates(h', systemMessage);
      forall i | 1 <= i < |h|
        ensures h[i].role == (if i % 2 == 1 then User else Assistant)
      {
        if i < |h'| {
          assert h[i] == h'[i];
        } else {
          assert |h'| % 2 == 1;
        }
      }
    }
  }

  /** Conversely, a history whose roles alternate so is well formed. */
  lemma {:induction false} AlternatingWellFormed(h: seq<Msg>, systemMessage: string)
    requires Alternating(h, systemMessage)
    ensures WellFormed(h, systemMessage)
  {
    if |h| > 1 {
      var h' := h[..|h| - 2];
      assert (|h| - 2) % 2 == 1 && (|h| - 1) % 2 == 0;
      assert Alternating(h', systemMessage) by {
        forall i | 1 <= i < |h'|
          ensures h'[i].role == (if i % 2 == 1 then User else Assistant)
        {
          assert h'[i] == h[i];
        }
      }
      AlternatingWellFormed(h', systemMessage);
      assert h[1..][..|h| - 3] == h'[1..];
    } else {
      assert h[1..] == [];
    }
  }
}
