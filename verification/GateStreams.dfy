/** What the gate does to a whole token stream, said by positions in the stream alone. */
module GateStreams {
  import opened PreambleGate
  import opened GateRuns

  // ----- what a token is, given the tokens before it -----

  /** The gate at the start of a preamble, and again after a strict call with another to come. */
  const ARMED: Gate := Gate(Active, 0, "")

  /** A preamble is asked for, and it has not ended before the first token. */
  predicate StartsOpen(c: Config)
  {
    && (c.closeToken >= 0 || c.maxTokens > 0)
    && (c.closeToken < 0 || c.thinkingOpen || c.openTokens != [] || c.openPrefix != "")
  }

  predicate ClosesThinking(c: Config, t: Token)
  {
    c.closeToken >= 0 && t.id == c.closeToken
  }

  /** Where the current preamble begins: behind the last token that closed a thinking block. */
  function Start(c: Config, ts: seq<Token>): (n: nat)
    ensures n <= |ts|
  {
    if ts == [] then 0 else if ClosesThinking(c, ts[|ts| - 1]) then |ts| else Start(c, ts[..|ts| - 1])
  }

  /** The text of the current preamble, with the next token. */
  function TextWith(c: Config, before: seq<Token>, t: Token): string
  {
    TextOf(before[Start(c, before)..]) + t.text
  }

  /** By its id, or by completing or following the opening text within 32 characters. */
  predicate OpensTool(c: Config, before: seq<Token>, t: Token)
  {
    && !ClosesThinking(c, t)
    && ((t.id >= 0 && t.id in c.openTokens) ||
        (c.openPrefix != "" &&
         var text := TextWith(c, before, t);
         exists i :: 0 <= i <= |text| && i + 32 >= |text| && OccursAt(c.openPrefix, text, i)))
  }

  /** Answers in JSON without calling a tool. */
  predicate StartsAnswer(c: Config, before: seq<Token>, t: Token)
  {
    !ClosesThinking(c, t) && !OpensTool(c, before, t) && ('{' in t.text || '[' in t.text)
  }

  /** The last token the budget allows. */
  predicate SpendsBudget(c: Config, before: seq<Token>, t: Token)
  {
    !ClosesThinking(c, t) && c.maxTokens > 0 && |before| + 1 - Start(c, before) >= c.maxTokens
  }

  /** The end of a thinking block ends the preamble unless tools may still be called. */
  predicate EndsPreamble(c: Config, before: seq<Token>, t: Token)
  {
    || (ClosesThinking(c, t) && c.openTokens == [] && c.openPrefix == "")
    || OpensTool(c, before, t) || StartsAnswer(c, before, t) || SpendsBudget(c, before, t)
  }

  predicate LastsThrough(c: Config, ts: seq<Token>, n: nat)
    requires n <= |ts|
  {
    forall i :: 0 <= i < n ==> !EndsPreamble(c, ts[..i], ts[i])
  }

  // ----- the gate agrees -----

  function Lasting(c: Config, ts: seq<Token>): Gate
  {
    var us := ts[Start(c, ts)..];
    Gate(Active, |us|, if c.openPrefix == "" then "" else Last(32, TextOf(us)))
  }

  lemma {:induction false} TextOfSnoc(us: seq<Token>, t: Token)
    ensures TextOf(us + [t]) == TextOf(us) + t.text
  {
    assert (us + [t])[..|us|] == us;
  }

  lemma {:induction false} StartSnoc(c: Config, ts: seq<Token>, t: Token)
    ensures Start(c, ts + [t]) == if ClosesThinking(c, t) then |ts| + 1 else Start(c, ts)
    ensures (ts + [t])[Start(c, ts + [t])..] == if ClosesThinking(c, t) then [] else ts[Start(c, ts)..] + [t]
  {
    assert (ts + [t])[..|ts|] == ts;
  }

  /** What the window shows is what the text says. */
  lemma {:induction false} WindowShows(c: Config, before: seq<Token>, t: Token)
    requires c.openPrefix != ""
    ensures var text, buf := TextWith(c, before, t), Last(32, Lasting(c, before).buf + t.text);
            && buf == Last(32, text)
            && (Occurs(c.openPrefix, buf) <==> exists i :: 0 <= i <= |text| && i + 32 >= |text| && OccursAt(c.openPrefix, text, i))
  {
    hide Last, OccursAt;
    var us := before[Start(c, before)..];
    LastOfLast(32, TextOf(us), t.text);
    OccursInLast(c.openPrefix, TextWith(c, before, t));
  }

  lemma {:induction false} LastingSnoc(c: Config, before: seq<Token>, t: Token)
    ensures Lasting(c, before + [t]) ==
            if ClosesThinking(c, t) then Gate(Active, 0, "")
            else Gate(Active, |before| + 1 - Start(c, before), if c.openPrefix == "" then "" else Last(32, TextWith(c, before, t)))
  {
    hide Last, ClosesThinking;
    StartSnoc(c, before, t);
    TextOfSnoc(before[Start(c, before)..], t);
  }

  /** One token of the preamble. */
  lemma {:induction false} PreambleStep(c: Config, before: seq<Token>, t: Token)
    ensures var n := Next(c, Lasting(c, before), t.id, t.text);
            && n.1 == !StartsAnswer(c, before, t)
            && (!EndsPreamble(c, before, t) ==> n.0 == Lasting(c, before + [t]))
            && (EndsPreamble(c, before, t) ==>
                  n.0.state == if !OpensTool(c, before, t) then Off else if c.strictTool then ToolArgs else ToolBody)
  {
    hide Last, OccursAt, Occurs, Start, TextOf, TextWith;
    LastingSnoc(c, before, t);
    if c.openPrefix != "" {
      WindowShows(c, before, t);
    }
  }

  lemma {:induction false} PreambleLasts(c: Config, ts: seq<Token>, n: nat)
    requires n <= |ts| && LastsThrough(c, ts, n)
    ensures GateAfter(c, ARMED, ts[..n]) == Lasting(c, ts[..n])
    decreases n
  {
    if n > 0 {
      PreambleLasts(c, ts, n - 1);
      assert ts[..n] == ts[..n - 1] + [ts[n - 1]];
      GateAfterSnoc(c, ARMED, ts[..n - 1], ts[n - 1]);
      PreambleStep(c, ts[..n - 1], ts[n - 1]);
    }
  }

  lemma {:induction false} OutcomeAt(c: Config, g: Gate, ts: seq<Token>, j: nat)
    requires j < |ts|
    ensures var h := GateAfter(c, g, ts[..j]);
            Outcomes(c, g, ts)[j] == Outcome(Bypassed(h), Next(c, h, ts[j].id, ts[j].text).1)
    decreases j
  {
    if j > 0 {
      var h := Next(c, g, ts[0].id, ts[0].text).0;
      OutcomeAt(c, h, ts[1..], j - 1);
      assert ts[..j][1..] == ts[1..][..j - 1];
    }
  }

  /** A fresh gate is armed, or it forwards everything under the mask. */
  lemma {:induction false} FreshIsArmedIff(c: Config, ts: seq<Token>, j: nat)
    requires j < |ts|
    ensures Fresh(c) == ARMED <==> StartsOpen(c)
    ensures !StartsOpen(c) ==> Outcomes(c, Fresh(c), ts)[j] == Outcome(false, false)
  {
    if !StartsOpen(c) {
      ForwardsForever(c, Fresh(c), ts, j);
    }
  }

  /** While the preamble lasts the mask is off, and only a token that starts an answer is
      forwarded. */
  lemma {:induction false} DuringPreamble(c: Config, ts: seq<Token>, j: nat)
    requires j < |ts| && LastsThrough(c, ts, j)
    ensures Outcomes(c, ARMED, ts)[j] == Outcome(true, !StartsAnswer(c, ts[..j], ts[j]))
  {
    hide Next, EndsPreamble, StartsAnswer;
    PreambleLasts(c, ts, j);
    OutcomeAt(c, ARMED, ts, j);
    PreambleStep(c, ts[..j], ts[j]);
  }

  lemma {:induction false} BodyBypasses(c: Config, g: Gate, ts: seq<Token>, j: nat)
    requires (g.state.ToolBody? || g.state.TerminalOff?) && j < |ts|
    ensures Outcomes(c, g, ts)[j] == Outcome(true, true)
  {
    BodyOrClosed(c, g, ts[..j]);
    OutcomeAt(c, g, ts, j);
  }

  lemma {:induction false} OutcomesConcat(c: Config, g: Gate, ts: seq<Token>, us: seq<Token>, j: nat)
    requires j < |us|
    ensures Outcomes(c, g, ts + us)[|ts| + j] == Outcomes(c, GateAfter(c, g, ts), us)[j]
    decreases |ts|
  {
    if ts == [] {
      assert ts + us == us;
    } else {
      assert (ts + us)[1..] == ts[1..] + us;
      OutcomesConcat(c, Next(c, g, ts[0].id, ts[0].text).0, ts[1..], us, j);
    }
  }

  /** The state a preamble ends in. */
  lemma {:induction false} EndState(c: Config, ts: seq<Token>, e: nat)
    requires e < |ts| && LastsThrough(c, ts, e) && EndsPreamble(c, ts[..e], ts[e])
    ensures GateAfter(c, ARMED, ts[..e + 1]).state ==
            if !OpensTool(c, ts[..e], ts[e]) then Off else if c.strictTool then ToolArgs else ToolBody
  {
    hide Next, EndsPreamble, OpensTool, GateAfter, Lasting;
    PreambleLasts(c, ts, e);
    PreambleStep(c, ts[..e], ts[e]);
    GateAfterSnoc(c, ARMED, ts[..e], ts[e]);
    assert ts[..e + 1] == ts[..e] + [ts[e]];
  }

  /** Behind the token that ended the preamble: a tool opened without strict arguments keeps
      the mask off and every token, anything else forwards every token under the mask. */
  lemma {:induction false} AfterPreamble(c: Config, ts: seq<Token>, e: nat, j: nat)
    requires e < j < |ts| && LastsThrough(c, ts, e) && EndsPreamble(c, ts[..e], ts[e])
    ensures Outcomes(c, ARMED, ts)[j] ==
            if OpensTool(c, ts[..e], ts[e]) && !c.strictTool then Outcome(true, true) else Outcome(false, false)
  {
    hide Next, EndsPreamble, OpensTool, GateAfter, Outcomes, LastsThrough;
    EndState(c, ts, e);
    var head, tail := ts[..e + 1], ts[e + 1..];
    assert head + tail == ts;
    var g := GateAfter(c, ARMED, head);
    OutcomesConcat(c, ARMED, head, tail, j - e - 1);
    if g.state.ToolBody? {
      BodyBypasses(c, g, tail, j - e - 1);
    } else {
      ForwardsForever(c, g, tail, j - e - 1);
    }
  }

  /** A quiet token: it closes and opens nothing by its id and starts no answer. */
  predicate Quiet(c: Config, t: Token)
  {
    Ordinary(c, t) && '{' !in t.text && '[' !in t.text
  }

  /** A budget of `n` lets exactly `n` quiet tokens through. */
  lemma {:induction false} BudgetIsExact(c: Config, ts: seq<Token>, j: nat)
    requires c.maxTokens > 0 && c.openPrefix == "" && j < |ts|
    requires forall i :: 0 <= i < |ts| ==> Quiet(c, ts[i])
    ensures Outcomes(c, ARMED, ts)[j] == if j < c.maxTokens then Outcome(true, true) else Outcome(false, false)
  {
    hide Outcomes;
    var n := if j < c.maxTokens then j else c.maxTokens - 1;
    forall i | 0 <= i <= n
      ensures Start(c, ts[..i]) == 0
    {
      NothingCloses(c, ts[..i]);
    }
    assert LastsThrough(c, ts, n);
    if j < c.maxTokens {
      DuringPreamble(c, ts, j);
    } else {
      AfterPreamble(c, ts, n, j);
    }
  }

  lemma {:induction false} NothingCloses(c: Config, ts: seq<Token>)
    requires forall i :: 0 <= i < |ts| ==> !ClosesThinking(c, ts[i])
    ensures Start(c, ts) == 0
    decreases |ts|
  {
    if ts != [] {
      NothingCloses(c, ts[..|ts| - 1]);
    }
  }

  /** A closing token ends the tool body by its id, at once and for good. */
  lemma {:induction false} ClosedById(c: Config, g: Gate, bs: seq<Token>, t: Token, us: seq<Token>)
    requires g.state.ToolBody? && t.id >= 0 && t.id in c.closeTokens
    ensures GateAfter(c, g, bs + [t] + us).state == TerminalOff
  {
    BodyOrClosed(c, g, bs);
    GateAfterSnoc(c, g, bs, t);
    GateAfterConcat(c, g, bs + [t], us);
    TerminalStays(c, GateAfter(c, g, bs + [t]), us);
  }
  /** Without a closing text only a closing token ends the body. */
  lemma {:induction false} OpenWithoutCloser(c: Config, g: Gate, bs: seq<Token>)
    requires g.state.ToolBody? && c.closeSuffix == "" && AllInside(c, bs)
    ensures GateAfter(c, g, bs) == g
    decreases |bs|
  {
    if bs != [] {
      OpenWithoutCloser(c, g, bs[1..]);
    }
  }
}
