/** Whole runs of the preamble gate, without reset or rearm. */
module GateRuns {
  import opened PreambleGate

  datatype Token = Token(id: int, text: string)

  /** What happened to one token: was the mask bypassed when it was sampled, and did the
      gate keep it. */
  datatype Outcome = Outcome(bypassed: bool, kept: bool)

  function GateAfter(c: Config, g: Gate, ts: seq<Token>): Gate
    decreases |ts|
  {
    if ts == [] then g else GateAfter(c, Next(c, g, ts[0].id, ts[0].text).0, ts[1..])
  }

  function Outcomes(c: Config, g: Gate, ts: seq<Token>): (r: seq<Outcome>)
    ensures |r| == |ts|
    decreases |ts|
  {
    if ts == [] then []
    else
      var n := Next(c, g, ts[0].id, ts[0].text);
      [Outcome(Bypassed(g), n.1)] + Outcomes(c, n.0, ts[1..])
  }

  /** A gate that forwards forwards everything from then on, under the mask. */
  lemma {:induction false} ForwardsForever(c: Config, g: Gate, ts: seq<Token>, i: nat)
    requires (g.state.Off? || g.state.ToolArgs?) && i < |ts|
    ensures Outcomes(c, g, ts)[i] == Outcome(false, false) && GateAfter(c, g, ts) == g
    decreases |ts|
  {
    if i > 0 {
      ForwardsForever(c, g, ts[1..], i - 1);
    } else if |ts| > 1 {
      ForwardsForever(c, g, ts[1..], 0);
    }
  }

  /** Forwarded tokens form a suffix of the stream, and only the first of them can have
      been sampled with the mask bypassed: it opened the JSON text. */
  lemma {:induction false} ForwardedIsSuffix(c: Config, g: Gate, ts: seq<Token>, i: nat, j: nat)
    requires i < j < |ts| && !Outcomes(c, g, ts)[i].kept
    ensures Outcomes(c, g, ts)[j] == Outcome(false, false)
    ensures Outcomes(c, g, ts)[i].bypassed ==> StartsJson(ts[i].text)
    decreases |ts|
  {
    var n := Next(c, g, ts[0].id, ts[0].text);
    if i == 0 {
      ForwardsForever(c, n.0, ts[1..], j - 1);
    } else {
      ForwardedIsSuffix(c, n.0, ts[1..], i - 1, j - 1);
    }
  }

  /** Tokens sampled under the mask are never kept. */
  lemma {:induction false} MaskedIsForwarded(c: Config, g: Gate, ts: seq<Token>, i: nat)
    requires i < |ts| && !Outcomes(c, g, ts)[i].bypassed
    ensures !Outcomes(c, g, ts)[i].kept
    decreases |ts|
  {
    if i > 0 {
      MaskedIsForwarded(c, Next(c, g, ts[0].id, ts[0].text).0, ts[1..], i - 1);
    }
  }

  /** After a tool call closed, the mask stays off and every token is kept. */
  lemma {:induction false} TerminalStays(c: Config, g: Gate, ts: seq<Token>)
    requires g.state.TerminalOff?
    ensures GateAfter(c, g, ts) == g
    ensures forall i :: 0 <= i < |ts| ==> Outcomes(c, g, ts)[i] == Outcome(true, true)
    decreases |ts|
  {
    if ts != [] {
      TerminalStays(c, g, ts[1..]);
    }
  }

  /** Without tool detection a budget bounds the preamble. */
  lemma {:induction false} BudgetEndsPreamble(c: Config, g: Gate, ts: seq<Token>)
    requires c.maxTokens > 0 && !DetectsTools(c) && g.seen + |ts| >= c.maxTokens && (g.state.Active? ==> g.seen < c.maxTokens)
    requires !g.state.ToolBody? && !g.state.TerminalOff?
    ensures !Bypassed(GateAfter(c, g, ts))
    decreases |ts|
  {
    if g.state.Active? {
      BudgetEndsPreamble(c, Next(c, g, ts[0].id, ts[0].text).0, ts[1..]);
    } else if ts != [] {
      ForwardsForever(c, g, ts, 0);
    }
  }

  // ----- the sliding window -----

  /** A token that neither ends the thinking block nor opens a tool call by its id. */
  predicate Ordinary(c: Config, t: Token)
  {
    !(c.closeToken >= 0 && t.id == c.closeToken) && !(t.id >= 0 && t.id in c.openTokens)
  }

  lemma LastOfLast(n: nat, a: string, b: string)
    ensures Last(n, Last(n, a) + b) == Last(n, a + b)
  {
    if |a| > n {
      var k, c := |a| - n, Last(n, a) + b;
      assert (a + b)[k..] == c;
      if |c| > n {
        assert (a + b)[k..][|c| - n..] == (a + b)[|a + b| - n..];
      }
    }
  }

  /** What the window sees of a pattern: an occurrence within the last 32 characters. */
  lemma OccursInLast(pattern: string, text: string)
    ensures Occurs(pattern, Last(32, text)) <==>
            exists i :: 0 <= i <= |text| && i + 32 >= |text| && OccursAt(pattern, text, i)
  {
    var k := if |text| > 32 then |text| - 32 else 0;
    var tail := Last(32, text);
    assert tail == text[k..];
    if Occurs(pattern, tail) {
      var i :| 0 <= i <= |tail| && OccursAt(pattern, tail, i);
      assert text[k + i..k + i + |pattern|] == tail[i..i + |pattern|];
      assert OccursAt(pattern, text, k + i);
    }
    if i :| 0 <= i <= |text| && i + 32 >= |text| && OccursAt(pattern, text, i) {
      assert tail[i - k..i - k + |pattern|] == text[i..i + |pattern|];
      assert OccursAt(pattern, tail, i - k);
    }
  }

  function TextOf(ts: seq<Token>): string
    decreases |ts|
  {
    if ts == [] then "" else TextOf(ts[..|ts| - 1]) + ts[|ts| - 1].text
  }

  lemma {:induction false} GateAfterSnoc(c: Config, g: Gate, ts: seq<Token>, t: Token)
    ensures GateAfter(c, g, ts + [t]) == Next(c, GateAfter(c, g, ts), t.id, t.text).0
    decreases |ts|
  {
    if ts == [] {
      assert ts + [t] == [t] && [t][1..] == [];
    } else {
      assert (ts + [t])[1..] == ts[1..] + [t];
      GateAfterSnoc(c, Next(c, g, ts[0].id, ts[0].text).0, ts[1..], t);
    }
  }

  /** While the preamble lasts, the window holds the end of all it has read. */
  lemma {:induction false} WindowIsTail(c: Config, g: Gate, ts: seq<Token>)
    requires g.state.Active? && g.buf == "" && c.openPrefix != ""
    requires GateAfter(c, g, ts).state.Active? && forall i :: 0 <= i < |ts| ==> Ordinary(c, ts[i])
    ensures GateAfter(c, g, ts).buf == Last(32, TextOf(ts))
    decreases |ts|
  {
    if ts != [] {
      var init, t := ts[..|ts| - 1], ts[|ts| - 1];
      assert init + [t] == ts;
      GateAfterSnoc(c, g, init, t);
      StillActive(c, GateAfter(c, g, init), t);
      hide Next, Ordinary;
      WindowIsTail(c, g, init);
      LastOfLast(32, TextOf(init), t.text);
    }
  }

  lemma StillActive(c: Config, g: Gate, t: Token)
    requires Next(c, g, t.id, t.text).0.state.Active?
    ensures g.state.Active?
    ensures c.openPrefix != "" && Ordinary(c, t) ==> Next(c, g, t.id, t.text).0.buf == Last(32, g.buf + t.text)
  {
  }

  /** Exactly which occurrences the window catches, whatever the size of the token. */
  lemma {:induction false} OpenerFoundIff(c: Config, g: Gate, ts: seq<Token>, t: Token)
    requires g.state.Active? && g.buf == "" && c.openPrefix != "" && GateAfter(c, g, ts).state.Active?
    requires (forall i :: 0 <= i < |ts| ==> Ordinary(c, ts[i])) && Ordinary(c, t)
    ensures var text := TextOf(ts) + t.text;
            GateAfter(c, g, ts + [t]).state == Opened(c) <==>
            exists i :: 0 <= i <= |text| && i + 32 >= |text| && OccursAt(c.openPrefix, text, i)
  {
    GateAfterSnoc(c, g, ts, t);
    WindowIsTail(c, g, ts);
    LastOfLast(32, TextOf(ts), t.text);
    OccursInLast(c.openPrefix, TextOf(ts) + t.text);
  }

  /** Over a whole preamble of ordinary tokens that fit the window, the opener is found in
      exactly the token that completes its first occurrence. */
  lemma {:induction false} OpenerFoundExactly(c: Config, g: Gate, ts: seq<Token>, t: Token)
    requires g.state.Active? && g.buf == "" && c.openPrefix != "" && GateAfter(c, g, ts).state.Active?
    requires (forall i :: 0 <= i < |ts| ==> Ordinary(c, ts[i])) && Ordinary(c, t)
    requires |t.text| + |c.openPrefix| - 1 <= 32 && !Occurs(c.openPrefix, TextOf(ts))
    ensures GateAfter(c, g, ts + [t]).state == Opened(c) <==> Occurs(c.openPrefix, TextOf(ts) + t.text)
  {
    var before, p := TextOf(ts), c.openPrefix;
    OpenerFoundIff(c, g, ts, t);
    if Occurs(p, before + t.text) {
      var i :| 0 <= i <= |before + t.text| && OccursAt(p, before + t.text, i);
      if i + |p| <= |before| {
        assert (before + t.text)[i..i + |p|] == before[i..i + |p|];
        assert OccursAt(p, before, i);
      }
    }
  }

  // ----- the tool body -----

  /** A token that does not end the tool body by its id. */
  predicate InsideBody(c: Config, t: Token)
  {
    !(t.id >= 0 && t.id in c.closeTokens)
  }

  predicate AllInside(c: Config, bs: seq<Token>)
  {
    forall i :: 0 <= i < |bs| ==> InsideBody(c, bs[i])
  }

  /** The token that opens the body leaves none of its own text in the window. */
  lemma OpenerClearsWindow(c: Config, g: Gate, o: Token)
    requires g.state.Active? && Next(c, g, o.id, o.text).0.state.ToolBody?
    ensures Next(c, g, o.id, o.text).0 == Gate(ToolBody, g.seen + 1, "")
  {
  }

  lemma {:induction false} BodyOrClosed(c: Config, g: Gate, bs: seq<Token>)
    requires g.state.ToolBody? || g.state.TerminalOff?
    ensures GateAfter(c, g, bs).state.ToolBody? || GateAfter(c, g, bs).state.TerminalOff?
    decreases |bs|
  {
    if bs != [] {
      BodyOrClosed(c, Next(c, g, bs[0].id, bs[0].text).0, bs[1..]);
    }
  }

  /** While the body lasts, the window holds the end of all that came behind the opener. */
  lemma {:induction false} BodyWindowIsTail(c: Config, g: Gate, bs: seq<Token>)
    requires g.state.ToolBody? && g.buf == "" && c.closeSuffix != "" && AllInside(c, bs)
    requires GateAfter(c, g, bs).state.ToolBody?
    ensures GateAfter(c, g, bs).buf == Last(32, TextOf(bs))
    decreases |bs|
  {
    if bs != [] {
      var init, t := bs[..|bs| - 1], bs[|bs| - 1];
      assert init + [t] == bs;
      GateAfterSnoc(c, g, init, t);
      BodyOrClosed(c, g, init);
      BodyWindowIsTail(c, g, init);
      LastOfLast(32, TextOf(init), t.text);
    }
  }

  /** Exactly which occurrences close the body in a token, whatever its size. */
  lemma {:induction false} CloserFoundIff(c: Config, g: Gate, bs: seq<Token>, t: Token)
    requires g.state.ToolBody? && g.buf == "" && c.closeSuffix != "" && AllInside(c, bs) && InsideBody(c, t)
    requires GateAfter(c, g, bs).state.ToolBody?
    ensures var text := TextOf(bs) + t.text;
            GateAfter(c, g, bs + [t]).state == TerminalOff <==>
            exists i :: 0 <= i <= |text| && i + 32 >= |text| && OccursAt(c.closeSuffix, text, i)
  {
    GateAfterSnoc(c, g, bs, t);
    BodyWindowIsTail(c, g, bs);
    LastOfLast(32, TextOf(bs), t.text);
    OccursInLast(c.closeSuffix, TextOf(bs) + t.text);
  }

  /** A token that fits the window closes the body exactly when it completes the closer. */
  lemma {:induction false} CloserFoundExactly(c: Config, g: Gate, bs: seq<Token>, t: Token)
    requires g.state.ToolBody? && g.buf == "" && c.closeSuffix != "" && AllInside(c, bs) && InsideBody(c, t)
    requires GateAfter(c, g, bs).state.ToolBody?
    requires |t.text| + |c.closeSuffix| - 1 <= 32 && !Occurs(c.closeSuffix, TextOf(bs))
    ensures GateAfter(c, g, bs + [t]).state == TerminalOff <==> Occurs(c.closeSuffix, TextOf(bs) + t.text)
  {
    var before, p := TextOf(bs), c.closeSuffix;
    CloserFoundIff(c, g, bs, t);
    if Occurs(p, before + t.text) {
      var i :| 0 <= i <= |before + t.text| && OccursAt(p, before + t.text, i);
      if i + |p| <= |before| {
        assert (before + t.text)[i..i + |p|] == before[i..i + |p|];
        assert OccursAt(p, before, i);
      }
    }
  }

  lemma OccursInLonger(p: string, a: string, b: string)
    requires Occurs(p, a)
    ensures Occurs(p, a + b)
  {
    var i :| 0 <= i <= |a| && OccursAt(p, a, i);
    assert (a + b)[i..i + |p|] == a[i..i + |p|];
    assert OccursAt(p, a + b, i);
  }

  /** A body of tokens that fit the window is closed exactly when the closer has occurred. */
  lemma {:induction false} BodyClosesIff(c: Config, g: Gate, bs: seq<Token>)
    requires g.state.ToolBody? && g.buf == "" && c.closeSuffix != "" && AllInside(c, bs)
    requires forall i :: 0 <= i < |bs| ==> |bs[i].text| + |c.closeSuffix| - 1 <= 32
    ensures GateAfter(c, g, bs).state == TerminalOff <==> Occurs(c.closeSuffix, TextOf(bs))
    decreases |bs|
  {
    if bs != [] {
      var init, t := bs[..|bs| - 1], bs[|bs| - 1];
      assert init + [t] == bs;
      BodyClosesIff(c, g, init);
      BodyOrClosed(c, g, init);
      if GateAfter(c, g, init).state.TerminalOff? {
        GateAfterSnoc(c, g, init, t);
        OccursInLonger(c.closeSuffix, TextOf(init), t.text);
      } else {
        CloserFoundExactly(c, g, init, t);
      }
    }
  }

  lemma {:induction false} GateAfterConcat(c: Config, g: Gate, ts: seq<Token>, us: seq<Token>)
    ensures GateAfter(c, g, ts + us) == GateAfter(c, GateAfter(c, g, ts), us)
    decreases |ts|
  {
    if ts == [] {
      assert ts + us == us;
    } else {
      assert (ts + us)[1..] == ts[1..] + us;
      GateAfterConcat(c, Next(c, g, ts[0].id, ts[0].text).0, ts[1..], us);
    }
  }

  /** From the preamble on: once token `o` has opened the tool body, the gate closes exactly
      when the closer has occurred in the text behind `o`, whatever `o` itself says. */
  lemma {:induction false} ClosesBehindOpener(c: Config, g: Gate, ts: seq<Token>, o: Token, bs: seq<Token>)
    requires GateAfter(c, g, ts).state.Active? && GateAfter(c, g, ts + [o]).state.ToolBody?
    requires c.closeSuffix != "" && AllInside(c, bs)
    requires forall i :: 0 <= i < |bs| ==> |bs[i].text| + |c.closeSuffix| - 1 <= 32
    ensures GateAfter(c, g, ts + [o] + bs).state == TerminalOff <==> Occurs(c.closeSuffix, TextOf(bs))
  {
    GateAfterSnoc(c, g, ts, o);
    OpenerClearsWindow(c, GateAfter(c, g, ts), o);
    GateAfterConcat(c, g, ts + [o], bs);
    BodyClosesIff(c, GateAfter(c, g, ts + [o]), bs);
  }

  /** A closer that begins in the opener's token is missed, whole or in part; the same text
      cut behind the opener closes. */
  lemma CloserInOpenerIsMissed()
    ensures var c := Config(-1, 8, [], [], "<f", "</f>", true, false);
            && GateAfter(c, Fresh(c), [Token(1, "<f></f>")]) == Gate(ToolBody, 1, "")
            && GateAfter(c, Fresh(c), [Token(1, "<f></"), Token(2, "f>")]).state == ToolBody
            && GateAfter(c, Fresh(c), [Token(1, "<f>"), Token(2, "</f>")]).state == TerminalOff
  {
    var c := Config(-1, 8, [], [], "<f", "</f>", true, false);
    var whole, part, open, f, close := Token(1, "<f></f>"), Token(1, "<f></"), Token(1, "<f>"), Token(2, "f>"), Token(2, "</f>");
    OpensAt(c, whole);
    OpensAt(c, part);
    OpensAt(c, open);
    var body := Gate(ToolBody, 1, "");
    assert [whole][1..] == [] && [part, f][1..] == [f] && [open, close][1..] == [close];
    var one, two := [f], [close];
    TextOfOne(f);
    TextOfOne(close);
    BodyClosesIff(c, body, one);
    BodyOrClosed(c, body, one);
    assert OccursAt("</f>", "</f>", 0);
    BodyClosesIff(c, body, two);
  }

  lemma OpensAt(c: Config, t: Token)
    requires c == Config(-1, 8, [], [], "<f", "</f>", true, false) && "<f" <= t.text && |t.text| <= 32
    ensures Next(c, Fresh(c), t.id, t.text).0 == Gate(ToolBody, 1, "")
  {
    assert "" + t.text == t.text;
    assert OccursAt("<f", t.text, 0);
  }

  lemma TextOfOne(t: Token)
    ensures TextOf([t]) == t.text
  {
    assert [t][..0] == [] && "" + t.text == t.text;
  }
}
