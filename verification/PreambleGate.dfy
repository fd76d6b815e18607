/** The gate that lets a model speak freely before the output mask engages. */
module PreambleGate {
  datatype State = Active | ToolBody | ToolArgs | TerminalOff | Off

  datatype Config = Config(closeToken: int, maxTokens: nat, openTokens: seq<int>, closeTokens: seq<int>,
                           openPrefix: string, closeSuffix: string, thinkingOpen: bool, strictTool: bool)

  /** What changes while tokens arrive. */
  datatype Gate = Gate(state: State, seen: nat, buf: string)

  /** Characters the window keeps. */
  const WINDOW: nat := 32

  predicate DetectsTools(c: Config)
  {
    c.openTokens != [] || c.openPrefix != ""
  }

  predicate OccursAt(pattern: string, text: string, i: nat)
  {
    i + |pattern| <= |text| && text[i..i + |pattern|] == pattern
  }

  predicate Occurs(pattern: string, text: string)
  {
    exists i :: 0 <= i <= |text| && OccursAt(pattern, text, i)
  }

  function Last(n: nat, text: string): (r: string)
    ensures |r| == if |text| > n then n else |text|
  {
    if |text| > n then text[|text| - n..] else text
  }

  predicate StartsJson(text: string)
  {
    '{' in text || '[' in text
  }

  predicate Bypassed(g: Gate)
  {
    g.state.Active? || g.state.ToolBody? || g.state.TerminalOff?
  }

  function Fresh(c: Config): Gate
  {
    var configured := c.closeToken >= 0 || c.maxTokens > 0;
    var closed := c.closeToken >= 0 && !c.thinkingOpen && !DetectsTools(c);
    Gate(if configured && !closed then Active else Off, 0, "")
  }

  function Opened(c: Config): State
  {
    if c.strictTool then ToolArgs else ToolBody
  }

  /** One token while the preamble runs: the gate after it, and whether it kept the token. */
  function InPreamble(c: Config, g: Gate, token: int, text: string): (Gate, bool)
  {
    var seen := g.seen + 1;
    if c.closeToken >= 0 && token == c.closeToken then
      if DetectsTools(c) then (Gate(Active, 0, ""), true) else (Gate(Off, seen, g.buf), true)
    else if token >= 0 && token in c.openTokens then (Gate(Opened(c), seen, ""), true)
    else
      var buf := if c.openPrefix == "" then g.buf else Last(WINDOW, g.buf + text);
      if c.openPrefix != "" && Occurs(c.openPrefix, buf) then (Gate(Opened(c), seen, ""), true)
      else if StartsJson(text) then (Gate(Off, seen, buf), false)
      else if c.maxTokens > 0 && seen >= c.maxTokens then (Gate(Off, seen, buf), true)
      else (Gate(Active, seen, buf), true)
  }

  function InBody(c: Config, g: Gate, token: int, text: string): Gate
  {
    if token >= 0 && token in c.closeTokens then Gate(TerminalOff, g.seen, "")
    else if c.closeSuffix == "" then g
    else
      var buf := Last(WINDOW, g.buf + text);
      if Occurs(c.closeSuffix, buf) then Gate(TerminalOff, g.seen, "") else g.(buf := buf)
  }

  function Next(c: Config, g: Gate, token: int, text: string): (Gate, bool)
  {
    match g.state
    case Active => InPreamble(c, g, token, text)
    case ToolBody => (InBody(c, g, token, text), true)
    case TerminalOff => (g, true)
    case ToolArgs => (g, false)
    case Off => (g, false)
  }

  method FindText(text: string, pattern: string) returns (found: bool)
    ensures found == Occurs(pattern, text)
  {
    var i := 0;
    while i + |pattern| <= |text|
      invariant 0 <= i <= |text| + 1 && forall j :: 0 <= j < i ==> !OccursAt(pattern, text, j)
    {
      if text[i..i + |pattern|] == pattern {
        assert OccursAt(pattern, text, i);
        return true;
      }
      i := i + 1;
    }
    found := false;
  }

  method HasToken(tokens: seq<int>, token: int) returns (found: bool)
    ensures found <==> token >= 0 && token in tokens
  {
    if token < 0 {
      return false;
    }
    for i := 0 to |tokens|
      invariant token !in tokens[..i]
    {
      if tokens[i] == token {
        return true;
      }
    }
    found := false;
  }

  method HasJsonStart(text: string) returns (found: bool)
    ensures found == StartsJson(text)
  {
    for i := 0 to |text|
      invariant !StartsJson(text[..i])
    {
      if text[i] == '{' || text[i] == '[' {
        return true;
      }
    }
    assert text[..|text|] == text;
    found := false;
  }

  class PreambleGate {
    var configured: bool
    var config: Config
    var state: State
    var seen: nat
    var buf: string

    ghost function Value(): Gate
      reads this
    {
      Gate(state, seen, buf)
    }

    ghost predicate Valid()
      reads this
    {
      configured == (config.closeToken >= 0 || config.maxTokens > 0)
    }

    constructor ()
      ensures Valid() && Value() == Gate(Off, 0, "")
    {
      configured, config := false, Config(-1, 0, [], [], "", "", true, false);
      state, seen, buf := Off, 0, "";
    }

    method Configure(closeToken: int, maxTokens: int, openTokens: seq<int>, closeTokens: seq<int>,
                     openPrefix: string, closeSuffix: string, thinkingOpen: bool, strictTool: bool)
      modifies this
      ensures Valid() && Value() == Fresh(config)
      ensures config == Config(closeToken, if maxTokens > 0 then maxTokens else 0, openTokens, closeTokens,
                               openPrefix, closeSuffix, thinkingOpen, strictTool)
    {
      config := Config(closeToken, if maxTokens > 0 then maxTokens else 0, openTokens, closeTokens,
                       openPrefix, closeSuffix, thinkingOpen, strictTool);
      configured := closeToken >= 0 || config.maxTokens > 0;
      Reset();
    }

    method Reset()
      requires Valid()
      modifies `state, `seen, `buf
      ensures Valid() && Value() == Fresh(config)
    {
      var alreadyClosed := config.closeToken >= 0 && !config.thinkingOpen && !DetectsTools(config);
      state := if configured && !alreadyClosed then Active else Off;
      seen, buf := 0, "";
    }

    method RearmAfterCall()
      requires Valid()
      modifies `state, `seen, `buf
      ensures Valid() && Value() == Gate(Active, 0, "")
    {
      state, seen, buf := Active, 0, "";
    }

    method IsActive() returns (r: bool)
      ensures r == Bypassed(Value())
    {
      r := state == Active || state == ToolBody || state == TerminalOff;
    }

    method AppendBuf(text: string)
      modifies `buf
      ensures buf == Last(WINDOW, old(buf) + text)
    {
      buf := buf + text;
      if |buf| > WINDOW {
        buf := buf[|buf| - WINDOW..];
      }
    }

    method AbsorbActive(token: int, text: string) returns (kept: bool)
      requires state.Active?
      modifies `state, `seen, `buf
      ensures (Value(), kept) == InPreamble(config, old(Value()), token, text)
    {
      seen := seen + 1;
      if config.closeToken >= 0 && token == config.closeToken {
        if DetectsTools(config) {
          seen, buf := 0, "";
          return true;
        }
        state := Off;
        return true;
      }
      var opens := HasToken(config.openTokens, token);
      if opens {
        state := if config.strictTool then ToolArgs else ToolBody;
        buf := "";
        return true;
      }
      if config.openPrefix != "" {
        AppendBuf(text);
        var found := FindText(buf, config.openPrefix);
        if found {
          state := if config.strictTool then ToolArgs else ToolBody;
          buf := "";
          return true;
        }
      }
      var json := HasJsonStart(text);
      if json {
        state := Off;
        return false;
      }
      if config.maxTokens > 0 && seen >= config.maxTokens {
        state := Off;
      }
      kept := true;
    }

    method AbsorbToolBody(token: int, text: string) returns (kept: bool)
      requires state.ToolBody?
      modifies `state, `buf
      ensures kept && Value() == InBody(config, old(Value()), token, text)
    {
      kept := true;
      var closes := HasToken(config.closeTokens, token);
      if closes {
        state, buf := TerminalOff, "";
        return;
      }
      if config.closeSuffix != "" {
        AppendBuf(text);
        var found := FindText(buf, config.closeSuffix);
        if found {
          state, buf := TerminalOff, "";
        }
      }
    }

    method Absorb(token: int, text: string) returns (kept: bool)
      requires Valid()
      modifies `state, `seen, `buf
      ensures Valid() && (Value(), kept) == Next(config, old(Value()), token, text)
    {
      match state
      case Active => kept := AbsorbActive(token, text);
      case ToolBody => kept := AbsorbToolBody(token, text);
      case TerminalOff => kept := true;
      case ToolArgs => kept := false;
      case Off => kept := false;
    }
  }
}
