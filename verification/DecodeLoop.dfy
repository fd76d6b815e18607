/** Handing generated tokens to the caller: prefill, single decode steps, and the
    generate loop, around an engine that may append outputs and change the status at
    every step. */
module DecodeLoop {
  datatype Status = Pending | Prefilling | Decoding | Finished | Cancelled

  /** What one engine step does to the request. */
  datatype Effect = Effect(tokens: seq<int>, status: Status, capacity: bool)

  datatype Request = Request(outputs: seq<int>, status: Status, capacity: bool)

  datatype Code = Success | InvalidArg | Internal | OutOfMemory | CancelledCode | CapacityCode

  /** Engine steps tried before a decode step gives up. */
  const ATTEMPTS: nat := 8

  function Applied(r: Request, e: Effect): Request
  {
    Request(r.outputs + e.tokens, e.status, e.capacity)
  }

  /** The caller's callback asked for more after every token of `sent`. */
  ghost predicate Kept(keep: seq<int> -> bool, sent: seq<int>)
    decreases |sent|
  {
    sent == [] || (keep(sent) && Kept(keep, sent[..|sent| - 1]))
  }

  /** The request after `n` engine steps from tick `t`. */
  function After(r: Request, effects: nat -> Effect, t: nat, n: nat): (r': Request)
    ensures r.outputs <= r'.outputs
    decreases n
  {
    if n == 0 then r else Applied(After(r, effects, t, n - 1), effects(t + n - 1))
  }

  lemma {:induction false} AfterNone(r: Request, effects: nat -> Effect, t: nat)
    ensures After(r, effects, t, 0) == r
  {
  }

  lemma AfterOne(r: Request, effects: nat -> Effect, t: nat, n: nat)
    ensures After(r, effects, t, n + 1) == Applied(After(r, effects, t, n), effects(t + n))
  {
  }

  /** A decode step keeps stepping the engine while this holds. */
  predicate Waiting(r: Request, size: nat)
  {
    |r.outputs| == size && r.status == Decoding
  }

  /** `n` is the number of engine steps a decode step takes: as many as leave it waiting,
      and at most eight. */
  ghost predicate Takes(r: Request, effects: nat -> Effect, t: nat, n: nat)
  {
    && n <= ATTEMPTS && (n == ATTEMPTS || !Waiting(After(r, effects, t, n), |r.outputs|))
    && forall i :: 0 <= i < n ==> Waiting(After(r, effects, t, i), |r.outputs|)
  }

  /** An engine step that yields nothing and goes on. */
  predicate Idle(e: Effect)
  {
    e.tokens == [] && e.status == Decoding
  }

  /** So do the next `n` steps. */
  ghost predicate Idles(effects: nat -> Effect, t: nat, n: nat)
  {
    forall k :: t <= k < t + n ==> Idle(effects(k))
  }

  /** The step `n` ticks from now is one of the first eight and the first to yield a token. */
  ghost predicate Yields(effects: nat -> Effect, t: nat, n: nat)
  {
    n < 8 && effects(t + n).tokens != [] && Idles(effects, t, n)
  }

  lemma {:induction false} IdleSteps(r: Request, effects: nat -> Effect, t: nat, n: nat)
    requires r.status == Decoding && Idles(effects, t, n)
    ensures After(r, effects, t, n).outputs == r.outputs && After(r, effects, t, n).status == Decoding
    decreases n
  {
    if n > 0 {
      IdleSteps(r, effects, t, n - 1);
    }
  }

  /** A token is waited for through eight steps, and the eighth still counts. */
  lemma {:induction false} FirstYieldEnds(r: Request, effects: nat -> Effect, t: nat, m: nat, n: nat)
    requires r.status == Decoding && Takes(r, effects, t, m) && Yields(effects, t, n)
    ensures m == n + 1 && After(r, effects, t, m).outputs == r.outputs + effects(t + n).tokens
  {
    hide After;
    forall i | 0 <= i <= n
      ensures Waiting(After(r, effects, t, i), |r.outputs|) && After(r, effects, t, i).outputs == r.outputs
    {
      IdleSteps(r, effects, t, i);
    }
    AfterOne(r, effects, t, n);
  }

  lemma {:induction false} IdleGivesUp(r: Request, effects: nat -> Effect, t: nat, m: nat)
    requires r.status == Decoding && Takes(r, effects, t, m) && Idles(effects, t, 8)
    ensures m == 8 && After(r, effects, t, m).outputs == r.outputs && After(r, effects, t, m).status == Decoding
  {
    hide After;
    forall i | 0 <= i <= 8
      ensures Waiting(After(r, effects, t, i), |r.outputs|) && After(r, effects, t, i).outputs == r.outputs
    {
      IdleSteps(r, effects, t, i);
    }
  }

  /** Ignoring the end of the text revives a finished request. */
  function Woken(r: Request, ignoreEos: bool): Request
  {
    if ignoreEos && r.status == Finished then r.(status := Decoding) else r
  }

  predicate Over(r: Request)
  {
    r.status == Finished || r.status == Cancelled
  }

  /** The code of a decode step that found `r0` and left `r1`. */
  function Verdict(r0: Request, r1: Request, consumed: nat): Code
  {
    if consumed < |r1.outputs| then Success
    else if r0.status == Cancelled then if r0.capacity then CapacityCode else CancelledCode
    else if r0.status == Finished then Internal
    else if r1.status == Cancelled then CancelledCode
    else Internal
  }

  /** What eight steps of waiting come to: `r1` with code `code` and token `token`. */
  lemma {:induction false} Awaited(r: Request, effects: nat -> Effect, t: nat, m: nat, r1: Request, code: Code, token: int)
    requires r.status == Decoding && Takes(r, effects, t, m) && r1 == After(r, effects, t, m)
    requires code == Verdict(r, r1, |r.outputs|)
    requires code == Success ==> |r1.outputs| > |r.outputs| && token == r1.outputs[|r.outputs|]
    ensures forall n: nat :: Yields(effects, t, n) ==> code == Success && token == effects(t + n).tokens[0] && m == n + 1
    ensures Idles(effects, t, 8) ==> code == Internal && m == 8 && r1.status == Decoding
  {
    hide After, Takes;
    forall n: nat | Yields(effects, t, n)
      ensures code == Success && token == effects(t + n).tokens[0] && m == n + 1
    {
      FirstYieldEnds(r, effects, t, m, n);
    }
    if Idles(effects, t, 8) {
      IdleGivesUp(r, effects, t, m);
    }
  }

  class Context {
    /** The engine, as the effect of its every step. */
    const effects: nat -> Effect
    var ticks: nat
    var active: bool
    var req: Request
    var consumed: nat

    /** Requests that a later one displaced, as they were left to the scheduler. */
    var dropped: seq<Request>

    /** What the caller got since `since`. */
    ghost var delivered: seq<int>
    ghost var since: nat

    ghost predicate Valid()
      reads this
    {
      since <= consumed <= |req.outputs| && delivered == req.outputs[since..consumed]
    }

    constructor (effects: nat -> Effect)
      ensures Valid() && !active && this.effects == effects
    {
      this.effects := effects;
      ticks, active, req, consumed, dropped := 0, false, Request([], Pending, false), 0, [];
      delivered, since := [], 0;
    }

    method EngineStep()
      requires Valid()
      modifies `ticks, `req
      ensures Valid() && ticks == old(ticks) + 1 && req == Applied(old(req), effects(old(ticks)))
    {
      var e := effects(ticks);
      assert (req.outputs + e.tokens)[since..consumed] == req.outputs[since..consumed];
      req := Request(req.outputs + e.tokens, e.status, e.capacity);
      ticks := ticks + 1;
    }

    /** Steps the engine until the request is prefilled. `quiet` bounds how long that takes. */
    method RunPrefill(ghost quiet: nat)
      requires Valid() && quiet >= ticks && effects(quiet).status != Prefilling
      modifies `ticks, `req
      ensures Valid() && ticks > old(ticks) && req == After(old(req), effects, old(ticks), ticks - old(ticks))
      ensures req.status != Prefilling && forall i :: old(ticks) <= i < ticks - 1 ==> effects(i).status == Prefilling
    {
      hide After;
      AfterNone(req, effects, ticks);
      AfterOne(req, effects, ticks, 0);
      EngineStep();
      while req.status == Prefilling
        invariant Valid() && ticks > old(ticks) && req == After(old(req), effects, old(ticks), ticks - old(ticks))
        invariant req.status == effects(ticks - 1).status && (ticks <= quiet || req.status != Prefilling)
        invariant forall i :: old(ticks) <= i < ticks - 1 ==> effects(i).status == Prefilling
        decreases quiet + 1 - ticks
      {
        AfterOne(old(req), effects, old(ticks), ticks - old(ticks));
        EngineStep();
      }
    }

    /** A new request takes over, and one still active is cancelled; the tokens prefill itself samples count as consumed. */
    method Prefill(tokens: seq<int>, ghost quiet: nat) returns (code: Code)
      requires Valid() && quiet >= ticks && effects(quiet).status != Prefilling
      modifies this
      ensures Valid() && delivered == []
      ensures dropped == old(dropped) + if tokens != [] && old(active) then [old(req).(status := Cancelled)] else []
      ensures code == InvalidArg <==> tokens == []
      ensures code == Success ==> active && consumed == |req.outputs|
      ensures code != InvalidArg ==>
                && ticks > old(ticks) && req == After(Request([], Pending, false), effects, old(ticks), ticks - old(ticks))
                && req.status != Prefilling && forall i :: old(ticks) <= i < ticks - 1 ==> effects(i).status == Prefilling
      ensures code != InvalidArg ==>
                && code == (if req.status != Cancelled then Success else if req.capacity then CapacityCode else OutOfMemory)
                && active == (code == Success)
    {
      hide After;
      since, delivered := consumed, [];
      if tokens == [] {
        return InvalidArg;
      }
      if active {
        dropped := dropped + [req.(status := Cancelled)];
      }
      req := Request([], Pending, false);
      active, consumed, since := true, 0, 0;
      RunPrefill(quiet);
      if req.status == Cancelled {
        active := false;
        return if req.capacity then CapacityCode else OutOfMemory;
      }
      consumed, since := |req.outputs|, |req.outputs|;
      code := Success;
    }

    /** One token for the caller. Queued tokens go first, whatever the status. */
    method DecodeStep(ignoreEos: bool) returns (code: Code, token: int)
      requires Valid()
      modifies `ticks, `active, `req, `consumed, `delivered
      ensures Valid() && old(req).outputs <= req.outputs && (active ==> old(active))
      ensures code == Success ==>
                && consumed == old(consumed) + 1 && token == req.outputs[old(consumed)]
                && delivered == old(delivered) + [token]
      ensures code != Success ==> consumed == old(consumed) && delivered == old(delivered) && token == 0
      ensures code != Success && old(active) ==> req.outputs == old(req).outputs && consumed == |req.outputs|
      ensures old(active) && !active ==> consumed == |req.outputs| && (code == Success ==> req.status == Finished)
      ensures !old(active) ==> code == Internal && req == old(req) && ticks == old(ticks)
      ensures old(active) ==>
                var r := Woken(old(req), ignoreEos);
                && code == Verdict(r, req, old(consumed))
                && old(ticks) <= ticks && req == After(r, effects, old(ticks), ticks - old(ticks))
                && if old(consumed) < |r.outputs| || Over(r) then ticks == old(ticks)
                   else Takes(r, effects, old(ticks), ticks - old(ticks))
      // Nothing is queued, and the request is decoding or revived.
      ensures old(active) && old(consumed) == |old(req).outputs| &&
              (old(req).status == Decoding || (ignoreEos && old(req).status == Finished)) ==>
                && (forall n: nat :: Yields(effects, old(ticks), n) ==>
                      code == Success && token == effects(old(ticks) + n).tokens[0] && ticks == old(ticks) + n + 1)
                && (Idles(effects, old(ticks), 8) ==> code == Internal && ticks == old(ticks) + 8 && active)
      // Nothing is queued, and the request is over.
      ensures old(active) && old(consumed) == |old(req).outputs| && old(req).status == Cancelled ==>
                code == (if old(req).capacity then CapacityCode else CancelledCode) && !active
      ensures old(active) && old(consumed) == |old(req).outputs| && old(req).status == Finished && !ignoreEos ==>
                code == Internal && !active
    {
      hide After, Takes, Yields, Idles;
      token := 0;
      if !active {
        return Internal, token;
      }
      AfterNone(Woken(req, ignoreEos), effects, ticks);
      if ignoreEos && req.status == Finished {
        req := req.(status := Decoding);
      }
      if consumed < |req.outputs| {
        token := Take();
        return Success, token;
      }
      if req.status == Finished || req.status == Cancelled {
        var cancelled := req.status == Cancelled;
        active := false;
        return if cancelled && req.capacity then CapacityCode else if cancelled then CancelledCode else Internal, token;
      }
      code, token := Advance();
    }

    /** Nothing is queued: lets the engine work, and takes what it yields. */
    method Advance() returns (code: Code, token: int)
      requires Valid() && active && consumed == |req.outputs| && !Over(req)
      modifies `ticks, `active, `req, `consumed, `delivered
      ensures Valid() && old(req).outputs <= req.outputs && code == Verdict(old(req), req, old(consumed))
      ensures code == Success ==>
                && consumed == old(consumed) + 1 && token == req.outputs[old(consumed)]
                && delivered == old(delivered) + [token]
      ensures code != Success ==>
                && consumed == old(consumed) && delivered == old(delivered) && token == 0
                && req.outputs == old(req).outputs
      ensures !active ==> consumed == |req.outputs| && (code == Success ==> req.status == Finished)
      ensures code != Success ==> (active <==> req.status != Cancelled)
      ensures old(ticks) <= ticks && req == After(old(req), effects, old(ticks), ticks - old(ticks))
      ensures Takes(old(req), effects, old(ticks), ticks - old(ticks))
      ensures old(req).status == Decoding ==>
                && (forall n: nat :: Yields(effects, old(ticks), n) ==>
                      code == Success && token == effects(old(ticks) + n).tokens[0] && ticks == old(ticks) + n + 1)
                && (Idles(effects, old(ticks), 8) ==> code == Internal && ticks == old(ticks) + 8 && active)
    {
      hide After, Takes, Yields, Idles;
      token := 0;
      var before := |req.outputs|;
      RunEngine();
      if |req.outputs| <= before {
        code := Internal;
        if req.status == Cancelled {
          active := false;
          code := CancelledCode;
        }
      } else {
        consumed := before;
        token := Take();
        code := Success;
      }
      if old(req).status == Decoding {
        Awaited(old(req), effects, old(ticks), ticks - old(ticks), req, code, token);
      }
    }

    /** Steps the engine until it yields a token or leaves the decoding state. */
    method RunEngine()
      requires Valid()
      modifies `ticks, `req
      ensures Valid() && old(ticks) <= ticks && req == After(old(req), effects, old(ticks), ticks - old(ticks))
      ensures Takes(old(req), effects, old(ticks), ticks - old(ticks))
    {
      hide After;
      var before := |req.outputs|;
      var attempts := 0;
      AfterNone(req, effects, ticks);
      while attempts < ATTEMPTS && |req.outputs| == before && req.status == Decoding
        invariant attempts <= ATTEMPTS && ticks == old(ticks) + attempts
        invariant Valid() && req == After(old(req), effects, old(ticks), attempts)
        invariant forall i :: 0 <= i < attempts ==> Waiting(After(old(req), effects, old(ticks), i), before)
      {
        AfterOne(old(req), effects, old(ticks), attempts);
        EngineStep();
        attempts := attempts + 1;
      }
    }

    /** Takes the next queued token; a finished request is let go with its last one. */
    method Take() returns (token: int)
      requires Valid() && consumed < |req.outputs|
      modifies `active, `consumed, `delivered
      ensures Valid() && consumed == old(consumed) + 1 && token == req.outputs[old(consumed)]
      ensures delivered == old(delivered) + [token]
      ensures active == (old(active) && !(req.status == Finished && consumed >= |req.outputs|))
    {
      token := req.outputs[consumed];
      assert req.outputs[since..consumed + 1] == req.outputs[since..consumed] + [token];
      delivered := delivered + [token];
      consumed := consumed + 1;
      if req.status == Finished && consumed >= |req.outputs| {
        active := false;
      }
    }

    /** The generate loop: everything the request produced reaches the caller in order, from
        its first token on, up to the limit or until `keep` says to stop. */
    method Generate(tokens: seq<int>, maxTokens: int, ignoreEos: bool, keep: seq<int> -> bool, ghost quiet: nat)
      returns (code: Code, sent: seq<int>)
      requires Valid() && quiet >= ticks && effects(quiet).status != Prefilling
      modifies this
      ensures Valid() && sent <= req.outputs
      ensures |sent| <= if maxTokens > 0 then maxTokens else 1
      ensures code == Success && |sent| < (if maxTokens > 0 then maxTokens else 1) ==> !active && sent == req.outputs
      ensures sent != [] && !keep(sent) ==> code == CancelledCode
      ensures sent != [] ==> Kept(keep, sent[..|sent| - 1])
    {
      hide After, Takes, Verdict, Woken;
      sent := [];
      code := Prefill(tokens, quiet);
      if code != Success {
        return;
      }
      consumed := 0;
      since := 0;
      delivered := [];
      var limit := if maxTokens > 0 then maxTokens else 1;
      var i := 0;
      while i < limit
        invariant 0 <= i <= limit && |sent| == i && active && Valid() && since == 0 && delivered == sent && consumed == i
        invariant Kept(keep, sent)
      {
        var stepCode, token := DecodeStep(ignoreEos);
        if stepCode != Success {
          if stepCode == Internal && !active {
            break;
          }
          return stepCode, sent;
        }
        ghost var before := sent;
        sent := sent + [token];
        assert sent[..|sent| - 1] == before;
        if !keep(sent) {
          return CancelledCode, sent;
        }
        if !active {
          break;
        }
        i := i + 1;
      }
      code := Success;
    }
  }
}
