// The environment of the switcher core. Every port call is answered by an oracle that gets the
// number of calls made so far, so the environment may change its mind at every call; a theorem
// that holds for every `Env` holds against an adversary. The calls are recorded in a trace.

module Ports {
  import opened Wrappers
  import opened Domain

  datatype Call =
    | AskedValid(ref: WindowRef, answer: bool)
    | AskedCandidates(scope: Scope, listed: seq<WindowRef>)
    | AskedFocused(focused: Option<WindowRef>)
    | Focused(ref: WindowRef, result: FocusResult)
    | UiStart(snapshot: Snapshot, index: nat)
    | UiChange(index: nat)
    | UiEnd(reason: UiEndReason)

  type Trace = seq<Call>

  /** `candidates` also gets the tracker's order, which the window source reads; `reentry` lists the
      focus events that the compositor delivers from inside a focus call. */
  datatype Env = Env(
    isValid: (nat, WindowRef) -> bool,
    candidates: (nat, Scope, seq<WindowRef>) -> seq<WindowRef>,
    focused: nat -> Option<WindowRef>,
    focus: (nat, WindowRef) -> FocusResult,
    reentry: (nat, WindowRef) -> seq<WindowRef>)

  class Compositor {
    const env: Env
    var trace: Trace

    constructor (env: Env)
      ensures this.env == env && trace == []
    {
      this.env := env;
      trace := [];
    }

    method IsValid(ref: WindowRef) returns (answer: bool)
      modifies this
      ensures answer == env.isValid(|old(trace)|, ref)
      ensures trace == old(trace) + [AskedValid(ref, answer)]
    {
      answer := env.isValid(|trace|, ref);
      trace := trace + [AskedValid(ref, answer)];
    }

    method Candidates(scope: Scope, order: seq<WindowRef>) returns (answer: seq<WindowRef>)
      modifies this
      ensures answer == env.candidates(|old(trace)|, scope, order)
      ensures trace == old(trace) + [AskedCandidates(scope, answer)]
    {
      answer := env.candidates(|trace|, scope, order);
      trace := trace + [AskedCandidates(scope, answer)];
    }

    method FocusedWindow() returns (answer: Option<WindowRef>)
      modifies this
      ensures answer == env.focused(|old(trace)|)
      ensures trace == old(trace) + [AskedFocused(answer)]
    {
      answer := env.focused(|trace|);
      trace := trace + [AskedFocused(answer)];
    }

    method Focus(ref: WindowRef) returns (result: FocusResult, events: seq<WindowRef>)
      modifies this
      ensures result == env.focus(|old(trace)|, ref) && events == env.reentry(|old(trace)|, ref)
      ensures trace == old(trace) + [Focused(ref, result)]
    {
      result, events := env.focus(|trace|, ref), env.reentry(|trace|, ref);
      trace := trace + [Focused(ref, result)];
    }

    method Ui(call: Call)
      requires call.UiStart? || call.UiChange? || call.UiEnd?
      modifies this
      ensures trace == old(trace) + [call]
    {
      trace := trace + [call];
    }
  }
}
