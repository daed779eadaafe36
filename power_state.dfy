/**
 * The device power-state controller of the reconnect test: a controller
 * starts IDLE and moves only along the allowed transitions, refusing, and
 * staying put on, any other request.
 */
module PowerStates {
  /** `PowerState`; `ON` is a member although no transition table entry mentions it. */
  datatype PowerState = Off | Sleep | Idle | On

  /** The member's `name`. */
  function Name(s: PowerState): (n: string)
    ensures n != ""
  {
    match s
    case Off => "OFF"
    case Sleep => "SLEEP"
    case Idle => "IDLE"
    case On => "ON"
  }

  /** Different members have different names. */
  lemma NameInjective(a: PowerState, b: PowerState)
    ensures Name(a) == Name(b) <==> a == b
  {
    assert Name(a)[1] == Name(b)[1] ==> a == b;
  }

  /** `allowed.get(state, [])`: the targets the table lists for `from`. */
  function Allowed(from: PowerState): (ts: seq<PowerState>)
    ensures from !in ts
  {
    match from
    case Idle => [Off, Sleep]
    case Sleep => [Idle]
    case Off => [Idle]
    case On => []
  }

  predicate CanMove(from: PowerState, to: PowerState)
  {
    to in Allowed(from)
  }

  /** Exactly four moves are allowed: IDLE to OFF or SLEEP, and back to IDLE from either. */
  lemma MovesExactly(from: PowerState, to: PowerState)
    ensures CanMove(from, to) <==>
      (from == Idle && to == Off) || (from == Idle && to == Sleep) || (from == Sleep && to == Idle) || (from == Off && to == Idle)
    ensures CanMove(from, to) ==> from != to && from != On && to != On
  {
    assert Allowed(Idle) == [Off, Sleep];
  }

  /** Every allowed move can be undone by another allowed move. */
  lemma MovesReversible(from: PowerState, to: PowerState)
    requires CanMove(from, to)
    ensures CanMove(to, from)
  {
    MovesExactly(from, to);
    MovesExactly(to, from);
  }

  /** The state after the requests `reqs`, each handled by `transition`. */
  function After(s: PowerState, reqs: seq<PowerState>): PowerState
    decreases |reqs|
  {
    if reqs == [] then s
    else
      After(if CanMove(s, reqs[0]) then reqs[0] else s, reqs[1..])
  }

  /** A controller that starts anywhere but ON never reaches ON, and one that starts at ON never leaves it. */
  lemma {:induction false} OnUnreachable(s: PowerState, reqs: seq<PowerState>)
    ensures s != On ==> After(s, reqs) != On
    ensures s == On ==> After(s, reqs) == On
    decreases |reqs|
  {
    if reqs != [] {
      var next := if CanMove(s, reqs[0]) then reqs[0] else s;
      MovesExactly(s, reqs[0]);
      OnUnreachable(next, reqs[1..]);
    }
  }

  class DeviceController {
    var state: PowerState

    constructor()
      ensures state == Idle
    {
      state := Idle;
    }

    /** `transition`: an allowed move updates the state and answers `true`; any other request changes nothing. */
    method Transition(newState: PowerState) returns (ok: bool)
      modifies this
      ensures ok == CanMove(old(state), newState)
      ensures state == (if ok then newState else old(state))
      ensures state == After(old(state), [newState])
    {
      ok := newState in Allowed(state);
      if ok {
        state := newState;
      }
    }

    /** `get_current_state`. */
    method GetCurrentState() returns (name: string)
      ensures name == Name(state)
    {
      name := Name(state);
    }
  }
}
