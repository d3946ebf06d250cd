/**
 Running coroutines on a software stack instead of by recursion.

 A coroutine is what it answers when it is resumed, with a value or with an exception: it
 returns, raises, or awaits another coroutine, to be resumed with the outcome of that one.

 Main result: the loop over the software stack computes what direct recursive awaiting
 computes, and it terminates on exactly the coroutines on which recursion does.
 */
module Coroutine {
  import opened Wrappers

  datatype Signal<V, E> = Send(value: V) | Throw(exception: E)

  datatype Coro<!V, !E> = Coro(resume: Signal<V, E> -> Response<V, E>)

  /** `YieldOther`: something that is not a coroutine was yielded. */
  datatype Response<!V, !E> =
    | Return(value: V)
    | Raise(exception: E)
    | Await(child: Coro<V, E>, rest: Coro<V, E>)
    | YieldOther

  /** `TypeError` aborts everything; no coroutine gets to handle it. */
  datatype Outcome<V, E> = Returned(value: V) | Raised(exception: E) | TypeError

  /** How an awaiting coroutine learns about the outcome. */
  function Report<V, E>(r: Outcome<V, E>): Signal<V, E>
    requires !r.TypeError?
  {
    if r.Returned? then Send(r.value) else Throw(r.exception)
  }

  // ---------------------------------------------------------------- by recursion

  /** Direct recursive awaiting, up to a depth of `fuel`. */
  function Eval<V, E>(none: V, c: Coro<V, E>, s: Signal<V, E>, fuel: nat): Option<Outcome<V, E>>
    decreases fuel
  {
    if fuel == 0 then None
    else match c.resume(s)
      case Return(v) => Some(Returned(v))
      case Raise(e) => Some(Raised(e))
      case YieldOther => Some(TypeError)
      case Await(child, rest) =>
        var r := Eval(none, child, Send(none), fuel - 1);
        if r.None? || r.value.TypeError? then r else Eval(none, rest, Report(r.value), fuel - 1)
  }

  /** How often coroutines are resumed. */
  function Work<V, E>(none: V, c: Coro<V, E>, s: Signal<V, E>, fuel: nat): (w: nat)
    ensures Eval(none, c, s, fuel).Some? ==> 0 < w
    decreases fuel
  {
    if fuel == 0 then 0
    else match c.resume(s)
      case Await(child, rest) =>
        var r := Eval(none, child, Send(none), fuel - 1);
        1 + Work(none, child, Send(none), fuel - 1) +
        (if r.None? || r.value.TypeError? then 0 else Work(none, rest, Report(r.value), fuel - 1))
      case _ => 1
  }

  lemma {:induction false} EvalMore<V, E>(none: V, c: Coro<V, E>, s: Signal<V, E>, fuel: nat, more: nat)
    requires fuel <= more && Eval(none, c, s, fuel).Some?
    ensures Eval(none, c, s, more) == Eval(none, c, s, fuel) && Work(none, c, s, more) == Work(none, c, s, fuel)
    decreases fuel
  {
    match c.resume(s)
    case Await(child, rest) =>
      EvalMore(none, child, Send(none), fuel - 1, more - 1);
      var r := Eval(none, child, Send(none), fuel - 1);
      if !r.value.TypeError? {
        EvalMore(none, rest, Report(r.value), fuel - 1, more - 1);
      }
    case _ =>
  }

  // ---------------------------------------------------------------- on a stack

  /** What is left to do: resume the top of the stack with `s`, report its outcome to the one below, and so on. */
  function Finish<V, E>(none: V, stack: seq<Coro<V, E>>, s: Signal<V, E>, fuel: nat): Option<Outcome<V, E>>
    decreases |stack|
  {
    if stack == [] then Some(if s.Send? then Returned(s.value) else Raised(s.exception))
    else
      var r := Eval(none, stack[|stack| - 1], s, fuel);
      if r.None? || r.value.TypeError? then r else Finish(none, stack[..|stack| - 1], Report(r.value), fuel)
  }

  function Left<V, E>(none: V, stack: seq<Coro<V, E>>, s: Signal<V, E>, fuel: nat): nat
    decreases |stack|
  {
    if stack == [] then 0
    else
      var r := Eval(none, stack[|stack| - 1], s, fuel);
      Work(none, stack[|stack| - 1], s, fuel) +
      (if r.None? || r.value.TypeError? then 0 else Left(none, stack[..|stack| - 1], Report(r.value), fuel))
  }

  lemma {:induction false} FinishMore<V, E>(none: V, stack: seq<Coro<V, E>>, s: Signal<V, E>, fuel: nat, more: nat)
    requires fuel <= more && Finish(none, stack, s, fuel).Some?
    ensures Finish(none, stack, s, more) == Finish(none, stack, s, fuel)
    ensures Left(none, stack, s, more) == Left(none, stack, s, fuel)
    decreases |stack|
  {
    if stack != [] {
      EvalMore(none, stack[|stack| - 1], s, fuel, more);
      var r := Eval(none, stack[|stack| - 1], s, fuel);
      if !r.value.TypeError? {
        FinishMore(none, stack[..|stack| - 1], Report(r.value), fuel, more);
      }
    }
  }

  /** Pushing the awaited coroutine on top of the awaiting one leaves the same to do, less one resumption. */
  lemma AwaitStep<V, E>(none: V, stack: seq<Coro<V, E>>, s: Signal<V, E>, fuel: nat)
    requires stack != [] && stack[|stack| - 1].resume(s).Await? && Finish(none, stack, s, fuel).Some?
    ensures var response := stack[|stack| - 1].resume(s);
      var pushed := stack[..|stack| - 1] + [response.rest] + [response.child];
      && Finish(none, pushed, Send(none), fuel) == Finish(none, stack, s, fuel)
      && Left(none, pushed, Send(none), fuel) + 1 == Left(none, stack, s, fuel)
  {
    var response, init := stack[|stack| - 1].resume(s), stack[..|stack| - 1];
    var below := init + [response.rest];
    var pushed := below + [response.child];
    assert pushed[..|pushed| - 1] == below && below[..|below| - 1] == init;
    EvalMore(none, response.child, Send(none), fuel - 1, fuel);
    var r := Eval(none, response.child, Send(none), fuel);
    if !r.value.TypeError? {
      EvalMore(none, response.rest, Report(r.value), fuel - 1, fuel);
    }
  }

  ghost predicate Terminates<V(!new), E(!new)>(none: V, c: Coro<V, E>) {
    exists fuel: nat :: Eval(none, c, Send(none), fuel).Some?
  }

  /** What recursion computes, where it terminates. */
  ghost function OutcomeOf<V(!new), E(!new)>(none: V, c: Coro<V, E>): Outcome<V, E>
    requires Terminates(none, c)
  {
    var fuel: nat :| Eval(none, c, Send(none), fuel).Some?;
    Eval(none, c, Send(none), fuel).value
  }

  lemma OutcomeUnique<V(!new), E(!new)>(none: V, c: Coro<V, E>, fuel: nat)
    requires Eval(none, c, Send(none), fuel).Some?
    ensures Terminates(none, c) && OutcomeOf(none, c) == Eval(none, c, Send(none), fuel).value
  {
    var other: nat :| Eval(none, c, Send(none), other).Some?
      && OutcomeOf(none, c) == Eval(none, c, Send(none), other).value;
    EvalMore(none, c, Send(none), fuel, if fuel < other then other else fuel);
    EvalMore(none, c, Send(none), other, if fuel < other then other else fuel);
  }

  /**
   Run a coroutine on a software stack.  `ret` is the value to resume the top of the stack
   with, unless there is an exception to resume it with.
   */
  method RunCoroutine<V(!new), E(!new)>(none: V, main: Coro<V, E>) returns (r: Outcome<V, E>)
    requires Terminates(none, main)
    ensures r == OutcomeOf(none, main)
  {
    ghost var fuel: nat :| Eval(none, main, Send(none), fuel).Some?;
    OutcomeUnique(none, main, fuel);
    var stack := [main];
    assert stack[..0] == [];
    var ret, exc: Option<E> := none, None;
    while |stack| > 0
      invariant Finish(none, stack, if exc.None? then Send(ret) else Throw(exc.value), fuel) ==
        Some(OutcomeOf(none, main))
      decreases Left(none, stack, if exc.None? then Send(ret) else Throw(exc.value), fuel)
    {
      ghost var s := if exc.None? then Send(ret) else Throw(exc.value);
      var coro := stack[|stack| - 1];
      if exc.None? {
        match coro.resume(Send(ret)) {
          case Return(value) =>
            ret := value;
            stack := stack[..|stack| - 1];
          case YieldOther =>
            return TypeError;
          case Await(child, rest) =>
            AwaitStep(none, stack, s, fuel);
            ret := none;
            stack := stack[..|stack| - 1] + [rest] + [child];
          case Raise(e) =>
            exc := Some(e);
            ret := none;
            stack := stack[..|stack| - 1];
        }
      } else {
        match coro.resume(Throw(exc.value)) {
          case Await(child, rest) =>
            AwaitStep(none, stack, s, fuel);
            ret := none;
            exc := None;
            stack := stack[..|stack| - 1] + [rest] + [child];
          case YieldOther =>
            return TypeError;
          case Return(value) =>
            ret := value;
            exc := None;
            stack := stack[..|stack| - 1];
          case Raise(e) =>
            exc := Some(e);
            ret := none;
            stack := stack[..|stack| - 1];
        }
      }
    }
    r := if exc.Some? then Raised(exc.value) else Returned(ret);
  }

  // ---------------------------------------------------------------- the loop ends only where recursion does

  /** The loop, cut off after `steps` rounds. */
  function Loop<V, E>(none: V, stack: seq<Coro<V, E>>, s: Signal<V, E>, steps: nat): Option<Outcome<V, E>>
    decreases steps
  {
    if stack == [] then Some(if s.Send? then Returned(s.value) else Raised(s.exception))
    else if steps == 0 then None
    else
      var init := stack[..|stack| - 1];
      match stack[|stack| - 1].resume(s)
      case Return(v) => Loop(none, init, Send(v), steps - 1)
      case Raise(e) => Loop(none, init, Throw(e), steps - 1)
      case YieldOther => Some(TypeError)
      case Await(child, rest) => Loop(none, init + [rest] + [child], Send(none), steps - 1)
  }

  /** If the loop ends, then so does recursion, with the same outcome. */
  lemma {:induction false} LoopSound<V, E>(none: V, stack: seq<Coro<V, E>>, s: Signal<V, E>, steps: nat)
    requires Loop(none, stack, s, steps).Some?
    ensures Finish(none, stack, s, steps) == Loop(none, stack, s, steps)
    decreases steps
  {
    if stack != [] {
      var init := stack[..|stack| - 1];
      match stack[|stack| - 1].resume(s)
      case Return(v) =>
        LoopSound(none, init, Send(v), steps - 1);
        FinishMore(none, init, Send(v), steps - 1, steps);
      case Raise(e) =>
        LoopSound(none, init, Throw(e), steps - 1);
        FinishMore(none, init, Throw(e), steps - 1, steps);
      case YieldOther =>
      case Await(child, rest) =>
        var below := init + [rest];
        var pushed := below + [child];
        assert pushed[..|pushed| - 1] == below && below[..|below| - 1] == init;
        LoopSound(none, pushed, Send(none), steps - 1);
        var r := Eval(none, child, Send(none), steps - 1);
        if !r.value.TypeError? {
          var q := Eval(none, rest, Report(r.value), steps - 1);
          if !q.value.TypeError? {
            FinishMore(none, init, Report(q.value), steps - 1, steps);
          }
        }
    }
  }

  /** If recursion ends, then so does the loop, with the same outcome. */
  lemma {:induction false} LoopComplete<V, E>(none: V, stack: seq<Coro<V, E>>, s: Signal<V, E>, fuel: nat)
    requires Finish(none, stack, s, fuel).Some?
    ensures Loop(none, stack, s, Left(none, stack, s, fuel)) == Finish(none, stack, s, fuel)
    decreases Left(none, stack, s, fuel)
  {
    if stack != [] {
      var init := stack[..|stack| - 1];
      match stack[|stack| - 1].resume(s)
      case Return(v) => LoopComplete(none, init, Send(v), fuel);
      case Raise(e) => LoopComplete(none, init, Throw(e), fuel);
      case YieldOther =>
      case Await(child, rest) =>
        AwaitStep(none, stack, s, fuel);
        LoopComplete(none, init + [rest] + [child], Send(none), fuel);
    }
  }

  /** The loop terminates on exactly the coroutines that recursion terminates on, and they agree. */
  lemma LoopIffRecursion<V(!new), E(!new)>(none: V, c: Coro<V, E>, r: Outcome<V, E>)
    ensures (exists steps: nat :: Loop(none, [c], Send(none), steps) == Some(r)) <==>
      Terminates(none, c) && OutcomeOf(none, c) == r
  {
    assert [c][..0] == [];
    if steps: nat :| Loop(none, [c], Send(none), steps) == Some(r) {
      LoopSound(none, [c], Send(none), steps);
      assert Finish(none, [c], Send(none), steps) == Eval(none, c, Send(none), steps);
      OutcomeUnique(none, c, steps);
    }
    if Terminates(none, c) && OutcomeOf(none, c) == r {
      var fuel: nat :| Eval(none, c, Send(none), fuel).Some?;
      OutcomeUnique(none, c, fuel);
      assert Finish(none, [c], Send(none), fuel) == Eval(none, c, Send(none), fuel);
      LoopComplete(none, [c], Send(none), fuel);
    }
  }
}
