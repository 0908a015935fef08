/**
 * The invocation future as its join tests fix it: a single completion slot
 * that moves once from unresolved (possibly with parked joiners) to a value or
 * a failure, and a `join()` that hands back the value or throws exactly one
 * CompletionException around the original cause, also when the joining thread
 * is interrupted while it waits.
 */
module InvocationFutures {
  import opened Wrappers

  /** The throwables the join contract tells apart. */
  datatype Throwable =
    | RuntimeEx(id: nat)            // an unchecked exception
    | CheckedEx(id: nat)            // a plain (checked) Exception
    | InterruptedEx                 // InterruptedException
    | CompletionEx(cause: Throwable) // CompletionException wrapping `cause`

  /** The future's state: UNRESOLVED, a stack of parked joiners (still unresolved), a value, or a failure. */
  datatype State<V> =
    | Unresolved
    | Waiting(waiters: seq<nat>)
    | Value(value: V)
    | Failed(cause: Throwable)

  predicate IsDone<V>(s: State<V>) {
    s.Value? || s.Failed?
  }

  /** The threads parked on the future. */
  function Waiters<V>(s: State<V>): seq<nat> {
    if s.Waiting? then s.waiters else []
  }

  /** The outcome of a completion attempt: the new state, whether this attempt won, the joiners it wakes. */
  datatype Completion<V> = Completion(state: State<V>, won: bool, woken: seq<nat>)

  /** The single compare-and-set from unresolved to `terminal`; the first writer wins. */
  function Settle<V>(s: State<V>, terminal: State<V>): (c: Completion<V>)
    requires IsDone(terminal)
    ensures IsDone(c.state)
    ensures c.won <==> !IsDone(s)
    ensures c.won ==> c.state == terminal && c.woken == Waiters(s)
    ensures !c.won ==> c.state == s && c.woken == []
  {
    if IsDone(s) then Completion(s, false, []) else Completion(terminal, true, Waiters(s))
  }

  /** `complete(value)`. */
  function Complete<V>(s: State<V>, v: V): (c: Completion<V>)
    ensures c.won ==> c.state == Value(v)
  {
    Settle(s, Value(v))
  }

  /** `completeExceptionally(cause)`. */
  function CompleteExceptionally<V>(s: State<V>, cause: Throwable): (c: Completion<V>)
    ensures c.won ==> c.state == Failed(cause)
  {
    Settle(s, Failed(cause))
  }

  /** The CompletionException `join()` throws for `cause`: one wrapper, never a second one. */
  function WrapInCompletion(cause: Throwable): (e: Throwable)
    ensures e.CompletionEx?
    ensures !cause.CompletionEx? ==> e.cause == cause
    ensures cause.CompletionEx? ==> e == cause
  {
    if cause.CompletionEx? then cause else CompletionEx(cause)
  }

  /** What a `join()` call does for its caller: returns a value, throws, or stays parked. */
  datatype JoinOutcome<V> = Returned(value: V) | Threw(error: Throwable) | Parked

  /** `join()` on a future that is done. */
  function Resolve<V>(s: State<V>): (o: JoinOutcome<V>)
    requires IsDone(s)
    ensures o.Returned? <==> s.Value?
    ensures s.Value? ==> o.value == s.value
    ensures s.Failed? ==> o == Threw(WrapInCompletion(s.cause))
  {
    match s
    case Value(v) => Returned(v)
    case Failed(e) => Threw(WrapInCompletion(e))
  }

  /** The future after a join call, what the call did, and the joining thread's interrupt flag afterwards. */
  datatype Joined<V> = Joined(state: State<V>, outcome: JoinOutcome<V>, interruptedAfter: bool)

  /** Thread `t` pushes itself on the stack of parked joiners. */
  function Register<V>(s: State<V>, t: nat): State<V>
    requires !IsDone(s)
  {
    Waiting(Waiters(s) + [t])
  }

  /**
   * A thread that was parked, or is about to park, on a future that is not
   * done looks again: if the future is done it returns; otherwise, when it was
   * interrupted, it completes the future with an InterruptedException, returns
   * the resulting failure and sets its interrupt flag again; otherwise it parks.
   */
  function Recheck<V>(s: State<V>, interrupted: bool): (j: Joined<V>)
    ensures IsDone(s) ==> j == Joined(s, Resolve(s), interrupted)
    ensures !IsDone(s) && interrupted ==>
              j.state == Failed(InterruptedEx) && j.outcome == Threw(CompletionEx(InterruptedEx))
              && j.interruptedAfter
    ensures !IsDone(s) && !interrupted ==> j == Joined(s, Parked, false)
  {
    if IsDone(s) then Joined(s, Resolve(s), interrupted)
    else if interrupted then
      var c := CompleteExceptionally(s, InterruptedEx);
      Joined(c.state, Resolve(c.state), true)
    else Joined(s, Parked, false)
  }

  /** `join()` by thread `t` whose interrupt flag is `interrupted`: register as a waiter unless done, then recheck. */
  function Join<V>(s: State<V>, t: nat, interrupted: bool): (j: Joined<V>)
    ensures j.outcome.Parked? ==> !IsDone(j.state) && t in Waiters(j.state)
    ensures !j.outcome.Parked? ==> IsDone(j.state) && j.outcome == Resolve(j.state)
    ensures interrupted ==> j.interruptedAfter
  {
    if IsDone(s) then Joined(s, Resolve(s), interrupted)
    else Recheck(Register(s, t), interrupted)
  }

  /** After `complete(value)`, every join returns that same value, whatever its thread. */
  lemma JoinAfterComplete<V>(s: State<V>, v: V, t: nat, interrupted: bool)
    requires !IsDone(s)
    ensures Join(Complete(s, v).state, t, interrupted).outcome == Returned(v)
    ensures Join(Complete(s, v).state, t, interrupted).interruptedAfter == interrupted
  {
  }

  /**
   * After `completeExceptionally(cause)` with a runtime or a checked
   * exception, every join throws a CompletionException whose direct cause is
   * that very exception.
   */
  lemma JoinAfterCompleteExceptionally<V>(s: State<V>, cause: Throwable, t: nat, interrupted: bool)
    requires !IsDone(s)
    requires cause.RuntimeEx? || cause.CheckedEx?
    ensures var o := Join(CompleteExceptionally(s, cause).state, t, interrupted).outcome;
            o.Threw? && o.error.CompletionEx? && o.error.cause == cause
  {
  }

  /** Once done, a future stays as it is: later completions lose, and every joiner sees the same outcome. */
  lemma DoneIsFinal<V>(s: State<V>, v: V, e: Throwable, t1: nat, t2: nat, i1: bool, i2: bool)
    requires IsDone(s)
    ensures Complete(s, v).state == s && !Complete(s, v).won
    ensures CompleteExceptionally(s, e).state == s && !CompleteExceptionally(s, e).won
    ensures Join(s, t1, i1).outcome == Join(s, t2, i2).outcome != Parked
    ensures Join(s, t1, i1).state == s
  {
  }

  /** The events a future sees. */
  datatype Event<V> =
    | Completes(value: V)
    | FailsWith(cause: Throwable)
    | Joins(thread: nat, interrupted: bool)
    | Rechecks(interrupted: bool)

  function Apply<V>(s: State<V>, ev: Event<V>): State<V> {
    match ev
    case Completes(v) => Complete(s, v).state
    case FailsWith(e) => CompleteExceptionally(s, e).state
    case Joins(t, i) => Join(s, t, i).state
    case Rechecks(i) => Recheck(s, i).state
  }

  function ApplyAll<V>(s: State<V>, evs: seq<Event<V>>): State<V>
    decreases |evs|
  {
    if |evs| == 0 then s else ApplyAll(Apply(s, evs[0]), evs[1..])
  }

  /** The state mutates at most once: from a done state no sequence of events changes anything. */
  lemma {:induction false} DoneStaysDone<V>(s: State<V>, evs: seq<Event<V>>)
    requires IsDone(s)
    ensures ApplyAll(s, evs) == s
    decreases |evs|
  {
    if |evs| > 0 {
      DoneStaysDone(Apply(s, evs[0]), evs[1..]);
    }
  }

  /** The first completing event decides the outcome; everything after it is ignored. */
  lemma {:induction false} FirstWriterWins<V>(s: State<V>, before: seq<Event<V>>, v: V, after: seq<Event<V>>)
    requires forall k :: 0 <= k < |before| ==> before[k].Joins? && !before[k].interrupted
    requires !IsDone(s)
    ensures ApplyAll(s, before + [Completes(v)] + after) == Value(v)
    decreases |before|
  {
    if |before| == 0 {
      assert [Completes(v)] + after == [Completes(v)] + after;
      assert ([] + [Completes(v)] + after)[1..] == after;
      DoneStaysDone(Value(v), after);
    } else {
      var next := Apply(s, before[0]);
      assert (before + [Completes(v)] + after)[1..] == before[1..] + [Completes(v)] + after;
      FirstWriterWins(next, before[1..], v, after);
    }
  }

  /**
   * The interrupted-joiner scenario: a thread joins an unresolved future and
   * parks, moving the state away from UNRESOLVED; it is interrupted and
   * returns with its interrupt flag set; a later join from another,
   * uninterrupted thread throws a CompletionException caused by an
   * InterruptedException.
   */
  lemma InterruptedJoiner<V>(t: nat, main: nat)
    ensures var parked := Join<V>(Unresolved, t, false);
            && parked.outcome == Parked
            && parked.state != Unresolved
            && var woken := Recheck(parked.state, true);
               && !woken.outcome.Parked?
               && woken.interruptedAfter
               && Join(woken.state, main, false).outcome == Threw(CompletionEx(InterruptedEx))
  {
  }
}
