/** Failure-compatible wrappers for the exceptions and optional results of the source. */
module Wrappers {

  datatype Option<+T> = None | Some(value: T)

  datatype Result<+T, +E> = Ok(value: T) | Err(error: E)

  /** The standard exception classes the source throws, by type. */
  datatype Exception =
    | ParsingError      // json::ParsingError (a runtime_error)
    | LogicError        // std::logic_error
    | RuntimeError      // std::runtime_error
    | OutOfRange        // std::out_of_range, thrown by map/vector `at`
    | InvalidArgument   // std::invalid_argument
    | LengthError       // std::length_error, thrown by vector::reserve beyond max_size
    | UndefinedBehaviour // the source has no defined outcome for this input

  /** The calls a run made on some collaborator, and the exception that ended it early, if any. */
  datatype Outcome<C> = Outcome(calls: seq<C>, error: Option<Exception>)

  /** Run `next` after `first` unless `first` threw. */
  function Then<C>(first: Outcome<C>, next: Outcome<C>): Outcome<C> {
    if first.error.Some? then first else Outcome(first.calls + next.calls, next.error)
  }

  /** Then is associative, so a run of steps can be grouped either way. */
  lemma ThenAssociative<C>(a: Outcome<C>, b: Outcome<C>, c: Outcome<C>)
    ensures Then(Then(a, b), c) == Then(a, Then(b, c))
  {
    if a.error.None? && b.error.None? {
      assert (a.calls + b.calls) + c.calls == a.calls + (b.calls + c.calls);
    }
  }

  /** The calls of `first`, then those of `next`, after earlier ones: the calls of Then when `first` did not throw. */
  lemma ThenCalls<C>(earlier: seq<C>, first: Outcome<C>, next: Outcome<C>)
    requires first.error.None?
    ensures (earlier + first.calls) + next.calls == earlier + Then(first, next).calls
  {
  }

  /** When the rest throws at once, the whole is what is done, ended by that exception. */
  lemma ThenThrows<C>(done: Outcome<C>, rest: Outcome<C>, e: Exception, whole: Outcome<C>)
    requires done.error.None? && Then(done, rest) == whole && rest == Outcome([], Some(e))
    ensures Outcome(done.calls, Some(e)) == whole
  {
    assert done.calls + [] == done.calls;
  }

  /** Three runs in a row: the first one that throws ends it. */
  lemma ThenThree<C>(a: Outcome<C>, b: Outcome<C>, c: Outcome<C>)
    ensures Then(Then(a, b), c) ==
      if a.error.Some? then a
      else if b.error.Some? then Outcome(a.calls + b.calls, b.error)
      else Outcome(a.calls + b.calls + c.calls, c.error)
  {
  }

  /** One run of `f` per item, in order, until one of them throws. */
  function Each<T, C>(items: seq<T>, f: T -> Outcome<C>): Outcome<C>
    decreases |items|
  {
    if items == [] then Outcome([], None)
    else Then(Each(items[..|items| - 1], f), f(items[|items| - 1]))
  }

  /** One more item: the run over the longer prefix is the shorter one then that item. */
  lemma EachStep<T, C>(items: seq<T>, f: T -> Outcome<C>, i: nat)
    requires i < |items|
    ensures Each(items[..i + 1], f) == Then(Each(items[..i], f), f(items[i]))
  {
    assert items[..i + 1][..i] == items[..i];
  }

  /** Once the runs over a prefix have thrown, the later items are never reached. */
  lemma {:induction false} EachPrefixError<T, C>(items: seq<T>, f: T -> Outcome<C>, k: nat)
    requires k <= |items| && Each(items[..k], f).error.Some?
    ensures Each(items, f) == Each(items[..k], f)
    decreases |items| - k
  {
    if k < |items| {
      assert items[..k + 1][..k] == items[..k];
      EachPrefixError(items, f, k + 1);
    } else {
      assert items[..k] == items;
    }
  }
}
