/**
  Quote retrieval (`rq::random_quote`): a bounded retry loop over the quote
  store. The store itself is an oracle: `answers(k)` is what it returns to
  attempt `k` of one retrieval.
 */
module Recall {
  import opened Errors

  /**
    The outcome of one store query: a row, no row, or a store fault. A
    failing statement preparation, which ends the retrieval before its first
    query, appears as a `Fault` at attempt 0.
   */
  datatype Attempt = Found(quote: string) | Empty | Fault(message: string)

  /** The fixed number of attempts a retrieval makes before giving up. */
  const MaxAttempts: nat := 3

  /** What a retrieval returns, and how many attempts it made. */
  datatype Fetch = Fetch(result: Result<string>, attempts: nat)

  /** Attempts `from` up to (not including) `to` all returned no row. */
  ghost predicate EmptyBetween(answers: nat -> Attempt, from: nat, to: nat) {
    forall k :: from <= k < to ==> answers(k).Empty?
  }

  /** A row or a fault ends the loop with this result. */
  predicate Settles(a: Attempt, r: Result<string>) {
    match a
    case Found(q) => r == Ok(q)
    case Fault(m) => r == Err(Store(m))
    case Empty => false
  }

  /** The loop from attempt `k` on: the first row is returned, the first fault is
      returned at once, and only a run of empty answers up to the bound gives
      `NoResult`. */
  function Retry(answers: nat -> Attempt, k: nat): (f: Fetch)
    requires k <= MaxAttempts
    ensures k <= f.attempts <= MaxAttempts
    ensures f.result == Err(NoResult) <==> EmptyBetween(answers, k, MaxAttempts)
    ensures f.result == Err(NoResult) ==> f.attempts == MaxAttempts
    ensures f.result != Err(NoResult) ==>
      && k < f.attempts
      && EmptyBetween(answers, k, f.attempts - 1)
      && Settles(answers(f.attempts - 1), f.result)
    decreases MaxAttempts - k
  {
    if k == MaxAttempts then Fetch(Err(NoResult), k)
    else match answers(k)
      case Found(q) => Fetch(Ok(q), k + 1)
      case Fault(m) => Fetch(Err(Store(m)), k + 1)
      case Empty => Retry(answers, k + 1)
  }

  /** `random_quote`: the whole loop, from the first attempt. */
  function RandomQuote(answers: nat -> Attempt): (f: Fetch)
    ensures 1 <= f.attempts <= MaxAttempts
    ensures f.result.Ok? || f.result == Err(NoResult) || f.result.error.Store?
  {
    Retry(answers, 0)
  }

  /** The first attempt that does not come back empty decides the retrieval:
      its row or its fault is the result, and no later attempt is made. */
  lemma FirstAnswerDecides(answers: nat -> Attempt, i: nat)
    requires i < MaxAttempts
    requires EmptyBetween(answers, 0, i)
    requires !answers(i).Empty?
    ensures RandomQuote(answers).attempts == i + 1
    ensures Settles(answers(i), RandomQuote(answers).result)
  {
    var f := RandomQuote(answers);
    assert !EmptyBetween(answers, 0, MaxAttempts);
    var n := f.attempts - 1;
    assert !answers(n).Empty?;
  }

  /** Three empty answers in a row, and only they, give `NoResult` after exactly
      three attempts. */
  lemma NoResultAfterThreeEmpty(answers: nat -> Attempt)
    ensures RandomQuote(answers).result == Err(NoResult) <==>
      answers(0).Empty? && answers(1).Empty? && answers(2).Empty?
    ensures RandomQuote(answers).result == Err(NoResult) ==> RandomQuote(answers).attempts == 3
  {
    if answers(0).Empty? && answers(1).Empty? && answers(2).Empty? {
      assert EmptyBetween(answers, 0, MaxAttempts);
    }
  }
}
