/** The documentation translation task: the promise behind it and the bounded,
    cancellable wait `nonBlockingGet`. Threads are replaced by the sequence of outcomes the
    caller observes, one per attempt. */
module DocumentationTask {
  import opened Results

  /** Total time the caller may be kept waiting, in milliseconds. */
  const DefaultTimeoutMillis: nat := 3000
  /** Length of one blocking wait, in milliseconds. */
  const TimeToBlockMillis: nat := 100
  /** Number of attempts the loop allows (Kotlin integer division). */
  const MaxTries: nat := DefaultTimeoutMillis / TimeToBlockMillis

  /** The state of the promise that runs the translation on a worker thread. */
  datatype PromiseState = Pending | Fulfilled(value: string) | Rejected

  /** `isProcessed`: the promise is no longer pending. */
  function IsProcessed(p: PromiseState): (b: bool)
    ensures b <==> (exists v :: p == Fulfilled(v)) || p == Rejected
  {
    !p.Pending?
  }

  /** `isSucceeded`: the promise completed with a value; a succeeded task is processed. */
  function IsSucceeded(p: PromiseState): (b: bool)
    ensures b ==> IsProcessed(p)
    ensures b <==> exists v :: p == Fulfilled(v)
  {
    p.Fulfilled?
  }

  /** The task as the caller sees it: the promise and how many warnings its error handler
      has scheduled. */
  datatype Task = Task(promise: PromiseState, warnings: nat)

  /** A freshly started task: the fetch runs in the background. */
  const Started: Task := Task(Pending, 0)

  /** The worker's answer: the translated documentation or the failure it raised. */
  datatype Fetch = Fetched(text: string) | FetchFailed

  /** The worker finishing: a pending promise settles once, and the `onError` handler
      schedules one warning on failure; a settled promise ignores further answers. */
  function Complete(t: Task, f: Fetch): (t': Task)
    ensures !t.promise.Pending? ==> t' == t
    ensures t.promise.Pending? ==> IsProcessed(t'.promise)
    ensures t.promise.Pending? ==> (IsSucceeded(t'.promise) <==> f.Fetched?)
    ensures t.promise.Pending? && f.Fetched? ==> t'.promise == Fulfilled(f.text) && t'.warnings == t.warnings
    ensures t.promise.Pending? && f.FetchFailed? ==> t'.warnings == t.warnings + 1
  {
    if !t.promise.Pending? then t
    else match f
      case Fetched(text) => Task(Fulfilled(text), t.warnings)
      case FetchFailed => Task(Rejected, t.warnings + 1)
  }

  /** The text an `onSuccess` callback receives, if it is ever called. */
  function Delivered(p: PromiseState): (r: Option<string>)
    ensures r.Some? <==> IsSucceeded(p)
    ensures p.Fulfilled? ==> r == Some(p.value)
  {
    match p
    case Fulfilled(v) => Some(v)
    case _ => None
  }

  /** A successful fetch leaves the task succeeded, with no warning, and `onSuccess`
      receives the fetched text. */
  lemma FetchedTextDelivered(s: string)
    ensures var t := Complete(Started, Fetched(s));
      IsSucceeded(t.promise) && t.warnings == 0 && Delivered(t.promise) == Some(s)
  {
  }

  /** A failed fetch leaves the task processed but not succeeded, with exactly one warning,
      and never calls `onSuccess`. */
  lemma FailedFetchWarnsOnce()
    ensures var t := Complete(Started, FetchFailed);
      IsProcessed(t.promise) && !IsSucceeded(t.promise) && t.warnings == 1 && Delivered(t.promise).None?
  {
  }

  // ---------------------------------------------------------------------------
  // `nonBlockingGet`
  // ---------------------------------------------------------------------------

  /** What one iteration of the loop observes: the cancellation check fired, or the blocking
      wait timed out, failed, or returned the value. */
  datatype Attempt = Cancelled | TimedOut | Failed | Succeeded(value: string)

  /** How `nonBlockingGet` ends: by propagating cancellation, or by returning a nullable text. */
  datatype Got = CancellationThrown | Returned(text: Option<string>)

  /** The outcome of attempt `i`; attempts past the end of the schedule time out, as they do
      while the promise stays pending. */
  function AttemptAt(schedule: seq<Attempt>, i: nat): Attempt {
    if i < |schedule| then schedule[i] else TimedOut
  }

  /** Reference definition of the loop: starting at attempt `i` with `budget` attempts left,
      the result and the number of blocking waits made in total. */
  function Poll(schedule: seq<Attempt>, i: nat, budget: nat): (r: (Got, nat))
    ensures i <= r.1 <= i + budget
    ensures r.0.CancellationThrown? ==> r.1 < i + budget && AttemptAt(schedule, r.1) == Cancelled
    decreases budget
  {
    if budget == 0 then (Returned(None), i)
    else match AttemptAt(schedule, i)
      case Cancelled => (CancellationThrown, i)
      case TimedOut => Poll(schedule, i + 1, budget - 1)
      case Failed => (Returned(None), i + 1)
      case Succeeded(v) => (Returned(Some(v)), i + 1)
  }

  /** `nonBlockingGet`: returns the result and the number of blocking waits it made. */
  method NonBlockingGet(schedule: seq<Attempt>) returns (r: Got, waits: nat)
    ensures (r, waits) == Poll(schedule, 0, MaxTries)
    ensures waits <= MaxTries == 30
    ensures waits * TimeToBlockMillis <= DefaultTimeoutMillis
    ensures forall j :: 0 <= j < (if r.CancellationThrown? then waits else waits - 1) ==> AttemptAt(schedule, j) == TimedOut
  {
    var tries := MaxTries;
    waits := 0;
    while tries > 0
      invariant waits + tries == MaxTries
      invariant Poll(schedule, 0, MaxTries) == Poll(schedule, waits, tries)
      invariant forall j :: 0 <= j < waits ==> AttemptAt(schedule, j) == TimedOut
      decreases tries
    {
      tries := tries - 1;
      var a := AttemptAt(schedule, waits);
      if a == Cancelled {
        return CancellationThrown, waits;
      }
      waits := waits + 1;
      match a {
        case Succeeded(v) =>
          return Returned(Some(v)), waits;
        case Failed =>
          return Returned(None), waits;
        case TimedOut =>
      }
    }
    r := Returned(None);
  }

  /** A schedule read from a promise that ends in state `p`: every successful wait returns
      the promise's value and every failed wait sees it rejected. */
  predicate ConsistentWith(schedule: seq<Attempt>, p: PromiseState) {
    forall i :: 0 <= i < |schedule| ==>
      (schedule[i].Succeeded? ==> p == Fulfilled(schedule[i].value))
      && (schedule[i].Failed? ==> p == Rejected)
  }

  /** A text returned by the wait is the text the promise hands to `onSuccess`. */
  lemma {:induction false} PolledTextIsDelivered(schedule: seq<Attempt>, p: PromiseState, i: nat, budget: nat)
    requires ConsistentWith(schedule, p)
    requires Poll(schedule, i, budget).0.Returned? && Poll(schedule, i, budget).0.text.Some?
    ensures Delivered(p) == Poll(schedule, i, budget).0.text
    decreases budget
  {
    if AttemptAt(schedule, i) == TimedOut {
      PolledTextIsDelivered(schedule, p, i + 1, budget - 1);
    }
  }

  /** The first attempt that does not time out decides the result; nothing after it runs. */
  lemma {:induction false} FirstSettledDecides(schedule: seq<Attempt>, i: nat, budget: nat, k: nat)
    requires i <= k < i + budget
    requires forall j :: i <= j < k ==> AttemptAt(schedule, j) == TimedOut
    requires AttemptAt(schedule, k) != TimedOut
    ensures Poll(schedule, i, budget) ==
      match AttemptAt(schedule, k)
      case Cancelled => (CancellationThrown, k)
      case Failed => (Returned(None), k + 1)
      case Succeeded(v) => (Returned(Some(v)), k + 1)
      case TimedOut => (Returned(None), k + 1)
    decreases budget
  {
    if i < k {
      FirstSettledDecides(schedule, i + 1, budget - 1, k);
    }
  }

  /** If every attempt in the budget times out, the loop runs out and returns null. */
  lemma {:induction false} AllTimeoutsGiveNothing(schedule: seq<Attempt>, i: nat, budget: nat)
    requires forall j :: i <= j < i + budget ==> AttemptAt(schedule, j) == TimedOut
    ensures Poll(schedule, i, budget) == (Returned(None), i + budget)
    decreases budget
  {
    if budget > 0 {
      AllTimeoutsGiveNothing(schedule, i + 1, budget - 1);
    }
  }

  /** Attempt `k` succeeds after `k` timeouts: its value is returned after `k + 1` waits. */
  lemma SuccessAfterTimeouts(schedule: seq<Attempt>, k: nat, v: string)
    requires k < MaxTries
    requires forall j :: 0 <= j < k ==> AttemptAt(schedule, j) == TimedOut
    requires AttemptAt(schedule, k) == Succeeded(v)
    ensures Poll(schedule, 0, MaxTries) == (Returned(Some(v)), k + 1)
  {
    FirstSettledDecides(schedule, 0, MaxTries, k);
  }

  /** A failure other than a timeout returns null at once, whatever the later attempts hold. */
  lemma FailureReturnsNothing(schedule: seq<Attempt>, k: nat)
    requires k < MaxTries
    requires forall j :: 0 <= j < k ==> AttemptAt(schedule, j) == TimedOut
    requires AttemptAt(schedule, k) == Failed
    ensures Poll(schedule, 0, MaxTries) == (Returned(None), k + 1)
  {
    FirstSettledDecides(schedule, 0, MaxTries, k);
  }

  /** Cancellation observed before attempt `k` propagates (it is not a null result), and the
      attempt's blocking wait is not made. */
  lemma CancellationPropagates(schedule: seq<Attempt>, k: nat)
    requires k < MaxTries
    requires forall j :: 0 <= j < k ==> AttemptAt(schedule, j) == TimedOut
    requires AttemptAt(schedule, k) == Cancelled
    ensures Poll(schedule, 0, MaxTries) == (CancellationThrown, k)
  {
    FirstSettledDecides(schedule, 0, MaxTries, k);
  }

  /** If all thirty attempts time out, the result is null after thirty waits (3000 ms). */
  lemma ExhaustedBudgetGivesNothing(schedule: seq<Attempt>)
    requires forall j :: 0 <= j < MaxTries ==> AttemptAt(schedule, j) == TimedOut
    ensures Poll(schedule, 0, MaxTries) == (Returned(None), 30)
  {
    AllTimeoutsGiveNothing(schedule, 0, MaxTries);
  }

  /** A timeout never ends the loop by itself: with budget left, the loop goes on to the next
      attempt and ends as that attempt's continuation does. */
  lemma TimeoutContinues(schedule: seq<Attempt>, i: nat, budget: nat)
    requires budget > 0 && AttemptAt(schedule, i) == TimedOut
    ensures Poll(schedule, i, budget) == Poll(schedule, i + 1, budget - 1)
    ensures Poll(schedule, i, budget).1 > i
  {
  }
}
