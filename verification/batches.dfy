/** The batched benchmark loop (`run_routine` on `Routine::IterBatched`): how it cuts the
    iterations into batches, and what survives in the database when one of them fails. */
module Batches {
  import opened Subtransaction
  import opened Wrappers

  datatype BatchSize =
    | SmallInput
    | LargeInput
    | PerIteration
    | NumBatches(batches: nat)
    | NumIterations(size: nat)

  datatype TransactionMode = Shared | SubtransactionPerBatch | SubtransactionPerIteration

  const U64: nat := 0x1_0000_0000_0000_0000

  /** `iterations_per_batch`; `None` stands for the arithmetic panics (64-bit overflow,
      division by zero). */
  function IterationsPerBatch(batchSize: BatchSize, iters: nat): Option<nat> {
    match batchSize
    case SmallInput => if iters + 10 < U64 then Some((iters + 10 - 1) / 10) else None
    case LargeInput => if iters + 1000 < U64 then Some((iters + 1000 - 1) / 1000) else None
    case PerIteration => Some(1)
    case NumBatches(b) => if iters + b < U64 && b != 0 then Some((iters + b - 1) / b) else None
    case NumIterations(size) => Some(size)
  }

  function Max(a: nat, b: nat): nat {
    if a < b then b else a
  }

  function Min(a: nat, b: nat): nat {
    if a < b then a else b
  }

  /** How many batches it takes. */
  function BatchCount(iters: nat, perBatch: nat): nat
    requires perBatch > 0
  {
    (iters + perBatch - 1) / perBatch
  }

  /** `p` is the least number of which `k` make at least `n`. */
  ghost predicate LeastCover(k: nat, p: nat, n: nat) {
    k * p >= n && forall q: nat :: k * q >= n ==> p <= q
  }

  /** The size of a full batch, or none where 64-bit arithmetic overflows or divides by zero: as many
      iterations as make ten, a thousand or `b` batches, one, or the number given. */
  ghost predicate IsBatchSize(batchSize: BatchSize, iters: nat, size: Option<nat>) {
    match batchSize
    case SmallInput => if iters + 10 < 0x1_0000_0000_0000_0000 then size.Some? && LeastCover(10, size.value, iters) else size.None?
    case LargeInput => if iters + 1000 < 0x1_0000_0000_0000_0000 then size.Some? && LeastCover(1000, size.value, iters) else size.None?
    case PerIteration => size == Some(1)
    case NumBatches(b) =>
      if b != 0 && iters + b < 0x1_0000_0000_0000_0000 then size.Some? && LeastCover(b, size.value, iters) else size.None?
    case NumIterations(n) => size == Some(n)
  }

  lemma CeilDiv(n: nat, d: nat)
    requires d > 0
    ensures LeastCover(d, (n + d - 1) / d, n)
  {
    var q := (n + d - 1) / d;
    assert n + d - 1 == q * d + (n + d - 1) % d;
    forall p: nat | d * p >= n ensures q <= p {
      assert p < q ==> d * p <= d * (q - 1) == q * d - d;
    }
  }

  /** The code's rounding finds it. */
  lemma BatchSizeIs(batchSize: BatchSize, iters: nat)
    ensures IsBatchSize(batchSize, iters, IterationsPerBatch(batchSize, iters))
  {
    match batchSize
    case SmallInput => CeilDiv(iters, 10);
    case LargeInput => CeilDiv(iters, 1000);
    case NumBatches(b) => if b != 0 { CeilDiv(iters, b); }
    case _ =>
  }

  lemma BatchSizeUnique(batchSize: BatchSize, iters: nat, p: Option<nat>, q: Option<nat>)
    requires IsBatchSize(batchSize, iters, p) && IsBatchSize(batchSize, iters, q)
    ensures p == q
  {
  }

  /** The number of batches is the least that covers the iterations. */
  lemma BatchCountIs(iters: nat, perBatch: nat)
    requires perBatch > 0
    ensures LeastCover(perBatch, BatchCount(iters, perBatch), iters)
  {
    CeilDiv(iters, perBatch);
  }

  /** So there are at most 10, 1000 or `b` batches, as the batch size says. */
  lemma BatchBound(batchSize: BatchSize, iters: nat, size: nat, batches: nat)
    requires IsBatchSize(batchSize, iters, Some(size)) && LeastCover(Max(size, 1), batches, iters)
    ensures match batchSize
      case SmallInput => batches <= 10
      case LargeInput => batches <= 1000
      case PerIteration => batches == iters
      case NumBatches(b) => batches <= b
      case NumIterations(n) => n == 0 ==> batches == iters
  {
    match batchSize
    case SmallInput => AtMost(iters, size, batches, 10);
    case LargeInput => AtMost(iters, size, batches, 1000);
    case NumBatches(b) => AtMost(iters, size, batches, b);
    case _ => if Max(size, 1) == 1 { OneByOne(iters, batches); }
  }

  lemma OneByOne(iters: nat, batches: nat)
    requires LeastCover(1, batches, iters)
    ensures batches == iters
  {
    assert 1 * iters == iters;
  }

  lemma AtMost(iters: nat, size: nat, batches: nat, k: nat)
    requires LeastCover(k, size, iters) && LeastCover(Max(size, 1), batches, iters)
    ensures batches <= k
  {
    assert Max(size, 1) * k >= k * size;
  }

  // ----- iterations

  /** One call of setup and, if it succeeded, of the routine: what each records, whether it
      fails, and where it leaves the session globals. */
  datatype Iteration = Iteration(setup: seq<int>, setupFailure: Option<string>,
                                 routine: seq<int>, routineFailure: Option<string>,
                                 context: nat, owner: nat)
  {
    function Effects(): seq<int> {
      if setupFailure.Some? then setup else setup + routine
    }

    function Result(): Outcome {
      if setupFailure.Some? then Failed(setupFailure.value)
      else if routineFailure.Some? then Failed(routineFailure.value)
      else Done
    }
  }

  /** A run of the benchmark: the `k`-th iteration does `script(k)`. */
  type Script = nat -> Iteration

  /** One iteration in the current transaction. */
  function Iterate(it: Iteration, s: Session): (Session, Outcome) {
    if s.stack == [] then (s, Failed("no transaction")) else
      (Session(Record(s.stack, it.Effects()), it.context, it.owner, s.setups + 1,
               if it.setupFailure.Some? then s.routines else s.routines + 1),
       it.Result())
  }

  /** What an iteration leaves behind: the effects of setup, and of the routine unless setup failed; each
      failure is reported, and a failed setup keeps the routine from being called. */
  lemma IterateIs(it: Iteration, s: Session)
    requires s.stack != []
    ensures var (after, r) := Iterate(it, s);
      && after.context == it.context && after.owner == it.owner && after.setups == s.setups + 1
      && match it.setupFailure
         case Some(message) => r == Failed(message) && after.stack == Record(s.stack, it.setup) && after.routines == s.routines
         case None =>
           && after.stack == Record(Record(s.stack, it.setup), it.routine) && after.routines == s.routines + 1
           && r == match it.routineFailure case Some(message) => Failed(message) case None => Done
  {
    RecordTwice(s.stack, it.setup, it.routine);
  }

  /** `for _ in 0..count { let input = setup(); routine(input); }` from iteration `first`. */
  function IterateSpan(script: Script, first: nat, count: nat, s: Session): (Session, Outcome)
    decreases count
  {
    if count == 0 then (s, Done) else
      var (after, r) := Iterate(script(first), s);
      if r.Failed? then (after, r) else IterateSpan(script, first + 1, count - 1, after)
  }

  /** All effects of iterations `lo..hi`, in order. */
  ghost function EffectsOf(script: Script, lo: nat, hi: nat): seq<int>
    decreases hi - lo
  {
    if lo >= hi then [] else script(lo).Effects() + EffectsOf(script, lo + 1, hi)
  }

  /** The first failing iteration in `lo..hi`, or `hi`. */
  ghost function FirstFailure(script: Script, lo: nat, hi: nat): (f: nat)
    requires lo <= hi
    ensures lo <= f <= hi
    ensures f < hi ==> script(f).Result().Failed?
    decreases hi - lo
  {
    if lo == hi || script(lo).Result().Failed? then lo else FirstFailure(script, lo + 1, hi)
  }

  lemma {:induction false} FirstFailureIs(script: Script, lo: nat, hi: nat)
    requires lo <= hi
    ensures var f := FirstFailure(script, lo, hi);
      && lo <= f <= hi
      && (forall k: nat :: lo <= k < f ==> script(k).Result().Done?)
      && (f < hi ==> script(f).Result().Failed?)
    decreases hi - lo
  {
    if lo < hi && script(lo).Result().Done? {
      FirstFailureIs(script, lo + 1, hi);
    }
  }

  lemma {:induction false} EffectsSplit(script: Script, lo: nat, mid: nat, hi: nat)
    requires lo <= mid <= hi
    ensures EffectsOf(script, lo, hi) == EffectsOf(script, lo, mid) + EffectsOf(script, mid, hi)
    decreases mid - lo
  {
    if lo < mid {
      EffectsSplit(script, lo + 1, mid, hi);
    }
  }

  lemma RecordTwice(stack: seq<seq<int>>, a: seq<int>, b: seq<int>)
    requires stack != []
    ensures Record(Record(stack, a), b) == Record(stack, a + b)
  {
    var top := |stack| - 1;
    assert stack[top] + a + b == stack[top] + (a + b);
  }

  lemma RecordNothing(stack: seq<seq<int>>)
    requires stack != []
    ensures Record(stack, []) == stack
  {
    var top := |stack| - 1;
    assert stack[top] + [] == stack[top];
  }

  /** From `s`, iterations `first..end` ran up to and including the first failing one. */
  ghost predicate SpanIs(script: Script, first: nat, end: nat, s: Session, after: Session, r: Outcome)
    requires first <= end
  {
    var f := FirstFailure(script, first, end);
    && s.stack != []
    && after.stack == Record(s.stack, EffectsOf(script, first, Min(f + 1, end)))
    && r == (if f < end then script(f).Result() else Done)
    && (f == end ==> Called(end - first, s, after))
  }

  /** Setup and routine have each been called `n` times more. */
  predicate Called(n: nat, before: Session, after: Session) {
    after.setups == before.setups + n && after.routines == before.routines + n
  }

  lemma SpanFails(script: Script, first: nat, end: nat, s: Session)
    requires first < end && s.stack != [] && script(first).Result().Failed?
    ensures SpanIs(script, first, end, s, Iterate(script(first), s).0, script(first).Result())
  {
    assert EffectsOf(script, first, first + 1) == script(first).Effects() + [] == script(first).Effects();
  }

  lemma SpanContinues(script: Script, first: nat, end: nat, s: Session, after: Session, r: Outcome)
    requires first < end && s.stack != [] && script(first).Result().Done?
    requires SpanIs(script, first + 1, end, Iterate(script(first), s).0, after, r)
    ensures SpanIs(script, first, end, s, after, r)
  {
    var ran := Min(FirstFailure(script, first + 1, end) + 1, end);
    assert EffectsOf(script, first, ran) == script(first).Effects() + EffectsOf(script, first + 1, ran);
    RecordTwice(s.stack, script(first).Effects(), EffectsOf(script, first + 1, ran));
  }

  lemma {:induction false} SpanResult(script: Script, first: nat, count: nat, s: Session)
    requires s.stack != []
    ensures var (after, r) := IterateSpan(script, first, count, s);
      SpanIs(script, first, first + count, s, after, r)
    decreases count
  {
    if count == 0 {
      RecordNothing(s.stack);
    } else {
      var (next, r) := Iterate(script(first), s);
      if r.Failed? {
        SpanFails(script, first, first + count, s);
      } else {
        SpanResult(script, first + 1, count - 1, next);
        var (after, outcome) := IterateSpan(script, first + 1, count - 1, next);
        SpanContinues(script, first, first + count, s, after, outcome);
      }
    }
  }

  // ----- the loop

  /** How many iterations survive in the database when `f` is the first to fail. */
  function Survivors(mode: TransactionMode, perBatch: nat, f: nat): nat
    requires perBatch > 0
  {
    match mode
    case Shared => f + 1
    case SubtransactionPerBatch => (f / perBatch) * perBatch
    case SubtransactionPerIteration => f
  }

  /** From `before` to `after`, the database gained the effects of iterations `lo..hi` and
      nothing else, and outside shared mode the session globals are as they were. */
  ghost predicate Gained(mode: TransactionMode, script: Script, lo: nat, hi: nat, before: Session, after: Session) {
    && before.stack != []
    && after.stack == Record(before.stack, EffectsOf(script, lo, hi))
    && (!mode.Shared? ==> after.context == before.context && after.owner == before.owner)
  }

  lemma GainedTwice(mode: TransactionMode, script: Script, lo: nat, mid: nat, hi: nat, s: Session, t: Session, u: Session)
    requires lo <= mid <= hi && Gained(mode, script, lo, mid, s, t) && Gained(mode, script, mid, hi, t, u)
    ensures Gained(mode, script, lo, hi, s, u)
  {
    EffectsSplit(script, lo, mid, hi);
    RecordTwice(s.stack, EffectsOf(script, lo, mid), EffectsOf(script, mid, hi));
  }

  lemma GainedNothing(mode: TransactionMode, script: Script, lo: nat, s: Session)
    requires s.stack != []
    ensures Gained(mode, script, lo, lo, s, s)
  {
    RecordNothing(s.stack);
  }

  /** A span keeps the subtransaction stack balanced. */
  lemma SpanIsBalanced(script: Script, first: nat, count: nat, before: seq<seq<int>>, entry: Session)
    requires before != [] && entry.stack == before + [[]]
    ensures var (exit, r) := IterateSpan(script, first, count, entry);
            var f := FirstFailure(script, first, first + count);
      && |exit.stack| == |before| + 1
      && (f == first + count ==>
            r == Done && Released(exit.stack) == Record(before, EffectsOf(script, first, f)) && Called(count, entry, exit))
      && (f < first + count ==> r == script(f).Result() && RolledBack(exit.stack) == before)
  {
    SpanResult(script, first, count, entry);
    var exit := IterateSpan(script, first, count, entry).0;
    var ran := Min(FirstFailure(script, first, first + count) + 1, first + count);
    var effects := EffectsOf(script, first, ran);
    assert entry.stack[|before|] + effects == effects;
    assert exit.stack == before + [effects];
    BalancedOutcome(before, exit.stack, effects);
  }

  /** How many subtransactions `n` iterations in `batches` batches begin. */
  function Begun(mode: TransactionMode, batches: nat, n: nat): nat {
    match mode
    case Shared => 0
    case SubtransactionPerBatch => batches
    case SubtransactionPerIteration => n
  }

  class Runner {
    const backend: Backend

    constructor (backend: Backend)
      ensures this.backend == backend
    {
      this.backend := backend;
    }

    /** A span directly in the enclosing transaction. */
    method SpanShared(script: Script, first: nat, count: nat) returns (r: Outcome)
      requires backend.Valid()
      modifies backend
      ensures var f := FirstFailure(script, first, first + count);
        if f == first + count
        then r == Done && Gained(Shared, script, first, f, old(backend.State()), backend.State())
             && Called(count, old(backend.State()), backend.State())
        else r == script(f).Result() && Gained(Shared, script, first, f + 1, old(backend.State()), backend.State())
    {
      SpanResult(script, first, count, backend.State());
      r := backend.Execute((s: Session) => IterateSpan(script, first, count, s));
    }

    /** A span inside one subtransaction: all of it survives, or none of it. */
    method SpanInSubtransaction(ghost mode: TransactionMode, script: Script, first: nat, count: nat) returns (r: Outcome)
      requires backend.Valid()
      modifies backend
      ensures var f := FirstFailure(script, first, first + count);
        if f == first + count
        then r == Done && Gained(mode, script, first, f, old(backend.State()), backend.State())
             && Called(count, old(backend.State()), backend.State())
        else r == script(f).Result() && Gained(mode, script, first, first, old(backend.State()), backend.State())
    {
      var body := (s: Session) => IterateSpan(script, first, count, s);
      forall s: Session | s.stack == backend.stack + [[]] ensures |body(s).0.stack| >= 2 {
        SpanIsBalanced(script, first, count, backend.stack, s);
      }
      ghost var before := backend.stack;
      GainedNothing(mode, script, first, backend.State());
      ghost var entry, exit;
      r, entry, exit := backend.WithSubtransaction(body);
      SpanIsBalanced(script, first, count, before, entry);
    }

    /** A span with one subtransaction per iteration. */
    method SpanPerIteration(script: Script, first: nat, count: nat) returns (r: Outcome, begun: nat)
      requires backend.Valid()
      modifies backend
      ensures var f := FirstFailure(script, first, first + count);
        && Gained(SubtransactionPerIteration, script, first, f, old(backend.State()), backend.State())
        && (if f == first + count
            then r == Done && begun == count && Called(count, old(backend.State()), backend.State())
            else r == script(f).Result())
    {
      begun := 0;
      ghost var before := backend.State();
      ghost var f := FirstFailure(script, first, first + count);
      GainedNothing(SubtransactionPerIteration, script, first, before);
      for i := 0 to count
        invariant begun == i && first + i <= f
        invariant Gained(SubtransactionPerIteration, script, first, first + i, before, backend.State())
        invariant Called(i, before, backend.State())
      {
        FailureInSpan(script, first, first + i, first + i + 1, first + count);
        ghost var middle := backend.State();
        r := SpanInSubtransaction(SubtransactionPerIteration, script, first + i, 1);
        begun := begun + 1;
        ghost var upTo := FirstFailure(script, first + i, first + i + 1);
        GainedTwice(SubtransactionPerIteration, script, first, first + i, upTo, before, middle, backend.State());
        if r.Failed? {
          return;
        }
      }
      r := Done;
    }

    /** One batch in the given mode. */
    method RunBatch(mode: TransactionMode, script: Script, first: nat, count: nat) returns (r: Outcome, begun: nat)
      requires backend.Valid()
      modifies backend
      ensures var f := FirstFailure(script, first, first + count);
        if f == first + count
        then r == Done && Gained(mode, script, first, f, old(backend.State()), backend.State())
             && Called(count, old(backend.State()), backend.State()) && begun == Begun(mode, 1, count)
        else r == script(f).Result()
             && Gained(mode, script, first, BatchSurvivors(mode, first, f), old(backend.State()), backend.State())
    {
      match mode {
        case Shared =>
          r := SpanShared(script, first, count);
          begun := 0;
        case SubtransactionPerBatch =>
          r := SpanInSubtransaction(mode, script, first, count);
          begun := 1;
        case SubtransactionPerIteration =>
          r, begun := SpanPerIteration(script, first, count);
      }
    }

    /** One turn of the batch loop. */
    method BatchTurn(iters: nat, perBatch: nat, mode: TransactionMode, script: Script,
                     remaining: nat, ghost batches: nat, begun: nat, ghost before: Session)
      returns (r: Outcome, left: nat, begun': nat)
      requires remaining > 0 && Progress(mode, script, iters, perBatch, remaining, batches, begun, before, backend.State())
      modifies backend
      ensures left < remaining
      ensures r.Done? ==> Progress(mode, script, iters, perBatch, left, batches + 1, begun', before, backend.State())
      ensures r.Failed? ==> RunEnds(mode, script, iters, perBatch, before, backend.State(), r, batches, begun')
    {
      var currentBatch := Min(remaining, perBatch);
      ghost var first, middle := iters - remaining, backend.State();
      FailureInSpan(script, 0, first, first + currentBatch, iters);
      ghost var f := FirstFailure(script, first, first + currentBatch);
      var more;
      r, more := RunBatch(mode, script, iters - remaining, currentBatch);
      left, begun' := remaining - currentBatch, begun + more;
      if r.Failed? {
        GainedTwice(mode, script, 0, first, BatchSurvivors(mode, first, f), before, middle, backend.State());
        SurvivorsInBatch(mode, iters, perBatch, remaining, batches, f);
      } else {
        GainedTwice(mode, script, 0, first, first + currentBatch, before, middle, backend.State());
      }
    }

    /** The batch loop, given the size of a full batch. */
    method RunBatches(iters: nat, perBatch: nat, mode: TransactionMode, script: Script)
      returns (r: Outcome, batches: nat, begun: nat)
      requires backend.Valid() && perBatch > 0
      modifies backend
      ensures RunEnds(mode, script, iters, perBatch, old(backend.State()), backend.State(), r, batches, begun)
    {
      var remaining := iters;
      batches, begun := 0, 0;
      ghost var before := backend.State();
      GainedNothing(mode, script, 0, before);
      while remaining > 0
        invariant Progress(mode, script, iters, perBatch, remaining, batches, begun, before, backend.State())
      {
        r, remaining, begun := BatchTurn(iters, perBatch, mode, script, remaining, batches, begun, before);
        if r.Failed? {
          return;
        }
        batches := batches + 1;
      }
      CutEnd(iters, perBatch, batches);
      BatchCountIs(iters, perBatch);
      r := Done;
    }

    /** `run_routine` on a batched routine, for one measurement of `iters` iterations. Where the
        batch size cannot be computed, nothing is run. */
    method RunRoutine(iters: nat, batchSize: BatchSize, mode: TransactionMode, script: Script)
      returns (r: Option<Outcome>, batches: nat, begun: nat)
      requires backend.Valid()
      modifies backend
      ensures r.None? <==> IsBatchSize(batchSize, iters, None)
      ensures r.None? ==> backend.State() == old(backend.State())
      ensures forall size: nat :: IsBatchSize(batchSize, iters, Some(size)) ==>
        r.Some? && RunEnds(mode, script, iters, Max(size, 1), old(backend.State()), backend.State(), r.value, batches, begun)
    {
      var perBatch := IterationsPerBatch(batchSize, iters);
      BatchSizeIs(batchSize, iters);
      forall size: Option<nat> | IsBatchSize(batchSize, iters, size) ensures size == perBatch {
        BatchSizeUnique(batchSize, iters, size, perBatch);
      }
      if perBatch.None? {
        return None, 0, 0;
      }
      var outcome;
      outcome, batches, begun := RunBatches(iters, Max(perBatch.value, 1), mode, script);
      r := Some(outcome);
    }
  }

  /** Between batches: the iterations so far all succeeded and are in the database. */
  ghost predicate Progress(mode: TransactionMode, script: Script, iters: nat, perBatch: nat, remaining: nat,
                           batches: nat, begun: nat, before: Session, now: Session) {
    && Cut(iters, perBatch, remaining, batches)
    && iters - remaining <= FirstFailure(script, 0, iters)
    && Gained(mode, script, 0, iters - remaining, before, now)
    && Called(iters - remaining, before, now)
    && begun == Begun(mode, batches, iters - remaining)
  }

  /** How a run may end. Without failures, setup and routine have each run exactly `iters`
      times, in as many batches and subtransactions as the batch size and the mode say. After
      a failure, exactly the iterations before it that the mode had made durable survive. */
  ghost predicate RunEnds(mode: TransactionMode, script: Script, iters: nat, perBatch: nat,
                          before: Session, after: Session, r: Outcome, batches: nat, begun: nat)
    requires perBatch > 0
  {
    var f := FirstFailure(script, 0, iters);
    if f == iters
    then r == Done && Gained(mode, script, 0, iters, before, after) && Called(iters, before, after)
         && LeastCover(perBatch, batches, iters) && begun == Begun(mode, batches, iters)
    else r == script(f).Result() && Gained(mode, script, 0, Survivors(mode, perBatch, f), before, after)
  }

  /** Within the batch starting at `first`, how far the effects survive a failure at `f`. */
  function BatchSurvivors(mode: TransactionMode, first: nat, f: nat): nat {
    match mode
    case Shared => f + 1
    case SubtransactionPerBatch => first
    case SubtransactionPerIteration => f
  }

  /** `n * d`, by repeated addition. */
  ghost function Times(n: nat, d: nat): nat {
    if n == 0 then 0 else Times(n - 1, d) + d
  }

  lemma {:induction false} TimesIs(n: nat, d: nat)
    ensures Times(n, d) == n * d
  {
    if n > 0 {
      TimesIs(n - 1, d);
      assert n * d == (n - 1) * d + d;
    }
  }

  /** Every finished batch but the last was a full one. */
  ghost predicate Cut(iters: nat, perBatch: nat, remaining: nat, batches: nat) {
    && perBatch > 0 && remaining <= iters
    && (remaining > 0 ==> iters - remaining == Times(batches, perBatch))
    && (remaining == 0 ==> iters <= Times(batches, perBatch) < iters + perBatch)
  }

  lemma CutEnd(iters: nat, perBatch: nat, batches: nat)
    requires Cut(iters, perBatch, 0, batches)
    ensures batches == BatchCount(iters, perBatch)
  {
    TimesIs(batches, perBatch);
    QuotientIs(iters + perBatch - 1, perBatch, batches);
  }

  lemma QuotientIs(n: nat, d: nat, q: nat)
    requires d > 0 && q * d <= n < q * d + d
    ensures n / d == q
  {
    var r := n / d;
    assert r * d <= n < r * d + d;
    assert r < q ==> (r + 1) * d <= q * d;
    assert q < r ==> (q + 1) * d <= r * d;
  }

  lemma SurvivorsInBatch(mode: TransactionMode, iters: nat, perBatch: nat, remaining: nat, batches: nat, f: nat)
    requires Cut(iters, perBatch, remaining, batches) && remaining > 0
    requires iters - remaining <= f < iters - remaining + Min(remaining, perBatch)
    ensures Survivors(mode, perBatch, f) == BatchSurvivors(mode, iters - remaining, f)
  {
    TimesIs(batches, perBatch);
    QuotientIs(f, perBatch, batches);
  }

  /** Looking for the first failure span by span finds the first failure of the run. */
  lemma FailureInSpan(script: Script, start: nat, first: nat, next: nat, end: nat)
    requires start <= first <= next <= end && first <= FirstFailure(script, start, end)
    ensures first <= FirstFailure(script, first, next) <= next
    ensures FirstFailure(script, first, next) < next ==>
              && FirstFailure(script, start, end) == FirstFailure(script, first, next)
              && script(FirstFailure(script, first, next)).Result().Failed?
    ensures FirstFailure(script, first, next) == next ==> next <= FirstFailure(script, start, end) <= end
  {
    FirstFailureIs(script, first, next);
    FirstFailureIs(script, start, end);
  }
}
