/**
 * The job executor of pimployee/job_util.py: the process ceiling of
 * `restrict_resources`, the three-way split of the assignment payload, the
 * retry policy of `deserialize`, and the decision flow of `process_job`.
 *
 * Everything `process_job` asks of the outside world (pickle, the `cloud`
 * client, the user's callable, the profiler, signals, the thread list, the
 * clock, `os.getpid`) enters as an input describing what that call did.
 */
module Executor {
  import opened Wire

  // ---------------------------------------------------------------------------
  // restrict_resources
  // ---------------------------------------------------------------------------

  /** The per-core process allowance of a resource class; 100 for a class not in the table. */
  function ProcsPerCore(coreType: string): nat {
    if coreType == "c1" then 60
    else if coreType == "c2" then 200
    else if coreType == "f2" then 300
    else if coreType == "m1" then 300
    else if coreType == "s1" then 50
    else 100
  }

  /** The RLIMIT_NPROC ceiling `restrict_resources(core_type, cores)` installs. */
  function ProcessCeiling(coreType: string, cores: int): (r: int)
    ensures cores >= 0 ==> 50 * cores <= r <= 300 * cores
    ensures coreType !in {"c1", "c2", "f2", "m1", "s1"} ==> r == 100 * cores
    ensures r == ProcsPerCore(coreType) * cores
  {
    var per := ProcsPerCore(coreType);
    assert cores >= 0 ==> 50 * cores <= per * cores <= 300 * cores by {
      if cores >= 0 {
        MultiplyMonotone(50, per, cores);
        MultiplyMonotone(per, 300, cores);
      }
    }
    per * cores
  }

  lemma MultiplyMonotone(a: int, b: int, n: int)
    requires a <= b && n >= 0
    ensures a * n <= b * n
  {
  }

  /**
   * `process_job` calls `restrict_resources(meta.get('core_type', 'c1'),
   * meta.get('cores', 1))`: a missing class counts as c1 and missing cores
   * as one.
   */
  function AssignedCeiling(coreType: Option<string>, cores: Option<int>): (r: int)
    // each key falls back to its own default: core class c1, one core
    ensures coreType.None? && cores.None? ==> r == 60
    ensures coreType.None? && cores.Some? ==> r == 60 * cores.value
    ensures coreType.Some? && cores.None? ==> r == ProcsPerCore(coreType.value)
    ensures coreType.Some? && cores.Some? ==> r == ProcessCeiling(coreType.value, cores.value)
  {
    ProcessCeiling(if coreType.Some? then coreType.value else "c1", if cores.Some? then cores.value else 1)
  }

  /** The table at work: c2 with two cores allows 400; an unknown class with three cores allows 300. */
  lemma CeilingExamples()
    ensures ProcessCeiling("c2", 2) == 400
    ensures ProcessCeiling("x1", 3) == 300
    ensures AssignedCeiling(None, None) == 60
  {
  }

  // ---------------------------------------------------------------------------
  // Splitting the assignment payload
  // ---------------------------------------------------------------------------

  /** Python's normalisation of a slice bound against a sequence of length `len`. */
  function SliceBound(i: int, len: nat): (r: nat)
    ensures r <= len
    ensures 0 <= i <= len ==> r == i
    ensures i > len ==> r == len
  {
    if i < 0 then (if len + i < 0 then 0 else len + i)
    else if i > len then len
    else i
  }

  /** `s[lo:hi]` with Python's semantics: negative bounds count from the end, bounds are clamped. */
  function PySlice<T>(s: seq<T>, lo: int, hi: int): (r: seq<T>)
    ensures |r| <= |s|
  {
    var a := SliceBound(lo, |s|);
    var b := SliceBound(hi, |s|);
    if a < b then s[a..b] else []
  }

  /** `sum(parts)` */
  function Sum(parts: seq<int>): int {
    if parts == [] then 0 else parts[0] + Sum(parts[1..])
  }

  lemma {:induction false} SumNonNegative(parts: seq<int>)
    requires forall i :: 0 <= i < |parts| ==> parts[i] >= 0
    ensures Sum(parts) >= 0
  {
    if parts != [] {
      SumNonNegative(parts[1..]);
    }
  }

  /** The serialized callable, positional arguments and keyword arguments. */
  datatype Split = Split(func: seq<byte>, args: seq<byte>, kwargs: seq<byte>)

  /**
   * `payload[:parts[0]]`, `payload[parts[0]:sum(parts)]`,
   * `payload[sum(parts):]`; None where `parts[0]` raises IndexError.
   */
  function SplitPayload(payload: seq<byte>, parts: seq<int>): (r: Option<Split>)
    ensures r.None? <==> parts == []
  {
    if parts == [] then None
    else
      var total := Sum(parts);
      Some(Split(PySlice(payload, 0, parts[0]), PySlice(payload, parts[0], total), PySlice(payload, total, |payload|)))
  }

  /** For non-negative part lengths the three slices put back together are exactly the payload. */
  lemma SplitReassembles(payload: seq<byte>, parts: seq<int>)
    requires parts != []
    requires forall i :: 0 <= i < |parts| ==> parts[i] >= 0
    ensures var s := SplitPayload(payload, parts).value; s.func + s.args + s.kwargs == payload
  {
    SumNonNegative(parts[1..]);
    assert Sum(parts) >= parts[0];
    var n := |payload|;
    var a := SliceBound(parts[0], n);
    var b := SliceBound(Sum(parts), n);
    assert a <= b;
    assert payload[..a] + payload[a..b] + payload[b..] == payload;
  }

  /**
   * With the parts list holding the lengths of the callable and of the
   * positional arguments, the keyword arguments are the rest of the payload.
   */
  lemma SplitLengths(payload: seq<byte>, f: nat, a: nat)
    requires f + a <= |payload|
    ensures var s := SplitPayload(payload, [f, a]).value;
      |s.func| == f && |s.args| == a && |s.kwargs| == |payload| - f - a
  {
    assert [f, a][1..] == [a] && [a][1..] == [];
    assert Sum([a]) == a;
    assert Sum([f, a]) == f + a;
  }

  /** Negative part lengths break the reassembly: bytes are duplicated. */
  lemma NegativePartsDuplicate()
    ensures var s := SplitPayload([1, 2, 3], [-1, -1]).value;
      s.func + s.args + s.kwargs == [1, 2, 2, 3]
  {
    assert Sum([-1, -1]) == -1 + Sum([-1]);
    assert Sum([-1]) == -1 + Sum([]);
    var p: seq<byte> := [1, 2, 3];
    assert PySlice(p, 0, -1) == [1, 2];
    assert PySlice(p, -1, -2) == [];
    assert PySlice(p, -2, 3) == [2, 3];
  }

  // ---------------------------------------------------------------------------
  // deserialize: the retry policy
  // ---------------------------------------------------------------------------

  /** The exception classes `deserialize` tells apart. */
  datatype LoadError = ImportError | OtherError(name: string)

  /** What one `pickle.loads` attempt did. */
  datatype LoadOutcome<V> = Loaded(value: V) | LoadFailed(error: LoadError)

  /**
   * One attempt, with the `time.time()` reading `deserialize` takes when the
   * attempt fails with ImportError.
   */
  datatype Attempt<V> = Attempt(outcome: LoadOutcome<V>, clock: real)

  /**
   * How `deserialize` ends: with the loaded value, by raising, or (only in
   * the model) with the given attempts used up while it would still retry.
   */
  datatype Deserialized<V> = Decoded(value: V) | Raised(error: LoadError) | Unfinished

  /** The grace period for an ImportError, in seconds. */
  const RETRY_WINDOW: real := 2.0

  /**
   * The result of the retry loop on the remaining attempts, with its
   * deadline variable (0.0 and None are both "not set" to Python's `not`),
   * and how many attempts it made.
   */
  function Retry<V>(attempts: seq<Attempt<V>>, deadline: real): (Deserialized<V>, nat)
    decreases |attempts|
  {
    if attempts == [] then (Unfinished, 0)
    else
      var a := attempts[0];
      match a.outcome
      case Loaded(v) => (Decoded(v), 1)
      case LoadFailed(OtherError(e)) => (Raised(OtherError(e)), 1)
      case LoadFailed(ImportError) =>
        if deadline != 0.0 && a.clock > deadline then (Raised(ImportError), 1)
        else
          var next := if deadline == 0.0 then a.clock + RETRY_WINDOW else deadline;
          var (r, k) := Retry(attempts[1..], next);
          (r, k + 1)
  }

  /**
   * `deserialize(s)`: call `pickle.loads` until it succeeds, fails with
   * anything but ImportError, or fails with ImportError after the deadline
   * set at the first ImportError. The random sleep between attempts shows
   * only in the next clock reading.
   */
  method Deserialize<V>(attempts: seq<Attempt<V>>) returns (r: Deserialized<V>, used: nat)
    ensures (r, used) == Retry(attempts, 0.0)
  {
    var deadline: real := 0.0;
    var i := 0;
    while true
      invariant 0 <= i <= |attempts|
      invariant Retry(attempts, 0.0) == (Retry(attempts[i..], deadline).0, Retry(attempts[i..], deadline).1 + i)
      decreases |attempts| - i
    {
      if i == |attempts| {
        return Unfinished, i;
      }
      var a := attempts[i];
      assert attempts[i..][1..] == attempts[i + 1..];
      i := i + 1;
      match a.outcome {
        case Loaded(v) =>
          return Decoded(v), i;
        case LoadFailed(OtherError(e)) =>
          return Raised(OtherError(e)), i;
        case LoadFailed(ImportError) =>
          if deadline == 0.0 {
            deadline := a.clock + RETRY_WINDOW;
          } else if a.clock > deadline {
            return Raised(ImportError), i;
          }
      }
    }
  }

  /**
   * Only ImportError is retried: every attempt before the last one made
   * failed with ImportError, and the result is what the last attempt did
   * (or, when the attempts run out, all of them failed with ImportError).
   */
  lemma {:induction false} OnlyImportErrorRetried<V>(attempts: seq<Attempt<V>>, deadline: real)
    ensures var (r, k) := Retry(attempts, deadline);
      && k <= |attempts|
      && (forall j :: 0 <= j < k - 1 ==> attempts[j].outcome == LoadFailed(ImportError))
      && (r.Decoded? ==> k >= 1 && attempts[k - 1].outcome == Loaded(r.value))
      && (r.Raised? ==> k >= 1 && attempts[k - 1].outcome == LoadFailed(r.error))
      && (r.Unfinished? ==> k == |attempts| && forall j :: 0 <= j < k ==> attempts[j].outcome == LoadFailed(ImportError))
    decreases |attempts|
  {
    if attempts != [] && attempts[0].outcome == LoadFailed(ImportError) {
      var a := attempts[0];
      if !(deadline != 0.0 && a.clock > deadline) {
        var next := if deadline == 0.0 then a.clock + RETRY_WINDOW else deadline;
        OnlyImportErrorRetried(attempts[1..], next);
      }
    }
  }

  /** Once the deadline is set, ImportError is re-raised at the first attempt whose clock is past it. */
  lemma {:induction false} ReRaiseOncePastDeadline<V>(attempts: seq<Attempt<V>>, deadline: real)
    requires deadline > 0.0
    ensures var (r, k) := Retry(attempts, deadline);
      r == Raised(ImportError) ==>
        && 1 <= k <= |attempts|
        && attempts[k - 1].clock > deadline
        && (forall j :: 0 <= j < k - 1 ==> attempts[j].clock <= deadline)
    decreases |attempts|
  {
    if attempts != [] && attempts[0].outcome == LoadFailed(ImportError) && attempts[0].clock <= deadline {
      ReRaiseOncePastDeadline(attempts[1..], deadline);
    }
  }

  /**
   * The converse: with the deadline set, the first ImportError whose clock
   * is past it is re-raised, after the attempts before it were retried.
   */
  lemma {:induction false} ReRaisesPastDeadline<V>(attempts: seq<Attempt<V>>, deadline: real, p: nat)
    requires deadline != 0.0 && p < |attempts|
    requires forall j :: 0 <= j < p ==> attempts[j].outcome == LoadFailed(ImportError) && attempts[j].clock <= deadline
    requires attempts[p].outcome == LoadFailed(ImportError) && attempts[p].clock > deadline
    ensures Retry(attempts, deadline) == (Raised(ImportError), p + 1)
    decreases p
  {
    if p > 0 {
      ReRaisesPastDeadline(attempts[1..], deadline, p - 1);
    }
  }

  /**
   * With a clock that reads non-negative times, an ImportError is re-raised
   * only after at least two attempts, by the first attempt after the first
   * one whose clock is more than 2.0 seconds past the first failure.
   */
  lemma ImportErrorDeadline<V>(attempts: seq<Attempt<V>>)
    requires forall i :: 0 <= i < |attempts| ==> attempts[i].clock >= 0.0
    ensures var (r, k) := Retry(attempts, 0.0);
      r == Raised(ImportError) ==>
        && 2 <= k <= |attempts|
        && (forall j :: 0 <= j < k ==> attempts[j].outcome == LoadFailed(ImportError))
        && attempts[k - 1].clock > attempts[0].clock + RETRY_WINDOW
        && (forall j :: 1 <= j < k - 1 ==> attempts[j].clock <= attempts[0].clock + RETRY_WINDOW)
  {
    OnlyImportErrorRetried(attempts, 0.0);
    if attempts != [] && attempts[0].outcome == LoadFailed(ImportError) {
      var d := attempts[0].clock + RETRY_WINDOW;
      var tail := attempts[1..];
      ReRaiseOncePastDeadline(tail, d);
      var (r, k) := Retry(tail, d);
      assert Retry(attempts, 0.0) == (r, k + 1);
      if r == Raised(ImportError) {
        OnlyImportErrorRetried(tail, d);
        forall j | 1 <= j < k ensures attempts[j].clock <= d {
          assert attempts[j] == tail[j - 1];
        }
      }
    }
  }
  /**
   * The converse: ImportError is retried while the clock stays within 2.0
   * seconds of the first failure, and re-raised by the first later attempt
   * that is past them.
   */
  lemma ImportErrorDeadlineReached<V>(attempts: seq<Attempt<V>>, p: nat)
    requires 1 <= p < |attempts|
    requires attempts[0].clock + RETRY_WINDOW != 0.0
    requires forall j :: 0 <= j <= p ==> attempts[j].outcome == LoadFailed(ImportError)
    requires forall j :: 1 <= j < p ==> attempts[j].clock <= attempts[0].clock + RETRY_WINDOW
    requires attempts[p].clock > attempts[0].clock + RETRY_WINDOW
    ensures Retry(attempts, 0.0) == (Raised(ImportError), p + 1)
  {
    var d := attempts[0].clock + RETRY_WINDOW;
    var tail := attempts[1..];
    forall j | 0 <= j < p - 1
      ensures tail[j].outcome == LoadFailed(ImportError) && tail[j].clock <= d
    {
      assert tail[j] == attempts[j + 1];
    }
    ReRaisesPastDeadline(tail, d, p - 1);
  }


  // ---------------------------------------------------------------------------
  // process_job
  // ---------------------------------------------------------------------------

  /** Tracebacks are cut to this many characters before they are sent. */
  const TRACEBACK_MAX_LENGTH: nat := 1000000

  /** `traceback.format_exc()[:traceback_max_length]` */
  function Truncate(tb: string): (r: string)
    ensures |r| <= TRACEBACK_MAX_LENGTH
    ensures |r| <= |tb| && r == tb[..|r|]
    ensures |tb| <= TRACEBACK_MAX_LENGTH ==> r == tb
    ensures |tb| > TRACEBACK_MAX_LENGTH ==> |r| == TRACEBACK_MAX_LENGTH
  {
    if |tb| <= TRACEBACK_MAX_LENGTH then tb else tb[..TRACEBACK_MAX_LENGTH]
  }

  /** The exceptions `process_job` tells apart. */
  datatype ExcKind = SystemExit | MemoryError | OtherException

  /** SystemExit (also what the SIGTERM handler raises) and MemoryError end the process. */
  predicate Fatal(kind: ExcKind) {
    kind == SystemExit || kind == MemoryError
  }

  datatype Failure = Failure(kind: ExcKind, traceback: string)

  /** What `deserialize` did with one byte range. */
  datatype Decode = DecodeOk | DecodeFailed(traceback: string)

  /**
   * What running the job did: the user call (possibly under the profiler),
   * serialization of its result and the 128,000,000-byte size check, as one
   * step that returns the serialized bytes or raises.
   */
  datatype Call = Returned(serialized: seq<byte>) | CallRaised(failure: Failure)

  /** The fields of an `assign` message that `process_job` reads. */
  datatype Job = Job(
    coreType: Option<string>,
    cores: Option<int>,
    payload: seq<byte>,
    parts: seq<int>,
    jobType: string,
    profile: bool)

  /** The job types whose callable is first wrapped by a map or reduce generator. */
  predicate Wrapped(job: Job) {
    job.jobType == "filemap_mapper" || job.jobType == "filemap_reducer"
  }

  /** What the outside world does during one job. */
  datatype Effects = Effects(
    func: Decode,             // deserialize(func)
    args: Decode,             // deserialize(args), consulted only if that range is non-empty
    kwargs: Decode,           // deserialize(kwargs), consulted only if that range is non-empty
    wrap: Option<Failure>,    // func(mapper_combiner_generator) or func(reducer_generator) raising
    call: Call,               // the job itself
    stats: seq<byte>,         // marshal.dumps(profiler.stats)
    threadsAtClose: bool,     // threading.enumerate()[1:] non-empty after cloud.close()
    threadsAfterGrace: bool,  // still non-empty after the 0.02 s grace
    forked: bool)             // os.getpid() differs from the pid recorded on entry

  /** A message `process_job` sends to the boss. */
  datatype BossMessage =
    | Processing
    | Profile(stats: seq<byte>)
    | FinishedResult(result: seq<byte>)
    | FinishedTraceback(traceback: string)

  predicate Finished(m: BossMessage) {
    m.FinishedResult? || m.FinishedTraceback?
  }

  /**
   * How `process_job` ends: normal return (the worker is reused),
   * EndProcessException (the worker ends), `sys.exit(0)` in a forked child,
   * or another exception escaping it.
   */
  datatype Verdict = Continue | Terminate | ChildExit | Escaped

  /** The traceback of the first range whose deserialization raised, if any. */
  function DecodeFailure(split: Split, fx: Effects): Option<string> {
    if fx.func.DecodeFailed? then Some(fx.func.traceback)
    else if |split.args| > 0 && fx.args.DecodeFailed? then Some(fx.args.traceback)
    else if |split.kwargs| > 0 && fx.kwargs.DecodeFailed? then Some(fx.kwargs.traceback)
    else None
  }

  /** The exception the execution block catches, if any. */
  function ExecutionFailure(job: Job, fx: Effects): Option<Failure> {
    if Wrapped(job) && fx.wrap.Some? then fx.wrap
    else if fx.call.CallRaised? then Some(fx.call.failure)
    else None
  }

  datatype Reported = Reported(sent: seq<BossMessage>, verdict: Verdict)

  /**
   * The reporting tail of `process_job` as written: the profile stats when
   * profiling was requested, then the result or else the traceback, then the
   * decision. When profiling was requested but the profiler was never
   * created (the wrapper call raised first), `profiler.create_stats()`
   * raises UnboundLocalError and nothing is reported.
   */
  function ReportTailAsWritten(profile: bool, profilerCreated: bool, stats: seq<byte>,
                           result: seq<byte>, traceback: string, endProcess: bool): (r: Reported)
    ensures profile && !profilerCreated ==> r == Reported([], Escaped)
    // apart from that case it agrees with the intended tail
    ensures !(profile && !profilerCreated) ==>
      r == ReportTail(profile, profilerCreated, stats, result, traceback, endProcess)
  {
    if profile && !profilerCreated then Reported([], Escaped)
    else
      var prof := if profile then [Profile(stats)] else [];
      var fin := if |result| > 0 then [FinishedResult(result)]
                 else if |traceback| > 0 then [FinishedTraceback(traceback)]
                 else [];
      Reported(prof + fin, if endProcess then Terminate else Continue)
  }

  /**
   * The reporting tail as evidently intended: profile stats are sent only
   * when the profiler ran, so the result or traceback is always reported.
   */
  function ReportTail(profile: bool, profilerCreated: bool, stats: seq<byte>,
                  result: seq<byte>, traceback: string, endProcess: bool): (r: Reported)
    ensures r.verdict == (if endProcess then Terminate else Continue)
    ensures |r.sent| <= 2
    // the profile stats of a profiler that ran are always sent first
    ensures profile && profilerCreated ==> |r.sent| >= 1 && r.sent[0] == Profile(stats)
    ensures (|result| > 0 || |traceback| > 0) <==> |r.sent| > 0 && Finished(r.sent[|r.sent| - 1])
    ensures forall i :: 0 <= i < |r.sent| && r.sent[i].Profile? ==>
              profile && profilerCreated && i == 0 && r.sent[i] == Profile(stats)
    ensures forall i :: 0 <= i < |r.sent| && r.sent[i].FinishedResult? ==> r.sent[i].result == result
    ensures forall i :: 0 <= i < |r.sent| && r.sent[i].FinishedTraceback? ==> |result| == 0 && r.sent[i].traceback == traceback
  {
    var prof := if profile && profilerCreated then [Profile(stats)] else [];
    var fin := if |result| > 0 then [FinishedResult(result)]
               else if |traceback| > 0 then [FinishedTraceback(traceback)]
               else [];
    Reported(prof + fin, if endProcess then Terminate else Continue)
  }

  /**
   * With profiling requested, a map or reduce job whose wrapper call raises
   * never creates the profiler: as written, the traceback is lost and an
   * exception other than EndProcessException escapes; as intended, the
   * traceback is reported and the worker is reused.
   */
  lemma ProfilerUnboundAfterWrapFailure(job: Job, fx: Effects)
    requires job.profile && Wrapped(job) && fx.wrap.Some?
    requires fx.wrap.value.kind == OtherException && |fx.wrap.value.traceback| > 0
    ensures var tb := Truncate(ExecutionFailure(job, fx).value.traceback);
      && ReportTailAsWritten(job.profile, false, fx.stats, [], tb, false) == Reported([], Escaped)
      && ReportTail(job.profile, false, fx.stats, [], tb, false) == Reported([FinishedTraceback(tb)], Continue)
  {
    var tb := Truncate(fx.wrap.value.traceback);
    assert |tb| > 0;
  }

  /**
   * The order `process_job` sends its messages in: `processing` first and
   * only once; at most one finished message, and only as the last message;
   * profile stats only when requested, right after `processing`; every
   * traceback within the limit.
   */
  predicate SentInOrder(sent: seq<BossMessage>, profile: bool) {
    && 1 <= |sent| <= 3
    && sent[0] == Processing
    && (forall i :: 1 <= i < |sent| ==> sent[i] != Processing)
    && (forall i :: 0 <= i < |sent| - 1 ==> !Finished(sent[i]))
    && (forall i :: 0 <= i < |sent| && sent[i].Profile? ==> profile && i == 1)
    && (forall i :: 0 <= i < |sent| && sent[i].FinishedTraceback? ==> |sent[i].traceback| <= TRACEBACK_MAX_LENGTH)
  }

  /** What the reporting tail sends after `processing` keeps that order. */
  lemma ReportTailInOrder(profile: bool, profilerCreated: bool, stats: seq<byte>,
                          result: seq<byte>, traceback: string, endProcess: bool)
    requires |traceback| <= TRACEBACK_MAX_LENGTH
    ensures SentInOrder([Processing] + ReportTail(profile, profilerCreated, stats, result, traceback, endProcess).sent, profile)
  {
    var r := ReportTail(profile, profilerCreated, stats, result, traceback, endProcess);
    var sent := [Processing] + r.sent;
    forall i | 1 <= i < |sent|
      ensures sent[i] == r.sent[i - 1]
    {
    }
  }

  /**
   * Profiling was requested but the wrapper call of a map or reduce job
   * raised before the profiler was created.
   */
  predicate ProfilerLost(job: Job, fx: Effects) {
    job.profile && Wrapped(job) && fx.wrap.Some?
  }

  /**
   * How a job that was deserialized in a process that did not fork ends:
   * a profiler that ran has its stats sent right after `processing`; the
   * worker ends iff the job died of SystemExit or MemoryError or
   * threads outlived it; the last message is the traceback when there is
   * one, else the result when it is non-empty; with neither, no finished
   * message is sent.
   */
  predicate ReportsOutcome(job: Job, fx: Effects, sent: seq<BossMessage>, verdict: Verdict) {
    var failure := ExecutionFailure(job, fx);
    && |sent| >= 1
    && (verdict == Terminate || verdict == Continue)
    && (job.profile && !ProfilerLost(job, fx) ==> |sent| >= 2 && sent[1] == Profile(fx.stats))
    && (verdict == Terminate <==> (failure.Some? && Fatal(failure.value.kind)) || (fx.threadsAtClose && fx.threadsAfterGrace))
    && (failure.Some? && |failure.value.traceback| > 0 ==>
          sent[|sent| - 1] == FinishedTraceback(Truncate(failure.value.traceback)))
    && (failure.None? && |fx.call.serialized| > 0 ==> sent[|sent| - 1] == FinishedResult(fx.call.serialized))
    && (failure.None? && |fx.call.serialized| == 0 ==> forall i :: 0 <= i < |sent| ==> !Finished(sent[i]))
  }

  /** What the reporting tail sends last, after `processing`. */
  lemma ReportTailLast(profile: bool, profilerCreated: bool, stats: seq<byte>,
                       result: seq<byte>, traceback: string, endProcess: bool)
    ensures var r := ReportTail(profile, profilerCreated, stats, result, traceback, endProcess);
      var sent := [Processing] + r.sent;
      && (|result| > 0 ==> sent[|sent| - 1] == FinishedResult(result))
      && (|result| == 0 && |traceback| > 0 ==> sent[|sent| - 1] == FinishedTraceback(traceback))
      && (|result| == 0 && |traceback| == 0 ==> forall i :: 0 <= i < |sent| ==> !Finished(sent[i]))
  {
    var r := ReportTail(profile, profilerCreated, stats, result, traceback, endProcess);
    var sent := [Processing] + r.sent;
    if |result| == 0 && |traceback| == 0 {
      assert r.sent == [] || r.sent == [Profile(stats)];
    }
  }

  /**
   * Reporting what the execution block left behind (the result when it
   * raised nothing, the truncated traceback when it raised, and whether the
   * process must end) decides the job's outcome.
   */
  lemma ReportTailDecides(job: Job, fx: Effects)
    ensures var failure := ExecutionFailure(job, fx);
      var profilerCreated := job.profile && !ProfilerLost(job, fx);
      var result := if failure.None? then fx.call.serialized else [];
      var tb := if failure.Some? then Truncate(failure.value.traceback) else "";
      var end := (failure.Some? && Fatal(failure.value.kind)) || (fx.threadsAtClose && fx.threadsAfterGrace);
      var r := ReportTail(job.profile, profilerCreated, fx.stats, result, tb, end);
      ReportsOutcome(job, fx, [Processing] + r.sent, r.verdict)
  {
    var profilerCreated := job.profile && !ProfilerLost(job, fx);
    var failure := ExecutionFailure(job, fx);
    var result := if failure.None? then fx.call.serialized else [];
    var tb := if failure.Some? then Truncate(failure.value.traceback) else "";
    var end := (failure.Some? && Fatal(failure.value.kind)) || (fx.threadsAtClose && fx.threadsAfterGrace);
    ReportTailLast(job.profile, profilerCreated, fx.stats, result, tb, end);
    if failure.Some? {
      assert |tb| > 0 <==> |failure.value.traceback| > 0;
    }
  }

  /**
   * The second half of `process_job`, after deserialization: run the job,
   * catch what it raises, finalize, and report. Returns the messages sent
   * after `processing`.
   */
  method ExecuteJob(job: Job, fx: Effects) returns (sent: seq<BossMessage>, verdict: Verdict)
    ensures SentInOrder([Processing] + sent, job.profile)
    ensures fx.forked ==> sent == [] && verdict == ChildExit
    // as written, a lost profiler makes the tail raise before anything is reported
    ensures !fx.forked && ProfilerLost(job, fx) ==> sent == [] && verdict == Escaped
    ensures !fx.forked && !ProfilerLost(job, fx) ==> ReportsOutcome(job, fx, [Processing] + sent, verdict)
  {
    var serializedResult: seq<byte> := [];
    var exceptionTraceback: string := "";
    var endProcess := false;
    var profilerCreated := false;

    // the try block: wrap, run (possibly profiled), serialize
    var failure: Option<Failure> := None;
    if Wrapped(job) && fx.wrap.Some? {
      failure := fx.wrap;
    } else {
      profilerCreated := job.profile;
      match fx.call {
        case Returned(bytes) => serializedResult := bytes;
        case CallRaised(f) => failure := Some(f);
      }
    }
    if failure.Some? {
      exceptionTraceback := Truncate(failure.value.traceback);
      if Fatal(failure.value.kind) {
        endProcess := true;
      }
    }

    // the finally block
    if fx.forked {
      return [], ChildExit;
    }
    if !endProcess && fx.threadsAtClose && fx.threadsAfterGrace {
      endProcess := true;
    }

    assert failure == ExecutionFailure(job, fx);
    assert profilerCreated == (job.profile && !ProfilerLost(job, fx));
    ReportTailDecides(job, fx);
    ReportTailInOrder(job.profile, profilerCreated, fx.stats, serializedResult, exceptionTraceback, endProcess);
    var reported := ReportTailAsWritten(job.profile, profilerCreated, fx.stats, serializedResult, exceptionTraceback, endProcess);
    sent, verdict := reported.sent, reported.verdict;
  }

  /**
   * `process_job(m, c)`: install the process ceiling, send `processing`,
   * split the payload, deserialize the three ranges, run the job, finalize,
   * report, and decide whether the worker may be reused. Returns the
   * ceiling, the messages sent in order, and how the call ends.
   */
  method ProcessJob(job: Job, fx: Effects) returns (ceiling: int, sent: seq<BossMessage>, verdict: Verdict)
    ensures ceiling == AssignedCeiling(job.coreType, job.cores)
    ensures SentInOrder(sent, job.profile)
    // a payload whose parts list is empty makes the slicing raise
    ensures job.parts == [] ==> sent == [Processing] && verdict == Escaped
    // a failed deserialization sends exactly one traceback and ends the worker
    ensures job.parts != [] && DecodeFailure(SplitPayload(job.payload, job.parts).value, fx).Some? ==>
      && sent == [Processing, FinishedTraceback(Truncate(DecodeFailure(SplitPayload(job.payload, job.parts).value, fx).value))]
      && verdict == Terminate
    // otherwise: a forked child exits without reporting anything
    ensures job.parts != [] && DecodeFailure(SplitPayload(job.payload, job.parts).value, fx).None? && fx.forked ==>
      sent == [Processing] && verdict == ChildExit
    // otherwise: a lost profiler escapes after `processing` alone
    ensures job.parts != [] && DecodeFailure(SplitPayload(job.payload, job.parts).value, fx).None? && !fx.forked &&
            ProfilerLost(job, fx) ==>
      sent == [Processing] && verdict == Escaped
    // otherwise: the job's own outcome decides
    ensures job.parts != [] && DecodeFailure(SplitPayload(job.payload, job.parts).value, fx).None? && !fx.forked &&
            !ProfilerLost(job, fx) ==>
      ReportsOutcome(job, fx, sent, verdict)
  {
    ceiling := AssignedCeiling(job.coreType, job.cores);
    sent := [Processing];

    var split := SplitPayload(job.payload, job.parts);
    if split.None? {
      return ceiling, sent, Escaped;
    }

    // deserialize func, then args and kwargs when their ranges are non-empty
    var failedDecode := DecodeFailure(split.value, fx);
    if failedDecode.Some? {
      sent := sent + [FinishedTraceback(Truncate(failedDecode.value))];
      return ceiling, sent, Terminate;
    }

    var tail;
    tail, verdict := ExecuteJob(job, fx);
    sent := sent + tail;
  }
}
