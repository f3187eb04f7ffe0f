/**
 * The worker process of job_task.py: announce the queue descriptor, accept
 * the setup message, then handle messages from the boss one at a time until
 * a `die` message or a job that ends the process.
 *
 * The messages are the metas `UnixDomainSocketClient.read` delivers, in
 * order; the outcome of each `process_job` call is an input (`jobs(k)` is
 * how the k-th job ends, as module Executor describes it); what the
 * setup_util handlers do inside is recorded as an effect, not modelled.
 */
module Worker {
  import opened Wire
  import Executor

  /**
   * What a message's type string selects: a handler of `message_handlers`,
   * the assign or die check of the loop, or the setup message of bootstrap.
   */
  datatype Kind =
    | StdoutMsg | StderrMsg | LoggingMsg | FaulthandlerMsg | PilogMsg
    | AssignMsg | DieMsg | SetupMsg
    | Unknown

  function KindOf(name: string): (k: Kind)
    ensures k == StdoutMsg <==> name == "stdout"
    ensures k == StderrMsg <==> name == "stderr"
    ensures k == LoggingMsg <==> name == "logging"
    ensures k == FaulthandlerMsg <==> name == "faulthandler"
    ensures k == AssignMsg <==> name == "assign"
    ensures k == DieMsg <==> name == "die"
    ensures k == SetupMsg <==> name == "setup"
    ensures k == PilogMsg <==> name == "pilog"
    ensures k == Unknown <==>
      name !in {"stdout", "stderr", "logging", "faulthandler", "pilog", "assign", "die", "setup"}
  {
    if name == "stdout" then StdoutMsg
    else if name == "stderr" then StderrMsg
    else if name == "logging" then LoggingMsg
    else if name == "faulthandler" then FaulthandlerMsg
    else if name == "pilog" then PilogMsg
    else if name == "assign" then AssignMsg
    else if name == "die" then DieMsg
    else if name == "setup" then SetupMsg
    else Unknown
  }

  /** How `m.meta['type']` and `message_handlers.get(...)` see a message. */
  datatype TypeField =
    | Missing            // no 'type' key: KeyError
    | Unhashable         // a list: `dict.get` raises TypeError
    | Named(kind: Kind)  // a string
    | OtherValue         // hashable but not a string: no handler, no match

  function TypeOf(meta: Meta): (t: TypeField)
    ensures t == Missing <==> TYPE !in meta
    ensures t.Named? <==> TYPE in meta && meta[TYPE].Str?
    ensures t.Named? ==> t.kind == KindOf(meta[TYPE].s)
    ensures t == Unhashable <==> TYPE in meta && meta[TYPE].List?
    ensures t == OtherValue <==> TYPE in meta && !meta[TYPE].Str? && !meta[TYPE].List?
  {
    if TYPE !in meta then Missing
    else match meta[TYPE]
      case Str(s) => Named(KindOf(s))
      case List(_) => Unhashable
      case _ => OtherValue
  }

  /** What the worker does, in order. */
  datatype Effect =
    | Announce(qdesc: string)          // send {'type': 'info', 'qdesc': ...}
    | Setup(setup: Meta)               // log, excepthook, sys.path and cloud setup from the setup message
    | RedirectStdout(msg: Meta)        // setup_util.substitute_stdout_pipe
    | RedirectStderr(msg: Meta)        // setup_util.substitute_stderr_pipe
    | SetupLogging(msg: Meta)          // setup_util.setup_logging
    | EnableFaulthandler(msg: Meta)    // setup_util.setup_faulthandler
    | PilogTo(fileno: Value)           // log.setup_pilog(m.meta['fileno'])
    | RunJob(index: nat, verdict: Executor.Verdict)  // job_util.process_job(m, c)
    | RestoreStderr                    // sys.stderr = sys.__stderr__; dup2 of the saved descriptor
    | DisableFaulthandler              // after the loop, before sys.exit(0)

  /** How the process ends. */
  datatype Ending =
    | NoQdesc        // QDESC is not in the environment: raises before anything is sent
    | SetupRejected  // the first message is not a setup message: raises
    | Blocked        // the boss sends nothing more: `c.read()` never returns
    | Crashed        // an uncaught exception: a malformed message, or one escaping process_job
    | ChildExited    // sys.exit(0) in a forked child inside process_job
    | Exited         // the loop was left: sys.exit(0)

  /** What one pass of the loop body decides. */
  datatype Next = Again | Break | Stop(ending: Ending)

  datatype Handled = Handled(effects: seq<Effect>, ranJob: bool, next: Next)

  /** One message in the loop: run its handler, then the assign and die checks. */
  function Handle(msg: Meta, job: nat, jobs: nat -> Executor.Verdict): (h: Handled)
    ensures |h.effects| <= 1
    ensures DisableFaulthandler !in h.effects
    ensures h.ranJob <==> h.effects != [] && h.effects[0].RunJob?
    ensures h.next.Stop? ==> h.next.ending == Crashed || h.next.ending == ChildExited
  {
    match TypeOf(msg)
    case Missing => Handled([], false, Stop(Crashed))
    case Unhashable => Handled([], false, Stop(Crashed))
    case OtherValue => Handled([], false, Again)
    case Named(kind) =>
      match kind
      case StdoutMsg => Handled([RedirectStdout(msg)], false, Again)
      case StderrMsg => Handled([RedirectStderr(msg)], false, Again)
      case LoggingMsg => Handled([SetupLogging(msg)], false, Again)
      case FaulthandlerMsg => Handled([EnableFaulthandler(msg)], false, Again)
      case PilogMsg =>
        if FILENO in msg then Handled([PilogTo(msg[FILENO])], false, Again)
        else Handled([], false, Stop(Crashed))
      case AssignMsg =>
        var v := jobs(job);
        Handled([RunJob(job, v)], true,
          match v
          case Continue => Again
          case Terminate => Break
          case ChildExit => Stop(ChildExited)
          case Escaped => Stop(Crashed))
      case DieMsg => Handled([RestoreStderr], false, Break)
      // "setup" has no entry in message_handlers
      case _ => Handled([], false, Again)
  }

  /** Only an assign message runs a job: the next one, and the loop goes on iff it returned normally. */
  lemma HandleRunsJob(msg: Meta, job: nat, jobs: nat -> Executor.Verdict)
    ensures var h := Handle(msg, job, jobs);
      && (h.ranJob <==> TypeOf(msg) == Named(AssignMsg))
      && (h.ranJob ==> h.effects == [RunJob(job, jobs(job))])
      && (h.ranJob ==> (h.next == Again <==> jobs(job) == Executor.Continue))
  {
  }

  /**
   * The loop is left through a die message, which restores stderr, or a job
   * ending with EndProcessException; a forked child's job stops the process.
   */
  lemma HandleLeaves(msg: Meta, job: nat, jobs: nat -> Executor.Verdict)
    ensures var h := Handle(msg, job, jobs);
      && (h.next == Break <==>
            TypeOf(msg) == Named(DieMsg) || (TypeOf(msg) == Named(AssignMsg) && jobs(job) == Executor.Terminate))
      && (TypeOf(msg) == Named(DieMsg) ==> h.effects == [RestoreStderr])
      && (h.next == Stop(ChildExited) <==> TypeOf(msg) == Named(AssignMsg) && jobs(job) == Executor.ChildExit)
  {
  }

  /**
   * A message that has no entry in `message_handlers` and is neither assign
   * nor die (a setup message, an unknown type string, a type that is not a
   * string) does nothing and the loop reads on; a message without a type,
   * or whose type is a list, raises.
   */
  lemma HandleIgnores(msg: Meta, job: nat, jobs: nat -> Executor.Verdict)
    ensures TypeOf(msg) in {OtherValue, Named(Unknown), Named(SetupMsg)} ==>
      Handle(msg, job, jobs) == Handled([], false, Again)
    ensures TypeOf(msg) in {Missing, Unhashable} ==>
      Handle(msg, job, jobs) == Handled([], false, Stop(Crashed))
  {
  }

  /**
   * Each entry of `message_handlers` is called with the message and the loop
   * reads on; `pilog` reads the message's fileno and raises without one.
   */
  lemma HandleSetupHandlers(msg: Meta, job: nat, jobs: nat -> Executor.Verdict)
    ensures TypeOf(msg) == Named(StdoutMsg) ==> Handle(msg, job, jobs) == Handled([RedirectStdout(msg)], false, Again)
    ensures TypeOf(msg) == Named(StderrMsg) ==> Handle(msg, job, jobs) == Handled([RedirectStderr(msg)], false, Again)
    ensures TypeOf(msg) == Named(LoggingMsg) ==> Handle(msg, job, jobs) == Handled([SetupLogging(msg)], false, Again)
    ensures TypeOf(msg) == Named(FaulthandlerMsg) ==>
      Handle(msg, job, jobs) == Handled([EnableFaulthandler(msg)], false, Again)
    ensures TypeOf(msg) == Named(PilogMsg) && FILENO in msg ==>
      Handle(msg, job, jobs) == Handled([PilogTo(msg[FILENO])], false, Again)
    ensures TypeOf(msg) == Named(PilogMsg) && FILENO !in msg ==>
      Handle(msg, job, jobs) == Handled([], false, Stop(Crashed))
  {
  }

  /** How the loop handles one message, given the number of jobs run so far. */
  type Step = (Meta, nat) -> Handled

  /** The loop body of job_task.py, with `jobs` saying how each job ends. */
  function Dispatch(jobs: nat -> Executor.Verdict): Step {
    (msg: Meta, job: nat) => Handle(msg, job, jobs)
  }

  /**
   * What handling one message guarantees, whatever the message: at most one
   * effect and never the final one; a job run is the next one, and the loop
   * goes on past it only if it returned normally; the loop is left only after
   * a die message or a job ending with EndProcessException, and a forked
   * child stops the process right after its job.
   */
  predicate Sound(h: Handled, job: nat, jobs: nat -> Executor.Verdict) {
    && |h.effects| <= 1
    && DisableFaulthandler !in h.effects
    && (h.ranJob <==> h.effects != [] && h.effects[0].RunJob?)
    && (h.ranJob ==> h.effects == [RunJob(job, jobs(job))] && (h.next == Again <==> jobs(job) == Executor.Continue))
    && (h.next == Break ==> h.effects == [RestoreStderr] || h.effects == [RunJob(job, Executor.Terminate)])
    && (h.next.Stop? ==>
          h.next.ending == Crashed
          || (h.next.ending == ChildExited && h.effects == [RunJob(job, Executor.ChildExit)]))
  }

  /** Every message is handled soundly. */
  ghost predicate Disciplined(step: Step, jobs: nat -> Executor.Verdict) {
    forall msg, job :: Sound(step(msg, job), job, jobs)
  }

  lemma DispatchDisciplined(jobs: nat -> Executor.Verdict)
    ensures Disciplined(Dispatch(jobs), jobs)
  {
    forall msg, job
      ensures Sound(Dispatch(jobs)(msg, job), job, jobs)
    {
      HandleRunsJob(msg, job, jobs);
      HandleLeaves(msg, job, jobs);
    }
  }

  /** The effects, how many messages were read, and the ending. */
  datatype Session = Session(trace: seq<Effect>, consumed: nat, ending: Ending)

  /** The loop from the message at `i` on, with `job` jobs run so far. */
  function Serve(inbox: seq<Meta>, i: nat, job: nat, step: Step): Session
    requires i <= |inbox|
    decreases |inbox| - i
  {
    if i == |inbox| then Session([], i, Blocked)
    else
      var h := step(inbox[i], job);
      match h.next
      case Again =>
        var r := Serve(inbox, i + 1, if h.ranJob then job + 1 else job, step);
        Session(h.effects + r.trace, r.consumed, r.ending)
      case Break => Session(h.effects + [DisableFaulthandler], i + 1, Exited)
      case Stop(e) => Session(h.effects, i + 1, e)
  }

  /**
   * In the loop, an ignored message is skipped without a trace, and a
   * malformed one ends the process right after it is read.
   */
  lemma ServeSkipsIgnored(inbox: seq<Meta>, i: nat, job: nat, jobs: nat -> Executor.Verdict)
    requires i < |inbox|
    ensures TypeOf(inbox[i]) in {OtherValue, Named(Unknown), Named(SetupMsg)} ==>
      Serve(inbox, i, job, Dispatch(jobs)) == Serve(inbox, i + 1, job, Dispatch(jobs))
    ensures TypeOf(inbox[i]) in {Missing, Unhashable} ==>
      Serve(inbox, i, job, Dispatch(jobs)) == Session([], i + 1, Crashed)
  {
    HandleIgnores(inbox[i], job, jobs);
  }

  /** The whole script, as a function of the environment and the messages. */
  function JobTask(qdesc: Option<string>, inbox: seq<Meta>, jobs: nat -> Executor.Verdict): Session {
    if qdesc.None? then Session([], 0, NoQdesc)
    else if inbox == [] then Session([Announce(qdesc.value)], 0, Blocked)
    else match TypeOf(inbox[0])
      case Missing => Session([Announce(qdesc.value)], 1, Crashed)
      case Unhashable => Session([Announce(qdesc.value)], 1, SetupRejected)
      case OtherValue => Session([Announce(qdesc.value)], 1, SetupRejected)
      case Named(kind) =>
        if kind != SetupMsg then Session([Announce(qdesc.value)], 1, SetupRejected)
        else
          var r := Serve(inbox, 1, 0, Dispatch(jobs));
          Session([Announce(qdesc.value), Setup(inbox[0])] + r.trace, r.consumed, r.ending)
  }

  /**
   * job_task.py run with environment variable QDESC (None when unset),
   * the messages the boss delivers, and how each job ends.
   */
  method RunJobTask(qdesc: Option<string>, inbox: seq<Meta>, jobs: nat -> Executor.Verdict) returns (s: Session)
    ensures s == JobTask(qdesc, inbox, jobs)
  {
    if qdesc.None? {
      return Session([], 0, NoQdesc);
    }
    var trace := [Announce(qdesc.value)];
    if inbox == [] {
      return Session(trace, 0, Blocked);
    }
    var first := TypeOf(inbox[0]);
    if first.Missing? {
      return Session(trace, 1, Crashed);
    }
    if first != Named(SetupMsg) {
      return Session(trace, 1, SetupRejected);
    }
    var r := DispatchLoop(inbox, 1, Dispatch(jobs));
    return Session(trace + [Setup(inbox[0])] + r.trace, r.consumed, r.ending);
  }

  /** The `while True` loop of job_task.py, from the message at `start` on. */
  method DispatchLoop(inbox: seq<Meta>, start: nat, step: Step) returns (s: Session)
    requires start <= |inbox|
    ensures s == Serve(inbox, start, 0, step)
  {
    ghost var goal := Serve(inbox, start, 0, step);
    var trace := [];
    var i, job := start, 0;
    while true
      invariant start <= i <= |inbox|
      invariant goal.trace == trace + Serve(inbox, i, job, step).trace
      invariant goal.consumed == Serve(inbox, i, job, step).consumed
      invariant goal.ending == Serve(inbox, i, job, step).ending
      decreases |inbox| - i
    {
      if i == |inbox| {
        assert trace + [] == trace;
        return Session(trace, i, Blocked);
      }
      var h := step(inbox[i], job);
      var next := if h.ranJob then job + 1 else job;
      match h.next {
        case Again =>
          ghost var rest := Serve(inbox, i + 1, next, step);
          assert Serve(inbox, i, job, step) == Session(h.effects + rest.trace, rest.consumed, rest.ending);
          assert (trace + h.effects) + rest.trace == trace + (h.effects + rest.trace);
          trace, i, job := trace + h.effects, i + 1, next;
        case Break =>
          assert trace + h.effects + [DisableFaulthandler] == trace + (h.effects + [DisableFaulthandler]);
          return Session(trace + h.effects + [DisableFaulthandler], i + 1, Exited);
        case Stop(e) =>
          return Session(trace + h.effects, i + 1, e);
      }
    }
  }

  // ---------------------------------------------------------------------------
  // Properties of the script
  // ---------------------------------------------------------------------------

  /**
   * The loop never reads past the last message, reads them all only when it
   * ends up waiting for more, and reads at least one before stopping.
   */
  lemma {:induction false} ServeConsumes(inbox: seq<Meta>, i: nat, job: nat, step: Step, jobs: nat -> Executor.Verdict)
    requires i <= |inbox| && Disciplined(step, jobs)
    ensures var r := Serve(inbox, i, job, step);
      && i <= r.consumed <= |inbox|
      && (r.ending == Blocked ==> r.consumed == |inbox|)
      && (r.ending != Blocked ==> i < r.consumed)
    decreases |inbox| - i
  {
    if i < |inbox| {
      var h := step(inbox[i], job);
      assert Sound(h, job, jobs);
      if h.next == Again {
        ServeConsumes(inbox, i + 1, if h.ranJob then job + 1 else job, step, jobs);
      }
    }
  }

  /**
   * Messages the boss sends after the one that stops the loop are never
   * read: appending more leaves everything the worker does unchanged.
   */
  lemma {:induction false} ServeIgnoresLater(inbox: seq<Meta>, extra: seq<Meta>, i: nat, job: nat, step: Step)
    requires i <= |inbox|
    requires Serve(inbox, i, job, step).ending != Blocked
    ensures Serve(inbox + extra, i, job, step) == Serve(inbox, i, job, step)
    decreases |inbox| - i
  {
    assert (inbox + extra)[i] == inbox[i];
    var h := step(inbox[i], job);
    if h.next == Again {
      ServeIgnoresLater(inbox, extra, i + 1, if h.ranJob then job + 1 else job, step);
    }
  }

  lemma JobTaskIgnoresLater(qdesc: Option<string>, inbox: seq<Meta>, extra: seq<Meta>, jobs: nat -> Executor.Verdict)
    requires JobTask(qdesc, inbox, jobs).ending != Blocked
    ensures JobTask(qdesc, inbox + extra, jobs) == JobTask(qdesc, inbox, jobs)
  {
    if qdesc.Some? {
      assert (inbox + extra)[0] == inbox[0];
      if TypeOf(inbox[0]) == Named(SetupMsg) {
        ServeIgnoresLater(inbox, extra, 1, 0, Dispatch(jobs));
      }
    }
  }

  /** The number of jobs run in a trace. */
  function JobCount(trace: seq<Effect>): nat {
    if trace == [] then 0
    else (if trace[0].RunJob? then 1 else 0) + JobCount(trace[1..])
  }

  lemma {:induction false} JobCountAppend(a: seq<Effect>, b: seq<Effect>)
    ensures JobCount(a + b) == JobCount(a) + JobCount(b)
  {
    if a == [] {
      assert a + b == b;
    } else {
      assert (a + b)[1..] == a[1..] + b;
      JobCountAppend(a[1..], b);
    }
  }

  /** Positions, prefixes and suffixes of a concatenation, seen from its second part. */
  lemma JobsInAppend(a: seq<Effect>, b: seq<Effect>, p: nat)
    requires |a| <= p < |a| + |b|
    ensures (a + b)[p] == b[p - |a|]
    ensures JobCount((a + b)[..p]) == JobCount(a) + JobCount(b[..p - |a|])
    ensures (a + b)[p + 1..] == b[p - |a| + 1..]
  {
    assert (a + b)[..p] == a + b[..p - |a|];
    JobCountAppend(a, b[..p - |a|]);
  }

  /** A trace of at most one effect counts one job iff that effect runs one. */
  lemma JobCountShort(a: seq<Effect>)
    requires |a| <= 1
    ensures JobCount(a) == (if a != [] && a[0].RunJob? then 1 else 0)
  {
    if a != [] {
      assert a[1..] == [];
    }
  }

  /**
   * If position `p` of a trace runs a job, it is job number `job` plus the
   * jobs run before it, ends as `jobs` says, and let the worker go on if any
   * job runs after it.
   */
  predicate JobNumbered(t: seq<Effect>, p: nat, job: nat, jobs: nat -> Executor.Verdict)
    requires p < |t|
  {
    t[p].RunJob? ==>
      && t[p].index == job + JobCount(t[..p])
      && t[p].verdict == jobs(t[p].index)
      && (JobCount(t[p + 1..]) > 0 ==> t[p].verdict == Executor.Continue)
  }

  lemma NumberedAppend(a: seq<Effect>, b: seq<Effect>, p: nat, job: nat, jobs: nat -> Executor.Verdict)
    requires |a| <= p < |a| + |b|
    requires JobNumbered(b, p - |a|, job + JobCount(a), jobs)
    ensures JobNumbered(a + b, p, job, jobs)
  {
    JobsInAppend(a, b, p);
  }

  /** An assign message runs the next job; the loop goes on past it only if it returned normally. */
  lemma JobAtHere(inbox: seq<Meta>, i: nat, job: nat, step: Step, jobs: nat -> Executor.Verdict)
    requires i < |inbox| && Disciplined(step, jobs)
    requires step(inbox[i], job).ranJob
    ensures |Serve(inbox, i, job, step).trace| >= 1
    ensures JobNumbered(Serve(inbox, i, job, step).trace, 0, job, jobs)
  {
    var h := step(inbox[i], job);
    assert Sound(h, job, jobs);
    var t := Serve(inbox, i, job, step).trace;
    assert t[..0] == [];
    if h.next == Again {
      var rest := Serve(inbox, i + 1, job + 1, step).trace;
      assert t == h.effects + rest;
      assert t[1..] == rest;
    } else {
      assert t[1..] == [] || t[1..] == [DisableFaulthandler];
      JobCountShort(t[1..]);
    }
  }

  /** The job run at position `p` of the loop's trace. */
  lemma {:induction false} JobAt(inbox: seq<Meta>, i: nat, job: nat, step: Step, jobs: nat -> Executor.Verdict, p: nat)
    requires i <= |inbox| && Disciplined(step, jobs)
    requires p < |Serve(inbox, i, job, step).trace|
    ensures JobNumbered(Serve(inbox, i, job, step).trace, p, job, jobs)
    decreases |inbox| - i
  {
    var h := step(inbox[i], job);
    assert Sound(h, job, jobs);
    var t := Serve(inbox, i, job, step).trace;
    if p < |h.effects| {
      if h.ranJob {
        JobAtHere(inbox, i, job, step, jobs);
      } else {
        assert t[p] == h.effects[p];
      }
    } else if h.next == Again {
      var next := if h.ranJob then job + 1 else job;
      var rest := Serve(inbox, i + 1, next, step).trace;
      assert t == h.effects + rest;
      JobCountShort(h.effects);
      JobAt(inbox, i + 1, next, step, jobs, p - |h.effects|);
      NumberedAppend(h.effects, rest, p, job, jobs);
    } else if h.next == Break {
      assert t == h.effects + [DisableFaulthandler];
    }
  }

  /**
   * Jobs are numbered in the order their assign messages arrive, and every
   * job but the last one run had to let the worker go on.
   */
  lemma ServeRunsJobsInOrder(inbox: seq<Meta>, i: nat, job: nat, jobs: nat -> Executor.Verdict)
    requires i <= |inbox|
    ensures var t := Serve(inbox, i, job, Dispatch(jobs)).trace;
      forall p :: 0 <= p < |t| && t[p].RunJob? ==>
        && t[p].index == job + JobCount(t[..p])
        && t[p].verdict == jobs(t[p].index)
        && (JobCount(t[p + 1..]) > 0 ==> t[p].verdict == Executor.Continue)
  {
    DispatchDisciplined(jobs);
    var t := Serve(inbox, i, job, Dispatch(jobs)).trace;
    forall p | 0 <= p < |t| && t[p].RunJob?
      ensures JobNumbered(t, p, job, jobs)
    {
      JobAt(inbox, i, job, Dispatch(jobs), jobs, p);
    }
  }

  /**
   * The script announces itself before anything else and only when QDESC is
   * set; a first message that is not a setup message ends it before any
   * handler runs.
   */
  lemma AnnounceThenSetup(qdesc: Option<string>, inbox: seq<Meta>, jobs: nat -> Executor.Verdict)
    ensures var s := JobTask(qdesc, inbox, jobs);
      && (qdesc.None? <==> s.ending == NoQdesc)
      && (qdesc.None? ==> s.trace == [] && s.consumed == 0)
      && (qdesc.Some? ==> |s.trace| >= 1 && s.trace[0] == Announce(qdesc.value))
      && (qdesc.Some? && inbox != [] && TypeOf(inbox[0]) != Named(SetupMsg) ==>
            s.trace == [Announce(qdesc.value)] && s.consumed == 1 && (s.ending == SetupRejected || s.ending == Crashed))
      && (qdesc.Some? && inbox != [] && TypeOf(inbox[0]) == Named(SetupMsg) ==>
            |s.trace| >= 2 && s.trace[1] == Setup(inbox[0]))
  {
    if qdesc.Some? && inbox != [] {
      DispatchDisciplined(jobs);
      ServeDisablesOnExit(inbox, 1, 0, Dispatch(jobs), jobs);
    }
  }

  /** Faulthandler is disabled only when the loop is left normally; the loop never ends the way bootstrap does. */
  lemma {:induction false} ServeDisablesOnExit(inbox: seq<Meta>, i: nat, job: nat, step: Step, jobs: nat -> Executor.Verdict)
    requires i <= |inbox| && Disciplined(step, jobs)
    ensures var r := Serve(inbox, i, job, step);
      && (r.ending != Exited ==> DisableFaulthandler !in r.trace)
      && r.ending != NoQdesc && r.ending != SetupRejected
    decreases |inbox| - i
  {
    if i < |inbox| {
      var h := step(inbox[i], job);
      assert Sound(h, job, jobs);
      var next := if h.ranJob then job + 1 else job;
      ServeDisablesOnExit(inbox, i + 1, next, step, jobs);
    }
  }

  /** A trace that ends by disabling faulthandler right after stderr was restored or a job ended the process. */
  predicate ExitTail(t: seq<Effect>) {
    && |t| >= 2 && t[|t| - 1] == DisableFaulthandler
    && (t[|t| - 2] == RestoreStderr || (t[|t| - 2].RunJob? && t[|t| - 2].verdict == Executor.Terminate))
  }

  /** A trace that ends with a job run in a forked child. */
  predicate ChildTail(t: seq<Effect>) {
    |t| >= 1 && t[|t| - 1].RunJob? && t[|t| - 1].verdict == Executor.ChildExit
  }

  lemma TailsAppend(a: seq<Effect>, b: seq<Effect>)
    ensures ExitTail(b) ==> ExitTail(a + b)
    ensures ChildTail(b) ==> ChildTail(a + b)
  {
    if |b| >= 1 {
      assert (a + b)[|a + b| - 1] == b[|b| - 1];
    }
    if |b| >= 2 {
      assert (a + b)[|a + b| - 2] == b[|b| - 2];
    }
  }

  /**
   * A loop left normally ends by disabling faulthandler, right after a die
   * message restored stderr or a job ended with EndProcessException.
   */
  lemma {:induction false} ServeExitLast(inbox: seq<Meta>, i: nat, job: nat, step: Step, jobs: nat -> Executor.Verdict)
    requires i <= |inbox| && Disciplined(step, jobs)
    requires Serve(inbox, i, job, step).ending == Exited
    ensures ExitTail(Serve(inbox, i, job, step).trace)
    decreases |inbox| - i
  {
    var h := step(inbox[i], job);
    assert Sound(h, job, jobs);
    if h.next == Again {
      var next := if h.ranJob then job + 1 else job;
      ServeExitLast(inbox, i + 1, next, step, jobs);
      TailsAppend(h.effects, Serve(inbox, i + 1, next, step).trace);
    }
  }

  /** A forked child stops the process right after its job. */
  lemma {:induction false} ServeChildExitLast(inbox: seq<Meta>, i: nat, job: nat, step: Step, jobs: nat -> Executor.Verdict)
    requires i <= |inbox| && Disciplined(step, jobs)
    requires Serve(inbox, i, job, step).ending == ChildExited
    ensures ChildTail(Serve(inbox, i, job, step).trace)
    decreases |inbox| - i
  {
    var h := step(inbox[i], job);
    assert Sound(h, job, jobs);
    if h.next == Again {
      var next := if h.ranJob then job + 1 else job;
      ServeChildExitLast(inbox, i + 1, next, step, jobs);
      TailsAppend(h.effects, Serve(inbox, i + 1, next, step).trace);
    }
  }

  /**
   * The loop is left normally only through a die message (which restores
   * stderr first) or a job that ended with EndProcessException, and
   * faulthandler is disabled only then; a forked child exits right after
   * its job.
   */
  lemma ServeExits(inbox: seq<Meta>, i: nat, job: nat, jobs: nat -> Executor.Verdict)
    requires i <= |inbox|
    ensures var r := Serve(inbox, i, job, Dispatch(jobs)); var t := r.trace;
      && (r.ending == Exited <==> |t| >= 1 && t[|t| - 1] == DisableFaulthandler)
      && (r.ending == Exited ==>
            && |t| >= 2
            && (t[|t| - 2] == RestoreStderr || (t[|t| - 2].RunJob? && t[|t| - 2].verdict == Executor.Terminate)))
      && (r.ending == ChildExited ==>
            |t| >= 1 && t[|t| - 1].RunJob? && t[|t| - 1].verdict == Executor.ChildExit)
      && r.ending != NoQdesc && r.ending != SetupRejected
  {
    DispatchDisciplined(jobs);
    var r := Serve(inbox, i, job, Dispatch(jobs));
    ServeDisablesOnExit(inbox, i, job, Dispatch(jobs), jobs);
    if r.ending == Exited {
      ServeExitLast(inbox, i, job, Dispatch(jobs), jobs);
    } else if r.ending == ChildExited {
      ServeChildExitLast(inbox, i, job, Dispatch(jobs), jobs);
    }
    if |r.trace| >= 1 {
      assert r.trace[|r.trace| - 1] in r.trace;
    }
  }
}
