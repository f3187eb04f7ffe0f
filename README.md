# scivm-worker job process, modelled in Dafny

This project models the job process of scivm-worker. That process is started by the boss. It connects back to the boss over a TCP stream socket (`connect_to_boss` in pimployee/setup_util.py opens an `AF_INET` socket; the client class is only named for a Unix domain socket), accepts a setup message, and then runs one job per `assign` message until it is told to `die` or a job forces it to end. The model has three parts:

- **The socket protocol** (`pimployee/switchboard_client.py`). Every message is a 1024-byte meta header, padded with spaces, followed by an optional payload and an optional passed file descriptor.
  - `wire.dfy` (module `Wire`) holds bytes, JSON values, Python truthiness, padding and the JSON encoder/decoder pair.
  - `codec.dfy` (module `Codec`) holds `serialize_message`, the META → PAYLOAD → FD → READY parser as a pure step function, the blocking read loop as a function, and the round trip.
  - `channel.dfy` (module `Channel`) holds the classes `Message` and `UnixDomainSocketClient` as imperative code over a socket object. Each method is proved against the Codec functions.
- **The job executor** (`pimployee/job_util.py`).
  - `executor.dfy` (module `Executor`) covers the process ceiling of `restrict_resources`, the payload split with Python slice semantics, the retry policy of `deserialize` (a loop proved against a recursive definition), and the decision flow of `process_job`.
  - `mapreduce.dfy` (module `MapReduce`) covers the map/combine and reduce wrappers.
- **The worker script** (`job_task.py`). `worker.dfy` (module `Worker`) covers the QDESC handshake, the setup gate and the dispatch loop. The loop is a method proved against a recursive definition. The loop and its lemmas take the handling of one message as a parameter (`Step`). The script passes `Dispatch(jobs)`, its own handler table. `DispatchDisciplined` proves that this table meets the per-message facts (`Sound`) the lemmas rely on.

Inputs the model takes as parameters:

- `json.dumps`/`json.loads`: a `JsonCodec` value. Lemmas that need the two to agree assume `RoundTrips`, which says that decoding the encoded meta with trailing spaces gives it back. Trailing whitespace is legal JSON by section 2 of RFC 8259.
- The descriptor `passfd.recvfd` yields: a parameter.
- The bytes the peer sends: a sequence of chunks. Each `recv(n)` returns at most `n` bytes of the first chunk.
- What `pickle.loads`, the user's callables, the profiler, the thread list and `os.getpid` do: inputs.
- How each `process_job` call ends: the worker loop takes this as a function of the job's index.

## Model

| member | source | states |
|---|---|---|
| Wire.Pad | pimployee/switchboard_client.py:84 | the header is exactly `width` bytes: the encoded meta followed only by spaces |
| Codec.Declared | pimployee/switchboard_client.py:75-78 | `payload_length` is set to the payload's length iff the payload is non-empty; `has_fd` is set to true iff a descriptor is declared; a key that is not injected keeps the caller's value, present or absent; every other key is untouched |
| Codec.SerializeMessage | pimployee/switchboard_client.py:69-92 | a frame exists iff the encoded meta is at most 1024 bytes; the frame is 1024 + len(payload) bytes: the encoded meta, then spaces up to 1024, then the payload; on success the injected keys are removed again, and on the error path they stay in the caller's dict |
| Codec.SerializeLeavesCallerMeta | pimployee/switchboard_client.py:85-89 | a successful call gives the caller back exactly the dict it passed, provided the dict holds neither reserved key |
| Codec.Recv | pimployee/switchboard_client.py:29 | `recv(n)` returns at most n bytes and takes exactly those bytes off the front of the stream; an empty socket returns nothing |
| Codec.AfterMeta | pimployee/switchboard_client.py:33-41 | after the header: PAYLOAD iff `payload_length` is truthy; otherwise FD iff `has_fd` is truthy; otherwise READY |
| Codec.ReadStepKeepsInv | pimployee/switchboard_client.py:24-60 | a `read` that does not raise keeps the parser consistent: header buffer below 1024 bytes in META, payload below its declared length in PAYLOAD, the payload length matched in READY, `ready` set iff READY |
| Codec.ReadStepProgress | pimployee/switchboard_client.py:24-60 | a `read` never puts bytes back, and one that does not raise on a non-empty socket consumes something |
| Codec.ReadStepForward | pimployee/switchboard_client.py:24-60 | the state only moves forward along META, PAYLOAD, FD, READY; READY is final; a raising `read` has taken no payload bytes |
| Codec.ReadStepConserves | pimployee/switchboard_client.py:24-60 | the bytes a `read` takes from the socket are exactly the bytes the message absorbs |
| Codec.ReadStepEmptyRecv | pimployee/switchboard_client.py:27-52 | a `recv` that returns nothing leaves the message unchanged, so a zero-length read is not treated as end of stream |
| Codec.Run | pimployee/switchboard_client.py:105-114 | the blocking loop either delivers a consistent READY message, stalls on a consistent unready message, or fails with the exception `read` raised |
| Codec.StalledStaysStalled | pimployee/switchboard_client.py:107-114 | once the socket is drained the loop calls `read` forever without effect |
| Codec.RoundTrip | pimployee/switchboard_client.py:24-92 | a serialized frame, in any chunking and followed by any bytes, is read back: the message becomes READY after exactly 1024 + len(payload) bytes with the caller's meta (plus `payload_length`, `has_fd` and `fileno` as declared) and the caller's payload, and the following bytes stay on the socket |
| Channel.Message.constructor | pimployee/switchboard_client.py:15-21 | a new message is in META with empty buffers and is not ready |
| Channel.Message.IsReady | pimployee/switchboard_client.py:62-63 | `is_ready` is true iff the state is READY |
| Channel.Message.Read | pimployee/switchboard_client.py:24-60 | the in-place `read` leaves exactly the fields, socket remainder and raised error that the parser step computes, and keeps the message consistent when it does not raise |
| Channel.Message.ReadMeta | pimployee/switchboard_client.py:27-41 | in META, one `recv` of at most the missing header bytes is appended to the header, and a complete header is decoded; the fields, socket remainder and error are those of the parser's META phase |
| Channel.Message.DecodeMeta | pimployee/switchboard_client.py:30-41 | a header `json.loads` rejects raises and changes nothing; a decoded header moves to PAYLOAD if `payload_length` is truthy, else FD if `has_fd` is truthy, else READY with `ready` set |
| Channel.Message.ReadPayload | pimployee/switchboard_client.py:43-51 | in PAYLOAD, one `recv` of at most the missing payload bytes is appended, and a complete payload moves to FD or READY as `has_fd` says; the result is the parser's PAYLOAD phase |
| Channel.Message.ReadFd | pimployee/switchboard_client.py:53-59 | in FD, the received descriptor is stored as `fileno` and the message becomes READY |
| Channel.DescriptorFollowsFrame | pimployee/switchboard_client.py:116-125 | `send` writes one frame, then the descriptor iff `fileno` is truthy; any `fileno` other than None is declared as `has_fd` in the frame |
| Channel.DescriptorZeroDeclaredNotPassed | pimployee/switchboard_client.py:122-125 | descriptor 0 is declared but never passed, so the receiver expects a descriptor that does not come |
| Channel.UnixDomainSocketClient.constructor | pimployee/switchboard_client.py:97-100 | the client starts with a fresh current message |
| Channel.UnixDomainSocketClient.Read | pimployee/switchboard_client.py:105-114 | a blocking call returns the READY message and installs a fresh one, or raises, leaving the half-read message and the socket remainder the loop function gives, or blocks on a drained socket, exactly as the loop function says; a non-blocking call takes one step and returns None when the message is not ready; nothing is written to the socket |
| Channel.UnixDomainSocketClient.Send | pimployee/switchboard_client.py:116-125 | a frame that cannot be serialized writes nothing; otherwise exactly the frame, then the descriptor when it is truthy, is appended to what the socket has been sent |
| Executor.ProcessCeiling | pimployee/job_util.py:20-28 | the ceiling is the class's per-core allowance (c1 60, c2 200, f2 300, m1 300, s1 50, any other class 100) times the cores, so between 50 and 300 per core |
| Executor.AssignedCeiling | pimployee/job_util.py:40 | each key falls back to its own default: a missing core class counts as c1 (60 per core), missing cores as one core; so an empty meta allows 60 processes, and a meta with both keys gets the table's ceiling |
| Executor.CeilingExamples | pimployee/job_util.py:24-28 | c2 with 2 cores allows 400; an unknown class with 3 cores allows 300 |
| Executor.SplitPayload | pimployee/job_util.py:59-61 | slicing fails (IndexError) iff the parts list is empty |
| Executor.SplitReassembles | pimployee/job_util.py:59-61 | with non-negative part lengths, callable + args + kwargs is exactly the payload |
| Executor.SplitLengths | pimployee/job_util.py:59-61 | with parts [f, a] inside the payload, the callable is f bytes, args a bytes, and kwargs the rest |
| Executor.NegativePartsDuplicate | pimployee/job_util.py:59-61 | negative part lengths make Python's slices overlap and duplicate bytes |
| Executor.Deserialize | pimployee/job_util.py:212-225 | the retry loop returns what the recursive retry definition gives, attempt for attempt |
| Executor.OnlyImportErrorRetried | pimployee/job_util.py:215-225 | every attempt before the last one failed with ImportError; the result is the last attempt's value or its exception; when attempts run out, all of them raised ImportError |
| Executor.ReRaiseOncePastDeadline | pimployee/job_util.py:220-223 | once the deadline is set, an ImportError that is re-raised is the first attempt whose clock is past it |
| Executor.ReRaisesPastDeadline | pimployee/job_util.py:219-225 | conversely, with the deadline set, the first ImportError whose clock is past it is re-raised, after every earlier ImportError within it was retried |
| Executor.ImportErrorDeadline | pimployee/job_util.py:212-225 | an ImportError is re-raised only after at least two attempts, all ImportErrors, by the first one whose clock is more than 2.0 s after the first failure |
| Executor.ImportErrorDeadlineReached | pimployee/job_util.py:212-225 | conversely, ImportErrors within 2.0 s of the first failure are retried, and the first later one past that window is re-raised |
| Executor.Truncate | pimployee/job_util.py:45 | a sent traceback is a prefix of the real one, unchanged when it already fits, and otherwise exactly its first 1,000,000 characters |
| Executor.ReportTailAsWritten | pimployee/job_util.py:191-209 | as written: with profiling requested and no profiler created, nothing is reported and an exception other than EndProcessException escapes; in every other case it sends exactly what the corrected tail sends |
| Executor.ReportTail | pimployee/job_util.py:191-209 | at most two messages: profile stats first, exactly when profiling was requested and the profiler ran; then the result if there is one, else the traceback if there is one, as the last message; EndProcessException iff the process must end |
| Executor.ProfilerUnboundAfterWrapFailure | pimployee/job_util.py:117-194 | a profiled map or reduce job whose wrapper call raises loses its traceback as written, and reports it as intended |
| Executor.ReportTailInOrder | pimployee/job_util.py:191-209 | after `processing`, the corrected tail keeps the order: profile stats right after `processing`, at most one finished message and only last, tracebacks within the limit |
| Executor.ReportTailLast | pimployee/job_util.py:196-203 | the last message is the result when there is one, else the traceback when there is one; with neither, no finished message is sent |
| Executor.ReportTailDecides | pimployee/job_util.py:109-209 | fed with what the job produced and whether the profiler was created, the tail reports the job's outcome: the stats of a profiler that ran follow `processing`; the worker ends iff the job died of SystemExit or MemoryError or threads outlived it, and the last message is the truncated traceback or the non-empty result |
| Executor.ExecuteJob | pimployee/job_util.py:109-209 | the steps after deserialization, with the tail as written, send messages in order; a forked child sends nothing and exits; a profiled map or reduce job whose wrapper call raised sends nothing more and escapes with UnboundLocalError; otherwise the job's outcome is reported as described for ReportTailDecides |
| Executor.ProcessJob | pimployee/job_util.py:35-209 | `processing` is sent first and only once; at most one finished message, always last; profile stats only when requested, before it, and always when the profiler ran; tracebacks fit the limit; an empty parts list escapes; a failed deserialization sends exactly its traceback and ends the worker; a forked child exits silently; a profiled map or reduce job whose wrapper call raised escapes after `processing` alone; otherwise the worker ends iff the job died of SystemExit or MemoryError or threads outlived it, and the last message is the traceback or the non-empty result |
| MapReduce.FlatMap | pimployee/job_util.py:255-258 | no records give no outputs; one record gives its mapper output |
| MapReduce.FlatMapAppend | pimployee/job_util.py:255-258 | mapping a concatenation of record runs concatenates their outputs in order |
| MapReduce.FlatMapSource | pimployee/job_util.py:255-258 | every output comes from the mapper applied to some record |
| MapReduce.FlatMapUniform | pimployee/job_util.py:255-258 | a mapper with n outputs per record produces n times as many outputs as records |
| MapReduce.FiveRecordsTenOutputs | pimployee/job_util.py:255-258 | five records mapped to two outputs each give ten outputs |
| MapReduce.Find | pimployee/job_util.py:267 | `str.find` gives the first index where the pattern occurs, or -1 when it occurs nowhere |
| MapReduce.CombineMessage | pimployee/job_util.py:264-271 | the hint is appended iff "is not iterable" first occurs after the message's first character; otherwise the message is re-raised unchanged |
| MapReduce.MapCombine | pimployee/job_util.py:239-274 | errors are checked in order: start not an integer (a bool counts), end not an integer, reader not a generator, combiner not a generator, combiner raising; each error is reported exactly when its check is the first to fail, a raising combiner's message re-raised with the hint when it is about iterability; the view is opened iff both bounds are integers and closed only on success; on success the result is what the combiner yields for the flattened mapper outputs |
| MapReduce.PassThroughCombiner | pimployee/job_util.py:239-274 | with a pass-through combiner, `inner` returns the mapper outputs of all records in record order and closes the view |
| MapReduce.Reduce | pimployee/job_util.py:281-297 | `ch_reducer` fails with its own error iff the reducer's result is not iterable; an exception from the reducer, in the call or while listing, propagates unchanged; otherwise it returns what the reducer yields for the concatenated map results |
| MapReduce.ReducerInputInJobOrder | pimployee/job_util.py:284-291 | the reducer sees the map results in job order |
| Worker.KindOf | job_task.py:61-98 | a type string selects each of the handlers stdout, stderr, logging, faulthandler and pilog, and the assign, die and setup branches, exactly when it is that name, and no branch when it names none of them |
| Worker.TypeOf | job_task.py:74 | a message without `type` raises KeyError; a list `type` is unhashable; a message has a handler name iff its `type` is a string, and the name is that string's kind; any other value names no handler |
| Worker.Handle | job_task.py:61-98 | a message has at most one effect, never the final one; a job runs iff that effect runs one; the loop stops only by crashing or in a forked child; what each type does is stated by HandleIgnores, HandleSetupHandlers, HandleRunsJob and HandleLeaves |
| Worker.HandleRunsJob | job_task.py:74-89 | a job runs iff the type is `assign`; it is the next job, with its own verdict, and the loop goes on iff the job returned normally |
| Worker.HandleLeaves | job_task.py:82-98 | the loop is left iff the type is `die` (after restoring stderr) or an assigned job ended with EndProcessException; a forked child's job stops the process |
| Worker.HandleIgnores | job_task.py:74-98 | a setup message, an unknown type string or a type that is not a string has no effect and the loop reads on; a message without `type` or with a list as its type crashes the worker |
| Worker.HandleSetupHandlers | job_task.py:61-79 | stdout, stderr, logging and faulthandler messages are each passed to their own handler and, when the handler returns, the loop reads on; a pilog message sets up pilog with its fileno, and crashes the worker without one |
| Worker.ServeSkipsIgnored | job_task.py:69-98 | in the loop an ignored message leaves no trace and the next message is read; a malformed one ends the process right after it is read |
| Worker.DispatchDisciplined | job_task.py:61-98 | the loop body of the script handles every message soundly, as `Sound` states: the facts of HandleRunsJob and HandleLeaves for any message |
| Worker.RunJobTask | job_task.py:22-108 | the script does exactly what the recursive definition of the handshake, setup gate and loop gives |
| Worker.DispatchLoop | job_task.py:69-98 | the `while True` loop does exactly what the recursive definition of the loop gives, message by message |
| Worker.AnnounceThenSetup | job_task.py:22-43 | without QDESC nothing is sent; otherwise `info` is sent first; a first message that is not `setup` ends the script before any handler runs |
| Worker.ServeConsumes | job_task.py:69-98 | the loop reads messages in order, never past the last, reads all of them only when it waits for more, and reads at least one before stopping |
| Worker.ServeIgnoresLater | job_task.py:69-98 | messages after the one that stops the loop are never read: appending more changes nothing |
| Worker.JobTaskIgnoresLater | job_task.py:22-98 | the same for the whole script |
| Worker.JobCountAppend | job_task.py:82-84 | jobs counted over a concatenation of traces add up |
| Worker.JobAtHere | job_task.py:82-89 | an `assign` message runs the next job, and the loop runs another job after it only if it returned normally |
| Worker.JobAt | job_task.py:82-89 | the job run at any position of the trace has the index of the jobs before it and its own verdict; a job followed by another one let the worker go on |
| Worker.ServeRunsJobsInOrder | job_task.py:82-89 | jobs are numbered in arrival order, and every job except the last one run let the worker go on |
| Worker.ServeDisablesOnExit | job_task.py:92-108 | faulthandler is disabled only when the loop is left normally, and the loop never ends the way the bootstrap does |
| Worker.ServeExitLast | job_task.py:82-108 | a loop left normally ends by disabling faulthandler right after a `die` restored stderr or a job ended with EndProcessException |
| Worker.ServeChildExitLast | job_task.py:82-89 | a loop stopped in a forked child ends with that child's job |
| Worker.ServeExits | job_task.py:82-108 | the loop is left normally iff faulthandler is disabled last; that happens right after a `die` restored stderr or a job ended with EndProcessException; a forked child's exit follows its job |

## Left out

- JSON text syntax: `json.dumps` and `json.loads` are parameters. Their agreement is assumed by `RoundTrips`, never proved.
- The `'*'` byte that `passfd.sendfd` sends with a descriptor, and `passfd.recvfd` failing: a passed descriptor is one item on the socket, and `recvfd` always yields the `fd` parameter.
- `Message.bytes_so_far` and `block_until_ready`: the source never reads the first and never calls the second.
- The threading `Event` of `Message` is modelled as the plain flag `ready`, with no waiting.
- Codec.Run, Channel.UnixDomainSocketClient.Read: a drained socket makes the source loop forever. The model returns `Stalled`/`Blocked` there instead of not terminating.
- Channel.Message.DecodeMeta: `json.loads` either yields a JSON object or fails. A header that is valid JSON but not an object (a list, string, number or null) counts as a failure here, so the model keeps the raw header. In the source, `self.meta` is first replaced by the decoded value and only the following `.get` raises AttributeError. What the broken message then holds is not modelled; the exception ends the worker either way.
- Exceptions are results (`Option`, `Failed`, `Raised`, `Escaped`, `Crashed`), not control flow. Their messages are kept only where the source inspects them (the "is not iterable" hint).
- `restrict_resources` installing the limit with `resource.setrlimit`, and a setrlimit failure: the model computes the ceiling only.
- In `process_job`: reading `jid`, `ujid`, `api_key`, `api_secretkey`, `server_url` and `fast_serialization` from the meta; cloud configuration; logging; signal handler installation; `runtime` values; stdout/stderr flushing. These are environment effects that the decisions do not depend on. A missing meta key (KeyError) is not modelled, except `payload_parts`, whose empty list is.
- Executor.ProcessJob: the user call, result serialization and the 128,000,000-byte size check are one input (`Call`). What `pickle.loads` yields is not carried to the call.
- Executor.Deserialize: `time.sleep(random.random())` between attempts appears only in the next clock reading. A run whose given attempts are used up ends as `Unfinished`, where the source would keep trying.
- MapReduce.MapCombine: the mapper is a total function returning a sequence. A mapper output that is not iterable, and a combiner that stops early on the lazy stream, appear only through the combiner's `Raises` outcome. `cloud.files.getf` and the record reader are one function of the byte range.
- JSON objects as values inside a meta: `Value` has no object case, so a nested object (and a `type` that is one, which `dict.get` rejects as unhashable) is not representable.
- Executor.AssignedCeiling: a `core_type` that is present but not a string is not representable. The source looks a null, number or bool up in the table and gets the default of 100 per core. A list raises TypeError (unhashable) in the lookup, before `processing` is sent. A `cores` value that is not an integer is not representable either.
- MapReduce.Reduce: `cloud._getcloud()` and `__iresult` are the `fetch` function. Failures while fetching results are not modelled.
- Worker.RunJobTask: QDESC is the `qdesc` parameter. Setting the default socket timeout and `connect_to_boss` come before `Announce` and are not modelled. The setup steps after the setup message is read (`setup_log`, `setup_excepthook`, `setup_sys_path`, `setup_cloud`, `os.dup` of stderr) are recorded as the single `Setup` effect. A setup message missing the keys those steps read is not modelled. pimployee/setup_util.py and pimployee/log.py are not part of this model; their handlers are effects in the trace, and a handler that raises (the stdout, stderr, logging and faulthandler handlers read `fileno` from the message) is not modelled.
- Worker.RunJobTask: the messages are the metas `UnixDomainSocketClient.read` delivers. A read that raises is not composed with the loop. The outcome of each `process_job` call is an input; the model does not run `Executor.ProcessJob` on the assign message.
- The `atfork` monkeypatching, the replaced excepthook and the crash behaviour of interpreter shutdown.

## Findings

| source | as written | input that shows it | evidently intended | confidence | as-written member | corrected member |
|---|---|---|---|---|---|---|
| pimployee/job_util.py:191-194 | the profile stats are sent whenever profiling was requested, using `profiler` | `profile` true, job type `filemap_mapper`, and `func(mapper_combiner_generator)` raises: `profiler` was never bound, `create_stats()` raises UnboundLocalError, and neither the traceback nor a finished message is sent | send profile stats only when the profiler was created, and always report the traceback | high (not executed) | Executor.ReportTailAsWritten | Executor.ReportTail |
