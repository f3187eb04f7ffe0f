/**
 * The file map/reduce wrappers of pimployee/job_util.py.
 *
 * `mapper_combiner_generator(mapper, file_name, file_size, record_reader,
 * combiner)` returns `inner(start_byte, end_byte)`: it reads the records of
 * one byte range of a file, maps every record to a sequence of outputs,
 * feeds the concatenation to the combiner and lists what it yields.
 * `reducer_generator(reducer)` returns `ch_reducer(jids)`: it concatenates
 * the results of the map jobs and lists what the reducer yields.
 *
 * The user's callables are function values. The file view together with the
 * record reader is one function of the byte range; what each call produces
 * is described by whether Python would call it a generator.
 */
module MapReduce {
  import opened Wire

  /** What a user callable returns: a generator with what it yields, or something else. */
  datatype Produced<T> = Generator(items: seq<T>) | NotGenerator

  /** What listing the combiner's generator does: yields everything, or raises an Exception. */
  datatype Combined<T> = Yields(items: seq<T>) | Raises(message: string) | CombinerNotGenerator

  /** The exceptions `inner` raises. */
  datatype MapError =
    | StartNotInteger
    | EndNotInteger
    | ReaderNotGenerator
    | NotAGenerator
    | CombineFailed(message: string)

  datatype Listed<T> = Done(items: seq<T>) | Failed(error: MapError)

  /** The result, and whether the file view was opened and closed. */
  datatype MapRun<T> = MapRun(outcome: Listed<T>, viewOpened: bool, viewClosed: bool)

  /** `itertools.chain.from_iterable(itertools.imap(f, xs))`, listed. */
  function FlatMap<R, O>(f: R -> seq<O>, xs: seq<R>): (r: seq<O>)
    ensures xs == [] ==> r == []
    ensures |xs| == 1 ==> r == f(xs[0])
  {
    if xs == [] then [] else f(xs[0]) + FlatMap(f, xs[1..])
  }

  lemma {:induction false} FlatMapAppend<R, O>(f: R -> seq<O>, xs: seq<R>, ys: seq<R>)
    ensures FlatMap(f, xs + ys) == FlatMap(f, xs) + FlatMap(f, ys)
  {
    if xs == [] {
      assert xs + ys == ys;
    } else {
      assert (xs + ys)[1..] == xs[1..] + ys;
      FlatMapAppend(f, xs[1..], ys);
    }
  }

  /** Every output of the flattening comes from some record. */
  lemma {:induction false} FlatMapSource<R, O>(f: R -> seq<O>, xs: seq<R>, o: O)
    requires o in FlatMap(f, xs)
    ensures exists k :: 0 <= k < |xs| && o in f(xs[k])
  {
    if o !in f(xs[0]) {
      FlatMapSource(f, xs[1..], o);
      var k :| 0 <= k < |xs[1..]| && o in f(xs[1..][k]);
      assert xs[1..][k] == xs[k + 1];
    }
  }

  /** A mapper emitting `n` outputs for every record emits `n` times as many outputs as records. */
  lemma {:induction false} FlatMapUniform<R, O>(f: R -> seq<O>, xs: seq<R>, n: nat)
    requires forall x :: |f(x)| == n
    ensures |FlatMap(f, xs)| == n * |xs|
  {
    if xs != [] {
      FlatMapUniform(f, xs[1..], n);
    }
  }

  /** `pat` occurs in `s` at index `k`. */
  predicate OccursAt(s: string, pat: string, k: int) {
    0 <= k && k + |pat| <= |s| && s[k..k + |pat|] == pat
  }

  lemma OccursShift(s: string, pat: string)
    requires s != []
    ensures forall k :: 1 <= k ==> (OccursAt(s, pat, k) <==> OccursAt(s[1..], pat, k - 1))
  {
    forall k | 1 <= k
      ensures OccursAt(s, pat, k) <==> OccursAt(s[1..], pat, k - 1)
    {
      if k + |pat| <= |s| {
        var here, there := s[k..k + |pat|], s[1..][k - 1..k - 1 + |pat|];
        assert forall j :: 0 <= j < |pat| ==> here[j] == there[j];
        assert here == there;
      }
    }
  }

  /** The index of the first occurrence of `pat` in `s`, or -1: Python's `str.find`. */
  function Find(s: string, pat: string): (r: int)
    ensures -1 <= r <= |s|
    ensures r >= 0 ==> OccursAt(s, pat, r)
    ensures forall k :: 0 <= k < (if r < 0 then |s| + 1 else r) ==> !OccursAt(s, pat, k)
    decreases |s|
  {
    if |pat| <= |s| && s[..|pat|] == pat then 0
    else if s == [] then -1
    else
      OccursShift(s, pat);
      var r := Find(s[1..], pat);
      if r < 0 then -1 else r + 1
  }

  const NOT_ITERABLE: string := "is not iterable"
  const MAPPER_HINT: string :=
    "\n\nThis could be an issue with the mapper function not returning an iterable.\nPlease make sure that the mapper() is either a generator object or returns an iteratable."

  /**
   * The message `inner` re-raises when listing the combiner fails: hinted
   * when "is not iterable" occurs after its first character.
   */
  function CombineMessage(message: string): (r: string)
    ensures Find(message, NOT_ITERABLE) > 0 ==> r == message + MAPPER_HINT
    ensures Find(message, NOT_ITERABLE) <= 0 ==> r == message
  {
    if Find(message, NOT_ITERABLE) > 0 then message + MAPPER_HINT else message
  }

  /** `isinstance(v, (int, long))`: a bool is an int too. */
  predicate IsInteger(v: Value) {
    v.Int? || v.Bool?
  }

  /**
   * `inner(start_byte, end_byte)` of `mapper_combiner_generator`. `reader`
   * gives the records `record_reader` yields for a byte range of the file.
   */
  function MapCombine<R, O, T>(mapper: R -> seq<O>, reader: (int, int) -> Produced<R>,
                               combiner: seq<O> -> Combined<T>, start: Value, end: Value): (r: MapRun<T>)
    ensures !IsInteger(start) ==> r == MapRun(Failed(StartNotInteger), false, false)
    ensures IsInteger(start) && !IsInteger(end) ==> r == MapRun(Failed(EndNotInteger), false, false)
    ensures r.viewOpened <==> IsInteger(start) && IsInteger(end)
    // the view is closed only when the list was built
    ensures r.viewClosed <==> r.outcome.Done?
    ensures r.outcome.Done? ==>
      && reader(AsInt(start).value, AsInt(end).value).Generator?
      && combiner(FlatMap(mapper, reader(AsInt(start).value, AsInt(end).value).items)) == Yields(r.outcome.items)
    ensures r.outcome == Failed(ReaderNotGenerator) <==>
      r.viewOpened && reader(AsInt(start).value, AsInt(end).value).NotGenerator?
    ensures r.outcome == Failed(StartNotInteger) <==> !IsInteger(start)
    ensures r.outcome == Failed(EndNotInteger) <==> IsInteger(start) && !IsInteger(end)
    ensures r.outcome == Failed(NotAGenerator) <==>
      && r.viewOpened
      && reader(AsInt(start).value, AsInt(end).value).Generator?
      && combiner(FlatMap(mapper, reader(AsInt(start).value, AsInt(end).value).items)).CombinerNotGenerator?
    // listing a combiner that raises re-raises its message, hinted when it is about iterability
    ensures r.viewOpened && reader(AsInt(start).value, AsInt(end).value).Generator? &&
            combiner(FlatMap(mapper, reader(AsInt(start).value, AsInt(end).value).items)).Raises? ==>
      r.outcome == Failed(CombineFailed(CombineMessage(
        combiner(FlatMap(mapper, reader(AsInt(start).value, AsInt(end).value).items)).message)))
    ensures r.outcome.Failed? && r.outcome.error.CombineFailed? ==>
      exists m :: combiner(FlatMap(mapper, reader(AsInt(start).value, AsInt(end).value).items)) == Raises(m)
                  && r.outcome.error.message == CombineMessage(m)
  {
    if !IsInteger(start) then MapRun(Failed(StartNotInteger), false, false)
    else if !IsInteger(end) then MapRun(Failed(EndNotInteger), false, false)
    else
      var records := reader(AsInt(start).value, AsInt(end).value);
      if records.NotGenerator? then MapRun(Failed(ReaderNotGenerator), true, false)
      else
        match combiner(FlatMap(mapper, records.items))
        case CombinerNotGenerator => MapRun(Failed(NotAGenerator), true, false)
        case Raises(m) => MapRun(Failed(CombineFailed(CombineMessage(m))), true, false)
        case Yields(items) => MapRun(Done(items), true, true)
  }

  /**
   * With a combiner that passes its input through, `inner` returns the
   * concatenated mapper outputs in record order.
   */
  lemma PassThroughCombiner<R, O>(mapper: R -> seq<O>, reader: (int, int) -> Produced<R>, start: int, end: int)
    requires reader(start, end).Generator?
    ensures var r := MapCombine(mapper, reader, (os: seq<O>) => Yields(os), Int(start), Int(end));
      && r.outcome == Done(FlatMap(mapper, reader(start, end).items))
      && r.viewOpened && r.viewClosed
  {
  }

  /**
   * What calling the reducer and listing its result does: yields these
   * items, returns something without `__iter__`, or raises (in the call or
   * while being listed).
   */
  datatype Reduced<T> = Iterable(items: seq<T>) | NotIterable | ReducerRaises(message: string)

  datatype ReduceOutcome<T> = Reduced(items: seq<T>) | ReducerNotIterable | ReduceFailed(message: string)

  /**
   * `ch_reducer(jids)` of `reducer_generator`: `fetch(jid)` is the list of
   * results of the map job `jid`, fetched in the order of `jids`.
   */
  function Reduce<O, T>(reducer: seq<O> -> Reduced<T>, fetch: int -> seq<O>, jids: seq<int>): (r: ReduceOutcome<T>)
    ensures r.Reduced? <==> reducer(FlatMap(fetch, jids)).Iterable?
    ensures r.Reduced? ==> r.items == reducer(FlatMap(fetch, jids)).items
    ensures r == ReducerNotIterable <==> reducer(FlatMap(fetch, jids)) == NotIterable
    // an exception from the reducer propagates unchanged
    ensures r.ReduceFailed? <==> reducer(FlatMap(fetch, jids)).ReducerRaises?
    ensures r.ReduceFailed? ==> r.message == reducer(FlatMap(fetch, jids)).message
  {
    match reducer(FlatMap(fetch, jids))
    case NotIterable => ReducerNotIterable
    case ReducerRaises(m) => ReduceFailed(m)
    case Iterable(items) => Reduced(items)
  }

  /**
   * The reducer sees the map results in job order: with a reducer that
   * passes its input through, the results of the jobs in `a` come before
   * those of the jobs in `b`.
   */
  lemma ReducerInputInJobOrder<O>(fetch: int -> seq<O>, a: seq<int>, b: seq<int>)
    ensures Reduce((os: seq<O>) => Iterable(os), fetch, a + b) == Reduced(FlatMap(fetch, a) + FlatMap(fetch, b))
  {
    FlatMapAppend(fetch, a, b);
  }

  /** Five records mapped to two outputs each give ten outputs. */
  lemma FiveRecordsTenOutputs(xs: seq<int>)
    requires |xs| == 5
    ensures |FlatMap((x: int) => [x, x], xs)| == 10
  {
    FlatMapUniform((x: int) => [x, x], xs, 2);
  }
}
