/** BigQuerySourceFunction: one parallel subtask of the source. `open` picks this subtask's
    share of the read session's streams by striping, `run` drains those streams one after
    the other and pushes every decoded row to the source context, `close` lowers the
    running flag. The read-rows helper and the deserializer are inputs: what the helper
    yields for each stream is the function `readRows`, and the deserializer is a pair of
    functions from bytes to rows. */
module SourceFunction {
  import opened JavaLib
  import opened FlinkRuntime

  // ---------------------------------------------------------------------------
  // Striped assignment of streams to subtasks

  /** The stream indices `start, start + step, start + 2 * step, ...` below `n`. */
  function StripedIndices(n: nat, start: nat, step: nat): (r: seq<nat>)
    requires step > 0
    ensures forall k :: 0 <= k < |r| ==> start <= r[k] < n
    ensures forall a, b :: 0 <= a < b < |r| ==> r[a] < r[b]
    decreases n - start
  {
    if start >= n then [] else [start] + StripedIndices(n, start + step, step)
  }

  /** The streams at those indices, in the same order. */
  function Striped(streams: seq<string>, start: nat, step: nat): (r: seq<string>)
    requires step > 0
    ensures forall x :: x in r ==> x in streams
    decreases |streams| - start
  {
    if start >= |streams| then [] else [streams[start]] + Striped(streams, start + step, step)
  }

  /** The `k`-th stream a subtask takes is the stream at its `k`-th striped index. */
  lemma {:induction false} StripedSelectsIndices(streams: seq<string>, start: nat, step: nat)
    requires step > 0
    ensures |Striped(streams, start, step)| == |StripedIndices(|streams|, start, step)|
    ensures forall k :: 0 <= k < |Striped(streams, start, step)| ==>
      Striped(streams, start, step)[k] == streams[StripedIndices(|streams|, start, step)[k]]
    decreases |streams| - start
  {
    if start < |streams| {
      StripedSelectsIndices(streams, start + step, step);
      var taken := Striped(streams, start + step, step);
      var indices := StripedIndices(|streams|, start + step, step);
      assert Striped(streams, start, step) == [streams[start]] + taken;
      assert StripedIndices(|streams|, start, step) == [start] + indices;
      forall k | 1 <= k < |Striped(streams, start, step)|
        ensures Striped(streams, start, step)[k] == streams[StripedIndices(|streams|, start, step)[k]]
      {
        assert Striped(streams, start, step)[k] == taken[k - 1];
        assert StripedIndices(|streams|, start, step)[k] == indices[k - 1];
      }
    }
  }

  /** Proof helper that steers the solver: the sign of a product with a positive factor. */
  lemma MulSign(d: int, m: int)
    requires m > 0
    ensures d >= 1 ==> d * m >= m
    ensures d <= -1 ==> d * m <= -m
  {
  }

  /** Euclidean remainders are unique. */
  lemma ModUnique(a: int, m: int, q: int, r: int)
    requires m > 0 && 0 <= r < m && a == q * m + r
    ensures a % m == r
  {
    var q', r' := a / m, a % m;
    assert (q - q') * m == r' - r;
    MulSign(q - q', m);
  }

  lemma ModOfSmall(x: int, m: int)
    requires 0 <= x < m
    ensures x % m == x
  {
    ModUnique(x, m, 0, x);
  }

  lemma ModOfShift(x: int, m: int)
    requires m > 0
    ensures (x - m) % m == x % m
  {
    assert x - m == (x / m - 1) * m + x % m;
    ModUnique(x - m, m, x / m - 1, x % m);
  }

  /** For `i < m <= ...`: `j - i` is a multiple of `m` exactly when `j` leaves remainder `i`. */
  lemma {:induction false} MultipleApartIffSameRemainder(j: nat, i: nat, m: nat)
    requires m > 0 && i < m && i <= j
    ensures (j - i) % m == 0 <==> j % m == i
    decreases j
  {
    if j < m {
      ModOfSmall(j, m);
      ModOfSmall(j - i, m);
    } else {
      ModOfShift(j, m);
      ModOfShift(j - i, m);
      if j - m >= i {
        MultipleApartIffSameRemainder(j - m, i, m);
        assert j - m - i == j - i - m;
      } else {
        ModOfSmall(j - m, m);
        ModOfSmall(j - i, m);
      }
    }
  }

  /** Index `j` is striped from `start` exactly when it lies in `[start, n)` a whole number
      of steps after `start`. */
  lemma {:induction false} StripedMembership(n: nat, start: nat, step: nat, j: int)
    requires step > 0
    ensures j in StripedIndices(n, start, step) <==> start <= j < n && (j - start) % step == 0
    decreases n - start
  {
    if start < n {
      var rest := StripedIndices(n, start + step, step);
      assert StripedIndices(n, start, step) == [start] + rest;
      if j < start + step {
        assert j !in rest;
        if start <= j {
          ModOfSmall(j - start, step);
        }
      } else {
        StripedMembership(n, start + step, step, j);
        assert j - (start + step) == (j - start) - step;
        ModOfShift(j - start, step);
      }
    }
  }

  /** The assignments of the subtasks `0 .. count - 1` partition the stream indices: stream
      `j` belongs to subtask `j % count` and to no other subtask, and within a subtask's list
      the indices strictly increase, so it appears there exactly once. */
  lemma StreamOwnedByExactlyOneSubtask(n: nat, count: nat, j: nat)
    requires count > 0 && j < n
    ensures j in StripedIndices(n, j % count, count)
    ensures forall i :: 0 <= i < count && i != j % count ==> j !in StripedIndices(n, i, count)
  {
    var owner := j % count;
    StripedMembership(n, owner, count, j);
    MultipleApartIffSameRemainder(j, owner, count);
    forall i | 0 <= i < count && i != owner
      ensures j !in StripedIndices(n, i, count)
    {
      StripedMembership(n, i, count, j);
      if i <= j {
        MultipleApartIffSameRemainder(j, i, count);
      }
    }
  }

  /** A subtask whose index is past the last stream reads nothing. */
  lemma IdleSubtask(streams: seq<string>, index: nat, count: nat)
    requires count > 0 && index >= |streams|
    ensures Striped(streams, index, count) == []
  {
  }

  /** Five streams over two subtasks: subtask 0 owns streams 0, 2 and 4, subtask 1 owns
      streams 1 and 3. */
  lemma FiveStreamsTwoSubtasks(s0: string, s1: string, s2: string, s3: string, s4: string)
    ensures Striped([s0, s1, s2, s3, s4], 0, 2) == [s0, s2, s4]
    ensures Striped([s0, s1, s2, s3, s4], 1, 2) == [s1, s3]
  {
    var all := [s0, s1, s2, s3, s4];
    assert Striped(all, 4, 2) == [s4];
    assert Striped(all, 3, 2) == [s3];
  }

  // ---------------------------------------------------------------------------
  // Responses, the deserializer, and what run() does with them

  /** Which kind of rows a read-rows response carries. */
  datatype ResponseRows =
    | ArrowRecordBatch(serializedRecordBatch: Bytes)
    | AvroRows(serializedBinaryRows: Bytes)
    | NoRows

  /** A read-rows response: its whole serialized form, its rows and its row count. */
  datatype ReadRowsResponse = ReadRowsResponse(wire: Bytes, rows: ResponseRows, rowCount: int)

  /** Rows produced so far and the exception that ended production, if any. */
  datatype Outcome<R> = Outcome(emitted: seq<R>, thrown: Option<Exception>)

  /** The deserialization schema as run() uses it: the collector overload (the rows it hands
      to the collector, and what it throws) and the single-message overload. */
  datatype Deserializer<R> = Deserializer(
    intoCollector: Bytes -> Outcome<R>,
    single: Bytes -> Result<R>)

  /** run() catches IOException and rethrows it as FlinkBigQueryException; any other
      exception passes through unchanged. */
  function Rethrown(e: Exception): (r: Exception)
    ensures !r.IOException?
    ensures e.IOException? ==> r == FlinkBigQueryException("Error while deserialization:")
    ensures !e.IOException? ==> r == e
  {
    if e.IOException? then FlinkBigQueryException("Error while deserialization:") else e
  }

  function Repeat<R>(x: R, n: int): (r: seq<R>)
    ensures |r| == if n < 0 then 0 else n
    ensures forall k :: 0 <= k < |r| ==> r[k] == x
    decreases n
  {
    if n <= 0 then [] else [x] + Repeat(x, n - 1)
  }

  /** What run() emits for one response. */
  function ResponseOutcome<R>(response: ReadRowsResponse, d: Deserializer<R>): (o: Outcome<R>)
    ensures o.thrown.Some? ==> o.emitted == [] && !o.thrown.value.IOException?
    ensures response.rows.ArrowRecordBatch? ==>
      (o.thrown.None? <==> d.intoCollector(response.wire).thrown.None?) &&
      (o.thrown.None? ==> o.emitted == d.intoCollector(response.wire).emitted)
    ensures response.rows.AvroRows? && o.thrown.None? ==>
      |o.emitted| == (if response.rowCount < 0 then 0 else response.rowCount) &&
      forall k :: 0 <= k < |o.emitted| ==>
        d.single(response.rows.serializedBinaryRows) == Ok(o.emitted[k])
    ensures response.rows.ArrowRecordBatch? && o.thrown.Some? ==>
      o.thrown == Some(Rethrown(d.intoCollector(response.wire).thrown.value))
    ensures response.rows.AvroRows? && o.thrown.Some? ==>
      response.rowCount > 0 && d.single(response.rows.serializedBinaryRows).Err? &&
      o.thrown == Some(Rethrown(d.single(response.rows.serializedBinaryRows).error))
    ensures response.rows.NoRows? ==> o == Outcome([], None)
  {
    match response.rows
    case ArrowRecordBatch(_) =>
      var c := d.intoCollector(response.wire);
      if c.thrown.Some? then Outcome([], Some(Rethrown(c.thrown.value)))
      else Outcome(c.emitted, None)
    case AvroRows(payload) =>
      if response.rowCount <= 0 then Outcome([], None)
      else (
        match d.single(payload)
        case Ok(x) => Outcome(Repeat(x, response.rowCount), None)
        case Err(e) => Outcome([], Some(Rethrown(e))))
    case NoRows => Outcome([], None)
  }

  /** What run() emits while draining one stream: responses in order, stopping at the first
      one that throws. */
  function DrainOutcome<R>(responses: seq<ReadRowsResponse>, d: Deserializer<R>): (o: Outcome<R>)
    ensures o.thrown.Some? ==> !o.thrown.value.IOException?
  {
    if responses == [] then Outcome([], None)
    else
      var first := ResponseOutcome(responses[0], d);
      if first.thrown.Some? then first
      else
        var rest := DrainOutcome(responses[1..], d);
        Outcome(first.emitted + rest.emitted, rest.thrown)
  }

  /** DrainOutcome from position `j` on, one response at a time. */
  lemma DrainOutcomeFrom<R>(responses: seq<ReadRowsResponse>, j: nat, d: Deserializer<R>)
    requires j < |responses|
    ensures var here := ResponseOutcome(responses[j], d);
      DrainOutcome(responses[j..], d) ==
        if here.thrown.Some? then here
        else Outcome(here.emitted + DrainOutcome(responses[j + 1..], d).emitted,
                     DrainOutcome(responses[j + 1..], d).thrown)
  {
    assert responses[j..][0] == responses[j] && responses[j..][1..] == responses[j + 1..];
  }

  /** The rows of every response, concatenated, ignoring failures. */
  function AllResponseRows<R>(responses: seq<ReadRowsResponse>, d: Deserializer<R>): seq<R>
  {
    if responses == [] then [] else ResponseOutcome(responses[0], d).emitted + AllResponseRows(responses[1..], d)
  }

  /** Draining a stream whose responses all decode emits every response's rows, in order. */
  lemma {:induction false} DrainEmitsResponsesInOrder<R>(responses: seq<ReadRowsResponse>, d: Deserializer<R>)
    requires forall k :: 0 <= k < |responses| ==> ResponseOutcome(responses[k], d).thrown.None?
    ensures DrainOutcome(responses, d) == Outcome(AllResponseRows(responses, d), None)
  {
    if responses != [] {
      DrainEmitsResponsesInOrder(responses[1..], d);
    }
  }

  /** When response `k` is the first to throw, draining the stream throws that response's
      exception after emitting the rows of the responses before it, and reads no later
      response. */
  lemma {:induction false} DrainStopsAtFirstFailure<R>(responses: seq<ReadRowsResponse>, k: nat,
                                                       d: Deserializer<R>)
    requires k < |responses|
    requires forall i :: 0 <= i < k ==> ResponseOutcome(responses[i], d).thrown.None?
    requires ResponseOutcome(responses[k], d).thrown.Some?
    ensures DrainOutcome(responses, d) ==
      Outcome(AllResponseRows(responses[..k], d), ResponseOutcome(responses[k], d).thrown)
  {
    if k == 0 {
      assert responses[..0] == [];
    } else {
      var rest := responses[1..];
      assert forall i :: 0 <= i < k - 1 ==> rest[i] == responses[i + 1];
      assert rest[k - 1] == responses[k];
      DrainStopsAtFirstFailure(rest, k - 1, d);
      assert responses[..k][0] == responses[0];
      assert responses[..k][1..] == rest[..k - 1];
    }
  }

  /** The result of a whole run: rows emitted, streams whose helper was closed, exception. */
  datatype RunResult<R> = RunResult(emitted: seq<R>, closed: seq<string>, thrown: Option<Exception>)

  /** What run() does with its streams: each is drained completely and its helper closed
      before the next one starts; the first exception ends the run. */
  function RunOutcome<R>(streams: seq<string>, readRows: string -> seq<ReadRowsResponse>,
                         d: Deserializer<R>): (o: RunResult<R>)
    ensures o.thrown.Some? ==> !o.thrown.value.IOException?
  {
    if streams == [] then RunResult([], [], None)
    else
      var drained := DrainOutcome(readRows(streams[0]), d);
      if drained.thrown.Some? then RunResult(drained.emitted, [], drained.thrown)
      else
        var rest := RunOutcome(streams[1..], readRows, d);
        RunResult(drained.emitted + rest.emitted, [streams[0]] + rest.closed, rest.thrown)
  }

  /** The helpers closed are those of a prefix of the streams, in order, and all of them
      exactly when nothing was thrown. */
  lemma {:induction false} RunClosesPrefix<R>(streams: seq<string>, readRows: string -> seq<ReadRowsResponse>,
                                             d: Deserializer<R>)
    ensures var o := RunOutcome(streams, readRows, d);
      |o.closed| <= |streams| && o.closed == streams[..|o.closed|] &&
      (o.thrown.None? <==> o.closed == streams)
  {
    if streams != [] {
      RunClosesPrefix(streams[1..], readRows, d);
      var o := RunOutcome(streams, readRows, d);
      var rest := RunOutcome(streams[1..], readRows, d);
      if DrainOutcome(readRows(streams[0]), d).thrown.None? {
        assert o.closed == [streams[0]] + rest.closed;
        assert streams == [streams[0]] + streams[1..];
        assert streams[..|o.closed|] == [streams[0]] + streams[1..][..|rest.closed|];
        assert o.closed == streams ==> o.closed[1..] == rest.closed;
      }
    }
  }

  /** RunOutcome from position `s` on, one stream at a time. */
  lemma RunOutcomeFrom<R>(streams: seq<string>, s: nat, readRows: string -> seq<ReadRowsResponse>,
                          d: Deserializer<R>)
    requires s < |streams|
    ensures var here := DrainOutcome(readRows(streams[s]), d);
      var rest := RunOutcome(streams[s + 1..], readRows, d);
      RunOutcome(streams[s..], readRows, d) ==
        if here.thrown.Some? then RunResult(here.emitted, [], here.thrown)
        else RunResult(here.emitted + rest.emitted, [streams[s]] + rest.closed, rest.thrown)
  {
    assert streams[s..][0] == streams[s] && streams[s..][1..] == streams[s + 1..];
  }

  /** The rows of every stream drained completely, concatenated in stream order. */
  function AllStreamRows<R>(streams: seq<string>, readRows: string -> seq<ReadRowsResponse>,
                            d: Deserializer<R>): seq<R>
  {
    if streams == [] then []
    else DrainOutcome(readRows(streams[0]), d).emitted + AllStreamRows(streams[1..], readRows, d)
  }

  lemma {:induction false} AllStreamRowsAppend<R>(streams: seq<string>, k: nat,
                                                 readRows: string -> seq<ReadRowsResponse>, d: Deserializer<R>)
    requires k < |streams|
    ensures AllStreamRows(streams[..k + 1], readRows, d)
         == AllStreamRows(streams[..k], readRows, d) + DrainOutcome(readRows(streams[k]), d).emitted
  {
    if k > 0 {
      AllStreamRowsAppend(streams[1..], k - 1, readRows, d);
      assert streams[1..][..k] == streams[..k + 1][1..];
      assert streams[1..][..k - 1] == streams[..k][1..];
    } else {
      assert streams[..1][1..] == [];
    }
  }

  /** When every stream drains without an exception, the run emits all rows of all streams
      in stream order and closes every helper. */
  lemma {:induction false} RunCompletes<R>(streams: seq<string>, readRows: string -> seq<ReadRowsResponse>,
                                           d: Deserializer<R>)
    requires forall k :: 0 <= k < |streams| ==> DrainOutcome(readRows(streams[k]), d).thrown.None?
    ensures RunOutcome(streams, readRows, d) == RunResult(AllStreamRows(streams, readRows, d), streams, None)
  {
    if streams != [] {
      RunCompletes(streams[1..], readRows, d);
    }
  }

  /** When stream `k` is the first to throw, the run rethrows that exception, has closed
      exactly the helpers of the streams before `k`, emitted their rows and whatever stream
      `k` produced before the exception, and never starts a later stream. */
  lemma {:induction false} RunStopsAtFirstFailure<R>(streams: seq<string>, k: nat,
                                                     readRows: string -> seq<ReadRowsResponse>, d: Deserializer<R>)
    requires k < |streams|
    requires forall i :: 0 <= i < k ==> DrainOutcome(readRows(streams[i]), d).thrown.None?
    requires DrainOutcome(readRows(streams[k]), d).thrown.Some?
    ensures var o := RunOutcome(streams, readRows, d);
      o.thrown == DrainOutcome(readRows(streams[k]), d).thrown &&
      o.closed == streams[..k] &&
      o.emitted == AllStreamRows(streams[..k], readRows, d) + DrainOutcome(readRows(streams[k]), d).emitted
  {
    if k > 0 {
      var rest := streams[1..];
      assert forall i :: 0 <= i < k - 1 ==> rest[i] == streams[i + 1];
      RunStopsAtFirstFailure(rest, k - 1, readRows, d);
      var first := DrainOutcome(readRows(streams[0]), d);
      var failing := DrainOutcome(readRows(streams[k]), d);
      assert rest[k - 1] == streams[k];
      assert rest[..k - 1] == streams[..k][1..];
      HeadTail(streams[..k]);
      assert AllStreamRows(streams[..k], readRows, d)
          == first.emitted + AllStreamRows(rest[..k - 1], readRows, d);
      Regroup(first.emitted, AllStreamRows(rest[..k - 1], readRows, d), failing.emitted);
    } else {
      assert streams[..0] == [];
    }
  }

  // ---------------------------------------------------------------------------
  // The imperative run loop

  /** The deserializer's collector overload: it hands its rows to the collector one by one,
      then reports what it threw. */
  method DeserializeIntoCollector<R>(d: Deserializer<R>, message: Bytes, out: ListCollector<R>)
    returns (thrown: Option<Exception>)
    modifies out
    ensures out.items == old(out.items) + d.intoCollector(message).emitted
    ensures thrown == d.intoCollector(message).thrown
  {
    var c := d.intoCollector(message);
    var i := 0;
    while i < |c.emitted|
      invariant 0 <= i <= |c.emitted|
      invariant out.items == old(out.items) + c.emitted[..i]
    {
      out.Collect(c.emitted[i]);
      i := i + 1;
    }
    assert c.emitted[..i] == c.emitted;
    thrown := c.thrown;
  }

  /** One iteration of run()'s response loop. */
  method ProcessResponse<R>(response: ReadRowsResponse, d: Deserializer<R>,
                            ctx: SourceContext<R>, outputCollector: ListCollector<R>)
    returns (thrown: Option<Exception>)
    requires outputCollector.items == []
    modifies ctx, outputCollector
    ensures ctx.emitted == old(ctx.emitted) + ResponseOutcome(response, d).emitted
    ensures thrown == ResponseOutcome(response, d).thrown
    ensures thrown.None? ==> outputCollector.items == []
  {
    match response.rows {
      case ArrowRecordBatch(_) =>
        thrown := EmitArrowBatch(response, d, ctx, outputCollector);
      case AvroRows(_) =>
        thrown := EmitAvroRows(response, d, ctx);
      case NoRows =>
        thrown := None;
    }
  }

  /** The Arrow branch: the batch is deserialized into the list collector, then every
      collected row is emitted and the list is cleared. */
  method EmitArrowBatch<R>(response: ReadRowsResponse, d: Deserializer<R>,
                           ctx: SourceContext<R>, outputCollector: ListCollector<R>)
    returns (thrown: Option<Exception>)
    requires response.rows.ArrowRecordBatch? && outputCollector.items == []
    modifies ctx, outputCollector
    ensures ctx.emitted == old(ctx.emitted) + ResponseOutcome(response, d).emitted
    ensures thrown == ResponseOutcome(response, d).thrown
    ensures thrown.None? ==> outputCollector.items == []
  {
    var t := DeserializeIntoCollector(d, response.wire, outputCollector);
    if t.Some? {
      return Some(Rethrown(t.value));
    }
    var i := 0;
    while i < |outputCollector.items|
      invariant 0 <= i <= |outputCollector.items|
      invariant outputCollector.items == d.intoCollector(response.wire).emitted
      invariant ctx.emitted == old(ctx.emitted) + outputCollector.items[..i]
    {
      assert outputCollector.items[..i + 1] == outputCollector.items[..i] + [outputCollector.items[i]];
      Regroup(old(ctx.emitted), outputCollector.items[..i], [outputCollector.items[i]]);
      ctx.Collect(outputCollector.items[i]);
      i := i + 1;
    }
    assert outputCollector.items[..i] == outputCollector.items;
    outputCollector.Clear();
    thrown := None;
  }

  /** The Avro branch: the response's rows are deserialized and emitted one by one, as many
      as the response's row count says. */
  method EmitAvroRows<R>(response: ReadRowsResponse, d: Deserializer<R>, ctx: SourceContext<R>)
    returns (thrown: Option<Exception>)
    requires response.rows.AvroRows?
    modifies ctx
    ensures ctx.emitted == old(ctx.emitted) + ResponseOutcome(response, d).emitted
    ensures thrown == ResponseOutcome(response, d).thrown
  {
    var payload := response.rows.serializedBinaryRows;
    var i := 0;
    while i < response.rowCount
      invariant 0 <= i <= (if response.rowCount < 0 then 0 else response.rowCount)
      invariant i > 0 ==> d.single(payload).Ok?
      invariant i > 0 ==> ctx.emitted == old(ctx.emitted) + Repeat(d.single(payload).value, i)
      invariant i == 0 ==> ctx.emitted == old(ctx.emitted)
    {
      var row := d.single(payload);
      if row.Err? {
        return Some(Rethrown(row.error));
      }
      RepeatSnoc(row.value, i);
      Regroup(old(ctx.emitted), Repeat(row.value, i), [row.value]);
      ctx.Collect(row.value);
      i := i + 1;
    }
    thrown := None;
  }

  /** Proof helper that steers the solver: one more repetition is one more element at the end. */
  lemma {:induction false} RepeatSnoc<R>(x: R, n: nat)
    ensures Repeat(x, n + 1) == Repeat(x, n) + [x]
  {
    if n > 0 {
      RepeatSnoc(x, n - 1);
    }
  }

  /** run()'s inner loop: every response of one stream, in order, until one throws. */
  method DrainStream<R>(responses: seq<ReadRowsResponse>, d: Deserializer<R>,
                        ctx: SourceContext<R>, outputCollector: ListCollector<R>)
    returns (thrown: Option<Exception>)
    requires outputCollector.items == []
    modifies ctx, outputCollector
    ensures ctx.emitted == old(ctx.emitted) + DrainOutcome(responses, d).emitted
    ensures thrown == DrainOutcome(responses, d).thrown
    ensures thrown.None? ==> outputCollector.items == []
  {
    ghost var done: seq<R> := [];
    var j := 0;
    while j < |responses|
      invariant 0 <= j <= |responses|
      invariant outputCollector.items == []
      invariant ctx.emitted == old(ctx.emitted) + done
      invariant DrainOutcome(responses, d).emitted == done + DrainOutcome(responses[j..], d).emitted
      invariant DrainOutcome(responses, d).thrown == DrainOutcome(responses[j..], d).thrown
    {
      DrainOutcomeFrom(responses, j, d);
      ghost var here := ResponseOutcome(responses[j], d);
      Regroup(old(ctx.emitted), done, here.emitted);
      thrown := ProcessResponse(responses[j], d, ctx, outputCollector);
      if thrown.Some? {
        return;
      }
      Regroup(done, here.emitted, DrainOutcome(responses[j + 1..], d).emitted);
      done := done + here.emitted;
      j := j + 1;
    }
    thrown := None;
  }

  /** run()'s outer loop: each stream is drained in turn and its read-rows helper closed;
      the first exception leaves the loop with that helper still open. */
  method DrainStreams<R>(streams: seq<string>, readRows: string -> seq<ReadRowsResponse>,
                         d: Deserializer<R>, ctx: SourceContext<R>, outputCollector: ListCollector<R>)
    returns (thrown: Option<Exception>, ghost closed: seq<string>)
    requires outputCollector.items == []
    modifies ctx, outputCollector
    ensures ctx.emitted == old(ctx.emitted) + RunOutcome(streams, readRows, d).emitted
    ensures closed == RunOutcome(streams, readRows, d).closed
    ensures thrown == RunOutcome(streams, readRows, d).thrown
  {
    assert streams[0..] == streams;
    ghost var whole := RunOutcome(streams, readRows, d);
    closed := [];
    ghost var done: seq<R> := [];
    var s := 0;
    while s < |streams|
      invariant 0 <= s <= |streams|
      invariant outputCollector.items == []
      invariant ctx.emitted == old(ctx.emitted) + done
      invariant whole.emitted == done + RunOutcome(streams[s..], readRows, d).emitted
      invariant whole.closed == closed + RunOutcome(streams[s..], readRows, d).closed
      invariant whole.thrown == RunOutcome(streams[s..], readRows, d).thrown
    {
      var streamName := streams[s];
      var responses := readRows(streamName);
      ghost var here := DrainOutcome(responses, d);
      ghost var next := RunOutcome(streams[s + 1..], readRows, d);
      RunOutcomeFrom(streams, s, readRows, d);
      Regroup(old(ctx.emitted), done, here.emitted);
      thrown := DrainStream(responses, d, ctx, outputCollector);
      if thrown.Some? {
        NothingAppended(closed);
        return;
      }
      Regroup(done, here.emitted, next.emitted);
      Regroup(closed, [streamName], next.closed);
      closed := closed + [streamName];
      done := done + here.emitted;
      s := s + 1;
    }
    assert streams[s..] == [];
    NothingAppended(done);
    NothingAppended(closed);
    thrown := None;
  }

  // ---------------------------------------------------------------------------
  // The source function

  class BigQuerySourceFunction<R> {
    var running: bool
    var numOfStreams: int
    var executerIndex: int
    var numOfExecutors: int
    const deserializer: Deserializer<R>
    var readSessionStreamList: seq<string>
    var streamNames: seq<string>

    constructor (deserializer: Deserializer<R>, readSessionStreams: seq<string>)
      ensures running
      ensures this.deserializer == deserializer
      ensures readSessionStreamList == readSessionStreams
      ensures numOfStreams == |readSessionStreams|
      ensures streamNames == []
    {
      running := true;
      this.deserializer := deserializer;
      readSessionStreamList := readSessionStreams;
      numOfStreams := |readSessionStreams|;
      streamNames := [];
      executerIndex, numOfExecutors := 0, 0;
    }

    /** open(): the runtime context supplies this subtask's index and the number of
        subtasks. The list is cleared first, then refilled with every `count`-th stream
        from `index` on, but only while the source is running. */
    method Open(index: nat, count: nat)
      requires count > 0
      modifies this
      ensures executerIndex == index && numOfExecutors == count
      ensures numOfStreams == |readSessionStreamList|
      ensures running == old(running) && readSessionStreamList == old(readSessionStreamList)
      ensures streamNames == if running then Striped(readSessionStreamList, index, count) else []
    {
      executerIndex := index;
      numOfExecutors := count;
      numOfStreams := |readSessionStreamList|;
      streamNames := [];
      var i: nat := index;
      while i < numOfStreams
        invariant executerIndex == index && numOfExecutors == count
        invariant numOfStreams == |readSessionStreamList|
        invariant running == old(running) && readSessionStreamList == old(readSessionStreamList)
        invariant running ==> streamNames + Striped(readSessionStreamList, i, count)
                              == Striped(readSessionStreamList, index, count)
        invariant !running ==> streamNames == []
        decreases numOfStreams - i
      {
        if running {
          Regroup(streamNames, [readSessionStreamList[i]], Striped(readSessionStreamList, i + count, count));
          streamNames := streamNames + [readSessionStreamList[i]];
        }
        i := i + numOfExecutors;
      }
      NothingAppended(streamNames);
    }

    /** run(): drains the assigned streams in order. `closed` lists the streams whose
        read-rows helper was closed. */
    method Run(ctx: SourceContext<R>, readRows: string -> seq<ReadRowsResponse>)
      returns (thrown: Option<Exception>, ghost closed: seq<string>)
      modifies ctx
      ensures ctx.emitted == old(ctx.emitted) + RunOutcome(streamNames, readRows, deserializer).emitted
      ensures closed == RunOutcome(streamNames, readRows, deserializer).closed
      ensures thrown == RunOutcome(streamNames, readRows, deserializer).thrown
    {
      var outputCollector := new ListCollector<R>();
      thrown, closed := DrainStreams(streamNames, readRows, deserializer, ctx, outputCollector);
    }

    /** close() only lowers the running flag. */
    method Close()
      modifies this`running
      ensures !running
    {
      running := false;
    }

    /** cancel() does nothing. */
    method Cancel()
      ensures unchanged(this)
    {
    }
  }

  /** Opening twice with the same runtime context yields the same stream list: open does
      not accumulate. */
  method ReopenYieldsSameAssignment<R>(src: BigQuerySourceFunction<R>, index: nat, count: nat)
    returns (first: seq<string>)
    requires count > 0
    modifies src
    ensures src.streamNames == first
  {
    src.Open(index, count);
    first := src.streamNames;
    src.Open(index, count);
  }

  /** After close(), a new open() assigns no streams. */
  method OpenAfterCloseAssignsNothing<R>(src: BigQuerySourceFunction<R>, index: nat, count: nat)
    requires count > 0
    modifies src
    ensures src.streamNames == []
  {
    src.Close();
    src.Open(index, count);
  }
}
