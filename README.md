# Trace submission buffers, responses and the JDBC prepared-statement advice

This project models two sequential pieces of a Java tracing agent and proves properties about them in Dafny.

- **`Api`** (`api.dfy`) covers the trace-submission interface.
  - **`SerializedBuffer`** has two variants. The streaming variant is a growable byte-array output stream: the encoder appends to it and the sender reads the same internal array through `writeTo`. The predetermined variant wraps a given array and treats it as read-only.
  - **`Response`** is the immutable record of one send attempt. It is built only through six factory methods and two private constructors.
  - The model's `Outcome` sum type classifies a response as transport failure, HTTP failure, or HTTP success with a body. `Build` and `Classify` convert between a response and its outcome, and lemmas prove they are inverses.
- **`PreparedStatementInstrumentation`** (`prepared_statement_instrumentation.dfy`) covers the enter and exit advice woven around `execute*()` on JDBC prepared statements.
  - One thread is modelled. Its state is a class `AgentThread` holding three things:
    - the call-depth counter for `PreparedStatement.class`;
    - a log of the tracer calls the hooks make, in order;
    - the source of fresh span identities.
  - `OnEnter` and `StopSpan` are imperative methods. They are proved against the pure transition functions `Enter` and `Exit`.
  - An `Invocation` is a call together with the instrumented calls its body makes, so nested calls form a tree. `Run` plays one invocation on a thread and `RunAll` plays consecutive ones. Lemmas over these runs state the re-entrancy behaviour.
- `wrappers.dfy` holds `Option`. `None` stands for a Java null.

In three places the code's behaviour is worth spelling out, because it differs from what a reader of the interface might assume. The model follows the code:

- **writeTo bounds.** The streaming `writeTo` passes the raw internal array to `OutputStream.write`. Its bounds are therefore checked against the array's capacity, not against `length()`. A region past the written bytes but inside the capacity is emitted without error. `StreamingSerializedBuffer.WriteTo` states this. It also proves that every region inside `length()` emits exactly that slice of the written bytes.
- **Null arguments to factories.** The factories accept null references, so a null argument is modelled as `None`. In particular, `failed(null)` has neither a status nor an exception (`AbsentArguments`). So the class comment's promise that a failed communication carries an exception (Api.java:72-73) holds only for a non-null argument.
- **Counter reset on a null connection.** Consider an outermost call whose connection resolves to null. The counter is not reset, so it is not back to zero after that call's exit. See Findings.

## Model

| member | source | states |
|---|---|---|
| `Api.StreamingSerializedBuffer.constructor` | dd-trace-ot/src/main/java/datadog/trace/common/writer/Api.java:27-29 | a new buffer holds no bytes and has a zero-filled array of exactly the requested capacity (the zero tail is part of `Valid()`) |
| `Api.StreamingSerializedBuffer.Length` | dd-trace-ot/src/main/java/datadog/trace/common/writer/Api.java:31-33 | `length()` is the number of bytes written so far |
| `Api.NewCapacity` | dd-trace-ot/src/main/java/datadog/trace/common/writer/Api.java:25-26 | when the array is too small, the inherited growth policy picks a capacity that holds the needed bytes and is at least double the old one (whichever of the two is larger) |
| `Api.CapacityFor` | dd-trace-ot/src/main/java/datadog/trace/common/writer/Api.java:25-26 | making room for a number of bytes keeps the capacity when it suffices, and otherwise gives exactly the grown capacity; either way the result holds the old capacity and the needed bytes |
| `Api.ToByte` | dd-trace-ot/src/main/java/datadog/trace/common/writer/Api.java:25-26 | the narrowing applied by `write(int)`: the result is congruent to the argument modulo 256, and equals it when it already fits a signed byte |
| `Api.StreamingSerializedBuffer.EnsureCapacity` | dd-trace-ot/src/main/java/datadog/trace/common/writer/Api.java:25-26 | keeps the same array when it already holds the needed bytes, and otherwise installs a fresh one of exactly the grown capacity (`CapacityFor`). The written bytes, their count and the zero tail are unchanged |
| `Api.StreamingSerializedBuffer.Grow` | dd-trace-ot/src/main/java/datadog/trace/common/writer/Api.java:25-26 | growth copies the whole old array into a fresh one of exactly the grown capacity; the cells past the written bytes stay zero |
| `Api.StreamingSerializedBuffer.Write` | dd-trace-ot/src/main/java/datadog/trace/common/writer/Api.java:25-26 | `write(int)` appends exactly the low 8 bits of its argument, read as a signed byte. The capacity afterwards is exactly `CapacityFor(old capacity, count + 1)`, with the same array when there was room |
| `Api.StreamingSerializedBuffer.WriteBytes` | dd-trace-ot/src/main/java/datadog/trace/common/writer/Api.java:25-26 | `write(b, off, len)` appends exactly `b[off..off+len]` when the region is inside `b`, with the capacity exactly `CapacityFor(old capacity, count + len)`. Otherwise it reports the out-of-bounds failure and changes nothing |
| `Api.StreamingSerializedBuffer.WriteTo` | dd-trace-ot/src/main/java/datadog/trace/common/writer/Api.java:35-37 | emits exactly `buf[s..s+n]` of the internal array. It fails, writing nothing, only when that region leaves the array. Inside `length()` it emits that slice of the written bytes; past `length()` the array holds zeros (`Valid()`) |
| `Api.StreamingSerializedBuffer.ToByteArray` | dd-trace-ot/src/main/java/datadog/trace/common/writer/Api.java:22-25 | returns a fresh array equal to the written bytes |
| `Api.PredeterminedByteArraySerializedBuffer.constructor` | dd-trace-ot/src/main/java/datadog/trace/common/writer/Api.java:43-45 | wraps the given array itself |
| `Api.PredeterminedByteArraySerializedBuffer.Length` | dd-trace-ot/src/main/java/datadog/trace/common/writer/Api.java:51-53 | `length()` is the length of the wrapped array |
| `Api.PredeterminedByteArraySerializedBuffer.WriteTo` | dd-trace-ot/src/main/java/datadog/trace/common/writer/Api.java:47-49 | emits exactly `buf[s..s+n]` of the wrapped array, or fails and writes nothing when the region leaves it |
| `Api.PredeterminedByteArraySerializedBuffer.ToByteArray` | dd-trace-ot/src/main/java/datadog/trace/common/writer/Api.java:55-57 | returns the wrapped array itself, not a copy |
| `Api.SerializedBuffer.Length` | dd-trace-ot/src/main/java/datadog/trace/common/writer/Api.java:17-18 | for either variant, `length()` is the size of the logical byte sequence |
| `Api.SerializedBuffer.WriteTo` | dd-trace-ot/src/main/java/datadog/trace/common/writer/Api.java:20 | for either variant, a region inside `length()` emits that slice of the logical bytes; the bounds actually checked are those of the backing array |
| `Api.SerializedBuffer.ToByteArray` | dd-trace-ot/src/main/java/datadog/trace/common/writer/Api.java:22 | for either variant, returns the logical bytes: a fresh copy for the streaming buffer, the wrapped array itself for the frozen one |
| `Api.WriteWhole` | dd-trace-ot/src/main/java/datadog/trace/common/writer/Api.java:20-22 | `writeTo(out, 0, length())` emits the same byte sequence that `toByteArray()` returns |
| `Api.WithContent` | dd-trace-ot/src/main/java/datadog/trace/common/writer/Api.java:120-130 | the text-body constructor always leaves `json` null and stores the other fields as given |
| `Api.WithJson` | dd-trace-ot/src/main/java/datadog/trace/common/writer/Api.java:132-142 | the JSON-body constructor always leaves `content` null and stores the other fields as given |
| `Api.Success` | dd-trace-ot/src/main/java/datadog/trace/common/writer/Api.java:85-87 | success with the status set and no body or exception |
| `Api.SuccessWithJson` | dd-trace-ot/src/main/java/datadog/trace/common/writer/Api.java:90-92 | success with the status set and the given JSON; no text or exception |
| `Api.SuccessWithContent` | dd-trace-ot/src/main/java/datadog/trace/common/writer/Api.java:95-97 | success with the status set and the given text; no JSON or exception |
| `Api.SuccessWithException` | dd-trace-ot/src/main/java/datadog/trace/common/writer/Api.java:100-102 | success with the status set and the exception, but no body |
| `Api.Failed` | dd-trace-ot/src/main/java/datadog/trace/common/writer/Api.java:105-107 | not a success; the status is set; JSON, text and exception are all null |
| `Api.FailedWithException` | dd-trace-ot/src/main/java/datadog/trace/common/writer/Api.java:110-112 | not a success; no status; the exception as given; no body |
| `Api.ClassifyBuild` | dd-trace-ot/src/main/java/datadog/trace/common/writer/Api.java:69-112 | every response a factory builds is read back as the outcome it was built for (transport failure, HTTP failure, or success with its body) |
| `Api.BuildClassify` | dd-trace-ot/src/main/java/datadog/trace/common/writer/Api.java:84-142 | a response that classifies at all is exactly what the factory for its outcome builds |
| `Api.FactoryInvariants` | dd-trace-ot/src/main/java/datadog/trace/common/writer/Api.java:84-142 | every factory result meets these invariants: a success has a status; JSON and text are never both present; an exception excludes a body; a failure has no body; a failure with a status has no exception; the status is absent exactly for transport failures |
| `Api.AbsentArguments` | dd-trace-ot/src/main/java/datadog/trace/common/writer/Api.java:89-112 | a null body passed to a success factory gives `success(status)`; `failed(null)` has neither status nor exception |
| `PreparedStatementInstrumentation.AgentThread.IncrementCallDepth` | dd-java-agent/instrumentation/jdbc/src/main/java/datadog/trace/instrumentation/jdbc/PreparedStatementInstrumentation.java:83 | returns the depth before the increment and raises it by one |
| `PreparedStatementInstrumentation.AgentThread.ResetCallDepth` | dd-java-agent/instrumentation/jdbc/src/main/java/datadog/trace/instrumentation/jdbc/PreparedStatementInstrumentation.java:110 | sets the depth to zero and records the reset in the log |
| `PreparedStatementInstrumentation.Enter` | dd-java-agent/instrumentation/jdbc/src/main/java/datadog/trace/instrumentation/jdbc/PreparedStatementInstrumentation.java:82-99 | the depth always rises by one. A scope is returned exactly when the call is outermost and a connection is found. If not, nothing is logged and no span is started. If so, exactly one `database.query` span is started, decorated in order (afterStart, onConnection, onPreparedStatement, the `span.origin.type` tag with the statement's class name) and activated with finish-on-close |
| `PreparedStatementInstrumentation.Exit` | dd-java-agent/instrumentation/jdbc/src/main/java/datadog/trace/instrumentation/jdbc/PreparedStatementInstrumentation.java:102-111 | with a null scope, nothing changes at all. Otherwise, in order: `onError` with the throwable or its absence, `beforeFinish`, `close`, then the reset to depth zero |
| `PreparedStatementInstrumentation.OnEnter` | dd-java-agent/instrumentation/jdbc/src/main/java/datadog/trace/instrumentation/jdbc/PreparedStatementInstrumentation.java:81-99 | the imperative enter hook changes the thread and returns the scope exactly as `Enter` describes |
| `PreparedStatementInstrumentation.StopSpan` | dd-java-agent/instrumentation/jdbc/src/main/java/datadog/trace/instrumentation/jdbc/PreparedStatementInstrumentation.java:101-111 | the imperative exit hook changes the thread exactly as `Exit` describes, whether or not the wrapped call threw |
| `PreparedStatementInstrumentation.SpanEventsStartOne` | dd-java-agent/instrumentation/jdbc/src/main/java/datadog/trace/instrumentation/jdbc/PreparedStatementInstrumentation.java:93-110 | the enter hook's calls start exactly one span, and the exit hook's calls start none |
| `PreparedStatementInstrumentation.NestedCallsOnlyCount` | dd-java-agent/instrumentation/jdbc/src/main/java/datadog/trace/instrumentation/jdbc/PreparedStatementInstrumentation.java:83-86 | an invocation entered while the counter is held, with any tree of calls nested in it, starts no span, logs nothing, and only raises the depth by its number of calls |
| `PreparedStatementInstrumentation.NestedSequenceOnlyCounts` | dd-java-agent/instrumentation/jdbc/src/main/java/datadog/trace/instrumentation/jdbc/PreparedStatementInstrumentation.java:83-86 | the same for consecutive invocations entered while the counter is held |
| `PreparedStatementInstrumentation.OutermostCallProducesOneSpan` | dd-java-agent/instrumentation/jdbc/src/main/java/datadog/trace/instrumentation/jdbc/PreparedStatementInstrumentation.java:83-110 | an outermost call that finds a connection, whatever calls it nests, produces exactly one span, with its decorations and its single stop sequence, and the depth is 0 afterwards |
| `PreparedStatementInstrumentation.MissingConnectionKeepsDepth` | dd-java-agent/instrumentation/jdbc/src/main/java/datadog/trace/instrumentation/jdbc/PreparedStatementInstrumentation.java:83-91 | as written, an outermost call that finds no connection logs nothing, and the depth stays at the number of calls in the invocation |
| `PreparedStatementInstrumentation.MissingConnectionSuppressesLaterSpans` | dd-java-agent/instrumentation/jdbc/src/main/java/datadog/trace/instrumentation/jdbc/PreparedStatementInstrumentation.java:83-91 | as written, after such an invocation every later call on the thread is treated as nested and not traced: with the counter unbounded here, for all later calls; with Java's `int` counter, for the next 2^31-1 calls |
| `PreparedStatementInstrumentation.EnterHolding` | dd-java-agent/instrumentation/jdbc/src/main/java/datadog/trace/instrumentation/jdbc/PreparedStatementInstrumentation.java:88-91 | corrected enter hook: the same state and scope as the enter hook as written, and it also reports whether this call took the counter from 0 |
| `PreparedStatementInstrumentation.ExitHolding` | dd-java-agent/instrumentation/jdbc/src/main/java/datadog/trace/instrumentation/jdbc/PreparedStatementInstrumentation.java:104-110 | corrected exit hook: for a span, exactly the exit hook as written; for an outermost call without a span, only the reset to 0; for a nested call, nothing |
| `PreparedStatementInstrumentation.HoldingMissingConnection` | dd-java-agent/instrumentation/jdbc/src/main/java/datadog/trace/instrumentation/jdbc/PreparedStatementInstrumentation.java:88-91 | with the corrected hooks, an outermost call that finds no connection keeps the counter held through its body, so nothing nested in it is traced, and its exit releases the counter to 0 |
| `PreparedStatementInstrumentation.HoldingRestoresDepth` | dd-java-agent/instrumentation/jdbc/src/main/java/datadog/trace/instrumentation/jdbc/PreparedStatementInstrumentation.java:83-110 | with the corrected hooks, any sequence of invocations starting at depth 0 ends at depth 0, and starts exactly one span per invocation whose call finds a connection |
| `PreparedStatementInstrumentation.SessionSpanCount` | dd-java-agent/instrumentation/jdbc/src/main/java/datadog/trace/instrumentation/jdbc/PreparedStatementInstrumentation.java:83-110 | consecutive outermost invocations that each find a connection start one span apiece and leave the depth at 0 |

## Findings

| source | as written | input that shows it | evidently intended | confidence | as-written member | corrected member |
|---|---|---|---|---|---|---|
| dd-java-agent/instrumentation/jdbc/src/main/java/datadog/trace/instrumentation/jdbc/PreparedStatementInstrumentation.java:88-91 | the enter hook returns null after incrementing the call depth. The exit hook returns early on a null scope, so `reset` never runs | on one thread, an outermost `execute()` whose statement resolves to a null connection, then an `execute()` whose statement has a connection: calls 2 through 2^31 (2^31-1 calls, the second included) are not traced, until the `int` counter wraps | keep the counter held through the body of that call and release it at its exit, so that it is zero again after the outermost exit and later calls are traced | medium, not executed | `PreparedStatementInstrumentation.MissingConnectionSuppressesLaterSpans` | `PreparedStatementInstrumentation.HoldingRestoresDepth` |

The advice model (`Enter`, `Exit`, `OnEnter`, `StopSpan`) keeps the code as written. The corrected pair `EnterHolding` and `ExitHolding` sits beside it: the enter hook also hands its exit hook whether it was the outermost call, and that exit hook resets the counter even when no span was started. `Run` and `RunAll` take the advice as a parameter, so the lemmas that hold for both (`NestedCallsOnlyCount`, `OutermostCallProducesOneSpan`, `SessionSpanCount`) are proved once for either.

## Left out

- `sendTraces`, `serializeTrace` and `sendSerializedTraces` are interface signatures with no body at this layer. The two sender implementations, HTTP framing and the HTTP client are not part of this model.
- `ResponseListener` is a callback interface with one method, `onResponse(endpoint, json)`. Nothing in this layer implements or calls it, so it is not modelled. `JsonNode` and `Throwable` are foreign types. In `Response` they are the opaque type parameters `J` and `E`.
- The `Response` accessors are the datatype's fields. They hold no logic of their own.
- `typeMatcher`, `transformers`, `helperClassNames` and the instrumenter's constructor are weaver configuration, with no behaviour to state.
- The counter is thread-local in the agent. Only one thread, and only the `PreparedStatement.class` key, are modelled. "Reset removes the entry" is modelled as depth zero.
- The `suppress = Throwable.class` machinery is left out: the hooks are modelled as never throwing. The internals of `connectionFromStatement`, `JDBCDecorator` and spans are left out too: the resolver is an oracle, and the decorator and span calls are recorded as events.
- I/O errors from the output stream are not modelled. `ByteSink` accepts every in-bounds write.
- `Api.NewCapacity`: does not model the overflow branch of the growth policy (capacities beyond the largest array size), because integers here are unbounded.
- `PreparedStatementInstrumentation.MissingConnectionSuppressesLaterSpans`: the call depth is an unbounded natural number here, while the value `incrementCallDepth` returns is a Java `int` (PreparedStatementInstrumentation.java:83). After 2^31-1 suppressed increments that `int` wraps to a negative value. The next call then passes the `callDepth > 0` test, is traced if it finds a connection, and its exit resets the counter. So the suppression the lemma proves for all later calls holds in Java only for the next 2^31-1 calls.
- `PreparedStatementInstrumentation.AgentThread.IncrementCallDepth`: the counter does not wrap at the Java `int` limit. The implementation of `CallDepthThreadLocalMap` is not part of this model.
- `Api.StreamingSerializedBuffer.Length`: a Java `int` is modelled as an unbounded integer. Buffers of 2^31 bytes or more are not modelled.
- `Api.StreamingSerializedBuffer.constructor`: takes a natural number. The IllegalArgumentException for a negative initial capacity is not modelled.
- `Api.StreamingSerializedBuffer.WriteBytes`: the source array is taken as a value, so a buffer cannot be its own sink. In Java `b.writeTo(b, 0, b.length())` does that, because `writeTo` hands the internal array to an arbitrary output stream and the buffer is one. The result is the same as with a value, because `System.arraycopy` copies as if through a temporary array.
- The other inherited stream operations (`reset`, `toString`, `writeTo(OutputStream)`, `close`) are not used by this interface and are not modelled.
