/**
 * The advice woven around `execute*()` on JDBC prepared statements: the
 * enter hook guards against re-entry with a per-thread call-depth counter
 * and starts one "database.query" span for the outermost call; the exit hook
 * reports the error, finishes the span and releases the counter.
 *
 * One thread is modelled. Its counter for `PreparedStatement.class`, the
 * tracer calls it makes (recorded as events, in order) and the source of
 * fresh span identities make up an `AgentThread`.
 */
module PreparedStatementInstrumentation {
  import opened Wrappers

  type SpanId = nat

  datatype Statement = Statement(id: nat, className: string)
  datatype Connection = Connection(id: nat)
  datatype Throwable = Throwable(className: string, message: string)

  /** The scope returned by activating a span. */
  datatype Scope = Scope(span: SpanId)

  const OperationName: string := "database.query"
  const OriginTypeTag: string := "span.origin.type"

  /** One effect the hooks have on the tracer or on the call-depth counter. */
  datatype Event =
    | StartSpan(span: SpanId, operationName: string)
    | AfterStart(span: SpanId)
    | OnConnection(span: SpanId, connection: Connection)
    | OnPreparedStatement(span: SpanId, statement: Statement)
    | SetTag(span: SpanId, key: string, value: string)
    | Activate(span: SpanId, finishOnClose: bool)
    | OnError(span: SpanId, thrown: Option<Throwable>)
    | BeforeFinish(span: SpanId)
    | CloseScope(span: SpanId)
    | ResetCallDepth

  /** What one thread has done so far, as a value. */
  datatype ThreadState = ThreadState(depth: nat, events: seq<Event>, nextSpan: SpanId)

  datatype EnterResult = EnterResult(state: ThreadState, scope: Option<Scope>)

  /** The tracer calls the enter hook makes for a span it starts. */
  function SpanStartEvents(span: SpanId, statement: Statement, connection: Connection): seq<Event>
  {
    [ StartSpan(span, OperationName),
      AfterStart(span),
      OnConnection(span, connection),
      OnPreparedStatement(span, statement),
      SetTag(span, OriginTypeTag, statement.className),
      Activate(span, true) ]
  }

  /** The calls the exit hook makes for a non-null scope. */
  function SpanStopEvents(span: SpanId, thrown: Option<Throwable>): seq<Event>
  {
    [OnError(span, thrown), BeforeFinish(span), CloseScope(span), ResetCallDepth]
  }

  /** The number of spans started in an event log. */
  function CountStarts(events: seq<Event>): nat
  {
    if events == [] then 0
    else CountStarts(events[..|events| - 1]) + (if events[|events| - 1].StartSpan? then 1 else 0)
  }

  /**
   * The enter hook as written: the counter is incremented first, whatever
   * happens next; a nested call, or a statement whose connection cannot be
   * resolved, gets no scope and leaves the tracer untouched; otherwise one
   * span is started, decorated and activated.
   */
  function Enter(s: ThreadState, statement: Statement, connection: Option<Connection>): (r: EnterResult)
    ensures r.state.depth == s.depth + 1
    ensures r.scope.Some? <==> s.depth == 0 && connection.Some?
    ensures r.scope.None? ==> r.state.events == s.events && r.state.nextSpan == s.nextSpan
    ensures r.scope.Some? ==>
      r.scope.value.span == s.nextSpan && r.state.nextSpan == s.nextSpan + 1 &&
      r.state.events == s.events + SpanStartEvents(s.nextSpan, statement, connection.value)
  {
    var incremented := s.(depth := s.depth + 1);
    if s.depth > 0 then EnterResult(incremented, None)
    else if connection.None? then EnterResult(incremented, None)
    else
      var span := s.nextSpan;
      EnterResult(
        incremented.(events := s.events + SpanStartEvents(span, statement, connection.value), nextSpan := span + 1),
        Some(Scope(span)))
  }

  /**
   * The exit hook: nothing at all for a null scope; otherwise the error (or
   * its absence) is reported, the span prepared and closed, and only then the
   * counter reset.
   */
  function Exit(s: ThreadState, scope: Option<Scope>, thrown: Option<Throwable>): (r: ThreadState)
    ensures scope.None? ==> r == s
    ensures scope.Some? ==>
      r.depth == 0 && r.nextSpan == s.nextSpan &&
      r.events == s.events + SpanStopEvents(scope.value.span, thrown)
  {
    match scope
    case None => s
    case Some(sc) => s.(depth := 0, events := s.events + SpanStopEvents(sc.span, thrown))
  }

  /**
   * The thread the hooks run on: its call-depth entry for
   * `PreparedStatement.class`, the log of tracer calls, and the next span id.
   */
  class AgentThread {
    var callDepth: nat
    var events: seq<Event>
    var nextSpan: SpanId

    ghost function State(): ThreadState
      reads this
    {
      ThreadState(callDepth, events, nextSpan)
    }

    constructor ()
      ensures State() == ThreadState(0, [], 0)
    {
      callDepth, events, nextSpan := 0, [], 0;
    }

    /** `CallDepthThreadLocalMap.incrementCallDepth`: returns the depth before the increment. */
    method IncrementCallDepth() returns (previous: nat)
      modifies this
      ensures previous == old(callDepth)
      ensures State() == old(State()).(depth := old(callDepth) + 1)
    {
      previous := callDepth;
      callDepth := callDepth + 1;
    }

    /** `CallDepthThreadLocalMap.reset`. */
    method ResetCallDepth()
      modifies this
      ensures State() == old(State()).(depth := 0, events := old(events) + [Event.ResetCallDepth])
    {
      callDepth := 0;
      events := events + [Event.ResetCallDepth];
    }

    method StartSpan(operationName: string) returns (span: SpanId)
      modifies this
      ensures span == old(nextSpan)
      ensures State() == old(State()).(events := old(events) + [Event.StartSpan(span, operationName)], nextSpan := span + 1)
    {
      span := nextSpan;
      nextSpan := nextSpan + 1;
      events := events + [Event.StartSpan(span, operationName)];
    }

    /** Records a tracer call that neither starts a span nor touches the counter. */
    method Record(e: Event)
      requires !e.StartSpan? && !e.ResetCallDepth?
      modifies this
      ensures State() == old(State()).(events := old(events) + [e])
    {
      events := events + [e];
    }

    method ActivateSpan(span: SpanId, finishOnClose: bool) returns (scope: Scope)
      modifies this
      ensures scope == Scope(span)
      ensures State() == old(State()).(events := old(events) + [Activate(span, finishOnClose)])
    {
      Record(Activate(span, finishOnClose));
      scope := Scope(span);
    }
  }

  /**
   * `PreparedStatementAdvice.onEnter`. `connectionFromStatement` is the
   * resolver; None stands for a null connection.
   */
  method OnEnter(t: AgentThread, statement: Statement, connectionFromStatement: Statement -> Option<Connection>)
    returns (scope: Option<Scope>)
    modifies t
    ensures var r := Enter(old(t.State()), statement, connectionFromStatement(statement));
      t.State() == r.state && scope == r.scope
  {
    var callDepth := t.IncrementCallDepth();
    if callDepth > 0 {
      return None;
    }
    var connection := connectionFromStatement(statement);
    if connection.None? {
      return None;
    }
    var span := t.StartSpan(OperationName);
    t.Record(AfterStart(span));
    t.Record(OnConnection(span, connection.value));
    t.Record(OnPreparedStatement(span, statement));
    t.Record(SetTag(span, OriginTypeTag, statement.className));
    var activated := t.ActivateSpan(span, true);
    return Some(activated);
  }

  /**
   * `PreparedStatementAdvice.stopSpan`, run whether or not the wrapped call
   * threw; `thrown` is what it threw, if anything.
   */
  method StopSpan(t: AgentThread, scope: Option<Scope>, thrown: Option<Throwable>)
    modifies t
    ensures t.State() == Exit(old(t.State()), scope, thrown)
  {
    if scope.None? {
      return;
    }
    t.Record(OnError(scope.value.span, thrown));
    t.Record(BeforeFinish(scope.value.span));
    t.Record(CloseScope(scope.value.span));
    t.ResetCallDepth();
  }

  /** One instrumented `execute` call: its statement, what the resolver gives, what it throws. */
  datatype Call = Call(statement: Statement, connection: Option<Connection>, thrown: Option<Throwable>)

  /**
   * An instrumented call together with the instrumented calls its body
   * makes, in order, as when one `execute*()` method delegates to others.
   */
  datatype Invocation = Invocation(call: Call, body: seq<Invocation>)

  /** The advice as written, or corrected to hold the counter until the outermost exit. */
  datatype Advice = AsWritten | HoldUntilExit

  /** What the corrected enter hook hands to its exit hook. */
  datatype HeldEntry = HeldEntry(state: ThreadState, scope: Option<Scope>, outermost: bool)

  /**
   * The corrected enter hook: the same effects and scope as `Enter`, and it
   * also tells the exit hook whether this call took the counter from 0.
   */
  function EnterHolding(s: ThreadState, statement: Statement, connection: Option<Connection>): (r: HeldEntry)
    ensures r.outermost <==> s.depth == 0
    ensures r.state.depth == s.depth + 1
    ensures r.scope.Some? <==> r.outermost && connection.Some?
    ensures EnterResult(r.state, r.scope) == Enter(s, statement, connection)
  {
    var entered := Enter(s, statement, connection);
    HeldEntry(entered.state, entered.scope, s.depth == 0)
  }

  /**
   * The corrected exit hook: `Exit` for a call that started a span; for an
   * outermost call that started none, only the counter reset; for a nested
   * call, nothing.
   */
  function ExitHolding(s: ThreadState, scope: Option<Scope>, outermost: bool, thrown: Option<Throwable>)
    : (r: ThreadState)
    ensures scope.Some? ==> r == Exit(s, scope, thrown)
    ensures scope.None? && outermost ==> r == s.(depth := 0, events := s.events + [ResetCallDepth])
    ensures scope.None? && !outermost ==> r == s
  {
    if scope.Some? then Exit(s, scope, thrown)
    else if outermost then s.(depth := 0, events := s.events + [ResetCallDepth])
    else s
  }

  /** One invocation on a thread: enter hook, the calls of the body, exit hook. */
  function Run(advice: Advice, s: ThreadState, inv: Invocation): ThreadState
    decreases inv
  {
    match advice
    case AsWritten =>
      var entered := Enter(s, inv.call.statement, inv.call.connection);
      Exit(RunAll(advice, entered.state, inv.body), entered.scope, inv.call.thrown)
    case HoldUntilExit =>
      var entered := EnterHolding(s, inv.call.statement, inv.call.connection);
      ExitHolding(RunAll(advice, entered.state, inv.body), entered.scope, entered.outermost, inv.call.thrown)
  }

  /** Consecutive invocations on one thread. */
  function RunAll(advice: Advice, s: ThreadState, invs: seq<Invocation>): ThreadState
    decreases invs
  {
    if invs == [] then s else RunAll(advice, Run(advice, s, invs[0]), invs[1..])
  }

  /** The number of instrumented calls in an invocation, its own included. */
  function CallCount(inv: Invocation): nat
    decreases inv
  {
    1 + CallCountAll(inv.body)
  }

  function CallCountAll(invs: seq<Invocation>): nat
    decreases invs
  {
    if invs == [] then 0 else CallCount(invs[0]) + CallCountAll(invs[1..])
  }

  /** The number of invocations whose own call resolves a connection. */
  function Resolved(invs: seq<Invocation>): nat
  {
    if invs == [] then 0
    else (if invs[0].call.connection.Some? then 1 else 0) + Resolved(invs[1..])
  }

  lemma {:induction false} CountStartsAppend(a: seq<Event>, b: seq<Event>)
    ensures CountStarts(a + b) == CountStarts(a) + CountStarts(b)
    decreases |b|
  {
    if b == [] {
      assert a + b == a;
    } else {
      assert (a + b)[..|a + b| - 1] == a + b[..|b| - 1];
      assert (a + b)[|a + b| - 1] == b[|b| - 1];
      CountStartsAppend(a, b[..|b| - 1]);
    }
  }

  /** A log in which no event starts a span counts no span. */
  lemma {:induction false} CountStartsNone(events: seq<Event>)
    requires forall i :: 0 <= i < |events| ==> !events[i].StartSpan?
    ensures CountStarts(events) == 0
    decreases |events|
  {
    if events != [] {
      CountStartsNone(events[..|events| - 1]);
    }
  }

  /** The enter hook starts one span and the exit hook none. */
  lemma SpanEventsStartOne(span: SpanId, statement: Statement, connection: Connection, thrown: Option<Throwable>)
    ensures CountStarts(SpanStartEvents(span, statement, connection)) == 1
    ensures CountStarts(SpanStopEvents(span, thrown)) == 0
  {
    var start := SpanStartEvents(span, statement, connection);
    assert CountStarts(start[..1]) == 1 by { assert start[..1][..0] == []; }
    CountStartsNone(start[1..]);
    assert start == start[..1] + start[1..];
    CountStartsAppend(start[..1], start[1..]);
    CountStartsNone(SpanStopEvents(span, thrown));
  }

  /**
   * Calls entered while the counter is held, nested to any depth, start
   * nothing, log nothing and only raise the counter by their number.
   */
  lemma {:induction false} NestedCallsOnlyCount(advice: Advice, s: ThreadState, inv: Invocation)
    requires s.depth > 0
    ensures Run(advice, s, inv) == s.(depth := s.depth + CallCount(inv))
    decreases inv
  {
    var entered := Enter(s, inv.call.statement, inv.call.connection);
    assert entered == EnterResult(s.(depth := s.depth + 1), None);
    NestedSequenceOnlyCounts(advice, entered.state, inv.body);
  }

  lemma {:induction false} NestedSequenceOnlyCounts(advice: Advice, s: ThreadState, invs: seq<Invocation>)
    requires s.depth > 0
    ensures RunAll(advice, s, invs) == s.(depth := s.depth + CallCountAll(invs))
    decreases invs
  {
    if invs != [] {
      NestedCallsOnlyCount(advice, s, invs[0]);
      NestedSequenceOnlyCounts(advice, Run(advice, s, invs[0]), invs[1..]);
    }
  }

  /**
   * Re-entrancy collapse: an outermost call that resolves a connection,
   * whatever calls it nests, produces exactly one span, fully decorated,
   * finished once, and leaves the counter at 0.
   */
  lemma {:induction false} OutermostCallProducesOneSpan(advice: Advice, s: ThreadState, inv: Invocation)
    requires s.depth == 0 && inv.call.connection.Some?
    ensures Run(advice, s, inv) ==
      ThreadState(
        0,
        s.events + SpanStartEvents(s.nextSpan, inv.call.statement, inv.call.connection.value)
                 + SpanStopEvents(s.nextSpan, inv.call.thrown),
        s.nextSpan + 1)
    ensures CountStarts(Run(advice, s, inv).events) == CountStarts(s.events) + 1
  {
    var entered := Enter(s, inv.call.statement, inv.call.connection);
    NestedSequenceOnlyCounts(advice, entered.state, inv.body);
    var start := SpanStartEvents(s.nextSpan, inv.call.statement, inv.call.connection.value);
    var stop := SpanStopEvents(s.nextSpan, inv.call.thrown);
    SpanEventsStartOne(s.nextSpan, inv.call.statement, inv.call.connection.value, inv.call.thrown);
    CountStartsAppend(s.events, start);
    CountStartsAppend(s.events + start, stop);
  }

  /**
   * As written, an outermost call that finds no connection starts no span
   * and never resets the counter: it stays at the number of calls made.
   */
  lemma {:induction false} MissingConnectionKeepsDepth(s: ThreadState, inv: Invocation)
    requires s.depth == 0 && inv.call.connection.None?
    ensures Run(AsWritten, s, inv) == s.(depth := CallCount(inv))
  {
    var entered := Enter(s, inv.call.statement, inv.call.connection);
    NestedSequenceOnlyCounts(AsWritten, entered.state, inv.body);
  }

  /**
   * Consequence of the above: once an outermost call has found no
   * connection, every later call on the thread only raises the counter and
   * is not traced. The counter is unbounded here; the Java `int` counter
   * would wrap after 2^31-1 increments, so this holds for the next 2^31-1
   * calls, not forever.
   */
  lemma {:induction false} MissingConnectionSuppressesLaterSpans(
    s: ThreadState, first: Invocation, later: seq<Invocation>)
    requires s.depth == 0 && first.call.connection.None?
    ensures RunAll(AsWritten, Run(AsWritten, s, first), later) ==
      s.(depth := CallCount(first) + CallCountAll(later))
  {
    MissingConnectionKeepsDepth(s, first);
    NestedSequenceOnlyCounts(AsWritten, s.(depth := CallCount(first)), later);
  }

  /**
   * With the corrected advice, an outermost call that finds no connection
   * keeps the counter held through its whole body, so nothing nested in it
   * is traced, and releases it at its exit.
   */
  lemma {:induction false} HoldingMissingConnection(s: ThreadState, inv: Invocation)
    requires s.depth == 0 && inv.call.connection.None?
    ensures Run(HoldUntilExit, s, inv) == s.(events := s.events + [ResetCallDepth])
    ensures CountStarts(Run(HoldUntilExit, s, inv).events) == CountStarts(s.events)
  {
    var entered := EnterHolding(s, inv.call.statement, inv.call.connection);
    NestedSequenceOnlyCounts(HoldUntilExit, entered.state, inv.body);
    CountStartsNone([ResetCallDepth]);
    CountStartsAppend(s.events, [ResetCallDepth]);
  }

  /**
   * With the corrected advice, any sequence of outermost invocations that
   * starts with the counter at 0 ends with it at 0, and starts one span for
   * each invocation whose call resolves a connection.
   */
  lemma {:induction false} HoldingRestoresDepth(s: ThreadState, invs: seq<Invocation>)
    requires s.depth == 0
    ensures RunAll(HoldUntilExit, s, invs).depth == 0
    ensures CountStarts(RunAll(HoldUntilExit, s, invs).events) == CountStarts(s.events) + Resolved(invs)
    decreases invs
  {
    if invs != [] {
      if invs[0].call.connection.Some? {
        OutermostCallProducesOneSpan(HoldUntilExit, s, invs[0]);
      } else {
        HoldingMissingConnection(s, invs[0]);
      }
      HoldingRestoresDepth(Run(HoldUntilExit, s, invs[0]), invs[1..]);
    }
  }

  /**
   * One span per outermost invocation: a thread that runs n invocations,
   * each resolving a connection at its own call, starts n spans and ends
   * with the counter at 0.
   */
  lemma {:induction false} SessionSpanCount(advice: Advice, s: ThreadState, invs: seq<Invocation>)
    requires s.depth == 0
    requires forall i :: 0 <= i < |invs| ==> invs[i].call.connection.Some?
    ensures RunAll(advice, s, invs).depth == 0
    ensures CountStarts(RunAll(advice, s, invs).events) == CountStarts(s.events) + |invs|
    decreases invs
  {
    if invs != [] {
      OutermostCallProducesOneSpan(advice, s, invs[0]);
      var rest := invs[1..];
      assert forall i :: 0 <= i < |rest| ==> rest[i] == invs[i + 1];
      SessionSpanCount(advice, Run(advice, s, invs[0]), rest);
    }
  }
}
