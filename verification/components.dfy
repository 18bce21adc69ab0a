/**
 The component roles the engine routes sessions through, the registry that
 holds them, and the records a stage leaves behind.

 A component is identified by its registration index in its role's list.
 What a component's `Handle` does is not modelled by a record field but by a
 handler parameter `handle: (nat, Session) -> Reply` of the stage functions:
 the reply of the component with that index to the session it is shown.
 */
module Components {
  import opened Topics
  import opened Sessions

  datatype Option<T> = None | Some(value: T)

  /** An interceptor: its topic expressions and its current priority. */
  datatype Interceptor = Interceptor(exprs: seq<TopicExpr>, priority: int)

  /** A driver: its topic expressions. */
  datatype Driver = Driver(exprs: seq<TopicExpr>)

  /** A protocol pipeline, known by its configured instance name. */
  datatype Pipeline = Pipeline(instance: string)

  /** Counts of the engine-level hook functions. */
  datatype Hooks = Hooks(startBefore: nat, startAfter: nat, stopBefore: nat, stopAfter: nat)

  /**
   The component registry. Plugins and triggers only take part in the
   lifecycle, so only their number matters; pipelines are keyed by protocol.
   */
  datatype Registry = Registry(
    plugins: nat,
    pipelines: map<string, Pipeline>,
    interceptors: seq<Interceptor>,
    drivers: seq<Driver>,
    triggers: nat,
    hooks: Hooks)

  /**
   What a `Handle` call ends with: no error, the interceptor drop sentinel,
   any other error, or a panic (recovered at the stage boundary).
   */
  datatype Outcome = Nil | Dropped | Error(message: string) | Panicked

  /** A handler's outcome and the outbound data fields it added. */
  datatype Reply = Reply(outcome: Outcome, adds: Fields)

  /** One handler invocation: which component, the session it saw, what it replied. */
  datatype Call = Call(component: nat, seen: Session, reply: Reply)

  /**
   Where a stage sends the session next: the driver stage, the output stage,
   or nowhere (the stage aborted on a panic; the session is never forwarded).
   */
  datatype Next = Lv1 | Lv2 | Aborted

  datatype StageResult = StageResult(calls: seq<Call>, session: Session, next: Next)

  /** The pipeline selector handed to drivers: a lookup by protocol name. */
  function SelectPipeline(pipelines: map<string, Pipeline>, protocol: string): (r: Option<Pipeline>)
    ensures r.Some? <==> protocol in pipelines
    ensures r.Some? ==> r.value == pipelines[protocol]
  {
    if protocol in pipelines then Some(pipelines[protocol]) else None
  }

  /** The expression lists of components, in registration order. */
  function ExprLists<T>(cs: seq<T>, exprs: T -> seq<TopicExpr>): (r: seq<seq<TopicExpr>>)
    ensures |r| == |cs| && forall i :: 0 <= i < |cs| ==> r[i] == exprs(cs[i])
  {
    seq(|cs|, i requires 0 <= i < |cs| => exprs(cs[i]))
  }

  function InterceptorExprs(ic: Interceptor): seq<TopicExpr> {
    ic.exprs
  }

  function DriverExprs(d: Driver): seq<TopicExpr> {
    d.exprs
  }

  /** The priority of the interceptor at a registration index. */
  function PriorityKey(ics: seq<Interceptor>): nat -> int {
    (i: nat) => if i < |ics| then ics[i].priority else 0
  }

  /** The registration indices of the calls, in invocation order. */
  function Invoked(calls: seq<Call>): (r: seq<nat>)
    ensures |r| == |calls| && forall k :: 0 <= k < |calls| ==> r[k] == calls[k].component
  {
    seq(|calls|, k requires 0 <= k < |calls| => calls[k].component)
  }

  /** The session as the handler of `c` left it. */
  function After(c: Call): Session {
    AddDataFields(c.seen, c.reply.adds)
  }

  /** The session after the given calls, starting from `s`. */
  function Settled(s: Session, calls: seq<Call>): Session {
    if calls == [] then s else After(calls[|calls| - 1])
  }

  /**
   The calls form a faithful replay: each reply is what the handler returns
   for the session it saw; the first call sees `s`, and each later call sees
   the session its predecessor left behind.
   */
  ghost predicate Replays(calls: seq<Call>, handle: (nat, Session) -> Reply, s: Session) {
    && (forall k :: 0 <= k < |calls| ==> calls[k].reply == handle(calls[k].component, calls[k].seen))
    && (|calls| > 0 ==> calls[0].seen == s)
    && (forall j, k {:trigger calls[j], calls[k]} :: 0 <= j && k == j + 1 && k < |calls| ==> calls[k].seen == After(calls[j]))
  }

  lemma SettledCons(s: Session, c: Call, calls: seq<Call>)
    ensures Settled(s, [c] + calls) == Settled(After(c), calls)
  {
  }

  /** A call on the original session followed by a replay from the session it left. */
  lemma ReplaysCons(c: Call, calls: seq<Call>, handle: (nat, Session) -> Reply, s: Session)
    requires c.seen == s && c.reply == handle(c.component, s)
    requires Replays(calls, handle, After(c))
    ensures Replays([c] + calls, handle, s)
  {
    var all := [c] + calls;
    forall j, k | 0 <= j && k == j + 1 && k < |all|
      ensures all[k].seen == After(all[j])
    {
      if j > 0 {
        assert all[j] == calls[j - 1] && all[k] == calls[k - 1];
      }
    }
  }

  /** The calls replay the first `|calls|` components of `order`, from session `s`. */
  ghost predicate Traces(order: seq<nat>, handle: (nat, Session) -> Reply, s: Session, calls: seq<Call>) {
    && |calls| <= |order|
    && Invoked(calls) == order[..|calls|]
    && Replays(calls, handle, s)
  }

  lemma TracesCons(c: Call, calls: seq<Call>, order: seq<nat>, handle: (nat, Session) -> Reply, s: Session)
    requires |order| > 0 && c == Call(order[0], s, handle(order[0], s))
    requires Traces(order[1..], handle, After(c), calls)
    ensures Traces(order, handle, s, [c] + calls)
  {
    ReplaysCons(c, calls, handle, s);
    assert Invoked([c] + calls) == [order[0]] + Invoked(calls);
    assert order[..|calls| + 1] == [order[0]] + order[1..][..|calls|];
  }
}
