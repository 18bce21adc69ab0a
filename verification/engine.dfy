/**
 One session's whole journey through the engine: the invoker builds the
 session from the trigger event, and the dispatcher hands it from stage to
 stage, each stage only after the previous handler returned. The channels
 are replaced by the destination each handler returns.
 */
module Engine {
  import opened Topics
  import opened Sessions
  import opened Components
  import opened Stages

  /**
   What happened to one event: the interceptor and driver calls, the session
   as the last stage left it, and the arguments of every completion callback.
   */
  datatype Run = Run(interceptorCalls: seq<Call>, driverCalls: seq<Call>, final: Session, callbacks: seq<Fields>)

  /** Submits a trigger event and follows its session through the three stages. */
  function Process(reg: Registry, matches: (TopicExpr, string) -> bool, less: (int, int) -> bool,
                   interceptorHandle: (nat, Session) -> Reply, driverHandle: (nat, Session) -> Reply,
                   failFast: bool, event: TriggerEvent): (r: Run)
    ensures |r.callbacks| <= 1
    ensures r.callbacks != [] ==> r.callbacks == [r.final.outbound.data]
  {
    var s := NewSession(event);
    var a := HandleInterceptor(reg.interceptors, matches, less, interceptorHandle, failFast, s);
    match a.next
    case Aborted => Run(a.calls, [], a.session, [])
    case Lv2 => Run(a.calls, [], a.session, HandleOutput(a.session))
    case Lv1 =>
      var b := HandleDriver(reg.drivers, matches, driverHandle, failFast, a.session);
      if b.next == Lv2 then Run(a.calls, b.calls, b.session, HandleOutput(b.session))
      else Run(a.calls, b.calls, b.session, [])
  }

  /**
   The completion callback is called at most once, with the final outbound
   data; it is skipped exactly when some handler aborted its stage.
   */
  lemma CompletionAtMostOnce(reg: Registry, matches: (TopicExpr, string) -> bool, less: (int, int) -> bool,
                             interceptorHandle: (nat, Session) -> Reply, driverHandle: (nat, Session) -> Reply,
                             failFast: bool, event: TriggerEvent)
    ensures var r := Process(reg, matches, less, interceptorHandle, driverHandle, failFast, event);
      && |r.callbacks| <= 1
      && (r.callbacks != [] ==> r.callbacks == [r.final.outbound.data])
      && (r.callbacks == [] <==>
            (exists c :: c in r.interceptorCalls && InterceptorAborts(c.reply.outcome, failFast))
            || (exists c :: c in r.driverCalls && !DriverContinues(c.reply.outcome, failFast)))
  {
    var s := NewSession(event);
    var a := HandleInterceptor(reg.interceptors, matches, less, interceptorHandle, failFast, s);
    var r := Process(reg, matches, less, interceptorHandle, driverHandle, failFast, event);
    InterceptorsAbortOnlyWhenAborted(a.calls, a.next, failFast);
    if a.next == Lv1 {
      var b := HandleDriver(reg.drivers, matches, driverHandle, failFast, a.session);
      DriversAbortOnlyWhenAborted(b.calls, b.next, failFast);
      assert r == (if b.next == Lv2 then Run(a.calls, b.calls, b.session, HandleOutput(b.session))
                   else Run(a.calls, b.calls, b.session, []));
    } else {
      assert r.driverCalls == [];
    }
  }

  /** In a fan-out run, some call stops the fan-out exactly when the stage aborted. */
  lemma DriversAbortOnlyWhenAborted(calls: seq<Call>, next: Next, failFast: bool)
    requires FanOutOutcomes(calls, next, failFast)
    ensures (exists c :: c in calls && !DriverContinues(c.reply.outcome, failFast)) <==> next == Aborted
  {
    if next == Aborted {
      assert calls[|calls| - 1] in calls;
    }
    if exists c :: c in calls && !DriverContinues(c.reply.outcome, failFast) {
      var c :| c in calls && !DriverContinues(c.reply.outcome, failFast);
      var k :| 0 <= k < |calls| && calls[k] == c;
    }
  }

  /** In a chain run, some call aborts exactly when the stage aborted. */
  lemma InterceptorsAbortOnlyWhenAborted(calls: seq<Call>, next: Next, failFast: bool)
    requires ChainOutcomes(calls, next, failFast)
    ensures (exists c :: c in calls && InterceptorAborts(c.reply.outcome, failFast)) <==> next == Aborted
  {
    if next == Aborted {
      assert calls[|calls| - 1] in calls;
    }
    if exists c :: c in calls && InterceptorAborts(c.reply.outcome, failFast) {
      var c :| c in calls && InterceptorAborts(c.reply.outcome, failFast);
      var k :| 0 <= k < |calls| && calls[k] == c;
    }
  }

  /**
   A dropped session reaches the output stage with the drop recorded and no
   driver runs; conversely drivers only run when every interceptor let the
   chain go on.
   */
  lemma DropBypassesDrivers(reg: Registry, matches: (TopicExpr, string) -> bool, less: (int, int) -> bool,
                            interceptorHandle: (nat, Session) -> Reply, driverHandle: (nat, Session) -> Reply,
                            failFast: bool, event: TriggerEvent)
    ensures var r := Process(reg, matches, less, interceptorHandle, driverHandle, failFast, event);
      && ((exists c :: c in r.interceptorCalls && c.reply.outcome == Dropped) ==>
            && r.driverCalls == []
            && r.callbacks == [r.final.outbound.data]
            && ErrorKey in r.final.outbound.data && r.final.outbound.data[ErrorKey] == DroppedMarker)
      && (r.driverCalls != [] ==> forall c :: c in r.interceptorCalls ==> InterceptorContinues(c.reply.outcome, failFast))
  {
    var s := NewSession(event);
    var a := HandleInterceptor(reg.interceptors, matches, less, interceptorHandle, failFast, s);
    ChainDropFacts(a.calls, a.next, failFast);
  }

  /** In a chain, some call dropped exactly when it routed to output, and a completed chain had no stopping call. */
  lemma ChainDropFacts(calls: seq<Call>, next: Next, failFast: bool)
    requires ChainOutcomes(calls, next, failFast)
    ensures (exists c :: c in calls && c.reply.outcome == Dropped) <==> next == Lv2
    ensures next == Lv1 ==> forall c :: c in calls ==> InterceptorContinues(c.reply.outcome, failFast)
  {
    if next == Lv2 {
      assert calls[|calls| - 1] in calls;
    }
    if exists c :: c in calls && c.reply.outcome == Dropped {
      var c :| c in calls && c.reply.outcome == Dropped;
      var k :| 0 <= k < |calls| && calls[k] == c;
    }
    if next == Lv1 {
      forall c | c in calls
        ensures InterceptorContinues(c.reply.outcome, failFast)
      {
        var k :| 0 <= k < |calls| && calls[k] == c;
      }
    }
  }

  /**
   Whatever the stages do, the session keeps the event's topic and inbound
   data, and the outbound topic stays the event's topic.
   */
  lemma SessionKeepsIdentity(reg: Registry, matches: (TopicExpr, string) -> bool, less: (int, int) -> bool,
                             interceptorHandle: (nat, Session) -> Reply, driverHandle: (nat, Session) -> Reply,
                             failFast: bool, event: TriggerEvent)
    ensures var r := Process(reg, matches, less, interceptorHandle, driverHandle, failFast, event);
      && r.final.topic == event.topic
      && r.final.inbound == Inbound(event.topic, event.data)
      && r.final.outbound.topic == event.topic
  {
    var s := NewSession(event);
    var a := HandleInterceptor(reg.interceptors, matches, less, interceptorHandle, failFast, s);
    if a.next == Lv1 {
      var b := HandleDriver(reg.drivers, matches, driverHandle, failFast, a.session);
      EvolvesTransitive(s, a.session, b.session);
    }
  }

  /**
   With no interceptors every session goes straight to the driver stage
   unchanged; with no drivers straight to output unchanged; with neither,
   the callback receives the empty outbound data of a fresh session.
   */
  lemma EmptyRegistryPassThrough(reg: Registry, matches: (TopicExpr, string) -> bool, less: (int, int) -> bool,
                                 interceptorHandle: (nat, Session) -> Reply, driverHandle: (nat, Session) -> Reply,
                                 failFast: bool, event: TriggerEvent, s: Session)
    ensures reg.interceptors == [] ==>
              HandleInterceptor(reg.interceptors, matches, less, interceptorHandle, failFast, s) == StageResult([], s, Lv1)
    ensures reg.drivers == [] ==>
              HandleDriver(reg.drivers, matches, driverHandle, failFast, s) == StageResult([], s, Lv2)
    ensures reg.interceptors == [] && reg.drivers == [] ==>
              Process(reg, matches, less, interceptorHandle, driverHandle, failFast, event).callbacks == [map[]]
  {
    if reg.interceptors == [] {
      assert Matching(ExprLists(reg.interceptors, InterceptorExprs), s.topic, matches) == [];
    }
    if reg.drivers == [] {
      assert Matching(ExprLists(reg.drivers, DriverExprs), s.topic, matches) == [];
    }
  }
}
