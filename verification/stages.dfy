/**
 The three stage handlers of the engine, with the dispatcher's channels
 replaced by the returned destination `Next`.

 - interceptor stage: the matching interceptors, sorted by priority, run one
   after another; a drop short-circuits to the output stage;
 - driver stage: every matching driver runs once, in registration order,
   whatever the others replied;
 - output stage: the completion callback receives the outbound data.

 A panic inside a handler is recovered at the stage boundary and the session
 goes nowhere (`Aborted`). In fail-fast mode a handling error is logged at the
 panic level, which panics, so it aborts the stage in the same way.
 */
module Stages {
  import opened Topics
  import opened Sessions
  import opened Components
  import opened Ordering

  /** Whether the interceptor chain goes on after a handler ended with `o`. */
  predicate InterceptorContinues(o: Outcome, failFast: bool) {
    o.Nil? || (o.Error? && !failFast)
  }

  /** Whether an interceptor outcome aborts the interceptor stage: it neither continues the chain nor drops. */
  predicate InterceptorAborts(o: Outcome, failFast: bool) {
    !InterceptorContinues(o, failFast) && !o.Dropped?
  }

  /** Whether the driver fan-out goes on after a handler ended with `o`. */
  predicate DriverContinues(o: Outcome, failFast: bool) {
    o.Nil? || (!o.Panicked? && !failFast)
  }

  /** Records the drop in the outbound data. */
  function MarkDropped(s: Session): (t: Session)
    ensures Evolves(s, t)
    ensures ErrorKey in t.outbound.data && t.outbound.data[ErrorKey] == DroppedMarker
    ensures forall k :: k in s.outbound.data && k != ErrorKey ==> k in t.outbound.data && t.outbound.data[k] == s.outbound.data[k]
  {
    AddDataFields(s, map[ErrorKey := DroppedMarker])
  }

  function Continue(c: Call, rest: StageResult): StageResult {
    rest.(calls := [c] + rest.calls)
  }

  lemma AfterEvolves(c: Call)
    ensures Evolves(c.seen, After(c))
  {
  }

  /**
   How a chain of interceptor calls ended: every call but the last continued
   the chain, and the last one did exactly when the chain completed and
   routed to the driver stage (`Lv1`); the session goes to the output stage
   (`Lv2`) exactly when the last call was a drop; otherwise it aborted.
   */
  ghost predicate ChainOutcomes(calls: seq<Call>, next: Next, failFast: bool) {
    && (forall k :: 0 <= k < |calls| ==>
          (InterceptorContinues(calls[k].reply.outcome, failFast) <==> k < |calls| - 1 || next == Lv1))
    && (next != Lv1 ==> |calls| > 0)
    && (next == Lv2 <==> |calls| > 0 && calls[|calls| - 1].reply.outcome == Dropped)
  }

  /**
   The result of running the interceptors of `order` from session `s`: the
   calls replay a prefix of `order` and end as `ChainOutcomes` says; a
   completed chain ran all of `order`; the session is the one the last
   handler left, with the drop recorded if there was one, and it only gains
   outbound fields.
   */
  ghost predicate IsChainRun(order: seq<nat>, handle: (nat, Session) -> Reply, failFast: bool, s: Session, r: StageResult) {
    && Traces(order, handle, s, r.calls)
    && ChainOutcomes(r.calls, r.next, failFast)
    && (r.next == Lv1 ==> |r.calls| == |order|)
    && r.session == (if r.next == Lv2 then MarkDropped(Settled(s, r.calls)) else Settled(s, r.calls))
    && Evolves(s, r.session)
  }

  lemma ChainOutcomesCons(c: Call, calls: seq<Call>, next: Next, failFast: bool)
    requires InterceptorContinues(c.reply.outcome, failFast)
    requires ChainOutcomes(calls, next, failFast)
    ensures ChainOutcomes([c] + calls, next, failFast)
  {
    var all := [c] + calls;
    forall k | 0 <= k < |all|
      ensures InterceptorContinues(all[k].reply.outcome, failFast) <==> k < |all| - 1 || next == Lv1
    {
      if k > 0 {
        assert all[k] == calls[k - 1];
      }
    }
    if calls != [] {
      assert all[|all| - 1] == calls[|calls| - 1];
    }
  }

  lemma ChainStep(c: Call, rest: StageResult, order: seq<nat>, handle: (nat, Session) -> Reply, failFast: bool, s: Session)
    requires |order| > 0 && c == Call(order[0], s, handle(order[0], s))
    requires InterceptorContinues(c.reply.outcome, failFast)
    requires IsChainRun(order[1..], handle, failFast, After(c), rest)
    ensures IsChainRun(order, handle, failFast, s, Continue(c, rest))
  {
    var r := Continue(c, rest);
    TracesCons(c, rest.calls, order, handle, s);
    ChainOutcomesCons(c, rest.calls, rest.next, failFast);
    SettledCons(s, c, rest.calls);
    AfterEvolves(c);
    EvolvesTransitive(s, After(c), r.session);
  }

  /**
   Runs the interceptors in `order` one after another. A nil reply, and an
   error outside fail-fast mode, go on to the next one; a drop ends the chain
   and routes to output; a panic, or an error in fail-fast mode, aborts.
   */
  function Chain(order: seq<nat>, handle: (nat, Session) -> Reply, failFast: bool, s: Session): (r: StageResult)
    ensures IsChainRun(order, handle, failFast, s, r)
    decreases |order|
  {
    if order == [] then StageResult([], s, Lv1)
    else
      var c := Call(order[0], s, handle(order[0], s));
      var t := After(c);
      AfterEvolves(c);
      assert Invoked([c]) == order[..1];
      match c.reply.outcome
      case Dropped => StageResult([c], MarkDropped(t), Lv2)
      case Panicked => StageResult([c], t, Aborted)
      case Nil | Error(_) =>
        if c.reply.outcome.Error? && failFast then StageResult([c], t, Aborted)
        else
          var rest := Chain(order[1..], handle, failFast, t);
          ChainStep(c, rest, order, handle, failFast, s);
          Continue(c, rest)
  }

  /**
   How a fan-out of driver calls ended: every call but the last let it go
   on, and the last one did exactly when the session went to the output
   stage (`Lv2`); the driver stage never routes to `Lv1`, and only aborts
   after some call.
   */
  ghost predicate FanOutOutcomes(calls: seq<Call>, next: Next, failFast: bool) {
    && (forall k :: 0 <= k < |calls| ==>
          (DriverContinues(calls[k].reply.outcome, failFast) <==> k < |calls| - 1 || next == Lv2))
    && next != Lv1
    && (next == Aborted ==> |calls| > 0)
  }

  /**
   The result of running the drivers of `order` from session `s`: the calls
   replay a prefix of `order` and end as `FanOutOutcomes` says; reaching the
   output stage means all of `order` ran; the session is the one the last
   handler left, and it only gains outbound fields.
   */
  ghost predicate IsFanOutRun(order: seq<nat>, handle: (nat, Session) -> Reply, failFast: bool, s: Session, r: StageResult) {
    && Traces(order, handle, s, r.calls)
    && FanOutOutcomes(r.calls, r.next, failFast)
    && (r.next == Lv2 ==> |r.calls| == |order|)
    && r.session == Settled(s, r.calls)
    && Evolves(s, r.session)
  }

  lemma FanOutOutcomesCons(c: Call, calls: seq<Call>, next: Next, failFast: bool)
    requires DriverContinues(c.reply.outcome, failFast)
    requires FanOutOutcomes(calls, next, failFast)
    ensures FanOutOutcomes([c] + calls, next, failFast)
  {
    var all := [c] + calls;
    forall k | 0 <= k < |all|
      ensures DriverContinues(all[k].reply.outcome, failFast) <==> k < |all| - 1 || next == Lv2
    {
      if k > 0 {
        assert all[k] == calls[k - 1];
      }
    }
  }

  lemma FanOutStep(c: Call, rest: StageResult, order: seq<nat>, handle: (nat, Session) -> Reply, failFast: bool, s: Session)
    requires |order| > 0 && c == Call(order[0], s, handle(order[0], s))
    requires DriverContinues(c.reply.outcome, failFast)
    requires IsFanOutRun(order[1..], handle, failFast, After(c), rest)
    ensures IsFanOutRun(order, handle, failFast, s, Continue(c, rest))
  {
    var r := Continue(c, rest);
    TracesCons(c, rest.calls, order, handle, s);
    FanOutOutcomesCons(c, rest.calls, rest.next, failFast);
    SettledCons(s, c, rest.calls);
    AfterEvolves(c);
    EvolvesTransitive(s, After(c), r.session);
  }

  /**
   Runs the drivers in `order` one after another. Whatever a driver replies,
   the next one runs, except after a panic, or an error in fail-fast mode,
   which abort the stage.
   */
  function FanOut(order: seq<nat>, handle: (nat, Session) -> Reply, failFast: bool, s: Session): (r: StageResult)
    ensures IsFanOutRun(order, handle, failFast, s, r)
    decreases |order|
  {
    if order == [] then StageResult([], s, Lv2)
    else
      var c := Call(order[0], s, handle(order[0], s));
      var t := After(c);
      AfterEvolves(c);
      assert Invoked([c]) == order[..1];
      if c.reply.outcome.Panicked? || (!c.reply.outcome.Nil? && failFast) then StageResult([c], t, Aborted)
      else
        var rest := FanOut(order[1..], handle, failFast, t);
        FanOutStep(c, rest, order, handle, failFast, s);
        Continue(c, rest)
  }

  /** The matching interceptors, sorted by priority. */
  function PriorityOrder(ics: seq<Interceptor>, topic: string, matches: (TopicExpr, string) -> bool,
                         less: (int, int) -> bool): seq<nat>
  {
    SortBy(Matching(ExprLists(ics, InterceptorExprs), topic, matches), PriorityKey(ics), less)
  }

  /** The interceptor stage handler. */
  function HandleInterceptor(ics: seq<Interceptor>, matches: (TopicExpr, string) -> bool, less: (int, int) -> bool,
                             handle: (nat, Session) -> Reply, failFast: bool, s: Session): (r: StageResult)
    ensures IsChainRun(PriorityOrder(ics, s.topic, matches, less), handle, failFast, s, r)
  {
    Chain(PriorityOrder(ics, s.topic, matches, less), handle, failFast, s)
  }

  /** The driver stage handler: the matching drivers in registration order. */
  function HandleDriver(ds: seq<Driver>, matches: (TopicExpr, string) -> bool,
                        handle: (nat, Session) -> Reply, failFast: bool, s: Session): (r: StageResult)
    ensures IsFanOutRun(Matching(ExprLists(ds, DriverExprs), s.topic, matches), handle, failFast, s, r)
  {
    FanOut(Matching(ExprLists(ds, DriverExprs), s.topic, matches), handle, failFast, s)
  }

  /** The output stage handler: the arguments the completion callback is called with. */
  function HandleOutput(s: Session): (r: seq<Fields>)
    ensures |r| == 1 && r[0] == s.outbound.data
  {
    [s.outbound.data]
  }

  /**
   Routing of the interceptor stage: only matching interceptors run, none
   twice, in priority order; if the chain completed every matching one ran;
   and none that did not run sorts strictly before one that did.
   */
  ghost predicate RoutedByPriority(ics: seq<Interceptor>, topic: string, matches: (TopicExpr, string) -> bool,
                                   less: (int, int) -> bool, r: StageResult) {
    RunsByPriority(ics, topic, matches, less, Invoked(r.calls), r.next == Lv1)
  }

  /** The same routing properties, for the interceptors `ran` that ran, `complete` if the chain completed. */
  ghost predicate RunsByPriority(ics: seq<Interceptor>, topic: string, matches: (TopicExpr, string) -> bool,
                                 less: (int, int) -> bool, ran: seq<nat>, complete: bool) {
    && (forall k :: 0 <= k < |ran| ==> ran[k] < |ics| && AnyTopicMatches(ics[ran[k]].exprs, topic, matches))
    && Distinct(ran)
    && (forall i, j :: 0 <= i < j < |ran| ==> !less(ics[ran[j]].priority, ics[ran[i]].priority))
    && (complete ==> forall i :: 0 <= i < |ics| && AnyTopicMatches(ics[i].exprs, topic, matches) ==> i in ran)
    && (forall j, k :: 0 <= j < |ics| && AnyTopicMatches(ics[j].exprs, topic, matches) && j !in ran && 0 <= k < |ran|
          ==> !less(ics[j].priority, ics[ran[k]].priority))
  }

  /** The routing properties hold for every sorted permutation of the matching interceptors. */
  lemma {:induction false} ChainOnAnyPriorityOrder(ics: seq<Interceptor>, matches: (TopicExpr, string) -> bool,
                                                   less: (int, int) -> bool, order: seq<nat>,
                                                   handle: (nat, Session) -> Reply, failFast: bool, s: Session)
    requires IsPriorityOrder(order, Matching(ExprLists(ics, InterceptorExprs), s.topic, matches), PriorityKey(ics), less)
    ensures RoutedByPriority(ics, s.topic, matches, less, Chain(order, handle, failFast, s))
  {
    var r := Chain(order, handle, failFast, s);
    PriorityPrefix(ics, s.topic, matches, less, order, Invoked(r.calls), r.next == Lv1);
  }

  /**
   Any prefix of a sorted permutation of the matching interceptors routes by
   priority; a complete prefix is the whole permutation.
   */
  lemma PriorityPrefix(ics: seq<Interceptor>, topic: string, matches: (TopicExpr, string) -> bool,
                       less: (int, int) -> bool, order: seq<nat>, ran: seq<nat>, complete: bool)
    requires IsPriorityOrder(order, Matching(ExprLists(ics, InterceptorExprs), topic, matches), PriorityKey(ics), less)
    requires |ran| <= |order| && ran == order[..|ran|]
    requires complete ==> |ran| == |order|
    ensures RunsByPriority(ics, topic, matches, less, ran, complete)
  {
    var matched := Matching(ExprLists(ics, InterceptorExprs), topic, matches);
    var key := PriorityKey(ics);
    forall k | 0 <= k < |ran|
      ensures ran[k] < |ics| && AnyTopicMatches(ics[ran[k]].exprs, topic, matches)
    {
      assert ran[k] == order[k];
      assert ran[k] in matched;
    }
    forall i, j | 0 <= i < j < |ran|
      ensures ran[i] != ran[j] && !less(ics[ran[j]].priority, ics[ran[i]].priority)
    {
      assert ran[i] == order[i] && ran[j] == order[j];
      assert !less(key(order[j]), key(order[i]));
    }
    PrioritySkipped(ics, topic, matches, less, order, ran, complete);
  }

  /** The matching interceptors a prefix leaves out sort no earlier than any it holds. */
  lemma PrioritySkipped(ics: seq<Interceptor>, topic: string, matches: (TopicExpr, string) -> bool,
                        less: (int, int) -> bool, order: seq<nat>, ran: seq<nat>, complete: bool)
    requires IsPriorityOrder(order, Matching(ExprLists(ics, InterceptorExprs), topic, matches), PriorityKey(ics), less)
    requires |ran| <= |order| && ran == order[..|ran|]
    requires complete ==> |ran| == |order|
    requires forall k :: 0 <= k < |ran| ==> ran[k] < |ics|
    ensures complete ==> forall i :: 0 <= i < |ics| && AnyTopicMatches(ics[i].exprs, topic, matches) ==> i in ran
    ensures forall j, k :: 0 <= j < |ics| && AnyTopicMatches(ics[j].exprs, topic, matches) && j !in ran && 0 <= k < |ran|
              ==> !less(ics[j].priority, ics[ran[k]].priority)
  {
    var matched := Matching(ExprLists(ics, InterceptorExprs), topic, matches);
    var key := PriorityKey(ics);
    forall j | 0 <= j < |ics| && AnyTopicMatches(ics[j].exprs, topic, matches)
      ensures j in order
    {
      assert ExprLists(ics, InterceptorExprs)[j] == ics[j].exprs;
      assert j in matched;
    }
    if complete {
      assert ran == order;
    }
    forall j, k | 0 <= j < |ics| && AnyTopicMatches(ics[j].exprs, topic, matches) && j !in ran && 0 <= k < |ran|
      ensures !less(ics[j].priority, ics[ran[k]].priority)
    {
      var p :| 0 <= p < |order| && order[p] == j;
      assert ran[k] == order[k];
      assert !less(key(order[p]), key(order[k]));
    }
  }

  lemma MatchingIsDistinct(lists: seq<seq<TopicExpr>>, topic: string, matches: (TopicExpr, string) -> bool)
    ensures Distinct(Matching(lists, topic, matches))
  {
  }

  /** The interceptor stage handler routes by priority, whatever strict order `less` is. */
  lemma InterceptorRouting(ics: seq<Interceptor>, matches: (TopicExpr, string) -> bool, less: (int, int) -> bool,
                           handle: (nat, Session) -> Reply, failFast: bool, s: Session)
    requires StrictOrder(less)
    ensures RoutedByPriority(ics, s.topic, matches, less, HandleInterceptor(ics, matches, less, handle, failFast, s))
  {
    var matched := Matching(ExprLists(ics, InterceptorExprs), s.topic, matches);
    MatchingIsDistinct(ExprLists(ics, InterceptorExprs), s.topic, matches);
    SortByIsPriorityOrder(matched, PriorityKey(ics), less);
    ChainOnAnyPriorityOrder(ics, matches, less, PriorityOrder(ics, s.topic, matches, less), handle, failFast, s);
  }

  /**
   Drop short-circuit of the interceptor stage: the session goes to the
   output stage exactly when some interceptor dropped it; the drop is the
   last interceptor to run, and it is recorded in the outbound data. Outside
   fail-fast mode an ordinary error never ends the chain.
   */
  lemma InterceptorDrop(ics: seq<Interceptor>, matches: (TopicExpr, string) -> bool, less: (int, int) -> bool,
                        handle: (nat, Session) -> Reply, failFast: bool, s: Session)
    ensures var r := HandleInterceptor(ics, matches, less, handle, failFast, s);
      && (r.next == Lv2 <==> exists k :: 0 <= k < |r.calls| && r.calls[k].reply.outcome == Dropped)
      && (forall k :: 0 <= k < |r.calls| && r.calls[k].reply.outcome == Dropped ==> k == |r.calls| - 1 && r.next == Lv2)
      && (r.next == Lv2 ==> ErrorKey in r.session.outbound.data && r.session.outbound.data[ErrorKey] == DroppedMarker)
      && (!failFast ==> forall k :: 0 <= k < |r.calls| && r.calls[k].reply.outcome.Error? ==> k < |r.calls| - 1 || r.next == Lv1)
  {
    var r := HandleInterceptor(ics, matches, less, handle, failFast, s);
    if r.next == Lv2 {
      assert r.calls[|r.calls| - 1].reply.outcome == Dropped;
    }
  }

  /**
   Fan-out of the driver stage: only matching drivers run, in registration
   order, none twice; when the session reaches the output stage every
   matching driver ran; outside fail-fast mode only a panic keeps a session
   from the output stage, so a driver's error never stops the later ones.
   */
  lemma DriverFanOut(ds: seq<Driver>, matches: (TopicExpr, string) -> bool,
                     handle: (nat, Session) -> Reply, failFast: bool, s: Session)
    ensures var r := HandleDriver(ds, matches, handle, failFast, s); var ran := Invoked(r.calls);
      && r.next != Lv1
      && (forall k :: 0 <= k < |ran| ==> ran[k] < |ds| && AnyTopicMatches(ds[ran[k]].exprs, s.topic, matches))
      && Increasing(ran)
      && (r.next == Lv2 ==> forall i :: 0 <= i < |ds| && AnyTopicMatches(ds[i].exprs, s.topic, matches) ==> i in ran)
      && (!failFast && (forall k :: 0 <= k < |r.calls| ==> !r.calls[k].reply.outcome.Panicked?) ==> r.next == Lv2)
  {
    var r := HandleDriver(ds, matches, handle, failFast, s);
    var ran := Invoked(r.calls);
    var matched := Matching(ExprLists(ds, DriverExprs), s.topic, matches);
    MatchingPrefix(ExprLists(ds, DriverExprs), s.topic, matches, ran);
    if r.next == Lv2 {
      assert ran == matched;
    }
    FanOutOnlyPanicsStop(r.calls, r.next, failFast);
  }

  /** A prefix of the matching components is in range, matching, and in registration order. */
  lemma MatchingPrefix(lists: seq<seq<TopicExpr>>, topic: string, matches: (TopicExpr, string) -> bool, ran: seq<nat>)
    requires var matched := Matching(lists, topic, matches); |ran| <= |matched| && ran == matched[..|ran|]
    ensures forall k :: 0 <= k < |ran| ==> ran[k] < |lists| && AnyTopicMatches(lists[ran[k]], topic, matches)
    ensures Increasing(ran)
  {
    var matched := Matching(lists, topic, matches);
    forall k | 0 <= k < |ran|
      ensures ran[k] < |lists| && AnyTopicMatches(lists[ran[k]], topic, matches)
    {
      assert ran[k] == matched[k];
    }
    forall i, j | 0 <= i < j < |ran|
      ensures ran[i] < ran[j]
    {
      assert ran[i] == matched[i] && ran[j] == matched[j];
    }
  }

  /** Outside fail-fast mode, a fan-out without a panic reaches the output stage. */
  lemma FanOutOnlyPanicsStop(calls: seq<Call>, next: Next, failFast: bool)
    requires FanOutOutcomes(calls, next, failFast)
    ensures !failFast && (forall k :: 0 <= k < |calls| ==> !calls[k].reply.outcome.Panicked?) ==> next == Lv2
  {
    if !failFast && next == Aborted {
      assert !DriverContinues(calls[|calls| - 1].reply.outcome, failFast);
    }
  }
}
