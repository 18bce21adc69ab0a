/**
 Lifecycle ordering of `Start` and `Stop`: the engine-level hooks run
 around the components, which are called role by role. `Start` brings up
 plugins, pipelines, drivers and finally triggers; `Stop` cuts off the
 triggers first and tears down in the opposite role order, then raises the
 shutdown signal. Within a role components are called in registration
 order, except pipelines, which live in a map whose iteration order is not
 fixed: that order is the parameter `protocols`, any enumeration of the
 registered protocols.
 */
module Lifecycle {
  import Components
  import opened Ordering

  datatype Role = StartBefore | StartAfter | StopBefore | StopAfter | Plugin | Driver | Trigger

  /** One lifecycle action: a hook or component call, or the shutdown signal. */
  datatype Step = Invoke(role: Role, index: nat) | InvokePipeline(protocol: string) | Shutdown

  /** `protocols` lists every registered protocol exactly once. */
  ghost predicate Enumerates(protocols: seq<string>, keys: set<string>) {
    && Distinct(protocols)
    && (forall p :: p in protocols <==> p in keys)
  }

  /** How many hooks or components of a role the registry holds. */
  function Count(reg: Components.Registry, role: Role): nat {
    match role
    case StartBefore => reg.hooks.startBefore
    case StartAfter => reg.hooks.startAfter
    case StopBefore => reg.hooks.stopBefore
    case StopAfter => reg.hooks.stopAfter
    case Plugin => reg.plugins
    case Driver => |reg.drivers|
    case Trigger => reg.triggers
  }

  /** The calls of a role's first `n` members, in registration order. */
  function Range(role: Role, n: nat): (r: seq<Step>)
    ensures |r| == n && forall i :: 0 <= i < n ==> r[i] == Invoke(role, i)
  {
    seq(n, i requires 0 <= i < n => Invoke(role, i))
  }

  function PipelineSteps(protocols: seq<string>): (r: seq<Step>)
    ensures |r| == |protocols| && forall i :: 0 <= i < |protocols| ==> r[i] == InvokePipeline(protocols[i])
  {
    seq(|protocols|, i requires 0 <= i < |protocols| => InvokePipeline(protocols[i]))
  }

  /**
   The steps of `Start` when nothing panics: it opens with the start-before
   hooks and closes with the start-after hooks, in registration order, with
   one call per component between them.
   */
  function StartSequence(reg: Components.Registry, protocols: seq<string>): (r: seq<Step>)
    ensures |r| == reg.hooks.startBefore + reg.plugins + |protocols| + |reg.drivers| + reg.triggers + reg.hooks.startAfter
  {
    Range(StartBefore, reg.hooks.startBefore)
    + Range(Plugin, reg.plugins)
    + PipelineSteps(protocols)
    + Range(Driver, |reg.drivers|)
    + Range(Trigger, reg.triggers)
    + Range(StartAfter, reg.hooks.startAfter)
  }

  /**
   The steps of `Stop` when nothing panics: it opens with the stop-before
   hooks, then one call per component, then the stop-after hooks in
   registration order, and ends with the shutdown signal.
   */
  function StopSequence(reg: Components.Registry, protocols: seq<string>): (r: seq<Step>)
    ensures |r| == reg.hooks.stopBefore + reg.triggers + |reg.drivers| + |protocols| + reg.plugins + reg.hooks.stopAfter + 1
    ensures r[|r| - 1] == Shutdown
  {
    Range(StopBefore, reg.hooks.stopBefore)
    + Range(Trigger, reg.triggers)
    + Range(Driver, |reg.drivers|)
    + PipelineSteps(protocols)
    + Range(Plugin, reg.plugins)
    + Range(StopAfter, reg.hooks.stopAfter)
    + [Shutdown]
  }

  /** The component calls of `Start`, between its hooks: plugins, pipelines, drivers, triggers. */
  function StartBody(reg: Components.Registry, protocols: seq<string>): seq<Step> {
    Range(Plugin, reg.plugins) + PipelineSteps(protocols) + Range(Driver, |reg.drivers|) + Range(Trigger, reg.triggers)
  }

  /** The component calls of `Stop`, between its hooks: triggers, drivers, pipelines, plugins. */
  function StopBody(reg: Components.Registry, protocols: seq<string>): seq<Step> {
    Range(Trigger, reg.triggers) + Range(Driver, |reg.drivers|) + PipelineSteps(protocols) + Range(Plugin, reg.plugins)
  }

  /**
   The steps `Start` takes when the call at position `k` (counting the
   before-hooks, the component calls and the after-hooks in that order)
   panics, or `StartSequence` when nothing panics. The after-hooks are
   deferred once the before-hooks have run: a panicking before-hook ends
   `Start` at once, a panicking component call still runs every after-hook,
   and a panicking after-hook skips the ones behind it.
   */
  function StartRun(reg: Components.Registry, protocols: seq<string>, panicAt: Components.Option<nat>): (r: seq<Step>)
    ensures panicAt.None? ==> r == StartSequence(reg, protocols)
    ensures |r| <= |StartSequence(reg, protocols)|
    ensures forall x :: x in r ==> x in StartSequence(reg, protocols)
  {
    StartSplit(reg, protocols);
    var before := Range(StartBefore, reg.hooks.startBefore);
    var body := StartBody(reg, protocols);
    var after := Range(StartAfter, reg.hooks.startAfter);
    match panicAt
    case None => StartSequence(reg, protocols)
    case Some(k) =>
      if k < |before| then before[..k + 1]
      else if k < |before| + |body| then before + body[..k - |before| + 1] + after
      else if k < |before| + |body| + |after| then before + body + after[..k - |before| - |body| + 1]
      else StartSequence(reg, protocols)
  }

  /**
   The steps `Stop` takes when the call at position `k` panics, or
   `StopSequence` when nothing panics. The after-hooks and the shutdown
   signal are deferred once the before-hooks have run: a panicking
   before-hook ends `Stop` without the shutdown signal, a panicking
   component call still runs every after-hook and raises the signal, and a
   panicking after-hook skips the rest of the deferred work, signal included.
   */
  function StopRun(reg: Components.Registry, protocols: seq<string>, panicAt: Components.Option<nat>): (r: seq<Step>)
    ensures panicAt.None? ==> r == StopSequence(reg, protocols)
    ensures |r| <= |StopSequence(reg, protocols)|
    ensures forall x :: x in r ==> x in StopSequence(reg, protocols)
  {
    StopSplit(reg, protocols);
    var before := Range(StopBefore, reg.hooks.stopBefore);
    var body := StopBody(reg, protocols);
    var after := Range(StopAfter, reg.hooks.stopAfter);
    match panicAt
    case None => StopSequence(reg, protocols)
    case Some(k) =>
      if k < |before| then before[..k + 1]
      else if k < |before| + |body| then before + body[..k - |before| + 1] + after + [Shutdown]
      else if k < |before| + |body| + |after| then before + body + after[..k - |before| - |body| + 1]
      else StopSequence(reg, protocols)
  }

  /** The phase of `Start` a step belongs to; 6 for steps `Start` never takes. */
  function StartRank(st: Step): nat {
    match st
    case Invoke(role, _) =>
      (match role
       case StartBefore => 0
       case Plugin => 1
       case Driver => 3
       case Trigger => 4
       case StartAfter => 5
       case _ => 6)
    case InvokePipeline(_) => 2
    case Shutdown => 6
  }

  /** The phase of `Stop` a step belongs to; 7 for steps `Stop` never takes. */
  function StopRank(st: Step): nat {
    match st
    case Invoke(role, _) =>
      (match role
       case StopBefore => 0
       case Trigger => 1
       case Driver => 2
       case Plugin => 4
       case StopAfter => 5
       case _ => 7)
    case InvokePipeline(_) => 3
    case Shutdown => 6
  }

  ghost predicate Ranked(s: seq<Step>, rank: Step -> nat) {
    forall i, j :: 0 <= i < j < |s| ==> rank(s[i]) <= rank(s[j])
  }

  /** Calls of the same role come in increasing index order. */
  ghost predicate InRegistrationOrder(s: seq<Step>) {
    forall i, j :: 0 <= i < j < |s| && s[i].Invoke? && s[j].Invoke? && s[i].role == s[j].role ==> s[i].index < s[j].index
  }

  ghost predicate WellFormed(s: seq<Step>, rank: Step -> nat, bound: nat) {
    && Ranked(s, rank)
    && Distinct(s)
    && InRegistrationOrder(s)
    && forall x :: x in s ==> rank(x) <= bound
  }

  /** Appending a block of the next phase keeps the sequence well formed. */
  lemma AppendBlock(a: seq<Step>, b: seq<Step>, rank: Step -> nat, prev: nat, k: nat)
    requires forall role, i, j :: rank(Invoke(role, i)) == rank(Invoke(role, j))
    requires WellFormed(a, rank, prev) && prev < k
    requires Distinct(b) && InRegistrationOrder(b)
    requires forall x :: x in b ==> rank(x) == k
    ensures WellFormed(a + b, rank, k)
  {
    var s := a + b;
    forall i, j | 0 <= i < j < |s|
      ensures rank(s[i]) <= rank(s[j]) && s[i] != s[j]
      ensures s[i].Invoke? && s[j].Invoke? && s[i].role == s[j].role ==> s[i].index < s[j].index
    {
      if j < |a| {
        assert s[i] == a[i] && s[j] == a[j];
      } else if i >= |a| {
        assert s[i] == b[i - |a|] && s[j] == b[j - |a|];
      } else {
        assert s[i] == a[i] && s[j] == b[j - |a|];
        assert s[i] in a && s[j] in b;
      }
    }
  }

  lemma RangeShape(role: Role, n: nat)
    ensures Distinct(Range(role, n)) && InRegistrationOrder(Range(role, n))
    ensures forall x :: x in Range(role, n) <==> x.Invoke? && x.role == role && x.index < n
  {
    var r := Range(role, n);
    forall x: Step | x.Invoke? && x.role == role && x.index < n
      ensures x in r
    {
      assert r[x.index] == x;
    }
  }

  lemma PipelineShape(protocols: seq<string>, keys: set<string>)
    requires Enumerates(protocols, keys)
    ensures Distinct(PipelineSteps(protocols)) && InRegistrationOrder(PipelineSteps(protocols))
    ensures forall x :: x in PipelineSteps(protocols) <==> x.InvokePipeline? && x.protocol in keys
  {
    var r := PipelineSteps(protocols);
    forall x: Step | x.InvokePipeline? && x.protocol in keys
      ensures x in r
    {
      var i :| 0 <= i < |protocols| && protocols[i] == x.protocol;
      assert r[i] == x;
    }
  }

  /**
   `Start` runs its before-hooks, then plugins, pipelines, drivers and
   triggers, then its after-hooks: each registered hook and component exactly
   once, each role in registration order, and nothing else.
   */
  lemma StartOrder(reg: Components.Registry, protocols: seq<string>)
    requires Enumerates(protocols, reg.pipelines.Keys)
    ensures var r := StartSequence(reg, protocols);
      && Ranked(r, StartRank)
      && Distinct(r)
      && InRegistrationOrder(r)
      && (forall role, i: nat :: Invoke(role, i) in r <==> role in {StartBefore, Plugin, Driver, Trigger, StartAfter} && i < Count(reg, role))
      && (forall p :: InvokePipeline(p) in r <==> p in reg.pipelines)
      && Shutdown !in r
  {
    StartWellFormed(reg, protocols);
    RangeShape(StartBefore, reg.hooks.startBefore);
    RangeShape(Plugin, reg.plugins);
    PipelineShape(protocols, reg.pipelines.Keys);
    RangeShape(Driver, |reg.drivers|);
    RangeShape(Trigger, reg.triggers);
    RangeShape(StartAfter, reg.hooks.startAfter);
  }

  /** `Start`'s steps come phase by phase, none twice, each role in registration order. */
  lemma StartWellFormed(reg: Components.Registry, protocols: seq<string>)
    requires Enumerates(protocols, reg.pipelines.Keys)
    ensures WellFormed(StartSequence(reg, protocols), StartRank, 5)
  {
    RangeShape(StartBefore, reg.hooks.startBefore);
    RangeShape(Plugin, reg.plugins);
    PipelineShape(protocols, reg.pipelines.Keys);
    RangeShape(Driver, |reg.drivers|);
    RangeShape(Trigger, reg.triggers);
    RangeShape(StartAfter, reg.hooks.startAfter);
    var s0 := Range(StartBefore, reg.hooks.startBefore);
    var s1 := s0 + Range(Plugin, reg.plugins);
    var s2 := s1 + PipelineSteps(protocols);
    var s3 := s2 + Range(Driver, |reg.drivers|);
    var s4 := s3 + Range(Trigger, reg.triggers);
    var s5 := s4 + Range(StartAfter, reg.hooks.startAfter);
    assert WellFormed(s0, StartRank, 0);
    AppendBlock(s0, Range(Plugin, reg.plugins), StartRank, 0, 1);
    AppendBlock(s1, PipelineSteps(protocols), StartRank, 1, 2);
    AppendBlock(s2, Range(Driver, |reg.drivers|), StartRank, 2, 3);
    AppendBlock(s3, Range(Trigger, reg.triggers), StartRank, 3, 4);
    AppendBlock(s4, Range(StartAfter, reg.hooks.startAfter), StartRank, 4, 5);
    assert s5 == StartSequence(reg, protocols);
  }

  /**
   `Stop` runs its before-hooks, then triggers, drivers, pipelines and
   plugins, then its after-hooks, and raises the shutdown signal last: each
   registered hook and component exactly once, each role in registration
   order, and nothing else.
   */
  lemma StopOrder(reg: Components.Registry, protocols: seq<string>)
    requires Enumerates(protocols, reg.pipelines.Keys)
    ensures var r := StopSequence(reg, protocols);
      && Ranked(r, StopRank)
      && Distinct(r)
      && InRegistrationOrder(r)
      && (forall role, i: nat :: Invoke(role, i) in r <==> role in {StopBefore, Trigger, Driver, Plugin, StopAfter} && i < Count(reg, role))
      && (forall p :: InvokePipeline(p) in r <==> p in reg.pipelines)
      && r[|r| - 1] == Shutdown
  {
    StopWellFormed(reg, protocols);
    RangeShape(StopBefore, reg.hooks.stopBefore);
    RangeShape(Trigger, reg.triggers);
    RangeShape(Driver, |reg.drivers|);
    PipelineShape(protocols, reg.pipelines.Keys);
    RangeShape(Plugin, reg.plugins);
    RangeShape(StopAfter, reg.hooks.stopAfter);
  }

  /** `Stop`'s steps come phase by phase, none twice, each role in registration order. */
  lemma StopWellFormed(reg: Components.Registry, protocols: seq<string>)
    requires Enumerates(protocols, reg.pipelines.Keys)
    ensures WellFormed(StopSequence(reg, protocols), StopRank, 6)
  {
    RangeShape(StopBefore, reg.hooks.stopBefore);
    RangeShape(Trigger, reg.triggers);
    RangeShape(Driver, |reg.drivers|);
    PipelineShape(protocols, reg.pipelines.Keys);
    RangeShape(Plugin, reg.plugins);
    RangeShape(StopAfter, reg.hooks.stopAfter);
    var s0 := Range(StopBefore, reg.hooks.stopBefore);
    var s1 := s0 + Range(Trigger, reg.triggers);
    var s2 := s1 + Range(Driver, |reg.drivers|);
    var s3 := s2 + PipelineSteps(protocols);
    var s4 := s3 + Range(Plugin, reg.plugins);
    var s5 := s4 + Range(StopAfter, reg.hooks.stopAfter);
    var s6 := s5 + [Shutdown];
    assert WellFormed(s0, StopRank, 0);
    AppendBlock(s0, Range(Trigger, reg.triggers), StopRank, 0, 1);
    AppendBlock(s1, Range(Driver, |reg.drivers|), StopRank, 1, 2);
    AppendBlock(s2, PipelineSteps(protocols), StopRank, 2, 3);
    AppendBlock(s3, Range(Plugin, reg.plugins), StopRank, 3, 4);
    AppendBlock(s4, Range(StopAfter, reg.hooks.stopAfter), StopRank, 4, 5);
    AppendBlock(s5, [Shutdown], StopRank, 5, 6);
    assert s6 == StopSequence(reg, protocols);
  }

  /** Plugins, pipelines, drivers and triggers: the steps that call a component. */
  predicate IsComponentStep(st: Step) {
    st.InvokePipeline? || (st.Invoke? && st.role in {Plugin, Driver, Trigger})
  }

  predicate IsTriggerStep(st: Step) {
    st.Invoke? && st.role == Trigger
  }

  /** The components downstream of the triggers: plugins, pipelines and drivers. */
  predicate Feeds(st: Step) {
    IsComponentStep(st) && !IsTriggerStep(st)
  }

  /**
   `Stop` tears down exactly the components `Start` brought up; triggers are
   started after every other component and stopped before any of them.
   */
  lemma StartStopMirror(reg: Components.Registry, protocols: seq<string>, protocols': seq<string>)
    requires Enumerates(protocols, reg.pipelines.Keys) && Enumerates(protocols', reg.pipelines.Keys)
    ensures var up := StartSequence(reg, protocols); var down := StopSequence(reg, protocols');
      && (forall st :: IsComponentStep(st) ==> (st in up <==> st in down))
      && (forall i, j :: 0 <= i < |up| && 0 <= j < |up| && Feeds(up[i]) && IsTriggerStep(up[j]) ==> i < j)
      && (forall i, j :: 0 <= i < |down| && 0 <= j < |down| && Feeds(down[i]) && IsTriggerStep(down[j]) ==> j < i)
  {
    SameComponents(reg, protocols, protocols');
    TriggersStartLast(reg, protocols);
    TriggersStopFirst(reg, protocols');
  }

  lemma SameComponents(reg: Components.Registry, protocols: seq<string>, protocols': seq<string>)
    requires Enumerates(protocols, reg.pipelines.Keys) && Enumerates(protocols', reg.pipelines.Keys)
    ensures forall st :: IsComponentStep(st) ==> (st in StartSequence(reg, protocols) <==> st in StopSequence(reg, protocols'))
  {
    StartOrder(reg, protocols);
    StopOrder(reg, protocols');
    forall st | IsComponentStep(st)
      ensures st in StartSequence(reg, protocols) <==> st in StopSequence(reg, protocols')
    {
      if st.Invoke? {
        assert st == Invoke(st.role, st.index);
      }
    }
  }

  lemma TriggersStartLast(reg: Components.Registry, protocols: seq<string>)
    requires Enumerates(protocols, reg.pipelines.Keys)
    ensures var up := StartSequence(reg, protocols);
      forall i, j :: 0 <= i < |up| && 0 <= j < |up| && Feeds(up[i]) && IsTriggerStep(up[j]) ==> i < j
  {
    StartWellFormed(reg, protocols);
    var up := StartSequence(reg, protocols);
    forall i, j | 0 <= i < |up| && 0 <= j < |up| && Feeds(up[i]) && IsTriggerStep(up[j])
      ensures i < j
    {
      assert StartRank(up[i]) < StartRank(up[j]);
    }
  }

  lemma TriggersStopFirst(reg: Components.Registry, protocols: seq<string>)
    requires Enumerates(protocols, reg.pipelines.Keys)
    ensures var down := StopSequence(reg, protocols);
      forall i, j :: 0 <= i < |down| && 0 <= j < |down| && Feeds(down[i]) && IsTriggerStep(down[j]) ==> j < i
  {
    StopWellFormed(reg, protocols);
    var down := StopSequence(reg, protocols);
    forall i, j | 0 <= i < |down| && 0 <= j < |down| && Feeds(down[i]) && IsTriggerStep(down[j])
      ensures j < i
    {
      assert StopRank(down[j]) < StopRank(down[i]);
    }
  }

  lemma StartSplit(reg: Components.Registry, protocols: seq<string>)
    ensures StartSequence(reg, protocols)
      == Range(StartBefore, reg.hooks.startBefore) + StartBody(reg, protocols) + Range(StartAfter, reg.hooks.startAfter)
  {
  }

  lemma StopSplit(reg: Components.Registry, protocols: seq<string>)
    ensures StopSequence(reg, protocols)
      == Range(StopBefore, reg.hooks.stopBefore) + StopBody(reg, protocols) + Range(StopAfter, reg.hooks.stopAfter) + [Shutdown]
  {
  }

  /** A block of component calls surrounded by hooks of other roles: each component once, and only components. */
  lemma BodyShape(all: seq<Step>, before: seq<Step>, body: seq<Step>, after: seq<Step>)
    requires all == before + body + after && Distinct(all)
    ensures Distinct(body)
  {
    forall i, j | 0 <= i < j < |body|
      ensures body[i] != body[j]
    {
      assert body[i] == all[|before| + i] && body[j] == all[|before| + j];
    }
  }

  /**
   Cutting a block of distinct component calls after its first `m` calls,
   between hooks: exactly the calls before the cut are taken.
   */
  lemma CutBody(before: seq<Step>, body: seq<Step>, after: seq<Step>, m: nat)
    requires m <= |body| && Distinct(body)
    requires forall x :: x in before ==> !IsComponentStep(x)
    requires forall x :: x in after ==> !IsComponentStep(x)
    requires forall x :: x in body ==> IsComponentStep(x)
    ensures forall j :: 0 <= j < |body| ==> (body[j] in before + body[..m] + after <==> j < m)
  {
    var r := before + body[..m] + after;
    forall j | 0 <= j < |body|
      ensures body[j] in r <==> j < m
    {
      if j < m {
        assert body[..m][j] == body[j];
      } else {
        assert body[j] in body;
        forall i | 0 <= i < m
          ensures body[..m][i] != body[j]
        {
          assert body[..m][i] == body[i];
        }
      }
    }
  }

  /** Cutting a block of hooks after its first `m`: exactly the hooks before the cut are taken. */
  lemma CutHooks(role: Role, n: nat, m: nat)
    requires m <= n
    ensures forall i :: 0 <= i < n ==> (Invoke(role, i) in Range(role, n)[..m] <==> i < m)
    ensures forall x :: x in Range(role, n)[..m] ==> x.Invoke? && x.role == role && x.index < m
  {
    var h := Range(role, n)[..m];
    forall x | x in h
      ensures x.Invoke? && x.role == role && x.index < m
    {
      var i :| 0 <= i < m && h[i] == x;
    }
    forall i | 0 <= i < m
      ensures Invoke(role, i) in h
    {
      assert h[i] == Invoke(role, i);
    }
  }

  /** The component calls of `Start` are distinct component steps; its hooks are not component steps. */
  lemma StartBodyShape(reg: Components.Registry, protocols: seq<string>)
    requires Enumerates(protocols, reg.pipelines.Keys)
    ensures Distinct(StartBody(reg, protocols))
    ensures forall x :: x in StartBody(reg, protocols) ==> IsComponentStep(x)
    ensures forall x :: x in Range(StartBefore, reg.hooks.startBefore) ==> !IsComponentStep(x)
    ensures forall x :: x in Range(StartAfter, reg.hooks.startAfter) ==> !IsComponentStep(x)
  {
    StartWellFormed(reg, protocols);
    StartSplit(reg, protocols);
    BodyShape(StartSequence(reg, protocols), Range(StartBefore, reg.hooks.startBefore), StartBody(reg, protocols),
              Range(StartAfter, reg.hooks.startAfter));
    RangeShape(StartBefore, reg.hooks.startBefore);
    RangeShape(StartAfter, reg.hooks.startAfter);
    RangeShape(Plugin, reg.plugins);
    RangeShape(Driver, |reg.drivers|);
    RangeShape(Trigger, reg.triggers);
    PipelineShape(protocols, reg.pipelines.Keys);
  }

  /** The component calls of `Stop` are distinct component steps; its hooks and signal are not component steps. */
  lemma StopBodyShape(reg: Components.Registry, protocols: seq<string>)
    requires Enumerates(protocols, reg.pipelines.Keys)
    ensures Distinct(StopBody(reg, protocols))
    ensures forall x :: x in StopBody(reg, protocols) ==> IsComponentStep(x)
    ensures forall x :: x in Range(StopBefore, reg.hooks.stopBefore) ==> !IsComponentStep(x)
    ensures forall x :: x in Range(StopAfter, reg.hooks.stopAfter) + [Shutdown] ==> !IsComponentStep(x)
  {
    StopWellFormed(reg, protocols);
    StopSplit(reg, protocols);
    BodyShape(StopSequence(reg, protocols), Range(StopBefore, reg.hooks.stopBefore), StopBody(reg, protocols),
              Range(StopAfter, reg.hooks.stopAfter) + [Shutdown]);
    RangeShape(StopBefore, reg.hooks.stopBefore);
    RangeShape(StopAfter, reg.hooks.stopAfter);
    RangeShape(Plugin, reg.plugins);
    RangeShape(Driver, |reg.drivers|);
    RangeShape(Trigger, reg.triggers);
    PipelineShape(protocols, reg.pipelines.Keys);
  }

  /**
   A panic in `Start`: when a before-hook panics, only before-hooks ran;
   when a component call panics, exactly the component calls up to and
   including it ran, and every after-hook still ran; when an after-hook
   panics, every component ran and exactly the after-hooks up to it.
   */
  lemma StartPanic(reg: Components.Registry, protocols: seq<string>, k: nat)
    requires Enumerates(protocols, reg.pipelines.Keys)
    ensures var nb := reg.hooks.startBefore; var body := StartBody(reg, protocols);
      var r := StartRun(reg, protocols, Components.Some(k));
      && (k < nb ==> forall st :: st in r ==> st.Invoke? && st.role == StartBefore && st.index <= k)
      && (nb <= k < nb + |body| ==>
            && (forall i :: 0 <= i < reg.hooks.startAfter ==> Invoke(StartAfter, i) in r)
            && (forall j :: 0 <= j < |body| ==> (body[j] in r <==> j <= k - nb)))
      && (nb + |body| <= k < nb + |body| + reg.hooks.startAfter ==>
            && (forall st :: IsComponentStep(st) ==> (st in r <==> st in StartSequence(reg, protocols)))
            && (forall i :: 0 <= i < reg.hooks.startAfter ==> (Invoke(StartAfter, i) in r <==> i <= k - nb - |body|)))
  {
    var before := Range(StartBefore, reg.hooks.startBefore);
    var body := StartBody(reg, protocols);
    var after := Range(StartAfter, reg.hooks.startAfter);
    if k < |before| {
      CutHooks(StartBefore, |before|, k + 1);
    } else if k < |before| + |body| {
      StartBodyShape(reg, protocols);
      CutBody(before, body, after, k - |before| + 1);
      RangeShape(StartAfter, reg.hooks.startAfter);
    } else if k < |before| + |body| + |after| {
      StartBodyShape(reg, protocols);
      StartSplit(reg, protocols);
      CutHooks(StartAfter, |after|, k - |before| - |body| + 1);
    }
  }

  /**
   A panic in `Stop`: when a before-hook panics, only before-hooks ran and
   the shutdown signal is never raised; when a component call panics,
   exactly the component calls up to and including it ran, every after-hook
   still ran and the shutdown signal comes last; when an after-hook panics,
   every component was stopped, exactly the after-hooks up to it ran, and
   the shutdown signal is never raised.
   */
  lemma StopPanic(reg: Components.Registry, protocols: seq<string>, k: nat)
    requires Enumerates(protocols, reg.pipelines.Keys)
    ensures var nb := reg.hooks.stopBefore; var body := StopBody(reg, protocols);
      var r := StopRun(reg, protocols, Components.Some(k));
      && (k < nb ==> forall st :: st in r ==> st.Invoke? && st.role == StopBefore && st.index <= k)
      && (nb <= k < nb + |body| ==>
            && r[|r| - 1] == Shutdown
            && (forall i :: 0 <= i < reg.hooks.stopAfter ==> Invoke(StopAfter, i) in r)
            && (forall j :: 0 <= j < |body| ==> (body[j] in r <==> j <= k - nb)))
      && (nb + |body| <= k < nb + |body| + reg.hooks.stopAfter ==>
            && Shutdown !in r
            && (forall st :: IsComponentStep(st) ==> (st in r <==> st in StopSequence(reg, protocols)))
            && (forall i :: 0 <= i < reg.hooks.stopAfter ==> (Invoke(StopAfter, i) in r <==> i <= k - nb - |body|)))
  {
    var before := Range(StopBefore, reg.hooks.stopBefore);
    var body := StopBody(reg, protocols);
    var after := Range(StopAfter, reg.hooks.stopAfter);
    if k < |before| {
      CutHooks(StopBefore, |before|, k + 1);
    } else if k < |before| + |body| {
      StopBodyShape(reg, protocols);
      CutBody(before, body, after + [Shutdown], k - |before| + 1);
      RangeShape(StopAfter, reg.hooks.stopAfter);
      assert before + body[..k - |before| + 1] + after + [Shutdown] == before + body[..k - |before| + 1] + (after + [Shutdown]);
    } else if k < |before| + |body| + |after| {
      StopBodyShape(reg, protocols);
      StopSplit(reg, protocols);
      CutHooks(StopAfter, |after|, k - |before| - |body| + 1);
    }
  }

  /**
   The pipeline selector handed to drivers finds exactly the pipelines that
   `Start` brings up and `Stop` tears down, whatever order the pipeline map
   is walked in.
   */
  lemma SelectorReachesStartedPipelines(reg: Components.Registry, protocols: seq<string>, protocols': seq<string>,
                                        p: string)
    requires Enumerates(protocols, reg.pipelines.Keys) && Enumerates(protocols', reg.pipelines.Keys)
    ensures Components.SelectPipeline(reg.pipelines, p).Some? <==> InvokePipeline(p) in StartSequence(reg, protocols)
    ensures Components.SelectPipeline(reg.pipelines, p).Some? <==> InvokePipeline(p) in StopSequence(reg, protocols')
  {
    StartOrder(reg, protocols);
    StopOrder(reg, protocols');
  }
}
