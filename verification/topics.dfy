/**
 Topic routing of the event engine.

 A component declares a list of compiled topic expressions and fires for a
 session when at least one of them matches the session's topic. How a single
 expression matches a topic is not part of this model: it is the parameter
 `matches`, assumed deterministic and free of side effects.
 */
module Topics {

  /** A compiled topic pattern; only its source text is kept. */
  datatype TopicExpr = TopicExpr(pattern: string)

  /** A strictly increasing sequence: registration order without repeats. */
  ghost predicate Increasing(s: seq<nat>) {
    forall i, j :: 0 <= i < j < |s| ==> s[i] < s[j]
  }

  /** OR over a component's expression list; an empty list never fires. */
  function AnyTopicMatches(exprs: seq<TopicExpr>, topic: string, matches: (TopicExpr, string) -> bool): (r: bool)
    ensures r <==> exists i :: 0 <= i < |exprs| && matches(exprs[i], topic)
    ensures exprs == [] ==> !r
  {
    if exprs == [] then false
    else if matches(exprs[0], topic) then true
    else
      var rest := AnyTopicMatches(exprs[1..], topic, matches);
      assert rest ==> exists i :: 0 <= i < |exprs| && matches(exprs[i], topic) by {
        if rest {
          var i :| 0 <= i < |exprs[1..]| && matches(exprs[1..][i], topic);
          assert matches(exprs[i + 1], topic);
        }
      }
      assert (exists i :: 0 <= i < |exprs| && matches(exprs[i], topic)) ==> rest by {
        if exists i :: 0 <= i < |exprs| && matches(exprs[i], topic) {
          var i :| 0 <= i < |exprs| && matches(exprs[i], topic);
          assert i != 0;
          assert matches(exprs[1..][i - 1], topic);
        }
      }
      rest
  }

  /**
   `r` lists, in registration order, exactly the indices of the expression
   lists in `lists` that fire for `topic`.
   */
  ghost predicate FiringIndices(r: seq<nat>, lists: seq<seq<TopicExpr>>, topic: string, matches: (TopicExpr, string) -> bool) {
    && Increasing(r)
    && (forall k :: 0 <= k < |r| ==> r[k] < |lists| && AnyTopicMatches(lists[r[k]], topic, matches))
    && (forall i :: 0 <= i < |lists| && AnyTopicMatches(lists[i], topic, matches) ==> i in r)
  }

  /**
   The registration indices of the components (given by their expression
   lists, in registration order) that fire for `topic`, in registration order.
   */
  function Matching(lists: seq<seq<TopicExpr>>, topic: string, matches: (TopicExpr, string) -> bool): (r: seq<nat>)
    ensures FiringIndices(r, lists, topic, matches)
  {
    if lists == [] then []
    else
      var n := |lists| - 1;
      var init := Matching(lists[..n], topic, matches);
      FiringExtend(lists, topic, matches, init);
      if AnyTopicMatches(lists[n], topic, matches) then init + [n] else init
  }

  /** Extending the firing indices of all lists but the last to the whole list. */
  lemma FiringExtend(lists: seq<seq<TopicExpr>>, topic: string, matches: (TopicExpr, string) -> bool, init: seq<nat>)
    requires |lists| > 0 && FiringIndices(init, lists[..|lists| - 1], topic, matches)
    ensures var n := |lists| - 1;
      FiringIndices(if AnyTopicMatches(lists[n], topic, matches) then init + [n] else init, lists, topic, matches)
  {
    var n := |lists| - 1;
    assert forall i :: 0 <= i < n ==> lists[..n][i] == lists[i];
    if AnyTopicMatches(lists[n], topic, matches) {
      var r := init + [n];
      assert forall k :: 0 <= k < |init| ==> r[k] == init[k] && init[k] < n;
    }
  }
}
