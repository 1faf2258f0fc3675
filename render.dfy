/** The parts of the render functions that compute something from the
    state rather than write to the page: the activity feed window of
    `renderActivity` and the step counter text of `renderTask`. */
module Render {
  import opened Text
  import opened Simulation

  /** The feed shows at most this many entries. */
  const FEED_SIZE: nat := 10

  datatype Feed = NoRecentActivity | Entries(items: seq<Activity>)

  /** `renderActivity`: the newest ten entries (`slice(0, 10)`), or the
      "No recent activity" message when the log is empty. */
  function ActivityFeed(log: seq<Activity>): (feed: Feed)
    ensures feed.NoRecentActivity? <==> log == []
    ensures feed.Entries? ==> |feed.items| == Min(|log|, FEED_SIZE) && feed.items == log[..|feed.items|]
  {
    if |log| == 0 then NoRecentActivity else Entries(log[..Min(|log|, FEED_SIZE)])
  }

  /** After `addActivity` the feed starts with the new entry, followed by
      what it showed before, shifted down by one. */
  lemma FeedAfterAdd(log: seq<Activity>, a: Activity)
    requires |log| <= MAX_ACTIVITIES
    ensures ActivityFeed(LogPush(log, a)) == Entries(([a] + log)[..Min(|log| + 1, FEED_SIZE)])
  {
    var r := LogPush(log, a);
    var n := Min(|log| + 1, FEED_SIZE);
    forall k | 0 <= k < n
      ensures r[k] == ([a] + log)[k]
    {
      if k > 0 {
        assert r[k] == r[1..][k - 1];
      }
    }
  }

  /** `Step ${currentStep} of ${task.steps}`. */
  function StepLabel(step: nat, steps: nat): (shown: string)
    ensures |shown| >= 11 && shown[..5] == "Step "
  {
    var text := "Step " + NatToString(step) + " of " + NatToString(steps);
    assert text[..5] == "Step ";
    text
  }

  /** The label names the step and the step count, and different pairs
      give different labels. */
  lemma StepLabelInjective(a: nat, b: nat, x: nat, y: nat)
    ensures StepLabel(a, b) == StepLabel(x, y) ==> a == x && b == y
  {
    if StepLabel(a, b) == StepLabel(x, y) {
      var sa, sb, sx, sy := NatToString(a), NatToString(b), NatToString(x), NatToString(y);
      var l := StepLabel(a, b);
      assert l == "Step " + (sa + (" of " + sb));
      assert l == "Step " + (sx + (" of " + sy));
      var rest := l[5..];
      assert rest == sa + (" of " + sb) && rest == sx + (" of " + sy);
      assert forall k :: 0 <= k < |sa| ==> rest[k] != ' ';
      assert forall k :: 0 <= k < |sx| ==> rest[k] != ' ';
      IndexOfSkips(sa, " of " + sb, ' ');
      IndexOfSkips(sx, " of " + sy, ' ');
      assert |sa| == |sx|;
      assert sa == rest[..|sa|] == sx;
      assert sb == rest[|sa| + 4..] == sy;
      NatToStringInjective(a, x);
      NatToStringInjective(b, y);
    }
  }
}
