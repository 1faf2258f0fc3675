/** The arithmetic behind the simulation: the step size and progress of the
    current task, which task follows a rollover, the status chosen
    at a rollover, the bounded activity log and the making of an activity. */
module Simulation {
  import opened Text
  import opened Random
  import opened Mock

  function Min(a: int, b: int): int {
    if a < b then a else b
  }

  // ---------------------------------------------------------------- progress

  /** `Math.round(100 / steps)`: the nearest integer to 100 / steps, halves
      rounded up (steps = 8 gives 13). */
  function StepSize(steps: nat): (size: nat)
    requires steps > 0
    ensures 2 * steps * size <= 200 + steps < 2 * steps * (size + 1)
  {
    var d := 2 * steps;
    var q := (200 + steps) / d;
    assert d * q <= 200 + steps < d * (q + 1);
    q
  }

  /** The percentage shown after step `step`: `Math.min(step * stepSize, 100)`. */
  function ProgressAt(step: nat, steps: nat): (pct: nat)
    requires steps > 0
    ensures pct <= 100
  {
    Min(step * StepSize(steps), 100)
  }

  /** A task can complete only when its last step brings progress to 100. */
  predicate Completes(steps: nat)
    requires steps > 0
  {
    steps * StepSize(steps) >= 100
  }

  lemma ProgressMonotone(a: nat, b: nat, steps: nat)
    requires steps > 0 && a <= b
    ensures ProgressAt(a, steps) <= ProgressAt(b, steps)
  {
    var size := StepSize(steps);
    assert a * size <= b * size by {
      assert (b - a) * size >= 0;
    }
  }

  /** Progress reaches 100 within a task's steps exactly when that task
      completes at all, and then at the last step at the latest. */
  lemma ProgressFull(step: nat, steps: nat)
    requires steps > 0 && step <= steps
    ensures ProgressAt(step, steps) == 100 ==> Completes(steps)
    ensures ProgressAt(steps, steps) == 100 <==> Completes(steps)
  {
    ProgressMonotone(step, steps, steps);
  }

  /** The step counter after one progress tick: one more, capped at `steps`. */
  function TickStep(step: nat, steps: nat): (next: nat)
    requires step <= steps
    ensures next <= steps
    ensures next == step + 1 || next == step == steps
  {
    Min(step + 1, steps)
  }

  /** The step counter after `ticks` progress ticks within one task. */
  function StepAfter(step: nat, steps: nat, ticks: nat): nat
    requires step <= steps
    decreases ticks
  {
    if ticks == 0 then step else StepAfter(TickStep(step, steps), steps, ticks - 1)
  }

  lemma {:induction false} StepAfterTicks(step: nat, steps: nat, ticks: nat)
    requires step <= steps
    ensures StepAfter(step, steps, ticks) == Min(step + ticks, steps)
    decreases ticks
  {
    if ticks > 0 {
      StepAfterTicks(TickStep(step, steps), steps, ticks - 1);
    }
  }

  /** From the start of a task, `ticks` progress ticks bring progress to 100
      exactly when the steps taken so far, at most `steps`, add up to 100. */
  lemma TicksToFull(steps: nat, ticks: nat)
    requires steps > 0
    ensures ProgressAt(StepAfter(0, steps, ticks), steps) == 100 <==>
            Min(ticks, steps) * StepSize(steps) >= 100
  {
    StepAfterTicks(0, steps, ticks);
    var m := StepAfter(0, steps, ticks);
    assert m == Min(ticks, steps);
    assert ProgressAt(m, steps) == Min(m * StepSize(steps), 100);
  }

  /** For the catalog: every task but the first completes on exactly its
      last step; the first (12 steps of 8 %) stops at 96 % and never completes. */
  lemma CatalogCompletion(i: nat, ticks: nat)
    requires i < |TASKS|
    ensures ProgressAt(StepAfter(0, TASKS[i].steps, ticks), TASKS[i].steps) == 100 <==>
            i != 0 && ticks >= TASKS[i].steps
  {
    var steps := TASKS[i].steps;
    TicksToFull(steps, ticks);
    var m := Min(ticks, steps);
    if i == 0 {
      assert StepSize(12) == 8;
    } else if i == 1 {
      assert StepSize(8) == 13;
    } else if i == 2 {
      assert StepSize(20) == 5;
    } else if i == 3 {
      assert StepSize(5) == 20;
    } else if i == 4 {
      assert StepSize(15) == 7;
    } else {
      assert StepSize(10) == 10;
    }
  }

  /** On the first task progress never exceeds 96 %. */
  lemma FirstTaskStalls(step: nat)
    requires step <= TASKS[0].steps
    ensures ProgressAt(step, TASKS[0].steps) <= 96
  {
    assert StepSize(12) == 8;
  }

  /** For the catalog, progress shows 100 only once the last step is done. */
  lemma CatalogFullOnlyAtLastStep(i: nat, step: nat)
    requires i < |TASKS| && step <= TASKS[i].steps
    ensures ProgressAt(step, TASKS[i].steps) == 100 ==> step == TASKS[i].steps
  {
    var steps := TASKS[i].steps;
    if step < steps {
      CatalogCompletion(i, step);
      StepAfterTicks(0, steps, step);
    }
  }

  /** `Math.round((p / 100) * steps)`: the step matching a starting
      percentage `p`, to the nearest integer. */
  function InitialStep(p: nat, steps: nat): (step: nat)
    ensures 200 * step <= 2 * p * steps + 100 < 200 * (step + 1)
    ensures p <= 100 ==> step <= steps
  {
    (2 * p * steps + 100) / 200
  }

  // ---------------------------------------------------------------- rollover

  /** The next task index at a rollover: `(taskIndex + 1) % MOCK.tasks.length`. */
  function NextTask(i: nat): (next: nat)
    ensures next < |TASKS|
  {
    (i + 1) % |TASKS|
  }

  /** Which task runs after `n` rollovers from task `i`. */
  function TaskAfter(i: nat, n: nat): nat
    decreases n
  {
    if n == 0 then i else NextTask(TaskAfter(i, n - 1))
  }

  lemma {:induction false} TaskAfterRollovers(i: nat, n: nat)
    requires i < |TASKS|
    ensures TaskAfter(i, n) == (i + n) % |TASKS|
    decreases n
  {
    if n > 0 {
      TaskAfterRollovers(i, n - 1);
      assert |TASKS| == 6;
      SuccessorMod6(i + n - 1);
    }
  }

  lemma SuccessorMod6(x: nat)
    ensures (x % 6 + 1) % 6 == (x + 1) % 6
  {
    var q, r := x / 6, x % 6;
    assert x == 6 * q + r;
    if r < 5 {
      assert x + 1 == 6 * q + (r + 1);
    } else {
      assert x + 1 == 6 * (q + 1);
    }
  }

  /** The status set at a rollover, from `statusCycle % 6`. */
  function StatusForCycle(cycle: nat): (st: Status)
    ensures (st == Working) == (cycle % 6 < 4)
    ensures (st == Online) == (cycle % 6 == 4)
    ensures (st == Idle) == (cycle % 6 == 5)
  {
    var c := cycle % 6;
    if c < 4 then Working else if c == 4 then Online else Idle
  }

  /** The rollover status repeats every six completions. */
  lemma {:induction false} StatusPeriodic(cycle: nat, rounds: nat)
    ensures StatusForCycle(cycle + 6 * rounds) == StatusForCycle(cycle)
  {
    assert (cycle + 6 * rounds) % 6 == cycle % 6;
  }

  // ------------------------------------------------------------ activity log

  datatype Activity = Activity(kind: Kind, msg: string, ts: int)

  /** The log keeps at most this many entries. */
  const MAX_ACTIVITIES: nat := 30

  /** `unshift` the new entry, then `pop` the oldest when over capacity. */
  function LogPush(log: seq<Activity>, a: Activity): (r: seq<Activity>)
    ensures |r| > 0 && r[0] == a
    ensures |log| <= MAX_ACTIVITIES ==> |r| == Min(|log| + 1, MAX_ACTIVITIES)
    ensures r[1..] == if |log| < MAX_ACTIVITIES then log else log[..|log| - 1]
  {
    var grown := [a] + log;
    if |grown| > MAX_ACTIVITIES then grown[..|grown| - 1] else grown
  }

  function Reverse(s: seq<Activity>): (r: seq<Activity>)
    ensures |r| == |s|
    decreases |s|
  {
    if s == [] then [] else Reverse(s[1..]) + [s[0]]
  }

  /** The log after adding `added` in order, one `LogPush` each. */
  function PushAll(log: seq<Activity>, added: seq<Activity>): seq<Activity>
    decreases |added|
  {
    if added == [] then log else LogPush(PushAll(log, added[..|added| - 1]), added[|added| - 1])
  }

  lemma ReverseSnoc(s: seq<Activity>, a: Activity)
    ensures Reverse(s + [a]) == [a] + Reverse(s)
    decreases |s|
  {
    if s != [] {
      assert (s + [a])[1..] == s[1..] + [a];
      ReverseSnoc(s[1..], a);
    } else {
      assert s + [a] == [a];
    }
  }

  /** Pushing onto a window of `y` gives the same window of `[a] + y`, one
      longer unless already at capacity. */
  lemma PushWindowStep(y: seq<Activity>, a: Activity)
    ensures LogPush(y[..Min(|y|, MAX_ACTIVITIES)], a) == ([a] + y)[..Min(|y| + 1, MAX_ACTIVITIES)]
  {
    var after := LogPush(y[..Min(|y|, MAX_ACTIVITIES)], a);
    var n := Min(|y| + 1, MAX_ACTIVITIES);
    assert |after| == n;
    forall k | 0 <= k < n
      ensures after[k] == ([a] + y)[k]
    {
      if k > 0 {
        assert after[k] == after[1..][k - 1];
      }
    }
  }

  /** The log is always the newest entries first, older ones after, cut to
      capacity: adding to a full log evicts the oldest entries first. */
  lemma {:induction false} PushAllWindow(log: seq<Activity>, added: seq<Activity>)
    requires |log| <= MAX_ACTIVITIES
    ensures PushAll(log, added) == (Reverse(added) + log)[..Min(|added| + |log|, MAX_ACTIVITIES)]
    decreases |added|
  {
    if added == [] {
      assert Reverse(added) + log == log;
    } else {
      var init, a := added[..|added| - 1], added[|added| - 1];
      var y := Reverse(init) + log;
      assert PushAll(log, added) == LogPush(y[..Min(|y|, MAX_ACTIVITIES)], a) by {
        PushAllWindow(log, init);
      }
      assert LogPush(y[..Min(|y|, MAX_ACTIVITIES)], a) == ([a] + y)[..Min(|y| + 1, MAX_ACTIVITIES)] by {
        PushWindowStep(y, a);
      }
      assert Reverse(added) + log == [a] + y by {
        assert added == init + [a];
        ReverseSnoc(init, a);
      }
    }
  }

  /** The draws `addActivity` makes: `Math.random()` for the template, for
      a task name and for `{n}`, and the clock `Date.now()`. */
  datatype Draw = Draw(template: real, task: real, number: real, now: int)

  predicate ValidDraw(d: Draw) {
    IsDraw(d.template) && IsDraw(d.task) && IsDraw(d.number)
  }

  /** What the draws select: a template, a task name, the number for `{n}`,
      and the time stamp. */
  datatype Choice = Choice(template: Template, taskName: string, n: nat, now: int)

  /** `pick(MOCK.activityTemplates)`, `pick(MOCK.taskNames)`, `rand(2, 99)`:
      the selection comes from the catalogs, and `{n}` lies in 2..99. */
  function Choose(d: Draw): (c: Choice)
    requires ValidDraw(d)
    ensures c.template in TEMPLATES && c.taskName in TASK_NAMES
    ensures 2 <= c.n <= 99 && c.now == d.now
  {
    Choice(Pick(TEMPLATES, d.template), Pick(TASK_NAMES, d.task), Rand(2, 99, d.number), d.now)
  }

  /** The message: `{task}` then `{n}` replaced, first occurrence only. */
  function RenderMessage(pattern: string, taskName: string, n: nat): (msg: string)
    ensures '{' !in pattern ==> msg == pattern
  {
    ReplaceWithoutFirstChar(pattern, "{task}", taskName);
    ReplaceWithoutFirstChar(pattern, "{n}", NatToString(n));
    ReplaceFirst(ReplaceFirst(pattern, "{task}", taskName), "{n}", NatToString(n))
  }

  /** How a catalog template splits around its placeholders: each holds at
      most one `{task}` and at most one `{n}`, `{task}` first. */
  datatype Shape =
    | Plain(text: string)
    | TaskOnly(before: string, after: string)
    | NumberOnly(before: string, after: string)
    | TaskThenNumber(before: string, middle: string, after: string)

  /** The template text with its placeholders. */
  function ShapeText(sh: Shape): string {
    match sh
    case Plain(t) => t
    case TaskOnly(a, b) => a + "{task}" + b
    case NumberOnly(a, b) => a + "{n}" + b
    case TaskThenNumber(a, b, c) => a + "{task}" + b + "{n}" + c
  }

  /** The intended message: the task name and the number put in place. */
  function Fill(sh: Shape, taskName: string, n: nat): string {
    match sh
    case Plain(t) => t
    case TaskOnly(a, b) => a + taskName + b
    case NumberOnly(a, b) => a + NatToString(n) + b
    case TaskThenNumber(a, b, c) => a + taskName + b + NatToString(n) + c
  }

  /** The fixed text of a shape has no `{` outside its placeholders. */
  predicate ShapeBraceFree(sh: Shape) {
    match sh
    case Plain(t) => '{' !in t
    case TaskOnly(a, b) => '{' !in a && '{' !in b
    case NumberOnly(a, b) => '{' !in a && '{' !in b
    case TaskThenNumber(a, b, c) => '{' !in a && '{' !in b && '{' !in c
  }

  /** The shape of each entry of `MOCK.activityTemplates`. */
  function TemplateShape(i: nat): Shape
    requires i < |TEMPLATES|
  {
    if i == 0 then TaskOnly("Task \"", "\" completed successfully")
    else if i == 1 then TaskOnly("Started processing \"", "\"")
    else if i == 2 then TaskThenNumber("Retrying \"", "\" — attempt ", "")
    else if i == 3 then TaskOnly("\"", "\" failed — will reschedule")
    else if i == 4 then NumberOnly("Sent ", " notifications")
    else if i == 5 then NumberOnly("Queue flushed — ", " items processed")
    else if i == 6 then NumberOnly("Exported ", " records to CSV")
    else if i == 7 then NumberOnly("Rate limit hit — throttling for ", "s")
    else if i == 8 then Plain("Webhook received from external service")
    else NumberOnly("Connection timeout — retrying in ", "s")
  }

  lemma TemplateShapes(i: nat)
    requires i < |TEMPLATES|
    ensures ShapeText(TemplateShape(i)) == TEMPLATES[i].msg
    ensures ShapeBraceFree(TemplateShape(i))
  {
    TemplatePieces(i);
  }

  /** A text is free of `{` when none of its characters is `{`. */
  lemma BraceFreeText(s: string)
    requires forall k :: 0 <= k < |s| ==> s[k] != '{'
    ensures '{' !in s
  {
  }

  lemma TemplatePieces(i: nat)
    requires i < |TEMPLATES|
    ensures ShapeBraceFree(TemplateShape(i))
  {
    match TemplateShape(i)
    case Plain(t) =>
      BraceFreeText(t);
    case TaskOnly(a, b) =>
      BraceFreeText(a);
      BraceFreeText(b);
    case NumberOnly(a, b) =>
      BraceFreeText(a);
      BraceFreeText(b);
    case TaskThenNumber(a, b, c) =>
      BraceFreeText(a);
      BraceFreeText(b);
      BraceFreeText(c);
  }

  lemma {:induction false} DigitsBraceFree(n: nat)
    ensures '{' !in NatToString(n)
  {
    var s := NatToString(n);
    assert forall k :: 0 <= k < |s| ==> s[k] != '{';
  }

  /** A text whose only `{` opens `{n}` holds no `{task}`. */
  lemma NoTaskPlaceholder(a: string, b: string, rep: string)
    requires '{' !in a && '{' !in b
    ensures ReplaceFirst(a + "{n}" + b, "{task}", rep) == a + "{n}" + b
  {
    var s := a + "{n}" + b;
    forall j | 0 <= j <= |s|
      ensures !OccursAt(s, "{task}", j)
    {
      if j + 6 <= |s| {
        var w := s[j..j + 6];
        assert w[0] == s[j] && w[1] == s[j + 1];
        if j < |a| {
          assert s[j] == a[j];
        } else if j == |a| {
          assert s[j + 1] == 'n';
        } else if j < |a| + 3 {
          assert s[j] == "{n}"[j - |a|];
        } else {
          assert s[j] == b[j - |a| - 3];
        }
      }
    }
    ReplaceFirstAbsent(s, "{task}", rep);
  }

  /** Rendering a shape puts the task name and the number in place of the
      placeholders, and leaves no `{` behind. */
  lemma RenderShape(sh: Shape, taskName: string, n: nat)
    requires ShapeBraceFree(sh) && '{' !in taskName
    ensures RenderMessage(ShapeText(sh), taskName, n) == Fill(sh, taskName, n)
    ensures '{' !in Fill(sh, taskName, n)
  {
    var digits := NatToString(n);
    DigitsBraceFree(n);
    match sh
    case Plain(t) =>
    case TaskOnly(a, b) =>
      ReplaceAfterPrefix(a, "{task}", b, taskName);
      ReplaceWithoutFirstChar(a + taskName + b, "{n}", digits);
    case NumberOnly(a, b) =>
      NoTaskPlaceholder(a, b, taskName);
      ReplaceAfterPrefix(a, "{n}", b, digits);
    case TaskThenNumber(a, b, c) =>
      assert ShapeText(sh) == a + "{task}" + (b + "{n}" + c);
      ReplaceAfterPrefix(a, "{task}", b + "{n}" + c, taskName);
      assert a + taskName + (b + "{n}" + c) == (a + taskName + b) + "{n}" + c;
      ReplaceAfterPrefix(a + taskName + b, "{n}", c, digits);
  }

  /** Every catalog template, rendered with a task name free of `{`, gives
      its intended message, and no `{task}` or `{n}` is left in it. */
  lemma CatalogMessage(i: nat, taskName: string, n: nat)
    requires i < |TEMPLATES| && '{' !in taskName
    ensures RenderMessage(TEMPLATES[i].msg, taskName, n) == Fill(TemplateShape(i), taskName, n)
    ensures var msg := RenderMessage(TEMPLATES[i].msg, taskName, n);
            forall j :: 0 <= j ==> !OccursAt(msg, "{task}", j) && !OccursAt(msg, "{n}", j)
  {
    TemplateShapes(i);
    RenderShape(TemplateShape(i), taskName, n);
    var msg := Fill(TemplateShape(i), taskName, n);
    AbsentByFirstChar(msg, "{task}");
    AbsentByFirstChar(msg, "{n}");
  }

  /** The activity `addActivity` creates from its choice. */
  function NewActivity(c: Choice): (a: Activity)
    ensures a.kind == c.template.kind && a.ts == c.now
  {
    Activity(c.template.kind, RenderMessage(c.template.msg, c.taskName, c.n), c.now)
  }

  /** An activity made from a catalog choice carries the intended message of
      its template, with no placeholder left. */
  lemma CatalogActivity(c: Choice)
    requires c.template in TEMPLATES && c.taskName in TASK_NAMES
    ensures exists i :: 0 <= i < |TEMPLATES| && TEMPLATES[i] == c.template &&
                        NewActivity(c).msg == Fill(TemplateShape(i), c.taskName, c.n)
    ensures forall j :: 0 <= j ==> !OccursAt(NewActivity(c).msg, "{task}", j) && !OccursAt(NewActivity(c).msg, "{n}", j)
  {
    var i :| 0 <= i < |TEMPLATES| && TEMPLATES[i] == c.template;
    TaskNamesPlain();
    CatalogMessage(i, c.taskName, c.n);
  }

  /** The activities made from a sequence of choices, in order. */
  function NewActivities(choices: seq<Choice>): (acts: seq<Activity>)
    ensures |acts| == |choices|
    decreases |choices|
  {
    if choices == [] then []
    else NewActivities(choices[..|choices| - 1]) + [NewActivity(choices[|choices| - 1])]
  }

  /** Entry `k` of the seeded activities is made from choice `k`. */
  lemma {:induction false} NewActivitiesEntries(choices: seq<Choice>)
    ensures forall k :: 0 <= k < |choices| ==> NewActivities(choices)[k] == NewActivity(choices[k])
    decreases |choices|
  {
    if choices != [] {
      var init := choices[..|choices| - 1];
      NewActivitiesEntries(init);
      forall k | 0 <= k < |choices| - 1
        ensures NewActivities(choices)[k] == NewActivity(choices[k])
      {
        assert NewActivities(choices)[k] == NewActivities(init)[k];
        assert init[k] == choices[k];
      }
    }
  }

  /** Seeding one more choice is one more `LogPush`. */
  lemma {:induction false} SeedStep(log: seq<Activity>, choices: seq<Choice>, i: nat)
    requires i < |choices|
    ensures PushAll(log, NewActivities(choices[..i + 1])) ==
            LogPush(PushAll(log, NewActivities(choices[..i])), NewActivity(choices[i]))
  {
    var added := NewActivities(choices[..i + 1]);
    assert choices[..i + 1][..i] == choices[..i];
    assert added[..|added| - 1] == NewActivities(choices[..i]);
  }
}
