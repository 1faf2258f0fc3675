/** The mutable simulation state and the handlers that update it: the
    progress tick, the deferred task rollover, the uptime tick, the random
    activity tick, `addActivity`, the clear handler and the seeding part of
    `init`. Timers are not modelled: each handler is a method that may be
    called in any order, except that a rollover runs only once a completing
    tick has scheduled it. */
module Dashboard {
  import opened Random
  import opened Mock
  import opened Simulation

  /** The probability with which the random-activity tick adds an entry. */
  const RANDOM_ACTIVITY_CHANCE: real := 0.35

  /** The shared `state` object. */
  class Dashboard {
    var status: Status
    var taskIndex: nat
    var progress: nat
    var currentStep: nat
    var taskStart: int
    var tasksDone: nat
    var uptimeMinutes: nat
    var successRate: nat
    /** Newest first. */
    var activities: seq<Activity>
    var statusCycle: nat
    /** Rollovers a completing tick has scheduled with `setTimeout` and that
        have not run yet. */
    var pendingRollovers: nat

    ghost predicate Valid()
      reads this
    {
      && taskIndex < |TASKS|
      && currentStep <= TASKS[taskIndex].steps
      && progress <= 100
      && |activities| <= MAX_ACTIVITIES
    }

    /** The step count of the current task. */
    function Steps(): nat
      reads this
      requires taskIndex < |TASKS|
    {
      TASKS[taskIndex].steps
    }

    /** The `state` literal, with `Date.now()` passed as `now`. */
    constructor (now: int)
      ensures Valid()
      ensures status == Working && taskIndex == 0 && progress == 0 && currentStep == 0
      ensures taskStart == now && tasksDone == 47 && uptimeMinutes == 312 && successRate == 94
      ensures activities == [] && statusCycle == 0 && pendingRollovers == 0
    {
      status := Working;
      taskIndex := 0;
      progress := 0;
      currentStep := 0;
      taskStart := now;
      tasksDone := 47;
      uptimeMinutes := 312;
      successRate := 94;
      activities := [];
      statusCycle := 0;
      pendingRollovers := 0;
    }

    /** `addActivity`: a new entry at the front, the oldest dropped beyond 30. */
    method AddActivity(c: Choice)
      requires Valid()
      modifies this`activities
      ensures Valid()
      ensures activities == LogPush(old(activities), NewActivity(c))
    {
      activities := [NewActivity(c)] + activities;
      if |activities| > MAX_ACTIVITIES {
        activities := activities[..|activities| - 1];
      }
    }

    /** `tickProgress`: one more step, capped at the current task's step count, and the
        percentage recomputed; at 100 % the counters go up by one, one activity
        is logged (from the choice `c`) and a rollover is scheduled. */
    method TickProgress(c: Choice)
      requires Valid()
      modifies this
      ensures Valid()
      ensures taskIndex == old(taskIndex) && status == old(status) && taskStart == old(taskStart)
      ensures uptimeMinutes == old(uptimeMinutes) && successRate == old(successRate)
      ensures currentStep == TickStep(old(currentStep), Steps())
      ensures progress == ProgressAt(currentStep, Steps())
      ensures progress == 100 ==>
                && tasksDone == old(tasksDone) + 1
                && statusCycle == old(statusCycle) + 1
                && activities == LogPush(old(activities), NewActivity(c))
                && pendingRollovers == old(pendingRollovers) + 1
      ensures progress < 100 ==>
                && tasksDone == old(tasksDone)
                && statusCycle == old(statusCycle)
                && activities == old(activities)
                && pendingRollovers == old(pendingRollovers)
      ensures taskIndex == 0 ==> progress <= 96 && pendingRollovers == old(pendingRollovers)
    {
      var task := TASKS[taskIndex];
      var stepSize := StepSize(task.steps);
      currentStep := Min(currentStep + 1, task.steps);
      progress := Min(currentStep * stepSize, 100);
      if taskIndex == 0 {
        FirstTaskStalls(currentStep);
      }
      if progress >= 100 {
        tasksDone := tasksDone + 1;
        statusCycle := statusCycle + 1;
        AddActivity(c);
        pendingRollovers := pendingRollovers + 1;
      }
    }

    /** The deferred rollover: the next task, cyclically, from step 0, and the
        status picked from `statusCycle % 6` as it is when the timer fires. */
    method Rollover(now: int)
      requires Valid() && pendingRollovers > 0
      modifies this
      ensures Valid()
      ensures taskIndex == NextTask(old(taskIndex)) && progress == 0 && currentStep == 0
      ensures taskStart == now
      ensures status == StatusForCycle(statusCycle) && StatusName(status) in STATUSES
      ensures pendingRollovers == old(pendingRollovers) - 1
      ensures tasksDone == old(tasksDone) && statusCycle == old(statusCycle) && activities == old(activities)
      ensures uptimeMinutes == old(uptimeMinutes) && successRate == old(successRate)
    {
      pendingRollovers := pendingRollovers - 1;
      taskIndex := (taskIndex + 1) % |TASKS|;
      progress := 0;
      currentStep := 0;
      taskStart := now;
      var cycle := statusCycle % 6;
      status := if cycle < 4 then Working else if cycle == 4 then Online else Idle;
    }

    /** `tickUptime`. */
    method TickUptime()
      requires Valid()
      modifies this`uptimeMinutes
      ensures Valid()
      ensures uptimeMinutes == old(uptimeMinutes) + 1
    {
      uptimeMinutes := uptimeMinutes + 1;
    }

    /** `tickRandomActivity`: with the draw `u` below 0.35 one activity is added. */
    method TickRandomActivity(u: real, c: Choice)
      requires Valid() && IsDraw(u)
      modifies this`activities
      ensures Valid()
      ensures activities == if u < RANDOM_ACTIVITY_CHANCE then LogPush(old(activities), NewActivity(c)) else old(activities)
    {
      if u < RANDOM_ACTIVITY_CHANCE {
        AddActivity(c);
      }
    }

    /** The clear button's handler. */
    method Clear()
      requires Valid()
      modifies this`activities
      ensures Valid()
      ensures activities == []
    {
      activities := [];
    }

    /** The seeding loop of `init`: one `addActivity` per choice, in order. */
    method SeedActivities(seeds: seq<Choice>)
      requires Valid()
      modifies this`activities
      ensures Valid()
      ensures activities == PushAll(old(activities), NewActivities(seeds))
    {
      var i := 0;
      while i < |seeds|
        invariant 0 <= i <= |seeds|
        invariant activities == PushAll(old(activities), NewActivities(seeds[..i]))
        invariant Valid()
      {
        SeedStep(old(activities), seeds, i);
        AddActivity(seeds[i]);
        i := i + 1;
      }
      assert seeds[..|seeds|] == seeds;
    }

    /** The state-setting part of `init`: five activities seeded from `seeds`,
        then status `working`, a random starting percentage (the draw `p`) and
        the step of the first task that matches it. */
    method Init(seeds: seq<Choice>, p: real)
      requires Valid() && taskIndex == 0
      requires |seeds| == 5
      requires IsDraw(p)
      modifies this`activities, this`status, this`progress, this`currentStep
      ensures Valid()
      ensures activities == PushAll(old(activities), NewActivities(seeds))
      ensures status == Working && progress == Rand(10, 55, p)
      ensures currentStep == InitialStep(progress, TASKS[0].steps)
      ensures taskIndex == 0 && taskStart == old(taskStart) && tasksDone == old(tasksDone)
      ensures uptimeMinutes == old(uptimeMinutes) && successRate == old(successRate)
      ensures statusCycle == old(statusCycle) && pendingRollovers == old(pendingRollovers)
    {
      SeedActivities(seeds);
      status := Working;
      progress := Rand(10, 55, p);
      assert TASKS[0].steps == 12;
      currentStep := InitialStep(progress, TASKS[0].steps);
    }
  }
}
