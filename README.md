# Mock bot dashboard: simulation core in Dafny

The dashboard mini-app shows fabricated telemetry. Behind its page code sits a
small deterministic simulation, and this project models it:

- **State.** The shared `state` object is the class `Dashboard.Dashboard`. Its
  fields are `status`, `taskIndex`, `progress`, `currentStep`, `taskStart`,
  `tasksDone`, `uptimeMinutes`, `successRate`, `activities` and `statusCycle`.
  The extra field `pendingRollovers` counts the rollovers that a completing
  tick has scheduled and that have not run yet.
- **Handlers.** Each timer handler is a method. Calls may come in any order,
  except that a rollover needs one to be pending. The handlers are the progress
  tick, the deferred rollover, the uptime tick, the random-activity tick,
  `addActivity`, the clear button and the state-setting part of `init`.
- **Arithmetic.** Module `Simulation` holds it:
  - the step size `Math.round(100 / steps)`, modelled as
    `(200 + steps) / (2 * steps)`, which rounds halves up as `Math.round` does
    (steps = 8 gives 13);
  - the capped progress;
  - the next task and the status picked at a rollover;
  - the activity log, capped at 30 entries, newest first;
  - the making of an activity from a template.
- **Static data.** `MOCK` becomes the constants of module `Mock`.
- **Formatters.** `formatUptime` and `relativeTime` are in module `TimeFormat`.
  Each comes with a reader of its own output, so the lemmas can say what a
  label means.
- **Randomness.** `rand` and `pick` are in module `Random`. Each takes the value
  of `Math.random()` as a parameter.
- **Text.** Module `Text` gives the decimal text of a number and
  `String.prototype.replace` with a string pattern, which replaces only the
  first occurrence.
- **Rendering.** Module `Render` keeps the pure parts of the render functions:
  the ten-entry feed window with its empty state, and the "Step X of N" label.

The clock (`Date.now()`) is a parameter. The progress tick, the random tick and
`init` take the activity's selection as a `Choice`: a template, a task name,
the number for `{n}` and a time stamp. `Simulation.Choose` maps three
`Math.random()` draws to such a choice, as `addActivity` does.

The comment above `tickProgress` (script.js:209) says the progress is reset
on completion. One behaviour of the code, proved here, departs from that. The
first catalog task ("Scraping product catalog") has 12 steps, so its step size
is `Math.round(100 / 12) = 8`. Its progress stops at 96 % and that task never
completes (`Simulation.CatalogCompletion`, `Simulation.FirstTaskStalls`). The
state literal starts on task 0, so as written no rollover ever happens: the
constructor sets `pendingRollovers` to 0, `TickProgress` keeps it unchanged
while `taskIndex` is 0, and `Rollover` requires it to be positive, so
`Rollover` is never callable. This model follows the code. It claims completion
only for step counts where `steps * stepSize >= 100`. Every other catalog task
completes exactly on its last step, even 8 and 15, whose overshoot is clamped
to 100.

## Model

| member | source | states |
|---|---|---|
| `Text.NatToString` | script.js:114-117 | a number in a template literal is a non-empty string of digits without a leading zero |
| `Text.IntToString` | script.js:114 | `${minutes}` for any integer: the text starts with `-` exactly when the integer is negative, and the rest is a non-empty string of digits |
| `Text.NatToStringRoundTrip` | script.js:108-110 | reading the digits back gives the number |
| `Text.IntToStringRoundTrip` | script.js:114 | reading a signed decimal back gives the integer |
| `Text.ReplaceFirst` | script.js:198-200 | `replace` with a string pattern: the length is kept (no occurrence) or changes by the length of the replacement minus that of the pattern (one occurrence replaced); replacing a pattern by itself changes nothing |
| `Text.ReplaceFirstAt` | script.js:198-200 | `replace` with a string pattern changes only the first occurrence; the text before and after it is kept |
| `Text.ReplaceFirstAbsent` | script.js:198-200 | `replace` leaves a string without the pattern unchanged (a template without `{task}` or `{n}`) |
| `Text.AbsentByFirstChar` | script.js:198-200 | a pattern cannot occur in a text that lacks the pattern's first character |
| `Text.ReplaceWithoutFirstChar` | script.js:198-200 | `replace` leaves a text without `{` unchanged when the pattern starts with `{` |
| `Text.ReplaceAfterPrefix` | script.js:198-200 | when the pattern's first character does not occur before it, `replace` substitutes the pattern where it stands and keeps both sides |
| `Random.Rand` | script.js:97-99 | `rand(min, max)` lies in `min..max` |
| `Random.RandOutcome` | script.js:97-99 | outcome `v` arises exactly for draws in `[(v-min)/w, (v-min+1)/w)`, where `w = max-min+1`, so all outcomes are equally likely |
| `Random.Pick` | script.js:101-103 | `pick` returns an element of the array |
| `Random.PickOutcome` | script.js:101-103 | `pick` returns an element of the array; element `k` is picked for draws in `[k/n, (k+1)/n)` |
| `TimeFormat.FormatUptime` | script.js:113-118 | the label has an `h` exactly when the uptime is at least 60 minutes, and ends in `h` exactly when it is a positive whole number of hours |
| `TimeFormat.UptimeMinutesRoundTrip` | script.js:114 | a label `"{m}m"` reads back as `m` |
| `TimeFormat.UptimeHoursRoundTrip` | script.js:117 | a label `"{h}h"` reads back as `h * 60` |
| `TimeFormat.UptimeMixedRoundTrip` | script.js:117 | a label `"{h}h {m}m"` reads back as `h * 60 + m` |
| `TimeFormat.MixedLabel` | script.js:117 | a label `"{hs}h {ms}m"` made of two digit strings reads back as `hs * 60 + ms` |
| `TimeFormat.FormatUptimeRoundTrip` | script.js:113-118 | every uptime label reads back as the minutes it came from |
| `TimeFormat.FormatUptimeInjective` | script.js:113-118 | two different uptimes never get the same label |
| `TimeFormat.FormatUptimeExamples` | script.js:113-118 | 45 gives "45m", 120 gives "2h", 125 gives "2h 5m" |
| `TimeFormat.RelativeTime` | script.js:105-111 | the label is "just now" exactly when fewer than 5 whole seconds have passed; otherwise it ends in " ago" |
| `TimeFormat.AgoText` | script.js:108-110 | a count followed by a unit and " ago" is never "just now" |
| `TimeFormat.RelativeTimeReadsBack` | script.js:105-111 | the label reads back as "just now" below 5 s; otherwise as `s / unit` units, where the unit is the largest of 1 s, 60 s and 3600 s that fits |
| `TimeFormat.RelativeTimeMeaning` | script.js:105-111 | "just now" exactly when fewer than 5 whole seconds have passed; otherwise `count >= 1` and `count * unit <= s < (count + 1) * unit` |
| `TimeFormat.RelativeTimeMonotone` | script.js:105-111 | a later time never gets a label allowing a smaller age |
| `TimeFormat.RelativeTimeExamples` | script.js:105-111 | 3 s gives "just now", 30 s gives "30s ago", 90 s gives "1m ago", 7200 s gives "2h ago" |
| `Mock.StatusName` | script.js:21 | every status is stored as one of `MOCK.statuses` |
| `Mock.TaskNamesPlain` | script.js:53-56 | no task name holds `{` or `$`, so a substituted name brings no placeholder and no replacement pattern |
| `Simulation.StepSize` | script.js:212 | the step size is 100 / steps rounded to the nearest integer, halves up |
| `Simulation.ProgressAt` | script.js:215 | progress never exceeds 100 |
| `Simulation.ProgressMonotone` | script.js:214-215 | more steps never show less progress |
| `Simulation.ProgressFull` | script.js:212-217 | progress reaches 100 within a task's steps exactly when `steps * stepSize >= 100`, and then at the last step at the latest |
| `Simulation.TickStep` | script.js:214 | a tick adds one step, or keeps the step at the step count of the current task; it never exceeds that count |
| `Simulation.StepAfterTicks` | script.js:214 | after `k` ticks the step is `min(step + k, steps)` |
| `Simulation.TicksToFull` | script.js:210-217 | from a task's start, `k` ticks reach 100 % exactly when `min(k, steps) * stepSize >= 100` |
| `Simulation.CatalogCompletion` | script.js:24-29 | with this catalog, `k` ticks complete task `i` exactly when `i != 0` and `k >= steps`; task 0 never completes |
| `Simulation.FirstTaskStalls` | script.js:24 | on the first task progress stays at or below 96 |
| `Simulation.CatalogFullOnlyAtLastStep` | script.js:212-217 | with this catalog, 100 % is shown only at the last step |
| `Simulation.InitialStep` | script.js:277 | `init`'s starting step is the nearest integer to `p * steps / 100`, and at most `steps` when `p <= 100` |
| `Simulation.NextTask` | script.js:227 | the next task index is a valid catalog index |
| `Simulation.TaskAfterRollovers` | script.js:227 | after `n` rollovers from task `i` the index is `(i + n) % 6`, so `n % 6` from index 0 |
| `Simulation.StatusForCycle` | script.js:233-234 | the status is working for `cycle % 6` below 4, online at 4 and idle at 5 |
| `Simulation.StatusPeriodic` | script.js:233-234 | the rollover status depends only on `statusCycle % 6`: it repeats every six completions |
| `Simulation.LogPush` | script.js:202-203 | the new entry is first; the rest is the old log minus its oldest entry once 30 are held; the length stays at most 30 |
| `Simulation.PushAllWindow` | script.js:196-203 | after several additions the log is the new entries, newest first, then the old log, cut to 30: the oldest are evicted first |
| `Simulation.Choose` | script.js:197-200 | the selected template and task name come from the catalogs, `{n}` lies in 2..99 and the time stamp is the clock's |
| `Simulation.RenderMessage` | script.js:198-200 | a template without `{` is its own message |
| `Simulation.TemplateShapes` | script.js:40-51 | each catalog template is its fixed text around at most one `{task}` and one `{n}`, `{task}` first, with no other `{` |
| `Simulation.RenderShape` | script.js:198-200 | rendering such a template with a task name free of `{` puts the name and the decimal number in place of the placeholders and leaves no `{` |
| `Simulation.CatalogMessage` | script.js:197-200 | every catalog template rendered with a name free of `{` gives its intended message, with no `{task}` or `{n}` left anywhere |
| `Simulation.NewActivity` | script.js:197-202 | the entry has the template's kind and the current time (its message is described by `Simulation.CatalogActivity`) |
| `Simulation.CatalogActivity` | script.js:197-202 | an activity made from a catalog choice carries its template's intended message, with both placeholders substituted and none left |
| `Simulation.NewActivities` | script.js:272 | one entry per choice |
| `Simulation.NewActivitiesEntries` | script.js:272 | entry `k` of the seeded activities is the activity made from choice `k` |
| `Dashboard.Dashboard.constructor` | script.js:60-71 | the initial state: working, task 0, 0 %, step 0, 47 tasks done, 312 minutes, 94 %, empty log, cycle 0 |
| `Dashboard.Dashboard.AddActivity` | script.js:196-205 | the log becomes `LogPush(old log, new activity)` |
| `Dashboard.Dashboard.TickProgress` | script.js:210-241 | the step becomes `min(step + 1, steps)` and progress becomes `min(step * stepSize, 100)`; at 100 the counters rise by exactly 1, one activity is prepended and one rollover is scheduled; below 100 they are unchanged; on task 0 progress stays at or below 96 and no rollover is scheduled |
| `Dashboard.Dashboard.Rollover` | script.js:225-237 | the next task cyclically, at 0 % and step 0, started now; the status comes from `statusCycle % 6` and is one of `MOCK.statuses`; counters and log unchanged |
| `Dashboard.Dashboard.TickUptime` | script.js:244-247 | uptime rises by exactly one minute |
| `Dashboard.Dashboard.TickRandomActivity` | script.js:261-263 | one activity is added when the draw is below 0.35, otherwise nothing changes |
| `Dashboard.Dashboard.Clear` | script.js:292-294 | the log is empty |
| `Dashboard.Dashboard.SeedActivities` | script.js:271-272 | the log becomes the old log with the activities of the choices pushed in order, one `LogPush` each |
| `Dashboard.Dashboard.Init` | script.js:266-277 | five activities are seeded in order; then the status is working, progress is `rand(10, 55)` and the step is the matching step of the first task |
| `Render.ActivityFeed` | script.js:172-194 | the feed is the empty-state message exactly when the log is empty; otherwise it is the newest `min(n, 10)` entries in order |
| `Render.FeedAfterAdd` | script.js:172-205 | after `addActivity` the feed shows the new entry first, then the entries shown before, shifted down |
| `Render.StepLabel` | script.js:152 | the label starts with "Step " |
| `Render.StepLabelInjective` | script.js:152 | the "Step X of N" label determines both X and N |

## Left out

- The Telegram bootstrap and theme variables (script.js:1-15), the greeting (script.js:19, 269) and the haptic call (script.js:295) are host calls into a library that is not part of this model.
- The page writes are not modelled: the DOM references, the `innerHTML`/`textContent` writes, the status badge classes, the queue list and `tickActivityTimes` (script.js:74-94, 134-194, 250-258). Only their pure parts are kept: the feed window and the step label.
- `animateNumber` (script.js:120-131) is floating-point easing driven by `requestAnimationFrame`.
- The `setInterval`/`setTimeout` scheduling (script.js:225, 286-289) is not modelled. Each handler is a method. The 900 ms one-shot timer is the counter `pendingRollovers`, and it admits any interleaving of ticks and rollovers.
- `Random.Rand`: `Math.random()` is taken as an exact real in [0, 1) rather than a double, and the 0.35 threshold is compared as an exact real.
- `Dashboard.Dashboard.AddActivity`: it and the handlers that call it take the selected template, task name and number as a `Choice`. Any choice is accepted. That the choice comes from the catalogs is proved of `Simulation.Choose`, not required of the caller.
- `Dashboard.Dashboard.Init`: it models only the state-setting part of `init`. It requires the state right after the literal, on task 0. The rendering and the timer start-up are not modelled.
- `Text.ReplaceFirst`: the `$` patterns of a JavaScript replacement string (`$&`, `$1` and the like) are not modelled; the replacement is inserted literally. This is exact here: no catalog task name holds `$` (`Mock.TaskNamesPlain`) and a decimal number never does.
- `Mock.TEMPLATES`: each message is written as a concatenation split at its placeholders. The strings are the same as in the source.
- `Simulation.NewActivities`: its own contract gives only the length; that entry `k` is made from choice `k` is stated in `Simulation.NewActivitiesEntries`.
- Counters are unbounded integers. JavaScript numbers would lose precision only beyond 2^53, far outside what the timers can reach.
