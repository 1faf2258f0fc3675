/** The static demonstration data (`MOCK`): statuses, the catalog of tasks, the
    activity templates and task names used in messages. */
module Mock {

  datatype Status = Online | Working | Idle

  /** `MOCK.statuses`. */
  const STATUSES: seq<string> := ["online", "working", "idle"]

  /** The string the status is stored and shown as (its badge class). */
  function StatusName(s: Status): (name: string)
    ensures name in STATUSES
  {
    match s
    case Online => "online"
    case Working => "working"
    case Idle => "idle"
  }

  datatype Task = Task(name: string, steps: nat, eta: string)

  /** `MOCK.tasks`. */
  const TASKS: seq<Task> := [
    Task("Scraping product catalog", 12, "~3 min"),
    Task("Sending newsletter batch", 8, "~1 min"),
    Task("Generating PDF reports", 20, "~7 min"),
    Task("Syncing user database", 5, "~2 min"),
    Task("Analyzing sentiment data", 15, "~5 min"),
    Task("Uploading media assets", 10, "~4 min")
  ]

  datatype Kind = Success | Info | Warning | Error

  datatype Template = Template(kind: Kind, msg: string)

  /** `MOCK.activityTemplates`: `{task}` and `{n}` are placeholders. Each
      message is written split at its placeholders. */
  const TEMPLATES: seq<Template> := [
    Template(Success, "Task \"" + "{task}" + "\" completed successfully"),
    Template(Info, "Started processing \"" + "{task}" + "\""),
    Template(Warning, "Retrying \"" + "{task}" + "\" — attempt " + "{n}" + ""),
    Template(Error, "\"" + "{task}" + "\" failed — will reschedule"),
    Template(Success, "Sent " + "{n}" + " notifications"),
    Template(Info, "Queue flushed — " + "{n}" + " items processed"),
    Template(Success, "Exported " + "{n}" + " records to CSV"),
    Template(Warning, "Rate limit hit — throttling for " + "{n}" + "s"),
    Template(Info, "Webhook received from external service"),
    Template(Error, "Connection timeout — retrying in " + "{n}" + "s")
  ]

  /** `MOCK.taskNames`. */
  const TASK_NAMES: seq<string> := [
    "catalog scraper", "newsletter batch", "PDF renderer",
    "DB sync", "sentiment analyser", "media uploader"
  ]

  /** No task name holds `{` (so no placeholder can appear through it) or
      `$` (so `replace` inserts it literally). */
  lemma TaskNamesPlain()
    ensures forall k :: 0 <= k < |TASK_NAMES| ==> '{' !in TASK_NAMES[k] && '$' !in TASK_NAMES[k]
  {
  }
}
