/**
 * The values exchanged with the remote signing service: the job snapshot
 * (`WorkflowStatusResponse`), its release assets, the dispatch payload, and
 * what one HTTP call may come back with.
 */
module Models {
  import opened Wrappers

  /** One downloadable artifact of a finished job. */
  datatype Asset = Asset(id: string, name: string, url: string, browser_download_url: string)

  /**
   * The remote service's view of one job. Every field but `id` is optional.
   * `last_checked` is kept as the JSON text it is parsed from.
   */
  datatype WorkflowStatusResponse = WorkflowStatusResponse(
    id: string,
    username: Option<string>,
    workflow_run_id: Option<int>,
    last_checked: Option<string>,
    last_status: Option<string>,
    completed: Option<bool>,
    release_assets: Option<seq<Asset>>)

  /** The body of a dispatch request. */
  datatype DispatchRequest = DispatchRequest(source_branch: string, release_name: string)

  /**
   * What the environment answers to one API call: a parsed snapshot, a parsed
   * error envelope `{ message }` (sent with a success status), or an exception
   * (transport failure, per-call timeout, or a non-2xx status, on which the
   * HTTP client throws), carrying the text of its `message`.
   */
  datatype Outcome = Ok(snapshot: WorkflowStatusResponse) | Envelope(message: string) | Throw(reason: string)

  /**
   * A parsed body as the code goes on to use it: the source casts whatever it
   * parsed to a snapshot, so an error envelope flows on as a "snapshot" whose
   * fields are all `undefined`.
   */
  datatype Body = Snapshot(status: WorkflowStatusResponse) | ErrorBody(message: string)

  /** The body an outcome parses to, when it does not throw. */
  function BodyOf(o: Outcome): (b: Body)
    requires !o.Throw?
    ensures b.Snapshot? <==> o.Ok?
    ensures o.Ok? ==> b.status == o.snapshot
    ensures o.Envelope? ==> IdText(b) == "undefined" && LastStatus(b).None? && ReleaseAssets(b).None? && !Completed(b)
  {
    if o.Ok? then Snapshot(o.snapshot) else ErrorBody(o.message)
  }

  /** `${body.id}`: an envelope has no `id`, which a template literal renders as "undefined". */
  function IdText(b: Body): string {
    if b.Snapshot? then b.status.id else "undefined"
  }

  /** `body.completed || false` */
  predicate Completed(b: Body) {
    b.Snapshot? && b.status.completed == Some(true)
  }

  /** `body.last_status` */
  function LastStatus(b: Body): Option<string> {
    if b.Snapshot? then b.status.last_status else None
  }

  /** `body.release_assets` */
  function ReleaseAssets(b: Body): Option<seq<Asset>> {
    if b.Snapshot? then b.status.release_assets else None
  }

  /** The answer reports a finished job. */
  predicate Finishes(o: Outcome) {
    o.Ok? && o.snapshot.completed == Some(true)
  }

  /** The answer lets a poll loop go on: it neither throws nor reports a finished job. */
  predicate Continues(o: Outcome) {
    !o.Throw? && !Finishes(o)
  }

  /** A parsed answer is complete exactly when it reports a finished job. */
  lemma CompletedIffFinishes(o: Outcome)
    requires !o.Throw?
    ensures Completed(BodyOf(o)) <==> Finishes(o)
  {
  }
}
