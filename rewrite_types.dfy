/** Values exchanged between the DNS rewrite reconciler and the AdGuard Home
    control API: rules, requests, the statuses the appliance answers with,
    failures and the result the module reports. */
module RewriteTypes {

  datatype Option<+T> = None | Some(value: T)

  /** One DNS rewrite rule as the appliance lists it: queries for `domain`
      are answered with `answer` (an IP literal or a CNAME target). */
  datatype Rule = Rule(domain: string, answer: string)

  /** The `state` parameter. */
  datatype State = Present | Absent

  /** The parameters the reconciler acts on. `answer` is optional: the
      argument schema does not require it. */
  datatype Params = Params(domain: string, answer: Option<string>, state: State, checkMode: bool)

  /** One HTTP request to the control API: GET /control/rewrite/list,
      POST /control/rewrite/add or POST /control/rewrite/delete with the
      JSON body {domain, answer}. A delete sends whatever the object holds
      as its answer, which the type allows to be missing (JSON null). */
  datatype Request =
    | List
    | Add(domain: string, answer: string)
    | Delete(domain: string, sentAnswer: Option<string>)

  /** A request that was issued, with the HTTP status it came back with. */
  datatype Call = Call(request: Request, status: int)

  /** What the appliance answers during one run. `listing` is None when the
      list response body does not parse. A run issues each verb at most once,
      so one status per verb describes every possible run. */
  datatype Remote = Remote(listStatus: int, listing: Option<seq<Rule>>, addStatus: int, deleteStatus: int)

  /** The reasons `fail_json` ends a run. */
  datatype Failure =
    | ListFailed(status: int)     // "Failed to get DNS rewrites: ..."
    | ParseFailed                 // "Failed to parse response: ..."
    | AnswerRequired              // "'answer' parameter is required when state is 'present'"
    | AddFailed(status: int)      // "Failed to create DNS rewrite: ..."
    | DeleteFailed(status: int)   // "Failed to delete DNS rewrite: ..."

  /** The HTTP status a failure reports (`status_code`), if it reports one. */
  function FailedStatus(f: Failure): Option<int>
  {
    match f
    case ListFailed(s) => Some(s)
    case AddFailed(s) => Some(s)
    case DeleteFailed(s) => Some(s)
    case ParseFailed => None
    case AnswerRequired => None
  }

  /** Either the value a run produced or the failure that ended it. */
  datatype Outcome<+T> = Done(value: T) | Failed(failure: Failure)

  /** The `rewrite` entry of the result: the empty dict, or {domain, answer}. */
  datatype Shown = NoRule | Shown(domain: string, answer: Option<string>)

  /** The result dict {changed, msg, rewrite} handed to `exit_json`. */
  datatype Report = Report(changed: bool, msg: string, rewrite: Shown)

  const OK: int := 200

  const CreatedMsg: string := "DNS rewrite created successfully"
  const UpdatedMsg: string := "DNS rewrite updated successfully"
  const KeptMsg: string := "DNS rewrite already exists with same values"
  const DeletedMsg: string := "DNS rewrite deleted successfully"
  const AbsentMsg: string := "DNS rewrite does not exist"

  /** Python truthiness of the answer: neither None nor the empty string. */
  predicate AnswerGiven(answer: Option<string>)
  {
    answer.Some? && answer.value != ""
  }

  /** Requests that change the appliance's rules. */
  predicate Mutating(r: Request)
  {
    r.Add? || r.Delete?
  }
}
