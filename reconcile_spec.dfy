/** The reconciliation routine as functions of its parameters and of what the
    appliance answers: which rule is found, which action is chosen, which
    requests are issued in which order, what is reported, and where a
    failure stops the run. The class in module DnsRewrite is proved to
    behave exactly as `Reconcile` says. */
module ReconcileSpec {
  import opened RewriteTypes

  /** The first rule in listing order whose domain is `domain`. */
  function FirstMatch(rules: seq<Rule>, domain: string): (r: Option<Rule>)
    ensures r.Some? ==> r.value in rules && r.value.domain == domain
  {
    if rules == [] then None
    else if rules[0].domain == domain then Some(rules[0])
    else FirstMatch(rules[1..], domain)
  }

  /** No rule is found exactly when no rule of the listing has the domain. */
  lemma {:induction false} FirstMatchNone(rules: seq<Rule>, domain: string)
    ensures FirstMatch(rules, domain).None? <==> forall i :: 0 <= i < |rules| ==> rules[i].domain != domain
  {
    if rules != [] {
      FirstMatchNone(rules[1..], domain);
      assert forall i :: 1 <= i < |rules| ==> rules[i] == rules[1..][i - 1];
    }
  }

  /** The rule found is the one at the lowest index carrying the domain. */
  lemma {:induction false} FirstMatchAt(rules: seq<Rule>, domain: string, k: nat)
    requires k < |rules| && rules[k].domain == domain
    requires forall j :: 0 <= j < k ==> rules[j].domain != domain
    ensures FirstMatch(rules, domain) == Some(rules[k])
  {
    if k > 0 {
      assert rules[0].domain != domain;
      FirstMatchAt(rules[1..], domain, k - 1);
    }
  }

  /** Rules listed after the first match never change what is found:
      later duplicates are ignored. */
  lemma {:induction false} FirstMatchIgnoresLater(rules: seq<Rule>, more: seq<Rule>, domain: string)
    requires FirstMatch(rules, domain).Some?
    ensures FirstMatch(rules + more, domain) == FirstMatch(rules, domain)
  {
    if rules[0].domain != domain {
      assert (rules + more)[1..] == rules[1..] + more;
      FirstMatchIgnoresLater(rules[1..], more, domain);
    }
  }

  /** Rules for other domains listed first are skipped. */
  lemma {:induction false} FirstMatchSkips(rules: seq<Rule>, more: seq<Rule>, domain: string)
    requires forall i :: 0 <= i < |rules| ==> rules[i].domain != domain
    ensures FirstMatch(rules + more, domain) == FirstMatch(more, domain)
  {
    if rules != [] {
      var all := rules + more;
      assert all[0] == rules[0] && rules[0].domain != domain;
      assert all[1..] == rules[1..] + more;
      assert forall i :: 0 <= i < |rules[1..]| ==> rules[1..][i] == rules[i + 1];
      FirstMatchSkips(rules[1..], more, domain);
      assert FirstMatch(all, domain) == FirstMatch(all[1..], domain);
    } else {
      assert rules + more == more;
    }
  }

  /** What `get_all_rewrites` yields: the listing, or the failure that ends
      the run when the status is not 200 or the body does not parse. */
  function Listed(remote: Remote): Outcome<seq<Rule>>
  {
    if remote.listStatus != OK then Failed(ListFailed(remote.listStatus))
    else if remote.listing.None? then Failed(ParseFailed)
    else Done(remote.listing.value)
  }

  /** What `find_rewrite` yields. */
  function Found(remote: Remote, domain: string): Outcome<Option<Rule>>
  {
    match Listed(remote)
    case Failed(f) => Failed(f)
    case Done(rules) => Done(FirstMatch(rules, domain))
  }

  /** The branch `run` takes once the existing rule is known. */
  datatype Action =
    | Create
    | Replace(existing: Rule)
    | Keep(existing: Rule)
    | Remove(existing: Rule)
    | AlreadyAbsent

  /** The decision of `run`. A rule is replaced whenever its answer differs
      from the parameter, also when the parameter is missing. */
  function Decide(state: State, answer: Option<string>, existing: Option<Rule>): Action
  {
    match state
    case Present =>
      if existing.None? then Create
      else if Some(existing.value.answer) != answer then Replace(existing.value)
      else Keep(existing.value)
    case Absent =>
      if existing.None? then AlreadyAbsent else Remove(existing.value)
  }

  /** The result `run` reports for an action when nothing fails. */
  function Intended(domain: string, answer: Option<string>, action: Action): Report
  {
    match action
    case Create => Report(true, CreatedMsg, Shown(domain, answer))
    case Replace(_) => Report(true, UpdatedMsg, Shown(domain, answer))
    case Keep(e) => Report(false, KeptMsg, Shown(e.domain, Some(e.answer)))
    case Remove(_) => Report(true, DeletedMsg, NoRule)
    case AlreadyAbsent => Report(false, AbsentMsg, NoRule)
  }

  /** Requests issued by a part of the run, and the failure that ended it. */
  datatype Step = Step(calls: seq<Call>, failure: Option<Failure>)

  /** `create_rewrite` with the answer it holds: validation first, then the add. */
  function CreateStep(domain: string, answer: Option<string>, status: int): Step
  {
    if !AnswerGiven(answer) then Step([], Some(AnswerRequired))
    else Step([Call(Add(domain, answer.value), status)], if status != OK then Some(AddFailed(status)) else None)
  }

  /** `delete_rewrite` with the answer it holds. */
  function DeleteStep(domain: string, answer: Option<string>, status: int): Step
  {
    Step([Call(Delete(domain, answer), status)], if status != OK then Some(DeleteFailed(status)) else None)
  }

  /** Sequencing under fail-fast: the second part runs only if the first succeeded. */
  function Then(first: Step, second: Step): Step
  {
    if first.failure.Some? then first else Step(first.calls + second.calls, second.failure)
  }

  /** The mutating requests an action issues; none in check mode. */
  function Execute(p: Params, action: Action, remote: Remote): Step
  {
    if p.checkMode then Step([], None)
    else
      match action
      case Create => CreateStep(p.domain, p.answer, remote.addStatus)
      case Replace(e) =>
        Then(DeleteStep(p.domain, Some(e.answer), remote.deleteStatus), CreateStep(p.domain, p.answer, remote.addStatus))
      case Remove(e) => DeleteStep(p.domain, Some(e.answer), remote.deleteStatus)
      case Keep(_) => Step([], None)
      case AlreadyAbsent => Step([], None)
  }

  /** The value of the object's answer field when the run ends: the existing
      rule's answer is loaded for a delete, and the parameter is restored
      before the add of an update. */
  function AnswerAfter(p: Params, action: Action, remote: Remote): Option<string>
  {
    if p.checkMode then p.answer
    else
      match action
      case Replace(e) => if remote.deleteStatus != OK then Some(e.answer) else p.answer
      case Remove(e) => Some(e.answer)
      case Create => p.answer
      case Keep(_) => p.answer
      case AlreadyAbsent => p.answer
  }

  /** Everything one run does: the requests in order, how it ends, and the
      final value of the answer field. */
  datatype Trace = Trace(calls: seq<Call>, outcome: Outcome<Report>, answer: Option<string>)

  function Reconcile(p: Params, remote: Remote): Trace
  {
    var listCall := [Call(List, remote.listStatus)];
    match Listed(remote)
    case Failed(f) => Trace(listCall, Failed(f), p.answer)
    case Done(rules) =>
      var action := Decide(p.state, p.answer, FirstMatch(rules, p.domain));
      var s := Execute(p, action, remote);
      Trace(listCall + s.calls,
            if s.failure.Some? then Failed(s.failure.value) else Done(Intended(p.domain, p.answer, action)),
            AnswerAfter(p, action, remote))
  }
}
