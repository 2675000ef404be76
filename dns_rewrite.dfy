/** The module object of `adguard_dns_rewrite`: it holds the parameters, an
    answer field that its methods reassign, and the log of the HTTP requests
    it has issued to the appliance. Every method is proved against the
    matching function of ReconcileSpec; `Run` against `Reconcile`. A method
    that returns a failure models `fail_json`: the caller stops at once. */
module DnsRewrite {
  import opened RewriteTypes
  import opened ReconcileSpec

  class AdGuardDnsRewrite {
    const domain: string
    const state: State
    const checkMode: bool
    /** module.params['answer'], which `update_rewrite` restores. */
    const paramAnswer: Option<string>
    /** What the appliance answers to the requests of this run. */
    const remote: Remote
    /** self.answer */
    var answer: Option<string>
    /** The requests issued so far, oldest first. */
    var log: seq<Call>

    constructor (params: Params, remote: Remote)
      ensures domain == params.domain && state == params.state && checkMode == params.checkMode
      ensures paramAnswer == params.answer && answer == params.answer
      ensures this.remote == remote && log == []
    {
      domain := params.domain;
      state := params.state;
      checkMode := params.checkMode;
      paramAnswer := params.answer;
      this.remote := remote;
      answer := params.answer;
      log := [];
    }

    function Parameters(): Params
    {
      Params(domain, paramAnswer, state, checkMode)
    }

    method GetAllRewrites() returns (listed: Outcome<seq<Rule>>)
      modifies this`log
      ensures log == old(log) + [Call(List, remote.listStatus)]
      ensures listed == Listed(remote)
    {
      log := log + [Call(List, remote.listStatus)];
      if remote.listStatus != OK {
        return Failed(ListFailed(remote.listStatus));
      }
      if remote.listing.None? {
        return Failed(ParseFailed);
      }
      return Done(remote.listing.value);
    }

    /** Scans the listing and stops at the first rule for the domain. */
    method FindRewrite() returns (found: Outcome<Option<Rule>>)
      modifies this`log
      ensures log == old(log) + [Call(List, remote.listStatus)]
      ensures found == Found(remote, domain)
    {
      var listed := GetAllRewrites();
      if listed.Failed? {
        return Failed(listed.failure);
      }
      var rewrites := listed.value;
      for i := 0 to |rewrites|
        invariant forall j :: 0 <= j < i ==> rewrites[j].domain != domain
      {
        if rewrites[i].domain == domain {
          FirstMatchAt(rewrites, domain, i);
          return Done(Some(rewrites[i]));
        }
      }
      FirstMatchNone(rewrites, domain);
      return Done(None);
    }

    method CreateRewrite() returns (failure: Option<Failure>)
      modifies this`log
      ensures log == old(log) + CreateStep(domain, answer, remote.addStatus).calls
      ensures failure == CreateStep(domain, answer, remote.addStatus).failure
    {
      if !AnswerGiven(answer) {
        return Some(AnswerRequired);
      }
      log := log + [Call(Add(domain, answer.value), remote.addStatus)];
      if remote.addStatus != OK {
        return Some(AddFailed(remote.addStatus));
      }
      return None;
    }

    method DeleteRewrite() returns (failure: Option<Failure>)
      modifies this`log
      ensures log == old(log) + DeleteStep(domain, answer, remote.deleteStatus).calls
      ensures failure == DeleteStep(domain, answer, remote.deleteStatus).failure
    {
      log := log + [Call(Delete(domain, answer), remote.deleteStatus)];
      if remote.deleteStatus != OK {
        return Some(DeleteFailed(remote.deleteStatus));
      }
      return None;
    }

    /** Delete the existing rule under its own answer, then add the rule
        again under the parameter's answer. */
    method UpdateRewrite(existing: Rule) returns (failure: Option<Failure>)
      modifies this`log, this`answer
      ensures var s := Then(DeleteStep(domain, Some(existing.answer), remote.deleteStatus),
                            CreateStep(domain, paramAnswer, remote.addStatus));
              log == old(log) + s.calls && failure == s.failure
      ensures answer == if remote.deleteStatus != OK then Some(existing.answer) else paramAnswer
    {
      answer := Some(existing.answer);
      failure := DeleteRewrite();
      if failure.Some? {
        return;
      }
      answer := paramAnswer;
      failure := CreateRewrite();
    }

    method Run() returns (outcome: Outcome<Report>)
      requires answer == paramAnswer
      modifies this`log, this`answer
      ensures log == old(log) + Reconcile(Parameters(), remote).calls
      ensures outcome == Reconcile(Parameters(), remote).outcome
      ensures answer == Reconcile(Parameters(), remote).answer
    {
      var result := Report(false, "", NoRule);
      var found := FindRewrite();
      if found.Failed? {
        return Failed(found.failure);
      }
      var existing := found.value;
      if state == Present {
        if existing.None? {
          if !checkMode {
            var failure := CreateRewrite();
            if failure.Some? {
              return Failed(failure.value);
            }
          }
          result := result.(changed := true, msg := CreatedMsg, rewrite := Shown(domain, answer));
        } else if Some(existing.value.answer) != answer {
          if !checkMode {
            var failure := UpdateRewrite(existing.value);
            if failure.Some? {
              return Failed(failure.value);
            }
          }
          result := result.(changed := true, msg := UpdatedMsg, rewrite := Shown(domain, answer));
        } else {
          result := result.(msg := KeptMsg, rewrite := Shown(existing.value.domain, Some(existing.value.answer)));
        }
      } else {
        if existing.Some? {
          if !checkMode {
            answer := Some(existing.value.answer);
            var failure := DeleteRewrite();
            if failure.Some? {
              return Failed(failure.value);
            }
          }
          result := result.(changed := true, msg := DeletedMsg);
        } else {
          result := result.(msg := AbsentMsg);
        }
      }
      return Done(result);
    }
  }
}
