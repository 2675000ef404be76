/** What one run of the reconciler does, branch by branch, stated over the
    listing the appliance returns; then the properties that hold of every
    run: check mode, fail-fast, validation and minimal mutation. */
module ReconcileProperties {
  import opened RewriteTypes
  import opened ReconcileSpec

  /** The listing holds a rule for `domain` at index k and none before it. */
  predicate FirstAt(rules: seq<Rule>, domain: string, k: nat)
  {
    k < |rules| && rules[k].domain == domain &&
    forall j :: 0 <= j < k ==> rules[j].domain != domain
  }

  /** Present, no rule for the domain: one add after the list call. */
  lemma CreatesWhenMissing(p: Params, remote: Remote, rules: seq<Rule>)
    requires p.state == Present && !p.checkMode && AnswerGiven(p.answer)
    requires Listed(remote) == Done(rules)
    requires forall i :: 0 <= i < |rules| ==> rules[i].domain != p.domain
    ensures Reconcile(p, remote).calls == [Call(List, OK), Call(Add(p.domain, p.answer.value), remote.addStatus)]
    ensures Reconcile(p, remote).outcome ==
              if remote.addStatus == OK then Done(Report(true, CreatedMsg, Shown(p.domain, p.answer)))
              else Failed(AddFailed(remote.addStatus))
  {
    FirstMatchNone(rules, p.domain);
  }

  /** Present, no rule for the domain, no usable answer: the run fails after
      the list call and before any mutating request. */
  lemma CreateWithoutAnswerFails(p: Params, remote: Remote, rules: seq<Rule>)
    requires p.state == Present && !p.checkMode && !AnswerGiven(p.answer)
    requires Listed(remote) == Done(rules)
    requires forall i :: 0 <= i < |rules| ==> rules[i].domain != p.domain
    ensures Reconcile(p, remote).calls == [Call(List, OK)]
    ensures Reconcile(p, remote).outcome == Failed(AnswerRequired)
  {
    FirstMatchNone(rules, p.domain);
  }

  /** In check mode the answer is never validated: a missing answer is
      reported as a created rule. */
  lemma CheckModeSkipsValidation(p: Params, remote: Remote, rules: seq<Rule>)
    requires p.state == Present && p.checkMode
    requires Listed(remote) == Done(rules)
    requires forall i :: 0 <= i < |rules| ==> rules[i].domain != p.domain
    ensures Reconcile(p, remote).calls == [Call(List, OK)]
    ensures Reconcile(p, remote).outcome == Done(Report(true, CreatedMsg, Shown(p.domain, p.answer)))
  {
    FirstMatchNone(rules, p.domain);
  }

  /** Present, the first rule for the domain has the desired answer: no
      mutating request, and the existing rule is reported unchanged. */
  lemma KeepsWhenEqual(p: Params, remote: Remote, rules: seq<Rule>, k: nat)
    requires p.state == Present
    requires Listed(remote) == Done(rules) && FirstAt(rules, p.domain, k)
    requires p.answer == Some(rules[k].answer)
    ensures Reconcile(p, remote).calls == [Call(List, OK)]
    ensures Reconcile(p, remote).outcome == Done(Report(false, KeptMsg, Shown(rules[k].domain, Some(rules[k].answer))))
    ensures Reconcile(p, remote).answer == p.answer
  {
    FirstMatchAt(rules, p.domain, k);
  }

  /** Present, the first rule for the domain has another answer: delete it
      under its own answer, then add the desired one, in that order. A
      failed delete stops before the add; a failed add leaves the delete
      done. */
  lemma ReplacesWhenDifferent(p: Params, remote: Remote, rules: seq<Rule>, k: nat)
    requires p.state == Present && !p.checkMode && AnswerGiven(p.answer)
    requires Listed(remote) == Done(rules) && FirstAt(rules, p.domain, k)
    requires p.answer != Some(rules[k].answer)
    ensures var del := Call(Delete(p.domain, Some(rules[k].answer)), remote.deleteStatus);
            Reconcile(p, remote).calls ==
              if remote.deleteStatus != OK then [Call(List, OK), del]
              else [Call(List, OK), del, Call(Add(p.domain, p.answer.value), remote.addStatus)]
    ensures Reconcile(p, remote).outcome ==
              if remote.deleteStatus != OK then Failed(DeleteFailed(remote.deleteStatus))
              else if remote.addStatus != OK then Failed(AddFailed(remote.addStatus))
              else Done(Report(true, UpdatedMsg, Shown(p.domain, p.answer)))
    ensures Reconcile(p, remote).answer == if remote.deleteStatus != OK then Some(rules[k].answer) else p.answer
  {
    FirstMatchAt(rules, p.domain, k);
  }

  /** Present without an answer and with an existing rule: the answers
      differ, so the existing rule is deleted before validation fails. */
  lemma MissingAnswerDeletesFirst(p: Params, remote: Remote, rules: seq<Rule>, k: nat)
    requires p.state == Present && !p.checkMode && !AnswerGiven(p.answer)
    requires Listed(remote) == Done(rules) && FirstAt(rules, p.domain, k)
    requires remote.deleteStatus == OK && p.answer != Some(rules[k].answer)
    ensures Reconcile(p, remote).calls == [Call(List, OK), Call(Delete(p.domain, Some(rules[k].answer)), OK)]
    ensures Reconcile(p, remote).outcome == Failed(AnswerRequired)
  {
    FirstMatchAt(rules, p.domain, k);
  }

  /** In check mode a rule whose answer differs from the parameter, also a
      missing parameter, is reported as updated to the parameter, with no
      validation and no mutating request. */
  lemma CheckModeReportsUpdate(p: Params, remote: Remote, rules: seq<Rule>, k: nat)
    requires p.state == Present && p.checkMode
    requires Listed(remote) == Done(rules) && FirstAt(rules, p.domain, k)
    requires p.answer != Some(rules[k].answer)
    ensures Reconcile(p, remote).calls == [Call(List, OK)]
    ensures Reconcile(p, remote).outcome == Done(Report(true, UpdatedMsg, Shown(p.domain, p.answer)))
  {
    FirstMatchAt(rules, p.domain, k);
  }

  /** Absent, a rule for the domain exists: one delete carrying the existing
      rule's answer, not the parameter. */
  lemma RemovesWhenPresent(p: Params, remote: Remote, rules: seq<Rule>, k: nat)
    requires p.state == Absent && !p.checkMode
    requires Listed(remote) == Done(rules) && FirstAt(rules, p.domain, k)
    ensures Reconcile(p, remote).calls == [Call(List, OK), Call(Delete(p.domain, Some(rules[k].answer)), remote.deleteStatus)]
    ensures Reconcile(p, remote).outcome ==
              if remote.deleteStatus == OK then Done(Report(true, DeletedMsg, NoRule))
              else Failed(DeleteFailed(remote.deleteStatus))
    ensures Reconcile(p, remote).answer == Some(rules[k].answer)
  {
    FirstMatchAt(rules, p.domain, k);
  }

  /** Absent, no rule for the domain: nothing to do. */
  lemma NothingToRemove(p: Params, remote: Remote, rules: seq<Rule>)
    requires p.state == Absent
    requires Listed(remote) == Done(rules)
    requires forall i :: 0 <= i < |rules| ==> rules[i].domain != p.domain
    ensures Reconcile(p, remote).calls == [Call(List, OK)]
    ensures Reconcile(p, remote).outcome == Done(Report(false, AbsentMsg, NoRule))
  {
    FirstMatchNone(rules, p.domain);
  }

  /** Check mode issues only the list call and reports what the real run
      reports whenever the real run succeeds; both fail alike when the
      listing fails. */
  lemma CheckModeAgrees(p: Params, remote: Remote)
    ensures var dry := Reconcile(p.(checkMode := true), remote);
            dry.calls == [Call(List, remote.listStatus)] && dry.answer == p.answer
    ensures var dry := Reconcile(p.(checkMode := true), remote);
            var live := Reconcile(p.(checkMode := false), remote);
            live.outcome.Done? ==> dry.outcome == live.outcome
    ensures Reconcile(p.(checkMode := true), remote).outcome.Failed? <==> Listed(remote).Failed?
    ensures var dry := Reconcile(p.(checkMode := true), remote);
            var live := Reconcile(p.(checkMode := false), remote);
            Listed(remote).Failed? ==> live == dry
  {
  }

  /** Fail-fast: every request but the last came back 200; a successful run
      saw only 200s; a failure carrying a status is the status of the last
      request, and nothing was issued after it. */
  lemma FailFast(p: Params, remote: Remote)
    ensures var t := Reconcile(p, remote);
            |t.calls| >= 1 && t.calls[0].request == List &&
            forall i :: 0 <= i < |t.calls| - 1 ==> t.calls[i].status == OK
    ensures var t := Reconcile(p, remote);
            t.outcome.Done? ==> forall i :: 0 <= i < |t.calls| ==> t.calls[i].status == OK
    ensures var t := Reconcile(p, remote);
            t.outcome.Failed? && FailedStatus(t.outcome.failure).Some? ==>
              t.calls[|t.calls| - 1].status == FailedStatus(t.outcome.failure).value != OK
  {
  }

  /** Every add carries the domain and a non-empty answer from the
      parameters; every delete carries the answer of the rule found. */
  lemma RequestsCarryExpectedBodies(p: Params, remote: Remote)
    ensures var t := Reconcile(p, remote);
            forall i :: 0 <= i < |t.calls| && t.calls[i].request.Add? ==>
              AnswerGiven(p.answer) && t.calls[i].request == Add(p.domain, p.answer.value)
    ensures var t := Reconcile(p, remote);
            forall i :: 0 <= i < |t.calls| && t.calls[i].request.Delete? ==>
              Found(remote, p.domain).Done? && Found(remote, p.domain).value.Some? &&
              t.calls[i].request == Delete(p.domain, Some(Found(remote, p.domain).value.value.answer))
  {
  }

  /** Minimal mutation: a run that reports no change issued no mutating
      request, and a run that issued one is not in check mode. */
  lemma UnchangedMeansUntouched(p: Params, remote: Remote)
    ensures var t := Reconcile(p, remote);
            t.outcome.Done? && !t.outcome.value.changed ==> t.calls == [Call(List, OK)]
    ensures var t := Reconcile(p, remote);
            (exists i :: 0 <= i < |t.calls| && Mutating(t.calls[i].request)) ==> !p.checkMode
  {
  }

  /** A missing answer against an existing rule whose answer is empty still
      differs from it, so the rule is deleted before validation fails. */
  lemma MissingAnswerDeletesEmptyRule()
    ensures var remote := Remote(OK, Some([Rule("d", "")]), OK, OK);
            var t := Reconcile(Params("d", None, Present, false), remote);
            t.calls == [Call(List, OK), Call(Delete("d", Some("")), OK)] && t.outcome == Failed(AnswerRequired)
  {
  }

  /** The listing from the scenario of a rule whose answer changes. */
  lemma UpdateExample()
    ensures var p := Params("a.test", Some("10.0.0.2"), Present, false);
            var remote := Remote(OK, Some([Rule("a.test", "10.0.0.1")]), OK, OK);
            Reconcile(p, remote).calls ==
              [Call(List, OK), Call(Delete("a.test", Some("10.0.0.1")), OK), Call(Add("a.test", "10.0.0.2"), OK)] &&
            Reconcile(p, remote).outcome == Done(Report(true, UpdatedMsg, Shown("a.test", Some("10.0.0.2"))))
  {
  }
}
