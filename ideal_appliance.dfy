/** A model of how the appliance's rule list changes under the requests a
    run issues, used to state convergence: after a successful run the first
    rule for the domain is the desired one (or there is none), so a second
    run with the same parameters changes nothing. The appliance is not part
    of the module; what is assumed of it is: a request that does not come
    back 200 has no effect, an add appends the rule, and a delete removes
    every rule equal to the pair it carries (none when it carries no
    answer). */
module IdealAppliance {
  import opened RewriteTypes
  import opened ReconcileSpec

  /** The listing without any rule equal to `r`, order kept. */
  function Without(rules: seq<Rule>, r: Rule): (out: seq<Rule>)
    ensures forall x :: x in out <==> x in rules && x != r
  {
    if rules == [] then []
    else if rules[0] == r then Without(rules[1..], r)
    else [rules[0]] + Without(rules[1..], r)
  }

  function ApplyCall(rules: seq<Rule>, c: Call): seq<Rule>
  {
    if c.status != OK then rules
    else
      match c.request
      case List => rules
      case Add(d, a) => rules + [Rule(d, a)]
      case Delete(d, a) => if a.Some? then Without(rules, Rule(d, a.value)) else rules
  }

  /** The listing after the calls, in order. */
  function Apply(rules: seq<Rule>, calls: seq<Call>): seq<Rule>
    decreases calls
  {
    if calls == [] then rules else Apply(ApplyCall(rules, calls[0]), calls[1..])
  }

  /** The listing holds at most one rule for the domain, as the module
      assumes of the rules it manages. */
  predicate AtMostOne(rules: seq<Rule>, domain: string)
  {
    forall i, j :: 0 <= i < j < |rules| && rules[i].domain == domain ==> rules[j].domain != domain
  }

  /** Removing the only rule for a domain leaves none for it. */
  lemma WithoutOnly(rules: seq<Rule>, e: Rule)
    requires AtMostOne(rules, e.domain) && e in rules
    ensures forall i :: 0 <= i < |Without(rules, e)| ==> Without(rules, e)[i].domain != e.domain
  {
    var out := Without(rules, e);
    var b :| 0 <= b < |rules| && rules[b] == e;
    forall i | 0 <= i < |out|
      ensures out[i].domain != e.domain
    {
      assert out[i] in out;
      var a :| 0 <= a < |rules| && rules[a] == out[i];
      assert a != b;
    }
  }

  /** Appending a rule to a listing with none for its domain: it is the
      first match and the only one. */
  lemma AppendToClear(rules: seq<Rule>, r: Rule)
    requires forall i :: 0 <= i < |rules| ==> rules[i].domain != r.domain
    ensures FirstMatch(rules + [r], r.domain) == Some(r)
    ensures AtMostOne(rules + [r], r.domain)
  {
    FirstMatchSkips(rules, [r], r.domain);
    var all := rules + [r];
    assert forall i :: 0 <= i < |rules| ==> all[i] == rules[i];
  }

  /** A listing with no rule for the domain trivially has at most one. */
  lemma ClearIsAtMostOne(rules: seq<Rule>, domain: string)
    requires forall i :: 0 <= i < |rules| ==> rules[i].domain != domain
    ensures AtMostOne(rules, domain)
  {
  }

  /** After a successful run (not in check mode) over a listing with at
      most one rule for the domain, the listing still has at most one, and
      it is the desired rule for `present`, none for `absent`. */
  lemma {:induction false} Converges(p: Params, remote: Remote, rules: seq<Rule>)
    requires !p.checkMode && Listed(remote) == Done(rules) && AtMostOne(rules, p.domain)
    requires Reconcile(p, remote).outcome.Done?
    ensures AtMostOne(Apply(rules, Reconcile(p, remote).calls), p.domain)
    ensures p.state == Present ==>
              p.answer.Some? && FirstMatch(Apply(rules, Reconcile(p, remote).calls), p.domain) == Some(Rule(p.domain, p.answer.value))
    ensures p.state == Absent ==> FirstMatch(Apply(rules, Reconcile(p, remote).calls), p.domain) == None
  {
    var d := p.domain;
    var existing := FirstMatch(rules, d);
    var calls := Reconcile(p, remote).calls;
    var listCall := Call(List, OK);
    match Decide(p.state, p.answer, existing)
    case Create =>
      FirstMatchNone(rules, d);
      var add := Call(Add(d, p.answer.value), OK);
      assert calls == [listCall, add];
      assert Apply(rules, calls) == Apply(rules, [add]) == Apply(rules + [Rule(d, p.answer.value)], []);
      AppendToClear(rules, Rule(d, p.answer.value));
    case Replace(e) =>
      var del := Call(Delete(d, Some(e.answer)), OK);
      var add := Call(Add(d, p.answer.value), OK);
      assert calls == [listCall, del, add];
      assert Rule(d, e.answer) == e;
      assert Apply(rules, calls) == Apply(rules, [del, add]);
      assert Apply(rules, [del, add]) == Apply(Without(rules, e), [add]);
      assert Apply(Without(rules, e), [add]) == Apply(Without(rules, e) + [Rule(d, p.answer.value)], []);
      WithoutOnly(rules, e);
      AppendToClear(Without(rules, e), Rule(d, p.answer.value));
    case Keep(e) =>
      assert calls == [listCall];
      assert Apply(rules, calls) == Apply(rules, []);
    case Remove(e) =>
      var del := Call(Delete(d, Some(e.answer)), OK);
      assert calls == [listCall, del];
      assert Rule(d, e.answer) == e;
      assert Apply(rules, calls) == Apply(rules, [del]) == Apply(Without(rules, e), []);
      WithoutOnly(rules, e);
      ClearIsAtMostOne(Without(rules, e), d);
      FirstMatchNone(Without(rules, e), d);
    case AlreadyAbsent =>
      assert calls == [listCall];
      assert Apply(rules, calls) == Apply(rules, []);
  }

  /** Idempotence: running again with the same parameters over the listing
      a successful run left behind issues no mutating request and reports
      no change; for `present` it reports the desired rule. */
  lemma SecondRunChangesNothing(p: Params, remote: Remote, rules: seq<Rule>)
    requires !p.checkMode && Listed(remote) == Done(rules) && AtMostOne(rules, p.domain)
    requires Reconcile(p, remote).outcome.Done?
    ensures var again := Reconcile(p, remote.(listing := Some(Apply(rules, Reconcile(p, remote).calls))));
            again.calls == [Call(List, OK)] &&
            again.outcome == Done(if p.state == Present then Report(false, KeptMsg, Shown(p.domain, p.answer))
                                  else Report(false, AbsentMsg, NoRule))
  {
    Converges(p, remote, rules);
  }

  /** Creating a rule and then deleting it, each against the listing the
      previous run left behind, leaves no rule for the domain. */
  lemma CreateThenDelete(domain: string, answer: string, remote: Remote, rules: seq<Rule>)
    requires answer != "" && Listed(remote) == Done(rules) && AtMostOne(rules, domain)
    requires remote.addStatus == OK && remote.deleteStatus == OK
    ensures var create := Reconcile(Params(domain, Some(answer), Present, false), remote);
            var mid := Apply(rules, create.calls);
            var delete := Reconcile(Params(domain, Some(answer), Absent, false), remote.(listing := Some(mid)));
            create.outcome.Done? && delete.outcome.Done? && delete.outcome.value.changed &&
            FirstMatch(Apply(mid, delete.calls), domain) == None
  {
    var present := Params(domain, Some(answer), Present, false);
    var absent := Params(domain, Some(answer), Absent, false);
    var mid := Apply(rules, Reconcile(present, remote).calls);
    var remote2 := remote.(listing := Some(mid));
    Converges(present, remote, rules);
    Converges(absent, remote2, mid);
  }
}
