# AdGuard Home DNS rewrite reconciler, modelled in Dafny

The Ansible module `adguard_dns_rewrite` manages a single DNS rewrite rule
(domain → answer) on an AdGuard Home appliance. Its class
`AdGuardDNSRewrite` lists the appliance's rules, takes the first rule whose
domain matches, compares it with the desired `state` and `answer`, and then
issues the fewest mutating requests that get there. That can be no request,
an add, a delete followed by an add (the appliance has no update request),
or a delete. It reports `{changed, msg, rewrite}`. In check mode it skips
the mutating requests but reports the same result. Any response other than
200 ends the run through `fail_json`. Nothing that already happened is
undone.

The model has five modules:

- `RewriteTypes` (`rewrite_types.dfy`) holds the values:
  - rules and parameters;
  - requests (`List`, `Add(domain, answer)`, `Delete(domain, answer)`), and a call, which is a request with the status the appliance returned;
  - `Remote`, which is what the appliance answers during one run: the list status, the parsed listing or a parse failure, and the status of the add and of the delete;
  - the failures that `fail_json` reports;
  - the result, and the five result messages.
- `ReconcileSpec` (`reconcile_spec.dfy`) describes one run as functions:
  - `FirstMatch` finds the rule;
  - `Decide` picks the branch of `run`;
  - `CreateStep`, `DeleteStep` and `Then` give the requests and the fail-fast order;
  - `Reconcile(params, remote)` gives the whole run: the calls in order, the outcome, and the final value of the answer field.
- `DnsRewrite` (`dns_rewrite.dfy`) is the class `AdGuardDnsRewrite`:
  - its mutable `answer` field stands for `self.answer`;
  - a `log` field records the requests issued;
  - each method of the source is a method with the same branches, proved to match the corresponding function of `ReconcileSpec`;
  - `FindRewrite` keeps the source's loop with its early return.
- `ReconcileProperties` (`reconcile_properties.dfy`) proves what a run does:
  - what each branch issues and reports;
  - the behaviour of check mode;
  - fail-fast;
  - what each request carries;
  - that an unchanged result means no mutation.
- `IdealAppliance` (`ideal_appliance.dfy`) states an assumed behaviour of the appliance's rule list and proves convergence under it:
  - a non-200 request has no effect;
  - an add appends the rule;
  - a delete removes every rule equal to the pair it sends.

  When the listing holds at most one rule for the domain, a second run after a successful run changes nothing, and creating a rule and then deleting it leaves no rule for the domain. With two rules for the domain this fails: the second run finds the rule the first run did not delete.

The module's documentation string (adguard_dns_rewrite.py line 48) calls the
answer required when `state` is present. The code enforces that less
strictly, and the model follows the code. It reproduces these behaviours:

- The answer is checked only inside `create_rewrite`, so only after the list request.
- Check mode never checks the answer. When no rule for the domain exists, a missing answer is reported as "DNS rewrite created successfully" with a null answer (`CheckModeSkipsValidation`). When a rule exists, its answer differs from the missing one, and the run reports "DNS rewrite updated successfully" with a null answer (`CheckModeReportsUpdate`).
- With `state=present`, no answer and an existing rule, the answers differ, even when the existing rule's answer is empty. The module deletes the existing rule and only then fails for the missing answer (`MissingAnswerDeletesFirst`, `MissingAnswerDeletesEmptyRule`).
- An empty-string answer equal to the existing rule's empty answer counts as "already exists": validation is never reached.

## Model

| member | source | states |
|---|---|---|
| `ReconcileSpec.FirstMatch` | plugins/modules/adguard_dns_rewrite.py:168-176 | a rule that is found is in the listing and has the requested domain |
| `ReconcileSpec.FirstMatchNone` | plugins/modules/adguard_dns_rewrite.py:172-176 | nothing is found exactly when no listed rule has the domain (both directions) |
| `ReconcileSpec.FirstMatchAt` | plugins/modules/adguard_dns_rewrite.py:172-174 | the rule at the lowest index that has the domain is the one found |
| `ReconcileSpec.FirstMatchIgnoresLater` | plugins/modules/adguard_dns_rewrite.py:172-174 | rules listed after the first match, duplicates included, never change the result |
| `ReconcileSpec.FirstMatchSkips` | plugins/modules/adguard_dns_rewrite.py:172-173 | rules for other domains ahead of the match are skipped |
| `DnsRewrite.AdGuardDnsRewrite.constructor` | plugins/modules/adguard_dns_rewrite.py:126-134 | the object holds the domain, state, check-mode flag and answer parameters; the answer field starts as the parameter; no request is issued yet |
| `DnsRewrite.AdGuardDnsRewrite.GetAllRewrites` | plugins/modules/adguard_dns_rewrite.py:145-166 | appends exactly one list call; fails with the status when it is not 200, fails when the body does not parse, and otherwise yields the listing |
| `DnsRewrite.AdGuardDnsRewrite.FindRewrite` | plugins/modules/adguard_dns_rewrite.py:168-176 | after the list call, yields the first rule in listing order for the domain, or none; the loop stops at that rule |
| `DnsRewrite.AdGuardDnsRewrite.CreateRewrite` | plugins/modules/adguard_dns_rewrite.py:178-205 | fails with no request when the answer is missing or empty; otherwise issues one add of {domain, answer} and fails when it is not 200 |
| `DnsRewrite.AdGuardDnsRewrite.DeleteRewrite` | plugins/modules/adguard_dns_rewrite.py:207-229 | issues one delete of {domain, current answer} and fails when it is not 200 |
| `DnsRewrite.AdGuardDnsRewrite.UpdateRewrite` | plugins/modules/adguard_dns_rewrite.py:231-242 | deletes under the existing rule's answer, then restores the parameter and adds it; a failed delete stops before the add; states the final answer field |
| `DnsRewrite.AdGuardDnsRewrite.Run` | plugins/modules/adguard_dns_rewrite.py:244-293 | the calls appended to the log, the outcome and the final answer field are exactly those of `Reconcile` for the object's parameters |
| `ReconcileProperties.CreatesWhenMissing` | plugins/modules/adguard_dns_rewrite.py:255-265 | present, no rule for the domain and not check mode: the list call then exactly one add carrying the domain and answer; changed, "created", rewrite {domain, answer}, or the add's failure |
| `ReconcileProperties.CreateWithoutAnswerFails` | plugins/modules/adguard_dns_rewrite.py:180-183 | present, no rule and no usable answer: fails after the list call and issues no mutating request |
| `ReconcileProperties.CheckModeSkipsValidation` | plugins/modules/adguard_dns_rewrite.py:256-265 | in check mode the missing rule is reported as created, with whatever answer was given and no validation |
| `ReconcileProperties.KeepsWhenEqual` | plugins/modules/adguard_dns_rewrite.py:276-279 | present, the first rule has the desired answer: only the list call; not changed, "already exists", rewrite is the existing rule |
| `ReconcileProperties.ReplacesWhenDifferent` | plugins/modules/adguard_dns_rewrite.py:231-275 | present, the first rule has another answer: delete {domain, old answer} and then add {domain, new answer}, in that order; the reported answer is the desired one; a failed delete issues no add; a failed add leaves the delete in place |
| `ReconcileProperties.MissingAnswerDeletesFirst` | plugins/modules/adguard_dns_rewrite.py:235-240 | present with no usable answer and an existing rule whose answer differs from it: the delete is issued and succeeds, then the run fails for the missing answer |
| `ReconcileProperties.MissingAnswerDeletesEmptyRule` | plugins/modules/adguard_dns_rewrite.py:266-269 | a missing answer against an existing rule {d, ""}: the list call, the delete of {d, ""}, then the failure for the missing answer |
| `ReconcileProperties.CheckModeReportsUpdate` | plugins/modules/adguard_dns_rewrite.py:266-275 | in check mode a rule whose answer differs from the parameter, a missing one included, is reported as updated to the parameter, with only the list call |
| `ReconcileProperties.RemovesWhenPresent` | plugins/modules/adguard_dns_rewrite.py:281-288 | absent with a rule: exactly one delete, carrying the existing rule's answer; changed, "deleted", empty rewrite, or the delete's failure |
| `ReconcileProperties.NothingToRemove` | plugins/modules/adguard_dns_rewrite.py:289-291 | absent without a rule: only the list call; not changed, "does not exist" |
| `ReconcileProperties.CheckModeAgrees` | plugins/modules/adguard_dns_rewrite.py:255-291 | check mode issues only the list call and keeps the answer; it reports the real run's result whenever the real run succeeds; it fails exactly when the listing fails, and then just like the real run |
| `ReconcileProperties.FailFast` | plugins/modules/adguard_dns_rewrite.py:156-229 | the list call comes first; every call but the last returned 200; a successful run saw only 200s; a failure with a status is the last call's non-200 status |
| `ReconcileProperties.RequestsCarryExpectedBodies` | plugins/modules/adguard_dns_rewrite.py:180-213 | every add carries the domain and a non-empty parameter answer; every delete carries the answer of the rule that was found |
| `ReconcileProperties.UnchangedMeansUntouched` | plugins/modules/adguard_dns_rewrite.py:246-291 | a run reporting no change issued only the list call; a run that issued a mutating request was not in check mode |
| `ReconcileProperties.UpdateExample` | plugins/modules/adguard_dns_rewrite.py:266-275 | listing [a.test → 10.0.0.1] with desired 10.0.0.2: delete then add, changed, rewrite {a.test, 10.0.0.2} |
| `IdealAppliance.Converges` | plugins/modules/adguard_dns_rewrite.py:244-293 | on the assumed appliance, with at most one rule for the domain, a successful run leaves at most one such rule: the desired rule for present, none for absent |
| `IdealAppliance.SecondRunChangesNothing` | plugins/modules/adguard_dns_rewrite.py:244-293 | idempotence: a second run over the listing the first left behind issues only the list call and reports no change |
| `IdealAppliance.CreateThenDelete` | plugins/modules/adguard_dns_rewrite.py:255-291 | creating and then deleting a rule leaves no rule for the domain, and the delete reports a change |

## Left out

- HTTP transport (`fetch_url`), TLS and `validate_certs`, the URL base with its trailing-slash strip, and the basic-auth header built with base64: these are library code of a foreign network service. Every request is a call in the log, with a status taken from `Remote`.
- JSON encoding and decoding: a list body either parses into a sequence of rules or fails (`ParseFailed`). A body that parses into something other than a list of {domain, answer} objects is not modelled. That includes an entry without an `answer` key, which makes `existing_rewrite['answer']` raise, and an entry without a `domain` key. Extra keys in a listed entry are not modelled either; the source reports them in `rewrite` for an unchanged rule.
- The text of failure messages that comes from the transport (`info['msg']`, the parse exception): a failure carries its kind and HTTP status only.
- `main`, the argument schema and `exit_json`: this is plumbing. The schema limits `state` to present and absent, which the `State` datatype encodes. It also makes `answer` optional, which `Option<string>` encodes.
- DnsRewrite.AdGuardDnsRewrite.Run: it requires that the answer field still holds the parameter, as it does when `main` calls `run` right after construction.
- The real appliance behaviour for duplicate rules and for mismatched deletes is not known. `IdealAppliance` states an assumed behaviour and proves convergence only under it. The run itself is modelled without it.
- Concurrent runs against the same appliance: each run is modelled alone.
