/** The checks of `scripts/ci/check_workflows.py` that compare positions of steps. They read lines that
    have lost their comments. */
module WorkflowChecks {
  import opened Sequences
  import opened TextSearch
  import opened WorkflowText
  import opened Wrappers

  function StepsOf(lines: seq<Line>, job: string): seq<Item> {
    Items(NestedBlock(JobBlock(lines, job), "steps"), None, [])
  }

  predicate RunsReleaseCheck(step: Item) {
    Contains(LinesText(step), "make release-check")
  }

  predicate CreatesBuilder(step: Item) {
    var s := LinesText(step);
    Contains(s, "docker buildx create") && Contains(s, "docker-container") && Contains(s, "--use")
  }

  predicate RemovesBuilder(step: Item) {
    Contains(LinesText(step), "buildx rm")
  }

  predicate ValidatesContext(step: Item) {
    Contains(LinesText(step), "check_release_context.py")
  }

  predicate CreatesRelease(step: Item) {
    Contains(LinesText(step), "gh release create")
  }

  predicate GuardsRelease(step: Item) {
    Contains(LinesText(step), "gh release view") && FailsTheJob(LinesText(step))
  }

  predicate HasCondition(step: Item) {
    exists line | line in step :: IsCondition(line)
  }

  /** Some line of the step contains `sub`. */
  predicate Says(step: Item, sub: string) {
    exists line | line in step :: Contains(line, sub)
  }

  /** What the checks look for in a step, line by line. */
  lemma StepKinds(step: Item)
    ensures RunsReleaseCheck(step) <==> Says(step, "make release-check")
    ensures RemovesBuilder(step) <==> Says(step, "buildx rm")
    ensures ValidatesContext(step) <==> Says(step, "check_release_context.py")
    ensures CreatesRelease(step) <==> Says(step, "gh release create")
  {
    FoundInALine(step, "make release-check");
    FoundInALine(step, "buildx rm");
    FoundInALine(step, "check_release_context.py");
    FoundInALine(step, "gh release create");
  }

  lemma BuilderStep(step: Item)
    ensures CreatesBuilder(step) <==>
            Says(step, "docker buildx create") && Says(step, "docker-container") && Says(step, "--use")
  {
    FoundInALine(step, "docker buildx create");
    FoundInALine(step, "docker-container");
    FoundInALine(step, "--use");
  }

  lemma GuardStep(step: Item)
    ensures GuardsRelease(step) <==> Says(step, "gh release view") && FailsTheJob(LinesText(step))
  {
    FoundInALine(step, "gh release view");
  }

  /** A step is a release check wherever on one of its lines the command stands, and only then. */
  lemma ReleaseCheckIsSeen(step: Item, before: string, after: string)
    requires before + ("make release-check" + after) in step
    ensures RunsReleaseCheck(step)
  {
    OccurrenceIsFound(before, "make release-check", after);
    StepKinds(step);
  }

  lemma SeenReleaseCheck(step: Item) returns (before: string, after: string)
    requires RunsReleaseCheck(step)
    ensures before + ("make release-check" + after) in step
  {
    StepKinds(step);
    var line :| line in step && Contains(line, "make release-check");
    before, after := FoundOccurs(line, "make release-check");
  }

  datatype Finding =
    | NoJob(job: string)
    | NoReleaseCheck(job: string)
    | NoBuilder(job: string)
    | BuilderTooLate(job: string)
    | NoCleanup(job: string)
    | ConditionalCleanup(job: string)
    | NoContextValidation
    | ConditionalContextValidation
    | NoEventName
    | NoRef
    | ContextValidationTooLate
    | Clobbers(file: string)
    | NoReleaseCreation
    | NoGuard
    | GuardTooLate

  /** Every step with property `p` has an earlier step with property `q`. */
  ghost predicate EachPreceded(steps: seq<Item>, p: Item -> bool, q: Item -> bool) {
    forall i | 0 <= i < |steps| && p(steps[i]) :: exists j | 0 <= j < i :: q(steps[j])
  }

  ghost predicate Somewhere(steps: seq<Item>, p: Item -> bool) {
    exists step | step in steps :: p(step)
  }

  /** The first `q` stands before the first `p` exactly when every `p` has an earlier `q`. */
  lemma FirstBeforeFirst(steps: seq<Item>, p: Item -> bool, q: Item -> bool)
    requires Somewhere(steps, p)
    ensures FirstIndex(steps, p) < |steps|
    ensures FirstIndex(steps, q) < FirstIndex(steps, p) <==> EachPreceded(steps, p, q)
  {
    var i, j := FirstIndex(steps, p), FirstIndex(steps, q);
    var step :| step in steps && p(step);
    var k :| 0 <= k < |steps| && steps[k] == step;
    assert p(steps[i]);
    if j < i {
      forall m | 0 <= m < |steps| && p(steps[m]) ensures exists n | 0 <= n < m :: q(steps[n]) {
        assert q(steps[j]) && j < m;
      }
    }
  }

  lemma SomewhereExactly(steps: seq<Item>, p: Item -> bool)
    ensures FirstIndex(steps, p) < |steps| <==> Somewhere(steps, p)
  {
    if step :| step in steps && p(step) {
      var k :| 0 <= k < |steps| && steps[k] == step;
    }
  }

  // ---------- A builder for every release check ----------

  /** What `make release-check` needs in one job: a builder created before every such step,
      and a cleanup whose first step always runs. */
  ghost predicate BuilderIsReady(lines: seq<Line>, job: string) {
    var steps := StepsOf(lines, job);
    && JobBlock(lines, job) != []
    && Somewhere(steps, RunsReleaseCheck)
    && EachPreceded(steps, RunsReleaseCheck, CreatesBuilder)
    && CleansUp(steps)
  }

  predicate CleansUp(steps: seq<Item>) {
    var first := FirstIndex(steps, RemovesBuilder);
    first < |steps| && Contains(LinesText(steps[first]), "if: always()")
  }

  /** What is reported of the builder's creation, and of its cleanup. */
  function CreationFindings(job: string, created: bool, inTime: bool): seq<Finding> {
    if !created then [NoBuilder(job)] else if !inTime then [BuilderTooLate(job)] else []
  }

  function CleanupFindings(job: string, removed: bool, always: bool): seq<Finding> {
    if !removed then [NoCleanup(job)] else if !always then [ConditionalCleanup(job)] else []
  }

  /** What is reported of one job. */
  ghost function BuilderFindings(lines: seq<Line>, job: string): seq<Finding> {
    var steps := StepsOf(lines, job);
    if JobBlock(lines, job) == [] then [NoJob(job)]
    else if !Somewhere(steps, RunsReleaseCheck) then [NoReleaseCheck(job)]
    else
      CreationFindings(job, Somewhere(steps, CreatesBuilder), EachPreceded(steps, RunsReleaseCheck, CreatesBuilder))
      + CleanupFindings(job, Somewhere(steps, RemovesBuilder), CleansUp(steps))
  }

  /** Where something is required before something else: where the first ones stand tells which is missing. */
  lemma OrderOfFirsts(steps: seq<Item>, p: Item -> bool, q: Item -> bool)
    ensures FirstIndex(steps, p) < |steps| <==> Somewhere(steps, p)
    ensures FirstIndex(steps, q) < |steps| <==> Somewhere(steps, q)
    ensures Somewhere(steps, p) ==> (FirstIndex(steps, q) < FirstIndex(steps, p) <==> EachPreceded(steps, p, q))
    ensures Somewhere(steps, p) && EachPreceded(steps, p, q) ==> Somewhere(steps, q)
  {
    SomewhereExactly(steps, p);
    SomewhereExactly(steps, q);
    if Somewhere(steps, p) {
      FirstBeforeFirst(steps, p, q);
    }
  }

  lemma BuilderFindingsExactly(lines: seq<Line>, job: string)
    ensures BuilderFindings(lines, job) == [] <==> BuilderIsReady(lines, job)
  {
    var steps := StepsOf(lines, job);
    OrderOfFirsts(steps, RunsReleaseCheck, CreatesBuilder);
    SomewhereExactly(steps, RemovesBuilder);
  }

  /** No findings exactly when the job is ready; otherwise what is missing is what is reported. */
  method CheckBuilder(lines: seq<Line>, job: string) returns (findings: seq<Finding>)
    ensures findings == BuilderFindings(lines, job)
    ensures findings == [] <==> BuilderIsReady(lines, job)
  {
    BuilderFindingsExactly(lines, job);
    if JobBlock(lines, job) == [] {
      return [NoJob(job)];
    }
    var steps := StepsOf(lines, job);
    OrderOfFirsts(steps, RunsReleaseCheck, CreatesBuilder);
    SomewhereExactly(steps, RemovesBuilder);
    var releaseCheck := FirstIndex(steps, RunsReleaseCheck);
    if releaseCheck == |steps| {
      return [NoReleaseCheck(job)];
    }
    findings := [];
    var builderCreate := FirstIndex(steps, CreatesBuilder);
    if builderCreate == |steps| {
      findings := findings + [NoBuilder(job)];
    } else if builderCreate >= releaseCheck {
      findings := findings + [BuilderTooLate(job)];
    }
    assert findings == CreationFindings(job, builderCreate < |steps|, builderCreate < releaseCheck);
    var cleanup := FirstIndex(steps, RemovesBuilder);
    var always := cleanup < |steps| && Contains(LinesText(steps[cleanup]), "if: always()");
    if cleanup == |steps| {
      findings := findings + [NoCleanup(job)];
    } else if !always {
      findings := findings + [ConditionalCleanup(job)];
    }
    assert findings == CreationFindings(job, builderCreate < |steps|, builderCreate < releaseCheck)
                       + CleanupFindings(job, cleanup < |steps|, always);
  }

  const BUILDER_JOBS: seq<(string, string)> := [("ci.yml", "release-policy"), ("release.yml", "validate")]

  /** What is reported of one listed job, if its file is there. */
  ghost function JobFindings(texts: map<string, seq<Line>>, file: string, job: string): seq<Finding> {
    if file in texts then BuilderFindings(texts[file], job) else []
  }

  ghost function ListedFindings(texts: map<string, seq<Line>>, jobs: seq<(string, string)>): seq<Finding> {
    if jobs == [] then []
    else
      var (file, job) := jobs[|jobs| - 1];
      ListedFindings(texts, jobs[..|jobs| - 1]) + JobFindings(texts, file, job)
  }

  /** The release checks of two jobs need a builder: `release-policy` in `ci.yml` and `validate` in `release.yml`. */
  method CheckBuilders(texts: map<string, seq<Line>>) returns (findings: seq<Finding>)
    ensures findings ==
            JobFindings(texts, "ci.yml", "release-policy") + JobFindings(texts, "release.yml", "validate")
    ensures findings == [] <==>
            && ("ci.yml" in texts ==> BuilderIsReady(texts["ci.yml"], "release-policy"))
            && ("release.yml" in texts ==> BuilderIsReady(texts["release.yml"], "validate"))
  {
    findings := [];
    for i := 0 to |BUILDER_JOBS|
      invariant findings == ListedFindings(texts, BUILDER_JOBS[..i])
    {
      var (file, job) := BUILDER_JOBS[i];
      assert BUILDER_JOBS[..i + 1][..i] == BUILDER_JOBS[..i];
      if file in texts {
        var found := CheckBuilder(texts[file], job);
        findings := findings + found;
      }
    }
    TwoJobs(texts);
  }

  lemma TwoJobs(texts: map<string, seq<Line>>)
    ensures var findings := ListedFindings(texts, BUILDER_JOBS[..|BUILDER_JOBS|]);
            var ci, release := JobFindings(texts, "ci.yml", "release-policy"),
                               JobFindings(texts, "release.yml", "validate");
            && findings == ci + release
            && (ci == [] <==> ("ci.yml" in texts ==> BuilderIsReady(texts["ci.yml"], "release-policy")))
            && (release == [] <==> ("release.yml" in texts ==> BuilderIsReady(texts["release.yml"], "validate")))
  {
    var one := [("ci.yml", "release-policy")];
    assert one[..0] == [];
    assert ListedFindings(texts, one) == JobFindings(texts, "ci.yml", "release-policy");
    assert BUILDER_JOBS[..2][..1] == one && BUILDER_JOBS[..2] == BUILDER_JOBS;
    if "ci.yml" in texts {
      BuilderFindingsExactly(texts["ci.yml"], "release-policy");
    }
    if "release.yml" in texts {
      BuilderFindingsExactly(texts["release.yml"], "validate");
    }
  }

  // ---------- The context is validated first ----------

  /** The first step that validates the release context does so unconditionally and with explicit
      context, and no release check stands before it. */
  ghost predicate ContextIsValidatedFirst(lines: seq<Line>) {
    var steps := StepsOf(lines, "validate");
    && JobBlock(lines, "validate") != []
    && IsExplicit(steps)
    && forall i | 0 <= i < |steps| && RunsReleaseCheck(steps[i]) :: exists j | 0 <= j <= i :: ValidatesContext(steps[j])
  }

  predicate IsExplicit(steps: seq<Item>) {
    var first := FirstIndex(steps, ValidatesContext);
    && first < |steps|
    && !HasCondition(steps[first])
    && Contains(LinesText(steps[first]), "--event-name") && Contains(LinesText(steps[first]), "--ref")
  }

  lemma FirstNotAfterFirst(steps: seq<Item>, p: Item -> bool, q: Item -> bool)
    requires FirstIndex(steps, q) < |steps|
    ensures (FirstIndex(steps, p) < |steps| ==> FirstIndex(steps, q) <= FirstIndex(steps, p)) <==>
            forall i | 0 <= i < |steps| && p(steps[i]) :: exists j | 0 <= j <= i :: q(steps[j])
  {
    var i, j := FirstIndex(steps, p), FirstIndex(steps, q);
    assert q(steps[j]);
    if i < |steps| && i < j {
      assert p(steps[i]);
    }
  }

  /** `finding`, if `wrong`. */
  function When(wrong: bool, finding: Finding): seq<Finding> {
    if wrong then [finding] else []
  }

  /** What is reported of the step that validates the context, and of a release check before it. */
  function StepFindings(condition: bool, eventName: bool, ref: bool, late: bool): seq<Finding> {
    When(condition, ConditionalContextValidation) + When(!eventName, NoEventName) + When(!ref, NoRef)
    + When(late, ContextValidationTooLate)
  }

  /** What is reported of the release context. */
  function ContextFindings(lines: seq<Line>): seq<Finding> {
    var steps := StepsOf(lines, "validate");
    var first := FirstIndex(steps, ValidatesContext);
    if JobBlock(lines, "validate") == [] then [NoJob("validate")]
    else if first == |steps| then [NoContextValidation]
    else
      StepFindings(HasCondition(steps[first]), Says(steps[first], "--event-name"), Says(steps[first], "--ref"),
                   exists i | 0 <= i < first :: RunsReleaseCheck(steps[i]))
  }

  lemma ContextFindingsExactly(lines: seq<Line>)
    ensures ContextFindings(lines) == [] <==> ContextIsValidatedFirst(lines)
  {
    var steps := StepsOf(lines, "validate");
    if FirstIndex(steps, ValidatesContext) < |steps| {
      ContextStepsExactly(steps);
    }
  }

  lemma ContextStepsExactly(steps: seq<Item>)
    requires FirstIndex(steps, ValidatesContext) < |steps|
    ensures var first := FirstIndex(steps, ValidatesContext);
            var late := exists i | 0 <= i < first :: RunsReleaseCheck(steps[i]);
            StepFindings(HasCondition(steps[first]), Says(steps[first], "--event-name"),
                         Says(steps[first], "--ref"), late) == [] <==>
            && IsExplicit(steps)
            && forall i | 0 <= i < |steps| && RunsReleaseCheck(steps[i]) ::
                 exists j | 0 <= j <= i :: ValidatesContext(steps[j])
  {
    var first := FirstIndex(steps, ValidatesContext);
    var late := exists i | 0 <= i < first :: RunsReleaseCheck(steps[i]);
    FirstNotAfterFirst(steps, RunsReleaseCheck, ValidatesContext);
    EarlierExactly(steps, RunsReleaseCheck, first);
    ExplicitContext(steps[first]);
    NothingFound(HasCondition(steps[first]), Says(steps[first], "--event-name"), Says(steps[first], "--ref"), late);
  }

  lemma NothingFound(condition: bool, eventName: bool, ref: bool, late: bool)
    ensures StepFindings(condition, eventName, ref, late) == [] <==> !condition && eventName && ref && !late
  {
  }

  lemma ExplicitContext(step: Item)
    ensures Contains(LinesText(step), "--event-name") <==> Says(step, "--event-name")
    ensures Contains(LinesText(step), "--ref") <==> Says(step, "--ref")
  {
    FoundInALine(step, "--event-name");
    FoundInALine(step, "--ref");
  }

  lemma EarlierExactly(steps: seq<Item>, p: Item -> bool, limit: nat)
    requires limit <= |steps|
    ensures FirstIndex(steps, p) < limit <==> exists i | 0 <= i < limit :: p(steps[i])
  {
    if FirstIndex(steps, p) < limit {
      assert p(steps[FirstIndex(steps, p)]);
    }
  }

  method CheckReleaseContext(texts: map<string, seq<Line>>) returns (findings: seq<Finding>)
    ensures findings == if "release.yml" in texts then ContextFindings(texts["release.yml"]) else []
    ensures findings == [] <==> ("release.yml" in texts ==> ContextIsValidatedFirst(texts["release.yml"]))
  {
    if "release.yml" !in texts {
      return [];
    }
    findings := CheckContext(texts["release.yml"]);
    ContextFindingsExactly(texts["release.yml"]);
  }

  method CheckContext(lines: seq<Line>) returns (findings: seq<Finding>)
    ensures findings == ContextFindings(lines)
  {
    if JobBlock(lines, "validate") == [] {
      return [NoJob("validate")];
    }
    var steps := StepsOf(lines, "validate");
    var context := FirstIndex(steps, ValidatesContext);
    if context == |steps| {
      return [NoContextValidation];
    }
    var releaseCheck := FirstIndex(steps, RunsReleaseCheck);
    EarlierExactly(steps, RunsReleaseCheck, context);
    ExplicitContext(steps[context]);
    findings := CheckContextStep(steps[context], releaseCheck < |steps| && context > releaseCheck);
  }

  method CheckContextStep(step: Item, late: bool) returns (findings: seq<Finding>)
    ensures findings == StepFindings(HasCondition(step), Says(step, "--event-name"), Says(step, "--ref"), late)
  {
    ExplicitContext(step);
    var condition := HasCondition(step);
    var eventName := Contains(LinesText(step), "--event-name");
    var ref := Contains(LinesText(step), "--ref");
    findings := [];
    if condition {
      findings := findings + [ConditionalContextValidation];
    }
    assert findings == When(condition, ConditionalContextValidation);
    if !eventName {
      findings := findings + [NoEventName];
    }
    assert findings == When(condition, ConditionalContextValidation) + When(!eventName, NoEventName);
    if !ref {
      findings := findings + [NoRef];
    }
    if late {
      findings := findings + [ContextValidationTooLate];
    }
  }

  // ---------- An existing release is never overwritten ----------

  /** Every step of the publish job that creates a release has an earlier step that fails the job if one exists. */
  ghost predicate ReleaseIsGuarded(lines: seq<Line>) {
    var steps := StepsOf(lines, "publish");
    && JobBlock(lines, "publish") != []
    && Somewhere(steps, CreatesRelease)
    && EachPreceded(steps, CreatesRelease, GuardsRelease)
  }

  /** What is reported of the publish job. */
  ghost function GuardFindings(lines: seq<Line>): seq<Finding> {
    var steps := StepsOf(lines, "publish");
    if JobBlock(lines, "publish") == [] then [NoJob("publish")]
    else if !Somewhere(steps, CreatesRelease) then [NoReleaseCreation]
    else if !Somewhere(steps, GuardsRelease) then [NoGuard]
    else if !EachPreceded(steps, CreatesRelease, GuardsRelease) then [GuardTooLate]
    else []
  }

  /** The files that mention `--clobber` are reported, each once, and what is wrong with the publish job behind them. */
  method CheckNoReleaseClobber(texts: map<string, seq<Line>>)
    returns (findings: seq<Finding>, ghost clobbers: seq<Finding>)
    ensures findings == clobbers + if "release.yml" in texts then GuardFindings(texts["release.yml"]) else []
    ensures multiset(clobbers) == multiset(set name | name in texts && Says(texts[name], "--clobber") :: Clobbers(name))
    ensures findings == [] <==>
            && (forall name | name in texts :: !Says(texts[name], "--clobber"))
            && ("release.yml" in texts ==> ReleaseIsGuarded(texts["release.yml"]))
  {
    findings := CheckClobber(texts);
    clobbers := findings;
    NoneReported(texts, clobbers);
    if "release.yml" !in texts {
      return;
    }
    var found := CheckGuard(texts["release.yml"]);
    findings := findings + found;
  }

  method CheckClobber(texts: map<string, seq<Line>>) returns (findings: seq<Finding>)
    ensures multiset(findings) == multiset(set name | name in texts && Says(texts[name], "--clobber") :: Clobbers(name))
  {
    findings := [];
    var names := texts.Keys;
    while names != {}
      invariant names <= texts.Keys
      invariant multiset(findings) == multiset(Reported(texts, names))
    {
      var name :| name in names;
      OneMoreReported(texts, names, name);
      var clobbers := Says(texts[name], "--clobber");
      if clobbers {
        findings := findings + [Clobbers(name)];
      }
      names := names - {name};
    }
    assert Reported(texts, {}) == set name | name in texts && Says(texts[name], "--clobber") :: Clobbers(name);
  }

  function Reported(texts: map<string, seq<Line>>, left: set<string>): set<Finding> {
    set name | name in texts && name !in left && Says(texts[name], "--clobber") :: Clobbers(name)
  }

  lemma NoneReported(texts: map<string, seq<Line>>, findings: seq<Finding>)
    requires multiset(findings) ==
             multiset(set name | name in texts && Says(texts[name], "--clobber") :: Clobbers(name))
    ensures findings == [] <==> forall name | name in texts :: !Says(texts[name], "--clobber")
  {
    var reported := set name | name in texts && Says(texts[name], "--clobber") :: Clobbers(name);
    assert |findings| == |multiset(findings)| == |multiset(reported)|;
    if name :| name in texts && Says(texts[name], "--clobber") {
      assert Clobbers(name) in multiset(reported);
    }
    if findings != [] {
      assert findings[0] in multiset(findings);
      assert findings[0] in reported;
    }
  }

  lemma OneMoreReported(texts: map<string, seq<Line>>, left: set<string>, name: string)
    requires name in left && name in texts
    ensures Reported(texts, left - {name}) ==
            Reported(texts, left) + if Says(texts[name], "--clobber") then {Clobbers(name)} else {}
    ensures Clobbers(name) !in Reported(texts, left)
  {
  }

  lemma GuardFindingsExactly(lines: seq<Line>)
    ensures GuardFindings(lines) == [] <==> ReleaseIsGuarded(lines)
  {
    OrderOfFirsts(StepsOf(lines, "publish"), CreatesRelease, GuardsRelease);
  }

  method CheckGuard(lines: seq<Line>) returns (findings: seq<Finding>)
    ensures findings == GuardFindings(lines)
    ensures findings == [] <==> ReleaseIsGuarded(lines)
  {
    GuardFindingsExactly(lines);
    if JobBlock(lines, "publish") == [] {
      return [NoJob("publish")];
    }
    var steps := StepsOf(lines, "publish");
    OrderOfFirsts(steps, CreatesRelease, GuardsRelease);
    var create := FirstIndex(steps, CreatesRelease);
    if create == |steps| {
      return [NoReleaseCreation];
    }
    findings := [];
    var guard := FirstIndex(steps, GuardsRelease);
    if guard == |steps| {
      findings := findings + [NoGuard];
    } else if guard >= create {
      findings := findings + [GuardTooLate];
    }
  }
}
