/** What the checks of `scripts/ci/check_workflows.py` read: workflow files whose lines have lost
    everything from the first `#` on. */
module WorkflowComments {
  import opened Sequences
  import opened Text
  import opened WorkflowRendering
  import opened WorkflowText
  import opened Wrappers

  predicate Uncommented(s: string) {
    '#' !in s
  }

  // ---------- One line ----------

  lemma {:induction false} StripCommentBehind(front: string, rest: string)
    requires Uncommented(front)
    ensures StripComment(front + rest) == front + StripComment(rest)
  {
    if front == "" {
      assert front + rest == rest && front + StripComment(rest) == StripComment(rest);
    } else {
      assert (front + rest)[1..] == front[1..] + rest;
      StripCommentBehind(front[1..], rest);
      StripCommentCons(front[0], front[1..] + rest);
      assert [front[0]] + (front[1..] + StripComment(rest)) == front + StripComment(rest);
      assert [front[0]] + (front[1..] + rest) == front + rest;
    }
  }

  lemma StripCommentCons(c: char, rest: string)
    ensures StripComment([c] + rest) == if c == '#' then "" else [c] + StripComment(rest)
  {
    var s := [c] + rest;
    assert s[1..] == rest;
    if c != '#' {
      assert IndexOf(s, '#') == IndexOf(rest, '#') + 1;
    }
  }

  /** A stripped line that only had a comment, or nothing, is blank; any other keeps its indent. */
  lemma {:induction false} StripCommentKeepsStart(line: Line)
    ensures Uncommented(StripComment(line))
    ensures Skipped(line) <==> Strip(StripComment(line)) == ""
    ensures !Skipped(line) ==> Indent(StripComment(line)) == Indent(line)
  {
    if line != "" {
      var c, rest := line[0], line[1..];
      assert line == [c] + rest;
      StripCommentCons(c, rest);
      StripCommentKeepsStart(rest);
      if IsSpace(c) {
        BlankBefore(c, rest);
        BlankBefore(c, StripComment(rest));
      } else {
        StartStays(line);
        if c != '#' {
          assert ([c] + StripComment(rest))[0] == c;
          StartStays([c] + StripComment(rest));
        }
      }
    }
  }

  lemma BlankBefore(c: char, rest: string)
    requires IsSpace(c)
    ensures Strip([c] + rest) == Strip(rest)
  {
    assert ([c] + rest)[1..] == rest;
  }

  /** Stripping moves no line into a block or out of it. */
  lemma InsideIsKept(line: Line, indent: nat)
    ensures Inside(StripComment(line), indent) <==> Inside(line, indent)
  {
    StripCommentKeepsStart(line);
    NoHashNoComment(StripComment(line));
  }

  lemma NoHashNoComment(s: string)
    requires Uncommented(s)
    ensures Skipped(s) <==> Strip(s) == ""
  {
    var left, right := StripParts(s);
    if Strip(s) != "" {
      assert Strip(s)[0] in s;
    }
  }

  // ---------- Blocks ----------

  /** Stripping has no effect on where blocks end: extracting and stripping commute, for all lines. */
  lemma {:induction false} BlockOfStripped(lines: seq<Line>, keyIndent: nat)
    ensures Block(StripComments(lines), keyIndent) == StripComments(Block(lines, keyIndent))
  {
    if lines != [] {
      InsideIsKept(lines[0], keyIndent);
      BlockOfStripped(lines[1..], keyIndent);
      assert StripComments(lines)[1..] == StripComments(lines[1..]);
      if Inside(lines[0], keyIndent) {
        var block := Block(lines, keyIndent);
        assert block[0] == lines[0] && block[1..] == Block(lines[1..], keyIndent);
      }
    }
  }

  // ---------- Workflows ----------

  lemma {:induction false} StripConcat(a: seq<Line>, b: seq<Line>)
    ensures StripComments(a + b) == StripComments(a) + StripComments(b)
  {
    if a == [] {
      assert a + b == b;
    } else {
      assert (a + b)[1..] == a[1..] + b;
      StripConcat(a[1..], b);
    }
  }

  function StripStep(s: Step): Step {
    Step(StripComment(s.head), StripComments(s.more))
  }

  function StripSteps(steps: seq<Step>): seq<Step> {
    if steps == [] then [] else [StripStep(steps[0])] + StripSteps(steps[1..])
  }

  function StripBody(b: Body): Body {
    match b
    case Stepped(before, tail, lead, steps, after) =>
      Stepped(StripComments(before), StripComment(tail), StripComments(lead), StripSteps(steps), StripComments(after))
    case Plain(lines) => Plain(StripComments(lines))
  }

  function StripJobs(jobs: seq<Job>): seq<Job> {
    if jobs == [] then []
    else [Job(jobs[0].name, StripComment(jobs[0].blank), StripBody(jobs[0].body))] + StripJobs(jobs[1..])
  }

  function StripWorkflow(w: Workflow): Workflow {
    Workflow(StripComments(w.before), StripComment(w.tail), StripComments(w.lead),
             StripJobs(w.jobs), StripComments(w.after))
  }

  lemma SpacesAreUncommented(n: nat)
    ensures Uncommented(Spaces(n))
  {
  }

  lemma IndentedLine(n: nat, front: string, rest: string)
    requires Uncommented(front)
    ensures StripComment(Spaces(n) + (front + rest)) == Spaces(n) + (front + StripComment(rest))
  {
    SpacesAreUncommented(n);
    StripCommentBehind(front, rest);
    StripCommentBehind(Spaces(n), front + rest);
  }

  lemma StripFirst(line: Line, rest: seq<Line>)
    ensures StripComments([line] + rest) == [StripComment(line)] + StripComments(rest)
  {
    assert ([line] + rest)[1..] == rest;
  }

  lemma {:induction false} StripPrintedSteps(l: Layout, steps: seq<Step>)
    ensures StripComments(Joined(PrintSteps(l, steps))) == Joined(PrintSteps(l, StripSteps(steps)))
  {
    if steps != [] {
      var s, rest := steps[0], Joined(PrintSteps(l, steps[1..]));
      IndentedLine(l.item, "- ", s.head);
      StripFirst(Spaces(l.item) + ("- " + s.head), s.more);
      StripConcat(PrintStep(l, s), rest);
      StripPrintedSteps(l, steps[1..]);
      assert PrintSteps(l, steps)[1..] == PrintSteps(l, steps[1..]);
      assert PrintSteps(l, StripSteps(steps))[1..] == PrintSteps(l, StripSteps(steps[1..]));
    }
  }

  lemma StripPrintedBody(l: Layout, b: Body)
    ensures StripComments(PrintBody(l, b)) == PrintBody(l, StripBody(b))
  {
    if b.Stepped? {
      var steps, line := Joined(PrintSteps(l, b.steps)), StepsLine(l, b.tail);
      IndentedLine(l.key, "steps:", b.tail);
      StripPrintedSteps(l, b.steps);
      StripConcat(b.lead, steps);
      StripConcat(b.lead + steps, b.after);
      StripFirst(line, b.lead + steps + b.after);
      StripConcat(b.before, [line] + (b.lead + steps + b.after));
    }
  }

  lemma {:induction false} StripPrintedJobs(l: Layout, jobs: seq<Job>)
    requires forall j | j in jobs :: Uncommented(j.name)
    ensures StripComments(PrintJobs(l, jobs)) == PrintJobs(l, StripJobs(jobs))
  {
    if jobs != [] {
      var j, rest := jobs[0], PrintJobs(l, jobs[1..]);
      assert j in jobs;
      StripHeader(l, j);
      StripPrintedBody(l, j.body);
      StripConcat(PrintBody(l, j.body), rest);
      StripFirst(JobHeader(l, j), PrintBody(l, j.body) + rest);
      StripPrintedJobs(l, jobs[1..]);
      assert StripJobs(jobs)[1..] == StripJobs(jobs[1..]);
    }
  }

  lemma StripHeader(l: Layout, j: Job)
    requires Uncommented(j.name)
    ensures StripComment(JobHeader(l, j)) == JobHeader(l, Job(j.name, StripComment(j.blank), StripBody(j.body)))
  {
    StripCommentBehind(":", j.blank);
    IndentedLine(l.job, j.name, ":" + j.blank);
  }

  /** Stripping the printed lines is printing the stripped workflow. */
  lemma StripPrinted(l: Layout, w: Workflow)
    requires forall j | j in w.jobs :: Uncommented(j.name)
    ensures StripComments(Print(l, w)) == Print(l, StripWorkflow(w))
  {
    var jobs := PrintJobs(l, w.jobs);
    StripPrintedJobs(l, w.jobs);
    StripConcat(w.lead, jobs);
    StripConcat(w.lead + jobs, w.after);
    StripCommentBehind("jobs:", w.tail);
    StripFirst("jobs:" + w.tail, w.lead + jobs + w.after);
    StripConcat(w.before, ["jobs:" + w.tail] + (w.lead + jobs + w.after));
  }

  // ---------- The search for jobs ----------

  /** No comment is left that could mislead the search: the lead has become blank. */
  lemma {:induction false} StrippedLeadIsBlank(lead: seq<Line>)
    requires AllSkipped(StripComments(lead))
    ensures FirstIndent(StripComments(lead)) == None
  {
    if lead != [] {
      var stripped := StripComments(lead);
      assert stripped[0] in stripped && stripped[1..] == StripComments(lead[1..]);
      assert forall line | line in stripped[1..] :: line in stripped;
      StripCommentKeepsStart(lead[0]);
      NoHashNoComment(StripComment(lead[0]));
      StrippedLeadIsBlank(lead[1..]);
    }
  }

  /** A workflow that is well laid out once its comments are gone. They may stand anywhere: on lines of
      their own at any indent, or behind keys, job names and list items. */
  predicate PrintableBehindComments(l: Layout, w: Workflow) {
    (forall j | j in w.jobs :: Uncommented(j.name)) && Printable(l, StripWorkflow(w))
  }

  lemma {:induction false} StripJobsAt(jobs: seq<Job>)
    ensures |StripJobs(jobs)| == |jobs|
    ensures forall k | 0 <= k < |jobs| ::
              StripJobs(jobs)[k] == Job(jobs[k].name, StripComment(jobs[k].blank), StripBody(jobs[k].body))
  {
    if jobs != [] {
      StripJobsAt(jobs[1..]);
    }
  }

  /** What the checks find: the first job of a name, without its comments, wherever comments stood in the file. */
  lemma StrippedJobIsFound(l: Layout, w: Workflow, i: nat)
    requires PrintableBehindComments(l, w)
    requires i < |w.jobs| && forall k | 0 <= k < i :: w.jobs[k].name != w.jobs[i].name
    ensures JobBlock(StripComments(Print(l, w)), w.jobs[i].name) == StripComments(PrintBody(l, w.jobs[i].body))
  {
    StripPrinted(l, w);
    StrippedLeadIsBlank(w.lead);
    StripJobsAt(w.jobs);
    JobIsFound(l, StripWorkflow(w), i);
    StripPrintedBody(l, w.jobs[i].body);
  }

  /** Round trip through the stripping: the steps of the first job of a name are recovered group by group and line
      by line, each line without its comment, wherever comments stood in the file. */
  lemma StrippedStepsAreRecovered(l: Layout, w: Workflow, i: nat)
    requires PrintableBehindComments(l, w)
    requires i < |w.jobs| && forall k | 0 <= k < i :: w.jobs[k].name != w.jobs[i].name
    requires w.jobs[i].body.Stepped?
    ensures Items(NestedBlock(JobBlock(StripComments(Print(l, w)), w.jobs[i].name), "steps"), None, []) ==
            PrintSteps(l, StripSteps(w.jobs[i].body.steps))
  {
    StripPrinted(l, w);
    StrippedLeadIsBlank(w.lead);
    StripJobsAt(w.jobs);
    StepsAreRecovered(l, StripWorkflow(w), i);
  }
}
