/** Workflows written out with strictly deeper indentation at each level, and what the
    extraction helpers find in them. Blank lines and comments may stand anywhere, at any indent; what
    remains of the comments when the checks run is the subject of `WorkflowComments`. */
module WorkflowRendering {
  import opened Sequences
  import opened Text
  import opened WorkflowText
  import opened Wrappers

  /** A step: the text behind its `- `, and the lines up to the next step, which are written deeper
      than the marker or are blank or comments; those behind the last step count as its lines. */
  datatype Step = Step(head: string, more: seq<Line>)

  /** What stands below a job's name. `Stepped`: the lines before `steps:`, what follows `steps:` on its line,
      the blank lines and comments before the first step, the steps, and the lines from the next
      key on. `Plain`: any lines, such as those of a job that calls another workflow. */
  datatype Body =
    | Stepped(before: seq<Line>, tail: string, lead: seq<Line>, steps: seq<Step>, after: seq<Line>)
    | Plain(lines: seq<Line>)

  /** A job: its name, the white space behind the colon, and its body. */
  datatype Job = Job(name: string, blank: string, body: Body)

  /** A workflow: the lines before `jobs:`, what follows `jobs:` on its line, the blank lines and
      comments before the first job, the jobs, and the lines from the next top-level key on. */
  datatype Workflow = Workflow(before: seq<Line>, tail: string, lead: seq<Line>, jobs: seq<Job>, after: seq<Line>)

  /** The indents of job names, of the keys in a job, and of the list markers. */
  datatype Layout = Layout(job: nat, key: nat, item: nat)

  // ---------- Writing ----------

  function PrintStep(l: Layout, s: Step): Item {
    [Spaces(l.item) + ("- " + s.head)] + s.more
  }

  function PrintSteps(l: Layout, steps: seq<Step>): seq<Item> {
    if steps == [] then [] else [PrintStep(l, steps[0])] + PrintSteps(l, steps[1..])
  }

  function StepsLine(l: Layout, tail: string): Line {
    Spaces(l.key) + ("steps:" + tail)
  }

  function PrintBody(l: Layout, b: Body): seq<Line> {
    match b
    case Stepped(before, tail, lead, steps, after) =>
      before + ([StepsLine(l, tail)] + (lead + Joined(PrintSteps(l, steps)) + after))
    case Plain(lines) => lines
  }

  function JobHeader(l: Layout, j: Job): Line {
    Spaces(l.job) + (j.name + (":" + j.blank))
  }

  function PrintJobs(l: Layout, jobs: seq<Job>): seq<Line> {
    if jobs == [] then [] else [JobHeader(l, jobs[0])] + (PrintBody(l, jobs[0].body) + PrintJobs(l, jobs[1..]))
  }

  function Print(l: Layout, w: Workflow): seq<Line> {
    w.before + (["jobs:" + w.tail] + (w.lead + PrintJobs(l, w.jobs) + w.after))
  }

  /** Text that starts a line of its own: not blank, not a comment, not indented further. */
  predicate StartsLine(s: string) {
    s != "" && !IsSpace(s[0]) && s[0] != '#'
  }

  /** Lines below a key: deeper than it, blank, or comments. */
  predicate Within(lines: seq<Line>, indent: nat) {
    forall line | line in lines :: Inside(line, indent)
  }

  predicate AllSkipped(lines: seq<Line>) {
    forall line | line in lines :: Skipped(line)
  }

  /** The next line, if there is one, does not belong to the key at `indent`. */
  predicate Leaves(lines: seq<Line>, indent: nat) {
    lines != [] ==> !Inside(lines[0], indent)
  }

  predicate PrintableStep(l: Layout, s: Step) {
    RStrip(s.head) != "" && Within(s.more, l.item)
  }

  predicate PrintableBody(l: Layout, b: Body) {
    match b
    case Stepped(before, tail, lead, steps, after) =>
      && Within(before, l.job)
      && (forall line | line in before :: !StartsWith(Strip(line), "steps:"))
      && AllSkipped(lead)
      && (forall s | s in steps :: PrintableStep(l, s))
      && Within(after, l.job) && Leaves(after, l.key)
    case Plain(lines) => Within(lines, l.job)
  }

  predicate PrintableJob(l: Layout, j: Job) {
    StartsLine(j.name) && AllSpace(j.blank) && PrintableBody(l, j.body)
  }

  predicate Printable(l: Layout, w: Workflow) {
    && 0 < l.job < l.key < l.item
    && (forall line | line in w.before :: !IsKeyLine(line, "jobs", 0))
    && (LStrip(w.tail) == "" || LStrip(w.tail)[0] == '#')
    && AllSkipped(w.lead)
    && (forall j | j in w.jobs :: PrintableJob(l, j))
    && Leaves(w.after, 0)
  }

  // ---------- Lines ----------

  lemma {:induction false} ShiftedLine(n: nat, text: string)
    requires text == "" || text[0] != ' '
    ensures Indent(Spaces(n) + text) == n
    ensures Strip(Spaces(n) + text) == Strip(text)
    ensures LStrip(Spaces(n) + text) == LStrip(text)
  {
    if n == 0 {
      assert Spaces(0) + text == text;
    } else {
      assert (Spaces(n) + text)[1..] == Spaces(n - 1) + text;
      ShiftedLine(n - 1, text);
    }
  }

  lemma {:induction false} RStripPrefix(p: string, s: string)
    requires RStrip(s) != ""
    ensures RStrip(p + s) == p + RStrip(s)
  {
    if IsSpace(s[|s| - 1]) {
      assert (p + s)[..|p + s| - 1] == p + s[..|s| - 1];
      RStripPrefix(p, s[..|s| - 1]);
    }
  }

  lemma RStripBehind(core: string, tail: string)
    requires core != "" && !IsSpace(core[|core| - 1])
    ensures StartsWith(RStrip(core + tail), core)
  {
    if RStrip(tail) == "" {
      var right := RStripParts(tail);
      RStripAround(core, tail);
    } else {
      RStripPrefix(core, tail);
    }
  }

  lemma StartingLine(n: nat, text: string)
    requires StartsLine(text)
    ensures !Skipped(Spaces(n) + text) && Indent(Spaces(n) + text) == n
    ensures LStrip(Spaces(n) + text) == text
  {
    ShiftedLine(n, text);
    StartStays(text);
  }

  lemma {:induction false} StartStays(text: string)
    requires text != "" && !IsSpace(text[0])
    ensures RStrip(text) != "" && RStrip(text)[0] == text[0]
  {
    if IsSpace(text[|text| - 1]) {
      StartStays(text[..|text| - 1]);
    }
  }

  lemma WithinConcat(a: seq<Line>, b: seq<Line>, indent: nat)
    ensures Within(a + b, indent) <==> Within(a, indent) && Within(b, indent)
  {
    assert forall line :: line in a + b <==> line in a || line in b;
  }

  // ---------- Steps ----------

  lemma MarkerLine(n: nat, head: string)
    requires RStrip(head) != ""
    ensures var line := Spaces(n) + ("- " + head); IsMarker(line) && Indent(line) == n
  {
    ShiftedLine(n, "- " + head);
    RStripPrefix("- ", head);
  }

  lemma PrintedStepIsItem(l: Layout, s: Step)
    requires PrintableStep(l, s)
    ensures IsItem(PrintStep(l, s), l.item)
    ensures forall indent: nat | indent < l.item :: Within(PrintStep(l, s), indent)
  {
    MarkerLine(l.item, s.head);
    var item := PrintStep(l, s);
    forall k | 0 < k < |item| ensures !(IsMarker(item[k]) && Indent(item[k]) == l.item) {
      assert item[k] in s.more;
    }
  }

  lemma {:induction false} PrintedStepsAreItems(l: Layout, steps: seq<Step>, indent: nat)
    requires indent < l.item && forall s | s in steps :: PrintableStep(l, s)
    ensures forall item | item in PrintSteps(l, steps) :: IsItem(item, l.item)
    ensures Within(Joined(PrintSteps(l, steps)), indent)
  {
    if steps != [] {
      assert steps[0] in steps;
      PrintedStepIsItem(l, steps[0]);
      PrintedStepsAreItems(l, steps[1..], indent);
      WithinConcat(PrintStep(l, steps[0]), Joined(PrintSteps(l, steps[1..])), indent);
      assert PrintSteps(l, steps)[1..] == PrintSteps(l, steps[1..]);
    }
  }

  /** What stands before the first step belongs to none. */
  lemma {:induction false} LeadIsDropped(lead: seq<Line>, rest: seq<Line>)
    requires AllSkipped(lead)
    ensures Items(lead + rest, None, []) == Items(rest, None, [])
  {
    if lead == [] {
      assert lead + rest == rest;
    } else {
      assert lead[0] in lead && (lead + rest)[1..] == lead[1..] + rest;
      LeadIsDropped(lead[1..], rest);
    }
  }

  // ---------- Jobs ----------

  lemma {:induction false} NestedSkips(lines: seq<Line>, key: string, rest: seq<Line>)
    requires forall line | line in lines :: !StartsWith(Strip(line), key + ":")
    ensures NestedBlock(lines + rest, key) == NestedBlock(rest, key)
  {
    if lines == [] {
      assert lines + rest == rest;
    } else {
      assert lines[0] in lines && (lines + rest)[1..] == lines[1..] + rest;
      NestedSkips(lines[1..], key, rest);
    }
  }

  lemma NestedFinds(line: Line, key: string, rest: seq<Line>)
    requires StartsWith(Strip(line), key + ":")
    ensures NestedBlock([line] + rest, key) == Block(rest, Indent(line))
  {
    assert ([line] + rest)[1..] == rest;
  }

  lemma StepsLineIsKey(l: Layout, tail: string)
    ensures StartsWith(Strip(StepsLine(l, tail)), "steps:") && Indent(StepsLine(l, tail)) == l.key
  {
    ShiftedLine(l.key, "steps:" + tail);
    RStripBehind("steps:", tail);
  }

  /** The steps of a job's body are found, whatever its other keys are. */
  lemma StepsOfBody(l: Layout, b: Body)
    requires PrintableBody(l, b) && b.Stepped? && l.key < l.item
    ensures NestedBlock(PrintBody(l, b), "steps") == b.lead + Joined(PrintSteps(l, b.steps))
  {
    var steps := b.lead + Joined(PrintSteps(l, b.steps));
    var line := StepsLine(l, b.tail);
    assert "steps" + ":" == "steps:";
    StepsLineIsKey(l, b.tail);
    NestedSkips(b.before, "steps", [line] + (steps + b.after));
    NestedFinds(line, "steps", steps + b.after);
    PrintedStepsAreItems(l, b.steps, l.key);
    WithinConcat(b.lead, Joined(PrintSteps(l, b.steps)), l.key);
    BlockIsLongestRun(steps, b.after, l.key);
  }

  /** Every line of a body belongs to the job. */
  lemma BodyIsWithin(l: Layout, b: Body)
    requires PrintableBody(l, b) && l.job < l.key < l.item
    ensures Within(PrintBody(l, b), l.job)
  {
    if b.Stepped? {
      var steps, line := Joined(PrintSteps(l, b.steps)), StepsLine(l, b.tail);
      StepsLineIsKey(l, b.tail);
      PrintedStepsAreItems(l, b.steps, l.job);
      WithinConcat(b.lead, steps, l.job);
      WithinConcat(b.lead + steps, b.after, l.job);
      WithinConcat([line], b.lead + steps + b.after, l.job);
      WithinConcat(b.before, [line] + (b.lead + steps + b.after), l.job);
    }
  }

  /** A job's line is recognised as that of its name, and of no other. */
  lemma HeaderNamesJob(l: Layout, j: Job, name: string)
    requires StartsLine(j.name) && AllSpace(j.blank)
    ensures IsJobAt(JobHeader(l, j), name, l.job) <==> j.name == name
    ensures !Inside(JobHeader(l, j), l.job) && Indent(JobHeader(l, j)) == l.job && Strip(JobHeader(l, j)) != ""
  {
    StartingLine(l.job, j.name + (":" + j.blank));
    ColonNames(j.name, j.blank, name);
  }

  lemma ColonNames(a: string, blank: string, b: string)
    requires AllSpace(blank)
    ensures var text := a + (":" + blank); StartsWith(text, b + ":") && AllSpace(text[|b| + 1..]) <==> a == b
  {
    var text := a + (":" + blank);
    assert text[|a|] == ':' && text[|a| + 1..] == blank && text[..|a|] == a;
    assert forall k | |a| < k < |text| :: text[k] == blank[k - |a| - 1] && IsSpace(text[k]);
    if StartsWith(text, b + ":") {
      assert text[..|b|] == b && text[|b|] == ':';
      assert |b| < |a| ==> text[|b| + 1..][|a| - |b| - 1] in text[|b| + 1..];
    }
  }

  /** No line inside a job, be it a comment at the job's own indent, is taken for a job's line. */
  lemma InsideIsNoJob(line: Line, name: string, indent: nat)
    requires Inside(line, indent) && StartsLine(name)
    ensures !IsJobAt(line, name, indent)
  {
    if Strip(line) != "" && Strip(line)[0] == '#' {
      var right := RStripParts(LStrip(line));
      assert LStrip(line)[0] == '#';
    }
  }

  lemma {:induction false} FindSkips(lines: seq<Line>, name: string, indent: nat, rest: seq<Line>)
    requires forall line | line in lines :: !IsJobAt(line, name, indent)
    ensures FindJob(lines + rest, name, indent) == FindJob(rest, name, indent)
  {
    if lines == [] {
      assert lines + rest == rest;
    } else {
      assert lines[0] in lines && (lines + rest)[1..] == lines[1..] + rest;
      FindSkips(lines[1..], name, indent, rest);
    }
  }

  lemma FindSkipsInside(lines: seq<Line>, name: string, indent: nat, rest: seq<Line>)
    requires Within(lines, indent) && StartsLine(name)
    ensures FindJob(lines + rest, name, indent) == FindJob(rest, name, indent)
  {
    forall line | line in lines ensures !IsJobAt(line, name, indent) {
      InsideIsNoJob(line, name, indent);
    }
    FindSkips(lines, name, indent, rest);
  }

  lemma FindStep(line: Line, name: string, indent: nat, rest: seq<Line>)
    ensures FindJob([line] + rest, name, indent) ==
            if IsJobAt(line, name, indent) then Block(rest, indent) else FindJob(rest, name, indent)
  {
    assert ([line] + rest)[1..] == rest;
  }

  /** The first job of a name is found, and nothing of the jobs behind it. */
  lemma {:induction false} FindsJob(l: Layout, jobs: seq<Job>, i: nat)
    requires l.job < l.key < l.item && forall j | j in jobs :: PrintableJob(l, j)
    requires i < |jobs| && forall k | 0 <= k < i :: jobs[k].name != jobs[i].name
    ensures FindJob(PrintJobs(l, jobs), jobs[i].name, l.job) == PrintBody(l, jobs[i].body)
  {
    assert jobs[0] in jobs && jobs[i] in jobs;
    var j, name := jobs[0], jobs[i].name;
    var body, rest := PrintBody(l, j.body), PrintJobs(l, jobs[1..]);
    HeaderNamesJob(l, j, name);
    BodyIsWithin(l, j.body);
    FindStep(JobHeader(l, j), name, l.job, body + rest);
    if i == 0 {
      NextJobLeaves(l, jobs[1..]);
      BlockIsLongestRun(body, rest, l.job);
    } else {
      FindSkipsInside(body, name, l.job, rest);
      FindsJob(l, jobs[1..], i - 1);
    }
  }

  lemma NextJobLeaves(l: Layout, jobs: seq<Job>)
    requires forall j | j in jobs :: PrintableJob(l, j)
    ensures Leaves(PrintJobs(l, jobs), l.job)
  {
    if jobs != [] {
      assert jobs[0] in jobs;
      HeaderNamesJob(l, jobs[0], jobs[0].name);
    }
  }

  lemma {:induction false} JobsAreWithin(l: Layout, jobs: seq<Job>)
    requires 0 < l.job < l.key < l.item && forall j | j in jobs :: PrintableJob(l, j)
    ensures Within(PrintJobs(l, jobs), 0)
  {
    if jobs != [] {
      var j := jobs[0];
      assert j in jobs;
      HeaderNamesJob(l, j, j.name);
      BodyIsWithin(l, j.body);
      JobsAreWithin(l, jobs[1..]);
      WithinConcat(PrintBody(l, j.body), PrintJobs(l, jobs[1..]), 0);
      WithinConcat([JobHeader(l, j)], PrintBody(l, j.body) + PrintJobs(l, jobs[1..]), 0);
    }
  }

  /** The first top-level key of a name is found, whatever its block holds and whatever follows. */
  lemma {:induction false} FindsTopLevel(
      before: seq<Line>, key: string, tail: string, body: seq<Line>, after: seq<Line>)
    requires forall line | line in before :: !IsKeyLine(line, key, 0)
    requires LStrip(tail) == "" || LStrip(tail)[0] == '#'
    requires Within(body, 0) && Leaves(after, 0)
    ensures TopLevelBlock(before + ([key + ":" + tail] + (body + after)), key) == body
  {
    var rest := [key + ":" + tail] + (body + after);
    if before == [] {
      assert before + rest == rest && rest[1..] == body + after;
      KeyLineWithTail(key, tail);
      BlockIsLongestRun(body, after, 0);
    } else {
      assert before[0] in before && (before + rest)[1..] == before[1..] + rest;
      FindsTopLevel(before[1..], key, tail, body, after);
    }
  }

  lemma KeyLineWithTail(key: string, tail: string)
    requires LStrip(tail) == "" || LStrip(tail)[0] == '#'
    ensures IsKeyLine(key + ":" + tail, key, 0)
  {
    var head := Spaces(0) + key + ":";
    assert head == key + ":" && (head + tail)[|head|..] == tail;
  }

  /** A line with another key, or with a value behind the key, is not taken for the key's line. */
  lemma OtherKeysAreNot(key: string, other: string, tail: string)
    requires ':' !in key && ':' !in other && key != other
    ensures !IsKeyLine(other + (":" + tail), key, 0)
  {
    var line, head := other + (":" + tail), Spaces(0) + key + ":";
    assert head == key + ":" && line[|other|] == ':';
    assert forall i | 0 <= i < |other| :: line[i] == other[i] && other[i] in other;
    assert forall i | 0 <= i < |key| :: head[i] == key[i] && key[i] in key;
    assert head[|key|] == ':';
    assert |key| == |other| ==> line[..|other|] == other && head[..|key|] == key;
  }

  lemma KeysWithValuesAreNot(key: string, blank: string, value: string)
    requires AllSpace(blank) && StartsLine(value)
    ensures !IsKeyLine(key + ":" + (blank + value), key, 0)
  {
    var line, head := key + ":" + (blank + value), Spaces(0) + key + ":";
    assert head == key + ":" && line[|head|..] == blank + value;
    LStripAround(blank, value);
  }

  // ---------- The whole workflow ----------

  lemma JobsAreFound(l: Layout, w: Workflow)
    requires Printable(l, w)
    ensures TopLevelBlock(Print(l, w), "jobs") == w.lead + PrintJobs(l, w.jobs)
  {
    var jobs := PrintJobs(l, w.jobs);
    JobsAreWithin(l, w.jobs);
    WithinConcat(w.lead, jobs, 0);
    assert "jobs" + ":" == "jobs:";
    FindsTopLevel(w.before, "jobs", w.tail, w.lead + jobs, w.after);
  }

  lemma {:induction false} FirstIndentOfLead(lead: seq<Line>, rest: seq<Line>)
    ensures FirstIndent(lead + rest) == if FirstIndent(lead).Some? then FirstIndent(lead) else FirstIndent(rest)
  {
    if lead == [] {
      assert lead + rest == rest;
    } else {
      assert (lead + rest)[1..] == lead[1..] + rest;
      FirstIndentOfLead(lead[1..], rest);
    }
  }

  /** The indent at which jobs are sought: that of the first line below `jobs:` that is
      not blank, even if it is a comment. */
  function SoughtIndent(l: Layout, w: Workflow): nat {
    FirstIndent(w.lead).GetOr(l.job)
  }

  lemma JobIsSought(l: Layout, w: Workflow, name: string)
    requires Printable(l, w) && w.jobs != []
    ensures JobBlock(Print(l, w), name) == FindJob(w.lead + PrintJobs(l, w.jobs), name, SoughtIndent(l, w))
  {
    JobsAreFound(l, w);
    FirstIndentOfLead(w.lead, PrintJobs(l, w.jobs));
    assert w.jobs[0] in w.jobs;
    HeaderNamesJob(l, w.jobs[0], w.jobs[0].name);
  }

  lemma JobIsFound(l: Layout, w: Workflow, i: nat)
    requires Printable(l, w) && SoughtIndent(l, w) == l.job
    requires i < |w.jobs| && forall k | 0 <= k < i :: w.jobs[k].name != w.jobs[i].name
    ensures JobBlock(Print(l, w), w.jobs[i].name) == PrintBody(l, w.jobs[i].body)
  {
    assert w.jobs[i] in w.jobs;
    JobIsSought(l, w, w.jobs[i].name);
    FindSkipsInside(w.lead, w.jobs[i].name, l.job, PrintJobs(l, w.jobs));
    FindsJob(l, w.jobs, i);
  }

  /** On lines that still have their comments, a comment before the first job that is not at the jobs' own indent
      hides them all. The job is found exactly when there is none - unless a deeper key of the
      job's name stands where the comment makes the code look. */
  lemma JobIsFoundExactly(l: Layout, w: Workflow, i: nat)
    requires Printable(l, w)
    requires i < |w.jobs| && forall k | 0 <= k < i :: w.jobs[k].name != w.jobs[i].name
    requires PrintBody(l, w.jobs[i].body) != []
    requires SoughtIndent(l, w) != l.job ==>
               forall line | line in PrintJobs(l, w.jobs) :: !IsJobAt(line, w.jobs[i].name, SoughtIndent(l, w))
    ensures JobBlock(Print(l, w), w.jobs[i].name) == PrintBody(l, w.jobs[i].body) <==> SoughtIndent(l, w) == l.job
    ensures SoughtIndent(l, w) != l.job ==> JobBlock(Print(l, w), w.jobs[i].name) == []
  {
    var name, indent, jobs := w.jobs[i].name, SoughtIndent(l, w), PrintJobs(l, w.jobs);
    assert w.jobs[i] in w.jobs;
    if indent == l.job {
      JobIsFound(l, w, i);
    } else {
      JobIsSought(l, w, name);
      FindSkipsInside(w.lead, name, indent, jobs);
      FindSkips(jobs, name, indent, []);
      assert jobs + [] == jobs;
    }
  }

  /** Round trip: the steps of a printed job - the first of its name - are recovered exactly, group by group and
      line by line, if no comment before the first job misleads the search for it. */
  lemma StepsAreRecovered(l: Layout, w: Workflow, i: nat)
    requires Printable(l, w) && SoughtIndent(l, w) == l.job
    requires i < |w.jobs| && forall k | 0 <= k < i :: w.jobs[k].name != w.jobs[i].name
    requires w.jobs[i].body.Stepped?
    ensures Items(NestedBlock(JobBlock(Print(l, w), w.jobs[i].name), "steps"), None, []) ==
            PrintSteps(l, w.jobs[i].body.steps)
  {
    var b := w.jobs[i].body;
    var items := PrintSteps(l, b.steps);
    assert w.jobs[i] in w.jobs;
    JobIsFound(l, w, i);
    StepsOfBody(l, b);
    PrintedStepsAreItems(l, b.steps, l.key);
    LeadIsDropped(b.lead, Joined(items));
    ItemsOfJoined(items, l.item, []);
    assert [] + items == items;
  }
}
