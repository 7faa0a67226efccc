/** Indentation-based extraction from workflow files, on lists of lines:
    the generic helpers of `scripts/ci/check_workflows.py`. */
module WorkflowText {
  import opened Sequences
  import opened Text
  import opened Wrappers

  type Line = string

  /** Blank lines and comments belong to whatever block they stand in. */
  predicate Skipped(line: Line) {
    Strip(line) == "" || Strip(line)[0] == '#'
  }

  /** The number of leading spaces. */
  function Indent(line: Line): nat {
    if line != "" && line[0] == ' ' then 1 + Indent(line[1..]) else 0
  }

  function Spaces(n: nat): string {
    seq(n, _ => ' ')
  }

  predicate StartsWith(s: string, prefix: string) {
    prefix <= s
  }

  // ---------- Comments ----------

  /** `re.sub(r"#.*$", "", line)` */
  function StripComment(line: Line): Line {
    line[..IndexOf(line, '#')]
  }

  function StripComments(lines: seq<Line>): seq<Line> {
    if lines == [] then [] else [StripComment(lines[0])] + StripComments(lines[1..])
  }

  // ---------- Blocks ----------

  predicate Inside(line: Line, keyIndent: nat) {
    Skipped(line) || Indent(line) > keyIndent
  }

  /** The lines, from the first on, that lie inside a key at `keyIndent`. */
  function Block(lines: seq<Line>, keyIndent: nat): seq<Line> {
    if lines == [] || !Inside(lines[0], keyIndent) then [] else [lines[0]] + Block(lines[1..], keyIndent)
  }

  lemma NextInBlock(lines: seq<Line>, i: nat, keyIndent: nat, block: seq<Line>, whole: seq<Line>)
    requires i <= |lines| && whole == block + Block(lines[i..], keyIndent)
    ensures if i < |lines| && Inside(lines[i], keyIndent)
            then whole == (block + [lines[i]]) + Block(lines[i + 1..], keyIndent)
            else whole == block
  {
    if i < |lines| && Inside(lines[i], keyIndent) {
      BlockFirst(lines[i..], keyIndent);
      assert lines[i..][1..] == lines[i + 1..];
      Associate(block, [lines[i]], Block(lines[i + 1..], keyIndent));
    }
  }

  lemma BlockFirst(lines: seq<Line>, keyIndent: nat)
    requires lines != [] && Inside(lines[0], keyIndent)
    ensures Block(lines, keyIndent) == [lines[0]] + Block(lines[1..], keyIndent)
  {
  }

  method ExtractBlock(lines: seq<Line>, keyLine: nat, keyIndent: nat) returns (block: seq<Line>)
    requires keyLine < |lines|
    ensures block == Block(lines[keyLine + 1..], keyIndent)
  {
    block := [];
    var i := keyLine + 1;
    ghost var whole := Block(lines[i..], keyIndent);
    while i < |lines|
      invariant keyLine < i <= |lines|
      invariant whole == block + Block(lines[i..], keyIndent)
    {
      var line := lines[i];
      NextInBlock(lines, i, keyIndent, block, whole);
      if !Skipped(line) && Indent(line) <= keyIndent {
        return;
      }
      block := block + [line];
      i := i + 1;
    }
    NextInBlock(lines, i, keyIndent, block, whole);
  }

  /** A block is the longest run of lines inside the key. */
  lemma {:induction false} BlockIsLongestRun(body: seq<Line>, rest: seq<Line>, keyIndent: nat)
    requires forall line | line in body :: Inside(line, keyIndent)
    requires rest == [] || !Inside(rest[0], keyIndent)
    ensures Block(body + rest, keyIndent) == body
  {
    if body == [] {
      assert body + rest == rest;
    } else {
      assert (body + rest)[1..] == body[1..] + rest;
      BlockIsLongestRun(body[1..], rest, keyIndent);
    }
  }

  /** `key:` at an exact indent, with at most a comment behind it. */
  predicate IsKeyLine(line: Line, key: string, indent: nat) {
    var head := Spaces(indent) + key + ":";
    StartsWith(line, head) && var rest := LStrip(line[|head|..]); rest == "" || rest[0] == '#'
  }

  predicate IsJobLine(line: Line, name: string) {
    var text := LStrip(line);
    StartsWith(text, name + ":") && AllSpace(text[|name| + 1..])
  }

  predicate IsJobAt(line: Line, name: string, indent: nat) {
    Strip(line) != "" && Indent(line) == indent && IsJobLine(line, name)
  }

  /** The lines below the first `key:` at the top level. */
  function TopLevelBlock(lines: seq<Line>, key: string): seq<Line> {
    if lines == [] then []
    else if IsKeyLine(lines[0], key, 0) then Block(lines[1..], 0)
    else TopLevelBlock(lines[1..], key)
  }

  /** The indent of the first line that is not blank. */
  function FirstIndent(lines: seq<Line>): Option<nat> {
    if lines == [] then None else if Strip(lines[0]) != "" then Some(Indent(lines[0])) else FirstIndent(lines[1..])
  }

  lemma BlankExactly(line: Line)
    ensures Strip(line) == "" <==> AllSpace(line)
  {
    var left, right := StripParts(line);
    if AllSpace(line) {
      assert line + "" + "" == line;
      StripAround(line, "", "");
    }
  }

  /** Blank lines have no indent that counts; any other line, be it a comment, has. */
  lemma {:induction false} FirstIndentExactly(blank: seq<Line>, line: Line, rest: seq<Line>)
    requires forall b | b in blank :: AllSpace(b)
    ensures FirstIndent(blank) == None
    ensures !AllSpace(line) ==> FirstIndent(blank + ([line] + rest)) == Some(Indent(line))
  {
    if blank == [] {
      BlankExactly(line);
      assert blank + ([line] + rest) == [line] + rest;
    } else {
      BlankExactly(blank[0]);
      assert (blank + ([line] + rest))[1..] == blank[1..] + ([line] + rest);
      FirstIndentExactly(blank[1..], line, rest);
    }
  }

  function FindJob(lines: seq<Line>, name: string, indent: nat): seq<Line> {
    if lines == [] then []
    else if IsJobAt(lines[0], name, indent) then Block(lines[1..], indent)
    else FindJob(lines[1..], name, indent)
  }

  /** The body of the job `name`. */
  function JobBlock(lines: seq<Line>, name: string): seq<Line> {
    var jobs := TopLevelBlock(lines, "jobs");
    var indent := FirstIndent(jobs);
    if indent.None? then [] else FindJob(jobs, name, indent.value)
  }

  /** The block below the first line that starts with `key:`. */
  function NestedBlock(lines: seq<Line>, key: string): seq<Line> {
    if lines == [] then []
    else if StartsWith(Strip(lines[0]), key + ":") then Block(lines[1..], Indent(lines[0]))
    else NestedBlock(lines[1..], key)
  }

  // ---------- List items ----------

  predicate IsMarker(line: Line) {
    !Skipped(line) && StartsWith(Strip(line), "- ")
  }

  type Item = seq<Line>

  /** A line that starts no item is added to the item before it, if there is one. */
  function Continued(items: seq<Item>, line: Line): seq<Item> {
    if items == [] then [] else items[..|items| - 1] + [items[|items| - 1] + [line]]
  }

  /** The items after reading `lines`, when `items` with their common `indent` were there before. */
  function Items(lines: seq<Line>, indent: Option<nat>, items: seq<Item>): seq<Item> {
    if lines == [] then items
    else if IsMarker(lines[0]) && indent in {None, Some(Indent(lines[0]))} then
      Items(lines[1..], Some(Indent(lines[0])), items + [[lines[0]]])
    else Items(lines[1..], indent, Continued(items, lines[0]))
  }

  method ListItems(lines: seq<Line>) returns (items: seq<Item>)
    ensures items == Items(lines, None, [])
  {
    items := [];
    var itemIndent: Option<nat> := None;
    for i := 0 to |lines|
      invariant Items(lines, None, []) == Items(lines[i..], itemIndent, items)
    {
      var line := lines[i];
      assert lines[i..][1..] == lines[i + 1..];
      if Skipped(line) {
        if items != [] {
          items := items[..|items| - 1] + [items[|items| - 1] + [line]];
        }
      } else {
        var indent := Indent(line);
        if StartsWith(Strip(line), "- ") && (itemIndent.None? || indent == itemIndent.value) {
          itemIndent := Some(indent);
          items := items + [[line]];
        } else if items != [] {
          items := items[..|items| - 1] + [items[|items| - 1] + [line]];
        }
      }
    }
  }

  /** An item: a marker at `indent`, followed by lines none of which is one. */
  predicate IsItem(item: Item, indent: nat) {
    && item != []
    && IsMarker(item[0]) && Indent(item[0]) == indent
    && forall k | 0 < k < |item| :: !(IsMarker(item[k]) && Indent(item[k]) == indent)
  }

  lemma JoinedContinued(items: seq<Item>, line: Line)
    requires items != []
    ensures Joined(Continued(items, line)) == Joined(items) + [line]
  {
    var front, last := items[..|items| - 1], items[|items| - 1];
    assert items == front + [last];
    JoinedSnoc(front, last);
    JoinedSnoc(front, last + [line]);
  }

  /** Reading on only adds lines, in order, and keeps every item an item. */
  lemma {:induction false} ItemsPartition(lines: seq<Line>, indent: nat, items: seq<Item>)
    requires items != [] && forall item | item in items :: IsItem(item, indent)
    ensures Joined(Items(lines, Some(indent), items)) == Joined(items) + lines
    ensures forall item | item in Items(lines, Some(indent), items) :: IsItem(item, indent)
  {
    if lines != [] {
      var line := lines[0];
      FirstMoves(Joined(items), lines);
      if IsMarker(line) && Indent(line) == indent {
        JoinedSnoc(items, [line]);
        ItemsPartition(lines[1..], indent, items + [[line]]);
      } else {
        JoinedContinued(items, line);
        ContinuedItems(items, line, indent);
        ItemsPartition(lines[1..], indent, Continued(items, line));
      }
    }
  }

  lemma ContinuedItems(items: seq<Item>, line: Line, indent: nat)
    requires items != [] && forall item | item in items :: IsItem(item, indent)
    requires !(IsMarker(line) && Indent(line) == indent)
    ensures Continued(items, line) != [] && forall item | item in Continued(items, line) :: IsItem(item, indent)
  {
    var last := items[|items| - 1];
    assert last in items && IsItem(last + [line], indent);
    forall item | item in Continued(items, line) ensures IsItem(item, indent) {
      if item != last + [line] {
        assert item in items[..|items| - 1];
        assert item in items;
      }
    }
  }

  /** Lines before the first marker are dropped; all others are in exactly one item, in order;
      and every item starts with a marker, all at one indent, and contains no other marker at that indent. */
  lemma {:induction false} ItemsAreThePartition(lines: seq<Line>)
    ensures var first := FirstIndex(lines, IsMarker); var items := Items(lines, None, []);
            if first == |lines| then items == []
            else Joined(items) == lines[first..] && forall item | item in items :: IsItem(item, Indent(lines[first]))
  {
    if lines == [] {
    } else if IsMarker(lines[0]) {
      StartsAtMarker(lines);
    } else {
      var first := FirstIndex(lines[1..], IsMarker);
      ItemsAreThePartition(lines[1..]);
      assert lines[1..][first..] == lines[first + 1..];
    }
  }

  lemma StartsAtMarker(lines: seq<Line>)
    requires lines != [] && IsMarker(lines[0])
    ensures var items := Items(lines, None, []);
            Joined(items) == lines && forall item | item in items :: IsItem(item, Indent(lines[0]))
  {
    var open := [[lines[0]]];
    assert [] + open == open;
    assert Joined(open) == [lines[0]] && IsItem(open[0], Indent(lines[0]));
    ItemsPartition(lines[1..], Indent(lines[0]), open);
    assert [lines[0]] + lines[1..] == lines;
  }

  /** The partition is unique: items written one after the other are found again. */
  lemma {:induction false} ItemsOfJoined(items: seq<Item>, indent: nat, done: seq<Item>)
    requires forall item | item in items :: IsItem(item, indent)
    requires done == [] || (forall item | item in done :: IsItem(item, indent))
    ensures Items(Joined(items), if done == [] then None else Some(indent), done) == done + items
  {
    if items == [] {
      assert done + items == done;
    } else {
      assert items[0] in items;
      var item := items[0];
      var rest := Joined(items[1..]);
      assert item + rest == [item[0]] + (item[1..] + rest);
      ItemStarts(item[0], item[1..] + rest, indent, done);
      ItemContinues(item[1..], indent, done, [item[0]], rest);
      assert [item[0]] + item[1..] == item;
      OneMoreItem(done, items, indent);
      ItemsOfJoined(items[1..], indent, done + [item]);
    }
  }

  lemma OneMoreItem(done: seq<Item>, items: seq<Item>, indent: nat)
    requires items != [] && IsItem(items[0], indent) && forall item | item in done :: IsItem(item, indent)
    ensures forall item | item in done + [items[0]] :: IsItem(item, indent)
    ensures done + [items[0]] + items[1..] == done + items
  {
  }

  lemma ItemStarts(marker: Line, rest: seq<Line>, indent: nat, done: seq<Item>)
    requires IsMarker(marker) && Indent(marker) == indent
    ensures Items([marker] + rest, if done == [] then None else Some(indent), done) ==
            Items(rest, Some(indent), done + [[marker]])
  {
    assert ([marker] + rest)[1..] == rest;
  }

  lemma {:induction false} ItemContinues(tail: seq<Line>, indent: nat, done: seq<Item>, open: Item, rest: seq<Line>)
    requires forall line | line in tail :: !(IsMarker(line) && Indent(line) == indent)
    ensures Items(tail + rest, Some(indent), done + [open]) == Items(rest, Some(indent), done + [open + tail])
  {
    if tail == [] {
      assert tail + rest == rest && open + tail == open;
    } else {
      assert (tail + rest)[1..] == tail[1..] + rest;
      assert Continued(done + [open], tail[0]) == done + [open + [tail[0]]];
      ItemContinues(tail[1..], indent, done, open + [tail[0]], rest);
      assert open + [tail[0]] + tail[1..] == open + tail;
    }
  }
}
