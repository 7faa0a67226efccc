/** The text of a `SHA256SUMS` manifest: its lines, its entries, and the validator of
    `scripts/release/prepare_release_bundle.py`. */
module ManifestText {
  import opened Text
  import opened Wrappers

  datatype ManifestError =
    | MalformedLine(line: nat)
    | InvalidName(name: string)
    | DuplicateEntry(line: nat, name: string)

  predicate IsBasename(name: string) {
    name !in {"", ".", ".."} && forall c | c in name :: c != '\\' && c != '/'
  }

  /** No name with a slash or a backslash in it is a bare basename, nor are the empty one, "." and "..". */
  lemma DividedIsNoBasename(a: string, b: string)
    ensures !IsBasename(a + ("/" + b)) && !IsBasename(a + ("\\" + b))
    ensures !IsBasename("") && !IsBasename(".") && !IsBasename("..")
  {
    assert (a + ("/" + b))[|a|] in a + ("/" + b) && (a + ("\\" + b))[|a|] in a + ("\\" + b);
  }

  /** Every other name is one. */
  lemma OthersAreDivided(name: string) returns (a: string, b: string)
    requires !IsBasename(name)
    ensures name in {"", ".", ".."} || name == a + ("/" + b) || name == a + ("\\" + b)
  {
    a, b := "", "";
    if name !in {"", ".", ".."} {
      var c :| c in name && (c == '/' || c == '\\');
      var k := IndexOf(name, c);
      a, b := name[..k], name[k + 1..];
      assert name == a + ([c] + b);
    }
  }

  // ---------- Lines ----------

  /** The characters at which `str.splitlines()` ends a line. */
  predicate IsSeparator(c: char) {
    10 <= c as int <= 13 || 28 <= c as int <= 30 || c as int in {0x85, 0x2028, 0x2029}
  }

  predicate OneLine(s: string) {
    forall c | c in s :: !IsSeparator(c)
  }

  function LineLength(text: string): (n: nat)
    ensures n <= |text|
    ensures OneLine(text[..n])
    ensures n < |text| ==> IsSeparator(text[n])
  {
    if text == "" || IsSeparator(text[0]) then 0
    else
      var n := LineLength(text[1..]);
      assert text[..n + 1] == [text[0]] + text[1..][..n];
      n + 1
  }

  function SplitLines(text: string): seq<string> {
    var n := LineLength(text);
    if text == "" then []
    else if n == |text| then [text]
    else [text[..n]] + SplitLines(text[n + if "\r\n" <= text[n..] then 2 else 1..])
  }

  /** Every separator ends a line, wherever it stands. */
  lemma LineEnds(line: string, c: char, rest: string)
    requires OneLine(line)
    requires c in "\n\r\U{0B}\U{0C}\U{1C}\U{1D}\U{1E}\U{85}\U{2028}\U{2029}"
    requires c == '\r' ==> rest == "" || rest[0] != '\n'
    ensures SplitLines(line + ([c] + rest)) == [line] + SplitLines(rest)
  {
    OnlySeparatorsEndLines(c);
    SeparatorEnds(line, c, rest);
  }

  /** A carriage return and a line feed behind it end one line. */
  lemma CarriageReturnLineFeed(line: string, rest: string)
    requires OneLine(line)
    ensures SplitLines(line + (['\r'] + (['\n'] + rest))) == [line] + SplitLines(rest)
  {
    SeparatorEnds(line, '\r', ['\n'] + rest);
    assert (['\n'] + rest)[1..] == rest;
  }

  lemma SeparatorEnds(line: string, c: char, rest: string)
    requires OneLine(line) && IsSeparator(c)
    ensures SplitLines(line + ([c] + rest)) ==
            [line] + SplitLines(if c == '\r' && rest != "" && rest[0] == '\n' then rest[1..] else rest)
  {
    LineLengthOf(line, [c] + rest);
    Behind(line, c, rest);
    StartsWithBoth(c, rest);
  }

  lemma Behind(line: string, c: char, rest: string)
    ensures var text := line + ([c] + rest);
            && text[..|line|] == line && text[|line|..] == [c] + rest && text[|line| + 1..] == rest
            && (rest != "" ==> text[|line| + 2..] == rest[1..])
  {
  }

  lemma StartsWithBoth(c: char, rest: string)
    ensures "\r\n" <= [c] + rest <==> c == '\r' && rest != "" && rest[0] == '\n'
  {
    var s := [c] + rest;
    if rest != "" {
      assert s[0] == c && s[1] == rest[0];
    } else {
      assert |s| == 1;
    }
  }

  /** Any other character is part of its line. */
  lemma OnlySeparatorsEndLines(c: char)
    ensures IsSeparator(c) <==> c in "\n\r\U{0B}\U{0C}\U{1C}\U{1D}\U{1E}\U{85}\U{2028}\U{2029}"
  {
  }

  /** `"\n".join(lines) + "\n"` */
  function JoinLines(lines: seq<string>): string {
    if lines == [] then "\n"
    else lines[0] + ("\n" + if |lines| == 1 then "" else JoinLines(lines[1..]))
  }

  /** Each line is followed by a line break, and there is nothing else. */
  lemma {:induction false} JoinLinesSnoc(lines: seq<string>, last: string)
    ensures JoinLines(lines + [last]) == (if lines == [] then "" else JoinLines(lines)) + (last + "\n")
  {
    if lines == [] {
      assert lines + [last] == [last] && "" + (last + "\n") == last + ("\n" + "");
    } else {
      assert (lines + [last])[1..] == lines[1..] + [last];
      JoinLinesSnoc(lines[1..], last);
      var rest := if |lines| == 1 then "" else JoinLines(lines[1..]);
      AssociateLine(lines[0], rest, last + "\n");
    }
  }

  lemma AssociateLine(line: string, rest: string, last: string)
    ensures line + ("\n" + (rest + last)) == line + ("\n" + rest) + last
  {
  }

  lemma {:induction false} LineLengthOf(line: string, rest: string)
    requires OneLine(line) && (rest == "" || IsSeparator(rest[0]))
    ensures LineLength(line + rest) == |line|
  {
    if line == "" {
      assert line + rest == rest;
    } else {
      assert (line + rest)[1..] == line[1..] + rest;
      LineLengthOf(line[1..], rest);
    }
  }

  lemma SplitFirst(line: string, rest: string)
    requires OneLine(line)
    ensures SplitLines(line + ("\n" + rest)) == [line] + SplitLines(rest)
  {
    var text := line + ("\n" + rest);
    LineLengthOf(line, "\n" + rest);
    assert text[|line|] == '\n' && text[|line|..][0] == '\n';
    assert text[..|line|] == line && text[|line| + 1..] == rest;
  }

  /** Joined lines are split again, unless there are none: then one empty line is. */
  lemma {:induction false} JoinedLinesAreSplit(lines: seq<string>)
    requires forall line | line in lines :: OneLine(line)
    ensures SplitLines(JoinLines(lines)) == if lines == [] then [""] else lines
  {
    if lines == [] {
      SplitFirst("", "");
      assert "" + ("\n" + "") == "\n";
    } else {
      assert lines[0] in lines;
      var rest := if |lines| == 1 then "" else JoinLines(lines[1..]);
      assert JoinLines(lines) == lines[0] + ("\n" + rest);
      SplitFirst(lines[0], rest);
      assert SplitLines(rest) == lines[1..] by {
        if |lines| > 1 {
          JoinedLinesAreSplit(lines[1..]);
        }
      }
      assert [lines[0]] + lines[1..] == lines;
    }
  }

  lemma {:induction false} SplitLinesAreLines(text: string)
    ensures forall line | line in SplitLines(text) :: OneLine(line)
  {
    var n := LineLength(text);
    if n < |text| {
      SplitLinesAreLines(text[n + if "\r\n" <= text[n..] then 2 else 1..]);
    } else {
      assert text[..n] == text;
    }
  }

  // ---------- Entries ----------

  datatype Entry = Entry(digest: string, name: string)

  predicate IsDigest(s: string) {
    |s| == 64 && forall c | c in s :: '0' <= c <= '9' || 'a' <= c <= 'f'
  }

  /** A digest is 64 of the sixteen lower-case hexadecimal digits. */
  lemma DigestExactly(s: string)
    ensures IsDigest(s) <==> |s| == 64 && forall k | 0 <= k < |s| :: s[k] in "0123456789abcdef"
  {
    forall c | c in s ensures ('0' <= c <= '9' || 'a' <= c <= 'f') <==> c in "0123456789abcdef" {
      HexDigits(c);
    }
  }

  lemma HexDigits(c: char)
    ensures ('0' <= c <= '9' || 'a' <= c <= 'f') <==> c in "0123456789abcdef"
  {
    var hex := "0123456789abcdef";
    assert '0' <= c <= '9' ==> hex[c as int - '0' as int] == c;
    assert 'a' <= c <= 'f' ==> hex[c as int - 'a' as int + 10] == c;
  }

  function PrintEntry(e: Entry): string {
    e.digest + ("  " + e.name)
  }

  /** `^(?P<digest>[0-9a-f]{64})  (?P<name>.+)$` on one line */
  function ParseEntry(line: string): Option<Entry> {
    if |line| > 66 && IsDigest(line[..64]) && line[64..66] == "  " then Some(Entry(line[..64], line[66..])) else None
  }

  /** Parsing inverts printing, and accepts nothing else. */
  lemma EntryRoundTrip(line: string, e: Entry)
    ensures ParseEntry(line) == Some(e) <==> line == e.digest + ("  " + e.name) && IsDigest(e.digest) && e.name != ""
    ensures PrintEntry(e) == e.digest + ("  " + e.name)
  {
    if line == PrintEntry(e) && IsDigest(e.digest) {
      assert line[..64] == e.digest && line[64..66] == "  " && line[66..] == e.name;
    }
    if ParseEntry(line) == Some(e) {
      assert line == line[..64] + (line[64..66] + line[66..]);
    }
  }

  lemma EntryIsNotBlank(line: string)
    requires ParseEntry(line).Some?
    ensures Strip(line) != ""
  {
    assert line[0] in line[..64];
    assert LStrip(line) == line;
    var right := RStripParts(line);
    assert line[0] !in right;
  }

  function EntriesIn(line: string): seq<Entry> {
    var e := ParseEntry(line);
    if e.Some? then [e.value] else []
  }

  /** The entries that `lines` record. */
  function Recorded(lines: seq<string>): seq<Entry> {
    if lines == [] then [] else EntriesIn(lines[0]) + Recorded(lines[1..])
  }

  lemma {:induction false} RecordedSnoc(lines: seq<string>, line: string)
    ensures Recorded(lines + [line]) == Recorded(lines) + EntriesIn(line)
  {
    if lines == [] {
      assert lines + [line] == [line] && EntriesIn(line) + Recorded([]) == EntriesIn(line);
    } else {
      assert (lines + [line])[1..] == lines[1..] + [line];
      RecordedSnoc(lines[1..], line);
    }
  }

  function Printed(entries: seq<Entry>): seq<string> {
    if entries == [] then [] else Printed(entries[..|entries| - 1]) + [PrintEntry(entries[|entries| - 1])]
  }

  predicate Printable(e: Entry) {
    IsDigest(e.digest) && IsBasename(e.name)
  }

  lemma {:induction false} PrintedIsRecorded(entries: seq<Entry>)
    requires forall e | e in entries :: Printable(e)
    ensures Recorded(Printed(entries)) == entries
  {
    if entries != [] {
      var front, last := entries[..|entries| - 1], entries[|entries| - 1];
      assert last in entries;
      PrintedIsRecorded(front);
      EntryRoundTrip(PrintEntry(last), last);
      RecordedSnoc(Printed(front), PrintEntry(last));
    }
  }

  // ---------- The validator ----------

  function Names(entries: seq<Entry>): set<string> {
    set e | e in entries :: e.name
  }

  /** What is wrong with line `n` when the names in `seen` are recorded before it. */
  function Problem(seen: set<string>, n: nat, line: string): Option<ManifestError> {
    if Strip(line) == "" then None
    else
      match ParseEntry(line)
      case None => Some(MalformedLine(n))
      case Some(e) =>
        if !IsBasename(e.name) then Some(InvalidName(e.name))
        else if e.name in seen then Some(DuplicateEntry(n, e.name))
        else None
  }

  /** The problem with the first of the lines, numbered from `n` on, that has one. */
  function ProblemFrom(lines: seq<string>, n: nat, seen: set<string>): Option<ManifestError> {
    if lines == [] then None
    else
      var problem := Problem(seen, n, lines[0]);
      if problem.Some? then problem else ProblemFrom(lines[1..], n + 1, seen + Names(EntriesIn(lines[0])))
  }

  function FirstProblem(lines: seq<string>): Option<ManifestError> {
    ProblemFrom(lines, 1, {})
  }

  lemma NextLine(lines: seq<string>, i: nat, seen: set<string>)
    requires i < |lines|
    ensures var e, problem := ParseEntry(lines[i]), Problem(seen, i + 1, lines[i]);
            && (e.Some? ==> Strip(lines[i]) != "")
            && ProblemFrom(lines[i..], i + 1, seen) ==
               if problem.Some? then problem
               else ProblemFrom(lines[i + 1..], i + 2, seen + if e.Some? then {e.value.name} else {})
  {
    assert lines[i..][1..] == lines[i + 1..];
    NamesOfLine(lines[i]);
  }

  lemma NamesOfLine(line: string)
    ensures Names(EntriesIn(line)) == if ParseEntry(line).Some? then {ParseEntry(line).value.name} else {}
    ensures ParseEntry(line).Some? ==> Strip(line) != ""
  {
    if ParseEntry(line).Some? {
      EntryIsNotBlank(line);
    }
  }

  method ValidateManifest(text: string) returns (problem: Option<ManifestError>)
    ensures problem == FirstProblem(SplitLines(text))
  {
    var lines := SplitLines(text);
    var seen: set<string> := {};
    for i := 0 to |lines|
      invariant FirstProblem(lines) == ProblemFrom(lines[i..], i + 1, seen)
    {
      NextLine(lines, i, seen);
      var line := lines[i];
      if Strip(line) == "" {
        assert seen + {} == seen;
        continue;
      }
      var e := ParseEntry(line);
      if e.None? {
        return Some(MalformedLine(i + 1));
      }
      var name := e.value.name;
      if !IsBasename(name) {
        return Some(InvalidName(name));
      }
      if name in seen {
        return Some(DuplicateEntry(i + 1, name));
      }
      seen := seen + {name};
    }
    return None;
  }

  predicate LineIsFine(line: string) {
    Strip(line) == "" || (ParseEntry(line).Some? && IsBasename(ParseEntry(line).value.name))
  }

  predicate DistinctNames(entries: seq<Entry>) {
    forall j, k | 0 <= j < k < |entries| :: entries[j].name != entries[k].name
  }

  /** The problem reported is that of the first line that is unfit: not a well-formed entry, an entry whose name is no
      bare basename, or one whose name an earlier line has. */
  lemma {:induction false} ProblemIsFirst(lines: seq<string>, n: nat, seen: set<string>) returns (k: nat)
    requires ProblemFrom(lines, n, seen).Some?
    ensures k < |lines| && ProblemFrom(lines[..k], n, seen).None? && Strip(lines[k]) != ""
    ensures match ProblemFrom(lines, n, seen).value
            case MalformedLine(m) => m == n + k && ParseEntry(lines[k]).None?
            case InvalidName(name) =>
              EntriesIn(lines[k]) != [] && EntriesIn(lines[k])[0].name == name && !IsBasename(name)
            case DuplicateEntry(m, name) =>
              && m == n + k && EntriesIn(lines[k]) != [] && EntriesIn(lines[k])[0].name == name && IsBasename(name)
              && name in seen + Names(Recorded(lines[..k]))
  {
    var line, rest := lines[0], lines[1..];
    if Problem(seen, n, line).Some? {
      k := 0;
      assert lines[..0] == [];
    } else {
      k := ProblemIsFirst(rest, n + 1, seen + Names(EntriesIn(line)));
      assert lines[..k + 1] == [line] + rest[..k] && lines[..k + 1][1..] == rest[..k];
      NamesOfConcat(EntriesIn(line), Recorded(rest[..k]));
      k := k + 1;
    }
  }

  lemma {:induction false} AcceptedFrom(lines: seq<string>, n: nat, seen: set<string>)
    ensures ProblemFrom(lines, n, seen).None? <==>
            && (forall line | line in lines :: LineIsFine(line))
            && DistinctNames(Recorded(lines)) && Names(Recorded(lines)) !! seen
  {
    if lines != [] {
      var line, rest := lines[0], lines[1..];
      NamesOfLine(line);
      AcceptedFrom(rest, n + 1, seen + Names(EntriesIn(line)));
      assert forall other :: other in lines <==> other == line || other in rest;
      assert Problem(seen, n, line).None? <==> LineIsFine(line) && Names(EntriesIn(line)) !! seen;
      NamesOfConcat(EntriesIn(line), Recorded(rest));
      DistinctConcat(EntriesIn(line), Recorded(rest));
    }
  }

  lemma NamesOfConcat(a: seq<Entry>, b: seq<Entry>)
    ensures Names(a + b) == Names(a) + Names(b)
  {
    assert forall e :: e in a + b <==> e in a || e in b;
  }

  lemma DistinctConcat(a: seq<Entry>, b: seq<Entry>)
    requires |a| <= 1
    ensures DistinctNames(a + b) <==> DistinctNames(b) && Names(a) !! Names(b)
  {
    if a == [] {
      assert a + b == b;
    } else {
      assert a == [a[0]];
      DistinctCons(a[0], b);
      assert Names(a) == {a[0].name};
    }
  }

  lemma DistinctCons(e: Entry, b: seq<Entry>)
    ensures DistinctNames([e] + b) <==> DistinctNames(b) && e.name !in Names(b)
  {
    var all := [e] + b;
    if DistinctNames(all) {
      forall j, k | 0 <= j < k < |b| ensures b[j].name != b[k].name {
        assert all[j + 1] == b[j] && all[k + 1] == b[k];
      }
      forall k | 0 <= k < |b| ensures b[k].name != e.name {
        assert all[k + 1] == b[k] && all[0] == e;
      }
    }
    if DistinctNames(b) && e.name !in Names(b) {
      forall j, k | 0 <= j < k < |all| ensures all[j].name != all[k].name {
        assert all[k] == b[k - 1] && b[k - 1] in b;
      }
    }
  }

  /** The validator accepts exactly the texts whose lines are blank or record bare basenames, no name twice. */
  lemma AcceptedExactly(lines: seq<string>)
    ensures FirstProblem(lines).None? <==>
            (forall line | line in lines :: LineIsFine(line)) && DistinctNames(Recorded(lines))
  {
    AcceptedFrom(lines, 1, {});
  }
}
