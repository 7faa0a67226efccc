/** Python's `in` on strings, the search for a failing `exit`, and `"\n".join`, as the workflow checks use them. */
module TextSearch {
  import opened Text

  /** Does `sub` occur in `s`? */
  predicate Contains(s: string, sub: string) {
    sub <= s || (s != "" && Contains(s[1..], sub))
  }

  /** A text is found wherever it stands. */
  lemma {:induction false} OccurrenceIsFound(before: string, sub: string, after: string)
    ensures Contains(before + (sub + after), sub)
  {
    if before == "" {
      assert before + (sub + after) == sub + after;
    } else {
      assert (before + (sub + after))[1..] == before[1..] + (sub + after);
      OccurrenceIsFound(before[1..], sub, after);
    }
  }

  /** What is found stands somewhere. */
  lemma {:induction false} FoundOccurs(s: string, sub: string) returns (before: string, after: string)
    requires Contains(s, sub)
    ensures s == before + (sub + after)
  {
    if sub <= s {
      before, after := "", s[|sub|..];
    } else {
      before, after := FoundOccurs(s[1..], sub);
      before := [s[0]] + before;
    }
  }

  // ---------- Lines ----------

  /** `"\n".join(lines)` */
  function LinesText(lines: seq<string>): string {
    if lines == [] then "" else if |lines| == 1 then lines[0] else lines[0] + ("\n" + LinesText(lines[1..]))
  }

  lemma ContainsEither(x: string, y: string, sub: string)
    requires sub != "" && '\n' !in sub
    ensures Contains(x + ("\n" + y), sub) <==> Contains(x, sub) || Contains(y, sub)
  {
    var s := x + ("\n" + y);
    if Contains(x, sub) {
      var before, after := FoundOccurs(x, sub);
      assert s == before + (sub + (after + ("\n" + y)));
      OccurrenceIsFound(before, sub, after + ("\n" + y));
    }
    if Contains(y, sub) {
      var before, after := FoundOccurs(y, sub);
      assert s == (x + "\n" + before) + (sub + after);
      OccurrenceIsFound(x + "\n" + before, sub, after);
    }
    if Contains(s, sub) {
      var before, after := FoundOccurs(s, sub);
      OccursInEither(x, y, before, sub, after);
    }
  }

  lemma OccursInEither(x: string, y: string, before: string, sub: string, after: string)
    requires sub != "" && '\n' !in sub && x + ("\n" + y) == before + (sub + after)
    ensures Contains(x, sub) || Contains(y, sub)
  {
    var s := x + ("\n" + y);
    var k, m := |before|, |before| + |sub|;
    NoBreakInside(x, y, before, sub, after);
    assert s[k..m] == sub && s[..k] == before;
    if m <= |x| {
      assert x == before + (sub + x[m..]);
      OccurrenceIsFound(before, sub, x[m..]);
    } else {
      assert y == s[|x| + 1..];
      assert y == s[|x| + 1..k] + (sub + after);
      OccurrenceIsFound(s[|x| + 1..k], sub, after);
    }
  }

  lemma NoBreakInside(x: string, y: string, before: string, sub: string, after: string)
    requires '\n' !in sub && x + ("\n" + y) == before + (sub + after)
    ensures |before| + |sub| <= |x| || |x| < |before|
  {
    var s := x + ("\n" + y);
    assert forall i | 0 <= i < |sub| :: s[|before| + i] == sub[i] && sub[i] in sub;
    assert forall n | |before| <= n < |before| + |sub| :: s[n] == sub[n - |before|];
    assert s[|x|] == '\n';
  }

  /** A text without line breaks is found in joined lines exactly when one of the lines contains it. */
  lemma {:induction false} FoundInALine(lines: seq<string>, sub: string)
    requires sub != "" && '\n' !in sub
    ensures Contains(LinesText(lines), sub) <==> exists line | line in lines :: Contains(line, sub)
  {
    if lines != [] {
      assert forall line :: line in lines <==> line == lines[0] || line in lines[1..];
      FoundInALine(lines[1..], sub);
      if |lines| > 1 {
        ContainsEither(lines[0], LinesText(lines[1..]), sub);
      }
    }
  }

  // ---------- A failing exit ----------

  predicate StartsWithExit(s: string) {
    && "exit" <= s
    && |s| > 4 && IsSpace(s[4])
    && var rest := LStrip(s[4..]); rest != "" && '1' <= rest[0] <= '9'
  }

  /** `exit\s+[1-9]` */
  predicate FailsTheJob(s: string) {
    StartsWithExit(s) || (s != "" && FailsTheJob(s[1..]))
  }

  /** An `exit` with white space and a digit from 1 to 9 behind it is found wherever it stands. */
  lemma {:induction false} ExitIsFound(before: string, blank: string, d: char, after: string)
    requires blank != "" && AllSpace(blank) && '1' <= d <= '9'
    ensures FailsTheJob(before + ("exit" + (blank + ([d] + after))))
  {
    var tail := "exit" + (blank + ([d] + after));
    if before == "" {
      assert before + tail == tail;
      assert tail[4..] == blank + ([d] + after) && tail[4] == blank[0] && blank[0] in blank;
      LStripAround(blank, [d] + after);
    } else {
      assert (before + tail)[1..] == before[1..] + tail;
      ExitIsFound(before[1..], blank, d, after);
    }
  }

  /** Nothing else is. */
  lemma {:induction false} FoundExits(s: string) returns (before: string, blank: string, d: char, after: string)
    requires FailsTheJob(s)
    ensures blank != "" && AllSpace(blank) && '1' <= d <= '9'
    ensures s == before + ("exit" + (blank + ([d] + after)))
  {
    if StartsWithExit(s) {
      before := "";
      blank, d, after := ExitAtStart(s);
      assert s == "" + s;
    } else {
      before, blank, d, after := FoundExits(s[1..]);
      assert s == [s[0]] + s[1..];
      before := [s[0]] + before;
    }
  }

  lemma ExitAtStart(s: string) returns (blank: string, d: char, after: string)
    requires StartsWithExit(s)
    ensures blank != "" && AllSpace(blank) && '1' <= d <= '9'
    ensures s == "exit" + (blank + ([d] + after))
  {
    var rest := LStrip(s[4..]);
    blank := LStripParts(s[4..]);
    d, after := rest[0], rest[1..];
    assert !IsSpace(rest[0]) && IsSpace(s[4..][0]);
    assert rest == [d] + after && s == "exit" + s[4..];
  }

  // ---------- Conditions ----------

  /** A line that starts with `if:` behind white space. */
  predicate IsCondition(line: string) {
    "if:" <= LStrip(line)
  }

  lemma ConditionIsSeen(blank: string, rest: string)
    requires AllSpace(blank)
    ensures IsCondition(blank + ("if:" + rest))
  {
    LStripAround(blank, "if:" + rest);
  }

  lemma SeenIsCondition(line: string) returns (blank: string, rest: string)
    requires IsCondition(line)
    ensures AllSpace(blank) && line == blank + ("if:" + rest)
  {
    blank := LStripParts(line);
    rest := LStrip(line)[3..];
  }
}
