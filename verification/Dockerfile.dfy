/** Reading a Dockerfile into instructions and stages: `parse_instructions` and
    `split_stages` of `scripts/lint/check_dockerfile.py`, on lists of lines. */
module Dockerfile {
  import opened Sequences
  import opened Text
  import opened Wrappers

  datatype Instruction = Instruction(line: nat, instr: string, rest: string)

  predicate Ignored(line: string) {
    Strip(line) == "" || Strip(line)[0] == '#'
  }

  /** Nothing but white space, or a `#` behind nothing but white space. */
  predicate BlankOrComment(line: string) {
    AllSpace(line) || exists k | 0 <= k < |line| :: line[k] == '#' && AllSpace(line[..k])
  }

  lemma IgnoredExactly(line: string)
    ensures Ignored(RStrip(line)) <==> BlankOrComment(line)
  {
    var left := LStripParts(line);
    var right := RStripParts(line);
    if LStrip(line) == "" {
      assert line == left && "" + line == line;
      RStripAround("", line);
    } else {
      FirstStays(line, left, right);
      assert forall k | 0 <= k < |left| :: line[k] == left[k] && left[k] in left;
      assert line[..|left|] == left;
      assert forall k | |left| < k < |line| :: line[|left|] in line[..k];
    }
  }

  /** Stripping keeps the first character that is no white space. */
  lemma FirstStays(line: string, left: string, right: string)
    requires LStrip(line) != "" && line == left + LStrip(line) && AllSpace(left) && !IsSpace(LStrip(line)[0])
    requires line == RStrip(line) + right && AllSpace(right)
    requires RStrip(line) == "" || !IsSpace(RStrip(line)[|RStrip(line)| - 1])
    ensures Strip(RStrip(line)) != "" && Strip(RStrip(line))[0] == line[|left|]
  {
    var s := RStrip(line);
    assert forall k | |s| <= k < |line| :: line[k] == right[k - |s|] && right[k - |s|] in right;
    assert line[|left|] == LStrip(line)[0];
    assert |left| < |s|;
    var core := s[|left|..];
    assert s[..|left|] == line[..|left|] == left;
    assert s == left + core && core[0] == line[|left|];
    LStripAround(left, core);
    RStripAround(core, "");
    assert core + "" == core;
  }

  predicate Continues(line: string) {
    line != "" && line[|line| - 1] == '\\'
  }

  function UpperChar(c: char): char {
    if 'a' <= c <= 'z' then (c as int - 32) as char else c
  }

  function Upper(s: string): string {
    seq(|s|, i requires 0 <= i < |s| => UpperChar(s[i]))
  }

  /** Letters turn into those at the same place of the other alphabet, and all other characters stay. */
  lemma UpperExactly(s: string, k: nat)
    requires k < |s|
    ensures |Upper(s)| == |s|
    ensures var small, large := "abcdefghijklmnopqrstuvwxyz", "ABCDEFGHIJKLMNOPQRSTUVWXYZ";
            && (forall i | 0 <= i < 26 && s[k] == small[i] :: Upper(s)[k] == large[i])
            && (s[k] !in small ==> Upper(s)[k] == s[k])
  {
    var small, large := "abcdefghijklmnopqrstuvwxyz", "ABCDEFGHIJKLMNOPQRSTUVWXYZ";
    Alphabets(s[k]);
  }

  /** The length of the leading run without white space. */
  function WordLength(s: string): (n: nat)
    ensures n <= |s|
  {
    if s == "" || IsSpace(s[0]) then 0 else 1 + WordLength(s[1..])
  }

  /** `" ".join(part.strip() for part in parts)` */
  function JoinStripped(parts: seq<string>): string {
    if parts == [] then ""
    else if |parts| == 1 then Strip(parts[0])
    else Strip(parts[0]) + (" " + JoinStripped(parts[1..]))
  }

  /** The instruction made of the physical lines in `parts`; none if they are blank together. */
  function Assemble(line: nat, parts: seq<string>): seq<Instruction> {
    var block := Strip(JoinStripped(parts));
    var n := WordLength(block);
    if block == "" then [] else [Instruction(line, Upper(block[..n]), Strip(block[n..]))]
  }

  /** Between two physical lines: the number of the next line, the unfinished instruction
      with the number of its first line, and the instructions found so far. */
  datatype Reader = Reader(n: nat, parts: seq<string>, start: nat, found: seq<Instruction>) {
    /** The number of the first line that is not finished. */
    function Low(): nat {
      if parts == [] then n else start
    }
  }

  function Idle(n: nat, found: seq<Instruction>): Reader {
    Reader(n, [], 0, found)
  }

  function Next(raw: string, r: Reader): Reader {
    var line := RStrip(raw);
    if r.parts == [] && Ignored(line) then Idle(r.n + 1, r.found)
    else if Continues(line) then Reader(r.n + 1, r.parts + [line[..|line| - 1]], r.Low(), r.found)
    else Idle(r.n + 1, r.found + Assemble(r.Low(), r.parts + [line]))
  }

  function Read(lines: seq<string>, r: Reader): Reader {
    if lines == [] then r else Read(lines[1..], Next(lines[0], r))
  }

  /** An instruction unfinished at the end is dropped. */
  function Parse(lines: seq<string>): seq<Instruction> {
    Read(lines, Idle(1, [])).found
  }

  method ParseInstructions(lines: seq<string>) returns (instructions: seq<Instruction>)
    ensures instructions == Parse(lines)
  {
    instructions := [];
    var buffer: seq<string> := [];
    var start := 0;
    for i := 0 to |lines|
      invariant Read(lines, Idle(1, [])) ==
                Read(lines[i..], Reader(i + 1, buffer, if buffer == [] then 0 else start, instructions))
    {
      assert lines[i..][1..] == lines[i + 1..];
      var line := RStrip(lines[i]);
      if buffer == [] {
        if Ignored(line) {
          continue;
        }
        start := i + 1;
        buffer := [line];
      } else {
        buffer := buffer + [line];
      }
      if Continues(line) {
        buffer := buffer[..|buffer| - 1] + [line[..|line| - 1]];
        continue;
      }
      instructions := instructions + Assemble(start, buffer);
      buffer := [];
    }
  }

  /** Instructions on lines from `low` up to `high`, in the order of the lines. */
  predicate InOrder(found: seq<Instruction>, low: nat, high: nat) {
    && (forall k | 0 <= k < |found| :: low <= found[k].line < high)
    && forall k | 0 < k < |found| :: found[k - 1].line < found[k].line
  }

  predicate Ordered(r: Reader) {
    1 <= r.Low() <= r.n && InOrder(r.found, 1, r.Low())
  }

  lemma {:induction false} ReadKeepsOrder(lines: seq<string>, r: Reader)
    requires Ordered(r)
    ensures Ordered(Read(lines, r)) && Read(lines, r).n == r.n + |lines|
  {
    if lines != [] {
      ReadKeepsOrder(lines[1..], Next(lines[0], r));
    }
  }

  /** Instructions carry the number of one of the physical lines, and these increase strictly. */
  lemma LinesIncrease(lines: seq<string>)
    ensures InOrder(Parse(lines), 1, |lines| + 1)
  {
    ReadKeepsOrder(lines, Idle(1, []));
  }

  // ---------- Chunks ----------

  /** Physical lines of which all but the last end in a backslash. */
  predicate Wrapped(lines: seq<string>) {
    && lines != []
    && (Continues(RStrip(lines[0])) <==> |lines| > 1)
    && (|lines| > 1 ==> Wrapped(lines[1..]))
  }

  /** A physical line as it enters the instruction: trailing white space and one backslash removed. */
  function Part(line: string): string {
    var s := RStrip(line);
    if Continues(s) then s[..|s| - 1] else s
  }

  function Parts(chunk: seq<string>): seq<string> {
    if chunk == [] then [] else [Part(chunk[0])] + Parts(chunk[1..])
  }

  lemma NextPart(raw: string, r: Reader)
    requires r.parts != [] || !Ignored(RStrip(raw))
    ensures var parts := r.parts + [Part(raw)];
            Next(raw, r) == if Continues(RStrip(raw)) then Reader(r.n + 1, parts, r.Low(), r.found)
                            else Idle(r.n + 1, r.found + Assemble(r.Low(), parts))
  {
  }

  /** The lines of one instruction give that instruction, with the number of the first of them. */
  lemma {:induction false} ReadChunk(chunk: seq<string>, r: Reader)
    requires Wrapped(chunk) && (r.parts != [] || !Ignored(RStrip(chunk[0])))
    ensures Read(chunk, r) == Idle(r.n + |chunk|, r.found + Assemble(r.Low(), r.parts + Parts(chunk)))
  {
    NextPart(chunk[0], r);
    Associate(r.parts, [Part(chunk[0])], Parts(chunk[1..]));
    if |chunk| == 1 {
      assert r.parts + [Part(chunk[0])] + Parts(chunk[1..]) == r.parts + [Part(chunk[0])];
      assert Read(chunk, r) == Next(chunk[0], r);
    } else {
      ReadChunk(chunk[1..], Next(chunk[0], r));
    }
  }

  lemma {:induction false} ReadAppend(lines: seq<string>, rest: seq<string>, r: Reader)
    ensures Read(lines + rest, r) == Read(rest, Read(lines, r))
  {
    if lines == [] {
      assert lines + rest == rest;
    } else {
      assert (lines + rest)[1..] == lines[1..] + rest;
      ReadAppend(lines[1..], rest, Next(lines[0], r));
    }
  }

  // ---------- Instructions written out ----------

  /** What stands on one physical line: white space, text, and - unless the line is the last one of
      its instruction - `gap` and a backslash; then white space again. */
  datatype Piece = Piece(left: string, text: string, gap: string, right: string)

  /** A blank or comment line; or an instruction, whose first piece stands behind the instruction's
      name and some white space, and is empty if the name has the line for itself. */
  datatype Source = Gap(text: string) | Written(instr: string, blank: string, pieces: seq<Piece>)

  predicate PlainText(s: string) {
    s != "" && Trimmed(s)
  }

  predicate IsWord(s: string) {
    s != "" && forall c | c in s :: !IsSpace(c)
  }

  predicate PlainPiece(p: Piece) {
    AllSpace(p.left) && PlainText(p.text) && AllSpace(p.gap) && AllSpace(p.right)
  }

  /** The text of the first line. */
  function Head(instr: string, blank: string, text: string): string {
    if text == "" then instr else instr + (blank + text)
  }

  /** The pieces with the instruction's name in the first one. */
  function Headed(s: Source): seq<Piece>
    requires s.Written? && s.pieces != []
  {
    [s.pieces[0].(text := Head(s.instr, s.blank, s.pieces[0].text))] + s.pieces[1..]
  }

  predicate Writable(s: Source) {
    match s
    case Gap(text) => BlankOrComment(text)
    case Written(instr, blank, pieces) =>
      && IsWord(instr) && instr[0] != '#'
      && blank != "" && AllSpace(blank)
      && pieces != []
      && Trimmed(pieces[0].text)
      && (forall p | p in Headed(s) :: PlainPiece(p))
      && !Continues(Headed(s)[|pieces| - 1].text)
  }

  function WriteLine(p: Piece, last: bool): string {
    p.left + p.text + if last then p.right else p.gap + ("\\" + p.right)
  }

  /** Pieces on a line each, all but the last followed by a continuation. */
  function WritePieces(pieces: seq<Piece>): seq<string> {
    if pieces == [] then [] else [WriteLine(pieces[0], |pieces| == 1)] + WritePieces(pieces[1..])
  }

  function Write(s: Source): seq<string> {
    match s
    case Gap(text) => [text]
    case Written(_, _, pieces) => if pieces == [] then [] else WritePieces(Headed(s))
  }

  function WriteAll(sources: seq<Source>): seq<string> {
    if sources == [] then [] else WriteAll(sources[..|sources| - 1]) + Write(sources[|sources| - 1])
  }

  function Texts(pieces: seq<Piece>): seq<string> {
    if pieces == [] then [] else [pieces[0].text] + Texts(pieces[1..])
  }

  /** `" ".join(texts)` */
  function Join(texts: seq<string>): string {
    if texts == [] then "" else if |texts| == 1 then texts[0] else texts[0] + (" " + Join(texts[1..]))
  }

  /** The texts of an instruction's arguments. */
  function Arguments(s: Source): seq<string> {
    if s.Gap? || s.pieces == [] then []
    else if s.pieces[0].text == "" then Texts(s.pieces[1..])
    else Texts(s.pieces)
  }

  function MeantAt(s: Source, n: nat): seq<Instruction> {
    if s.Written? then [Instruction(n, Upper(s.instr), Join(Arguments(s)))] else []
  }

  /** The number of the line after `sources`. */
  function LineAfter(sources: seq<Source>): nat {
    if sources == [] then 1 else LineAfter(sources[..|sources| - 1]) + |Write(sources[|sources| - 1])|
  }

  /** The instructions written out, each with the number of its first physical line. */
  function Meant(sources: seq<Source>): seq<Instruction> {
    if sources == [] then []
    else
      var front, last := sources[..|sources| - 1], sources[|sources| - 1];
      Meant(front) + MeantAt(last, LineAfter(front))
  }

  /** What is left of a written line, whatever its margins are. */
  lemma PieceLine(p: Piece, last: bool)
    requires PlainPiece(p) && (last ==> !Continues(p.text))
    ensures var line := RStrip(WriteLine(p, last));
            && (Continues(line) <==> !last)
            && Strip(Part(WriteLine(p, last))) == p.text
            && (p.text[0] != '#' ==> !Ignored(line))
  {
    if last {
      LastLine(p);
    } else {
      ContinuedLine(p);
    }
  }

  lemma LastLine(p: Piece)
    requires PlainPiece(p) && !Continues(p.text)
    ensures var line := RStrip(WriteLine(p, true));
            line == p.left + p.text && !Continues(line) && Strip(line) == p.text
  {
    var line := p.left + p.text;
    assert line[|line| - 1] == p.text[|p.text| - 1];
    RStripAround(line, p.right);
    StripAround(p.left, p.text, "");
    assert p.left + p.text + "" == line;
  }

  lemma ContinuedLine(p: Piece)
    requires PlainPiece(p)
    ensures var line := RStrip(WriteLine(p, false));
            && Continues(line) && Strip(line[..|line| - 1]) == p.text
            && Strip(line) != "" && Strip(line)[0] == p.text[0]
  {
    var before, core := p.left + p.text + p.gap, p.text + (p.gap + "\\");
    var line := before + "\\";
    assert WriteLine(p, false) == line + p.right;
    RStripAround(line, p.right);
    assert line[..|line| - 1] == before;
    StripAround(p.left, p.text, p.gap);
    StripAround(p.left, core, "");
    assert p.left + core + "" == line;
  }

  lemma WrappedCons(line: string, rest: seq<string>)
    requires Continues(RStrip(line)) <==> rest != []
    requires rest != [] ==> Wrapped(rest)
    ensures Wrapped([line] + rest)
  {
    assert ([line] + rest)[1..] == rest;
  }

  lemma {:induction false} PiecesAreWrapped(pieces: seq<Piece>)
    requires pieces != [] && (forall p | p in pieces :: PlainPiece(p)) && !Continues(pieces[|pieces| - 1].text)
    ensures |WritePieces(pieces)| == |pieces| && Wrapped(WritePieces(pieces))
  {
    var line, rest := WriteLine(pieces[0], |pieces| == 1), WritePieces(pieces[1..]);
    assert Continues(RStrip(line)) <==> |pieces| > 1 by {
      assert pieces[0] in pieces;
      PieceLine(pieces[0], |pieces| == 1);
    }
    if |pieces| > 1 {
      PiecesAreWrapped(pieces[1..]);
    }
    WrappedCons(line, rest);
    assert WritePieces(pieces) == [line] + rest;
  }

  lemma {:induction false} PiecesAreJoined(pieces: seq<Piece>)
    requires pieces != [] && (forall p | p in pieces :: PlainPiece(p)) && !Continues(pieces[|pieces| - 1].text)
    ensures JoinStripped(Parts(WritePieces(pieces))) == Join(Texts(pieces))
  {
    var line, rest := WriteLine(pieces[0], |pieces| == 1), WritePieces(pieces[1..]);
    assert Strip(Part(line)) == pieces[0].text by {
      assert pieces[0] in pieces;
      PieceLine(pieces[0], |pieces| == 1);
    }
    if |pieces| > 1 {
      PiecesAreJoined(pieces[1..]);
    }
    WriteFirst(pieces);
    JoinBoth(Parts(WritePieces(pieces)), Texts(pieces));
  }

  /** Stripping and joining, one text further. */
  lemma JoinBoth(parts: seq<string>, texts: seq<string>)
    requires parts != [] && texts != [] && (|parts| == 1 <==> |texts| == 1)
    requires Strip(parts[0]) == texts[0]
    requires |parts| > 1 ==> JoinStripped(parts[1..]) == Join(texts[1..])
    ensures JoinStripped(parts) == Join(texts)
  {
  }

  lemma WrittenPieces(pieces: seq<Piece>)
    requires pieces != [] && (forall p | p in pieces :: PlainPiece(p)) && !Continues(pieces[|pieces| - 1].text)
    ensures var lines := WritePieces(pieces);
            && |lines| == |pieces| && Wrapped(lines)
            && (pieces[0].text != "" && pieces[0].text[0] != '#' ==> !Ignored(RStrip(lines[0])))
            && JoinStripped(Parts(lines)) == Join(Texts(pieces))
  {
    assert pieces[0] in pieces;
    PieceLine(pieces[0], |pieces| == 1);
    PiecesAreWrapped(pieces);
    PiecesAreJoined(pieces);
  }

  lemma WriteFirst(pieces: seq<Piece>)
    requires pieces != []
    ensures var lines := WritePieces(pieces);
            && |lines| > 0 && lines[0] == WriteLine(pieces[0], |pieces| == 1) && lines[1..] == WritePieces(pieces[1..])
            && Parts(lines) == [Part(lines[0])] + Parts(lines[1..]) && Parts(lines)[1..] == Parts(lines[1..])
            && Texts(pieces)[1..] == Texts(pieces[1..])
            && |Parts(lines)| == 1 + |Parts(lines[1..])| && (Parts(lines[1..]) == [] <==> |pieces| == 1)
            && |Texts(pieces)| == 1 + |Texts(pieces[1..])| && (Texts(pieces[1..]) == [] <==> |pieces| == 1)
  {
  }

  lemma {:induction false} JoinTrimmed(pieces: seq<Piece>)
    requires pieces != [] && forall p | p in pieces :: PlainText(p.text)
    ensures PlainText(Join(Texts(pieces)))
  {
    assert pieces[0] in pieces;
    assert Texts(pieces)[1..] == Texts(pieces[1..]);
    if |pieces| > 1 {
      JoinTrimmed(pieces[1..]);
      var tail := Join(Texts(pieces[1..]));
      assert Join(Texts(pieces))[|Join(Texts(pieces))| - 1] == tail[|tail| - 1];
    }
  }

  lemma {:induction false} WordEnds(word: string, rest: string)
    requires forall c | c in word :: !IsSpace(c)
    requires rest == "" || IsSpace(rest[0])
    ensures WordLength(word + rest) == |word|
  {
    if word == "" {
      assert word + rest == rest;
    } else {
      assert (word + rest)[1..] == word[1..] + rest;
      WordEnds(word[1..], rest);
    }
  }

  /** The word and the rest of an instruction are told apart again. */
  lemma AssembleWords(line: nat, instr: string, blank: string, args: string, parts: seq<string>)
    requires IsWord(instr) && AllSpace(blank) && (blank == "" <==> args == "") && Trimmed(args)
    requires JoinStripped(parts) == instr + (blank + args)
    ensures Assemble(line, parts) == [Instruction(line, Upper(instr), args)]
  {
    var tail := blank + args;
    var block := instr + tail;
    assert instr[0] in instr && instr[|instr| - 1] in instr;
    assert block[0] == instr[0] && block[|block| - 1] == if args == "" then instr[|instr| - 1] else args[|args| - 1];
    TrimmedIsStripped(block);
    WordEnds(instr, tail);
    assert block[..|instr|] == instr && block[|instr|..] == tail;
    assert tail == blank + args + "";
    StripAround(blank, args, "");
  }

  /** The joined texts are the name, white space, and the joined arguments. */
  lemma JoinHeaded(s: Source) returns (blank: string)
    requires Writable(s) && s.Written?
    ensures AllSpace(blank) && (blank == "" <==> Join(Arguments(s)) == "") && Trimmed(Join(Arguments(s)))
    ensures Join(Texts(Headed(s))) == s.instr + (blank + Join(Arguments(s)))
    ensures Headed(s)[0].text != "" && Headed(s)[0].text[0] != '#'
  {
    var first, more := s.pieces[0].text, s.pieces[1..];
    HeadedPlain(s);
    JoinFirst(s.pieces);
    JoinFirst(Headed(s));
    if more != [] {
      JoinTrimmed(more);
    }
    if first == "" {
      blank := if more == [] then "" else " ";
      assert s.instr + JoinMore(more) == s.instr + (blank + Join(Texts(more)));
    } else {
      blank := s.blank;
      JoinTrimmed(s.pieces);
      assert s.instr + (blank + first) + JoinMore(more) == s.instr + (blank + (first + JoinMore(more)));
    }
  }

  function JoinMore(pieces: seq<Piece>): string {
    if pieces == [] then "" else " " + Join(Texts(pieces))
  }

  lemma JoinFirst(pieces: seq<Piece>)
    requires pieces != []
    ensures Join(Texts(pieces)) == pieces[0].text + JoinMore(pieces[1..])
  {
    assert Texts(pieces)[1..] == Texts(pieces[1..]);
  }

  lemma HeadedPlain(s: Source)
    requires Writable(s) && s.Written?
    ensures Headed(s)[1..] == s.pieces[1..]
    ensures forall p | p in s.pieces[1..] :: PlainText(p.text)
    ensures s.pieces[0].text != "" ==> forall p | p in s.pieces :: PlainText(p.text)
    ensures Headed(s)[0].text != "" && Headed(s)[0].text[0] != '#'
  {
    assert Headed(s)[1..] == s.pieces[1..];
    assert forall p | p in s.pieces[1..] :: p in Headed(s);
    assert forall p | p in s.pieces :: p == s.pieces[0] || p in s.pieces[1..];
  }

  lemma ReadWritten(s: Source, n: nat, found: seq<Instruction>)
    requires Writable(s) && s.Written?
    ensures Read(Write(s), Idle(n, found)) == Idle(n + |Write(s)|, found + MeantAt(s, n))
  {
    var blank := JoinHeaded(s);
    WrittenPieces(Headed(s));
    AssembleWords(n, s.instr, blank, Join(Arguments(s)), Parts(Write(s)));
    ReadAssembled(Write(s), n, found);
  }

  lemma ReadAssembled(lines: seq<string>, n: nat, found: seq<Instruction>)
    requires Wrapped(lines) && !Ignored(RStrip(lines[0]))
    ensures Read(lines, Idle(n, found)) == Idle(n + |lines|, found + Assemble(n, Parts(lines)))
  {
    ReadChunk(lines, Idle(n, found));
    assert [] + Parts(lines) == Parts(lines);
  }

  lemma ReadSource(s: Source, n: nat, found: seq<Instruction>)
    requires Writable(s)
    ensures Read(Write(s), Idle(n, found)) == Idle(n + |Write(s)|, found + MeantAt(s, n))
  {
    if s.Written? {
      ReadWritten(s, n, found);
    } else {
      IgnoredExactly(s.text);
      assert found + [] == found;
      assert Read([s.text], Idle(n, found)) == Next(s.text, Idle(n, found));
    }
  }

  /** Reading source by source. */
  function ReadEach(sources: seq<Source>): Reader {
    if sources == [] then Idle(1, [])
    else Read(Write(sources[|sources| - 1]), ReadEach(sources[..|sources| - 1]))
  }

  lemma {:induction false} ReadEachIsRead(sources: seq<Source>)
    ensures ReadEach(sources) == Read(WriteAll(sources), Idle(1, []))
  {
    if sources != [] {
      var front, last := sources[..|sources| - 1], sources[|sources| - 1];
      ReadEachIsRead(front);
      ReadAppend(WriteAll(front), Write(last), Idle(1, []));
    }
  }

  lemma {:induction false} ReadEachIsMeant(sources: seq<Source>)
    requires forall s | s in sources :: Writable(s)
    ensures ReadEach(sources) == Idle(LineAfter(sources), Meant(sources))
  {
    if sources != [] {
      var front, last := sources[..|sources| - 1], sources[|sources| - 1];
      assert last in sources;
      ReadEachIsMeant(front);
      ReadSource(last, LineAfter(front), Meant(front));
    }
  }

  lemma {:induction false} LineAfterCountsLines(sources: seq<Source>)
    ensures LineAfter(sources) == 1 + |WriteAll(sources)|
  {
    if sources != [] {
      LineAfterCountsLines(sources[..|sources| - 1]);
    }
  }

  /** Round trip: instructions wrapped over any number of lines, with blank and comment lines
      anywhere between them, are recovered with the numbers of their first lines. */
  lemma WrittenFileIsParsed(sources: seq<Source>)
    requires forall s | s in sources :: Writable(s)
    ensures Parse(WriteAll(sources)) == Meant(sources) && LineAfter(sources) == 1 + |WriteAll(sources)|
  {
    ReadEachIsRead(sources);
    ReadEachIsMeant(sources);
    LineAfterCountsLines(sources);
  }

  lemma {:induction false} ReadUnfinished(lines: seq<string>, r: Reader)
    requires r.parts != [] || (lines != [] && !Ignored(RStrip(lines[0])))
    requires forall k | 0 <= k < |lines| :: Continues(RStrip(lines[k]))
    ensures Read(lines, r).found == r.found
  {
    if lines != [] {
      NextPart(lines[0], r);
      ReadUnfinished(lines[1..], Next(lines[0], r));
    }
  }

  /** An instruction that the file ends in is dropped, if its last line announces another one. */
  lemma UnfinishedIsDropped(sources: seq<Source>, open: seq<string>)
    requires forall s | s in sources :: Writable(s)
    requires open != [] && !BlankOrComment(open[0]) && forall k | 0 <= k < |open| :: Continues(RStrip(open[k]))
    ensures Parse(WriteAll(sources) + open) == Meant(sources)
  {
    ReadEachIsRead(sources);
    ReadEachIsMeant(sources);
    ReadAppend(WriteAll(sources), open, Idle(1, []));
    IgnoredExactly(open[0]);
    ReadUnfinished(open, Idle(LineAfter(sources), Meant(sources)));
  }

  // ---------- Stages ----------

  type Stage = seq<Instruction>

  /** A stage starts with its only FROM. */
  predicate IsStage(stage: Stage) {
    && stage != []
    && stage[0].instr == "FROM"
    && forall k | 0 < k < |stage| :: stage[k].instr != "FROM"
  }

  predicate IsFrom(i: Instruction) {
    i.instr == "FROM"
  }

  function FirstFrom(instructions: seq<Instruction>): nat {
    FirstIndex(instructions, IsFrom)
  }

  lemma OneMoreStage(stages: seq<Stage>, stage: Stage)
    requires IsStage(stage) && forall s | s in stages :: IsStage(s)
    ensures Joined(stages + [stage]) == Joined(stages) + stage
    ensures forall s | s in stages + [stage] :: IsStage(s)
  {
    JoinedSnoc(stages, stage);
  }

  function UpTo(instructions: seq<Instruction>, first: nat, i: nat): seq<Instruction>
    requires first <= |instructions| && i <= |instructions|
  {
    if i <= first then [] else instructions[first..i]
  }

  lemma UpToNext(instructions: seq<Instruction>, first: nat, i: nat)
    requires first <= |instructions| && i < |instructions|
    ensures UpTo(instructions, first, i + 1) ==
            if i < first then [] else UpTo(instructions, first, i) + [instructions[i]]
  {
  }

  lemma UpToEnd(instructions: seq<Instruction>, first: nat)
    requires first <= |instructions|
    ensures UpTo(instructions, first, |instructions|) == instructions[first..]
  {
  }

  /** The first `i` instructions are cut into `stages` and the stage being read. */
  predicate Cut(instructions: seq<Instruction>, i: nat, stages: seq<Stage>, current: Stage)
    requires i <= |instructions|
  {
    && (current == [] <==> i <= FirstFrom(instructions))
    && (current != [] ==> IsStage(current))
    && (forall stage | stage in stages :: IsStage(stage))
    && Joined(stages) + current == UpTo(instructions, FirstFrom(instructions), i)
  }

  /** The stage being read, if there is one, is complete. */
  function Closed(stages: seq<Stage>, current: Stage): seq<Stage> {
    if current == [] then stages else stages + [current]
  }

  lemma CutClosed(instructions: seq<Instruction>, i: nat, stages: seq<Stage>, current: Stage)
    requires i <= |instructions| && Cut(instructions, i, stages, current)
    ensures Joined(Closed(stages, current)) == UpTo(instructions, FirstFrom(instructions), i)
    ensures forall stage | stage in Closed(stages, current) :: IsStage(stage)
  {
    if current != [] {
      OneMoreStage(stages, current);
    }
  }

  lemma CutStarts(instructions: seq<Instruction>, i: nat, stages: seq<Stage>, current: Stage)
    requires i < |instructions| && Cut(instructions, i, stages, current) && instructions[i].instr == "FROM"
    ensures Cut(instructions, i + 1, Closed(stages, current), [instructions[i]])
  {
    CutClosed(instructions, i, stages, current);
    UpToNext(instructions, FirstFrom(instructions), i);
  }

  lemma CutContinues(instructions: seq<Instruction>, i: nat, stages: seq<Stage>, current: Stage)
    requires i < |instructions| && Cut(instructions, i, stages, current) && instructions[i].instr != "FROM"
    ensures Cut(instructions, i + 1, stages, if current == [] then [] else current + [instructions[i]])
  {
    UpToNext(instructions, FirstFrom(instructions), i);
    assert Joined(stages) + (current + [instructions[i]]) == Joined(stages) + current + [instructions[i]];
  }

  /** The stages are the only way to cut the instructions from the first FROM on before every FROM. */
  method SplitStages(instructions: seq<Instruction>) returns (stages: seq<Stage>)
    ensures Joined(stages) == instructions[FirstFrom(instructions)..]
    ensures forall stage | stage in stages :: IsStage(stage)
    ensures |stages| == |FromsOf(instructions)|
  {
    stages := [];
    var current: Stage := [];
    for i := 0 to |instructions|
      invariant Cut(instructions, i, stages, current)
    {
      var entry := instructions[i];
      if entry.instr == "FROM" {
        CutStarts(instructions, i, stages, current);
        if current != [] {
          stages := stages + [current];
        }
        current := [entry];
      } else {
        CutContinues(instructions, i, stages, current);
        if current != [] {
          current := current + [entry];
        }
      }
    }
    CutClosed(instructions, |instructions|, stages, current);
    UpToEnd(instructions, FirstFrom(instructions));
    StagesAreFroms(instructions, Closed(stages, current));
    if current != [] {
      stages := stages + [current];
    }
  }

  function FromsOf(instructions: seq<Instruction>): seq<Instruction> {
    if instructions == [] then []
    else
      var froms, last := FromsOf(instructions[..|instructions| - 1]), instructions[|instructions| - 1];
      if IsFrom(last) then froms + [last] else froms
  }

  function Heads(stages: seq<Stage>): seq<Instruction> {
    if stages == [] then [] else (if stages[0] == [] then [] else [stages[0][0]]) + Heads(stages[1..])
  }

  lemma {:induction false} FromsOfConcat(a: seq<Instruction>, b: seq<Instruction>)
    ensures FromsOf(a + b) == FromsOf(a) + FromsOf(b)
  {
    if b == [] {
      assert a + b == a;
    } else {
      assert (a + b)[..|a + b| - 1] == a + b[..|b| - 1];
      FromsOfConcat(a, b[..|b| - 1]);
    }
  }

  lemma {:induction false} NoFroms(instructions: seq<Instruction>)
    requires forall k | 0 <= k < |instructions| :: !IsFrom(instructions[k])
    ensures FromsOf(instructions) == []
  {
    if instructions != [] {
      NoFroms(instructions[..|instructions| - 1]);
    }
  }

  lemma {:induction false} FromsOfStages(stages: seq<Stage>)
    requires forall stage | stage in stages :: IsStage(stage)
    ensures FromsOf(Joined(stages)) == Heads(stages)
  {
    if stages != [] {
      assert stages[0] in stages;
      FromsOfStages(stages[1..]);
      FromsOfConcat(stages[0], Joined(stages[1..]));
      FromsOfStage(stages[0]);
    }
  }

  lemma {:induction false} HeadsAt(stages: seq<Stage>)
    requires forall stage | stage in stages :: IsStage(stage)
    ensures |Heads(stages)| == |stages|
    ensures forall k | 0 <= k < |stages| :: stages[k] != [] && Heads(stages)[k] == stages[k][0]
  {
    if stages != [] {
      assert stages[0] in stages;
      HeadsAt(stages[1..]);
    }
  }

  lemma FromsOfStage(stage: Stage)
    requires IsStage(stage)
    ensures FromsOf(stage) == [stage[0]]
  {
    var first, more := [stage[0]], stage[1..];
    FromsOfConcat(first, more);
    NoFroms(more);
    assert stage == first + more && first[..0] == [];
  }

  /** There is one stage for every FROM of the file, in order, and it starts with it. */
  lemma StagesAreFroms(instructions: seq<Instruction>, stages: seq<Stage>)
    requires Joined(stages) == instructions[FirstFrom(instructions)..]
    requires forall stage | stage in stages :: IsStage(stage)
    ensures |stages| == |FromsOf(instructions)|
    ensures forall k | 0 <= k < |stages| :: stages[k] != [] && stages[k][0] == FromsOf(instructions)[k]
  {
    FromsBehindFirst(instructions);
    FromsOfStages(stages);
    HeadsAt(stages);
  }

  lemma FromsBehindFirst(instructions: seq<Instruction>)
    ensures FromsOf(instructions[FirstFrom(instructions)..]) == FromsOf(instructions)
  {
    var first := FirstFrom(instructions);
    var before, behind := instructions[..first], instructions[first..];
    NoFroms(before);
    FromsOfConcat(before, behind);
    assert instructions == before + behind && [] + FromsOf(behind) == FromsOf(behind);
  }

  /** There is no other way to cut. */
  lemma {:induction false} StagesAreUnique(stages: seq<Stage>, stages': seq<Stage>)
    requires Joined(stages) == Joined(stages')
    requires forall stage | stage in stages :: IsStage(stage)
    requires forall stage | stage in stages' :: IsStage(stage)
    ensures stages == stages' && |stages| == |FromsOf(Joined(stages))|
  {
    JoinedStarts(stages);
    JoinedStarts(stages');
    FromsOfStages(stages);
    HeadsAt(stages);
    if stages != [] {
      assert stages[0] in stages && stages'[0] in stages';
      StageEnds(stages[0], stages[1..], stages'[0], stages'[1..]);
      StageEnds(stages'[0], stages'[1..], stages[0], stages[1..]);
      var all := Joined(stages);
      assert stages[0] == all[..|stages[0]|] && Joined(stages[1..]) == all[|stages[0]|..];
      assert stages'[0] == all[..|stages'[0]|] && Joined(stages'[1..]) == all[|stages'[0]|..];
      StagesAreUnique(stages[1..], stages'[1..]);
    }
  }

  lemma JoinedStarts(stages: seq<Stage>)
    requires forall stage | stage in stages :: IsStage(stage)
    ensures Joined(stages) == [] <==> stages == []
    ensures Joined(stages) != [] ==> Joined(stages)[0].instr == "FROM"
  {
    if stages != [] {
      assert stages[0] in stages;
    }
  }

  lemma StageEnds(stage: Stage, rest: seq<Stage>, stage': Stage, rest': seq<Stage>)
    requires stage + Joined(rest) == stage' + Joined(rest')
    requires IsStage(stage) && IsStage(stage') && forall s | s in rest :: IsStage(s)
    ensures |stage| >= |stage'|
  {
    JoinedStarts(rest);
    var all := stage + Joined(rest);
    assert |all| > |stage| ==> all[|stage|] == Joined(rest)[0];
    assert forall k | 0 <= k < |stage'| :: all[k] == stage'[k];
  }

  // ---------- The security-patch stage ----------

  function LowerChar(c: char): char {
    if 'A' <= c <= 'Z' then (c as int + 32) as char else c
  }

  function Lower(s: string): string {
    seq(|s|, i requires 0 <= i < |s| => LowerChar(s[i]))
  }

  lemma LowerExactly(s: string, k: nat)
    requires k < |s|
    ensures |Lower(s)| == |s|
    ensures var small, large := "abcdefghijklmnopqrstuvwxyz", "ABCDEFGHIJKLMNOPQRSTUVWXYZ";
            && (forall i | 0 <= i < 26 && s[k] == large[i] :: Lower(s)[k] == small[i])
            && (s[k] !in large ==> Lower(s)[k] == s[k])
  {
    Alphabets(s[k]);
  }

  lemma {:induction false} LStripShortens(s: string)
    ensures |LStrip(s)| <= |s|
    ensures LStrip(s) != "" ==> WordLength(LStrip(s)) > 0
  {
    if s != "" && IsSpace(s[0]) {
      LStripShortens(s[1..]);
    }
  }

  /** `s.split()` */
  function Words(s: string): seq<string>
    decreases |s|
  {
    var t := LStrip(s);
    LStripShortens(s);
    if t == "" then [] else [t[..WordLength(t)]] + Words(t[WordLength(t)..])
  }

  lemma {:induction false} LStripConcat(a: string, b: string)
    ensures LStrip(a + b) == if LStrip(a) == "" then LStrip(b) else LStrip(a) + b
  {
    if a == "" {
      assert a + b == b;
    } else {
      assert (a + b)[1..] == a[1..] + b;
      LStripConcat(a[1..], b);
    }
  }

  lemma {:induction false} WordLengthConcat(a: string, b: string)
    requires b == "" || IsSpace(b[0])
    ensures WordLength(a + b) == WordLength(a)
  {
    if a == "" {
      assert a + b == b;
    } else {
      assert (a + b)[1..] == a[1..] + b;
      WordLengthConcat(a[1..], b);
    }
  }

  lemma {:induction false} WordsOfConcat(a: string, b: string)
    requires b == "" || IsSpace(b[0])
    ensures Words(a + b) == Words(a) + Words(b)
    decreases |a|
  {
    var t := LStrip(a);
    LStripConcat(a, b);
    if t != "" {
      var n := WordLength(t);
      LStripShortens(a);
      WordLengthConcat(t, b);
      assert (t + b)[..n] == t[..n] && (t + b)[n..] == t[n..] + b;
      WordsOfConcat(t[n..], b);
      Associate([t[..n]], Words(t[n..]), Words(b));
    }
  }

  function AllWords(texts: seq<string>): seq<string> {
    if texts == [] then [] else Words(texts[0]) + AllWords(texts[1..])
  }

  /** The words of a joined text are those of its parts, however they are distributed over these. */
  lemma {:induction false} WordsOfJoin(texts: seq<string>)
    ensures Words(Join(texts)) == AllWords(texts)
  {
    if |texts| == 1 {
      assert AllWords(texts) == Words(texts[0]) + [];
    } else if texts != [] {
      var rest := Join(texts[1..]);
      WordsOfJoin(texts[1..]);
      WordsOfConcat(texts[0], " " + rest);
      LStripConcat(" ", rest);
      assert Words(" " + rest) == Words(rest);
    }
  }

  lemma {:induction false} WordsOfWords(words: seq<string>)
    requires forall w | w in words :: IsWord(w)
    ensures AllWords(words) == words
  {
    if words != [] {
      assert words[0] in words;
      WordsOfWord(words[0]);
      WordsOfWords(words[1..]);
    }
  }

  lemma WordsOfWord(w: string)
    requires IsWord(w)
    ensures Words(w) == [w]
  {
    assert w[0] in w;
    WordEnds(w, "");
    assert w + "" == w && w[..|w|] == w && w[|w|..] == "";
  }

  /** `FROM image AS security-patch` */
  predicate SayPatchStage(tokens: seq<string>) {
    |tokens| >= 3 && Upper(tokens[1]) == "AS" && Lower(tokens[2]) == "security-patch"
  }

  /** The second word is `as`, the third one `security-patch`, in capital or small letters. */
  lemma PatchStageExactly(tokens: seq<string>)
    ensures SayPatchStage(tokens) <==>
            && |tokens| >= 3
            && tokens[1] in {"as", "aS", "As", "AS"}
            && |tokens[2]| == 14
            && forall k | 0 <= k < 14 :: tokens[2][k] in {"security-patch"[k], "SECURITY-PATCH"[k]}
  {
    if |tokens| >= 3 {
      CapitalAs(tokens[1]);
      SmallPatch(tokens[2]);
    }
  }

  lemma CapitalAs(s: string)
    ensures Upper(s) == "AS" <==> s in {"as", "aS", "As", "AS"}
  {
    if Upper(s) == "AS" {
      assert |s| == |Upper(s)| == 2;
      assert Upper(s)[0] == UpperChar(s[0]) && Upper(s)[1] == UpperChar(s[1]);
      assert s == [s[0], s[1]];
    }
  }

  lemma SmallPatch(s: string)
    ensures Lower(s) == "security-patch" <==>
            |s| == 14 && forall k | 0 <= k < 14 :: s[k] in {"security-patch"[k], "SECURITY-PATCH"[k]}
  {
    var small, large := "security-patch", "SECURITY-PATCH";
    assert |s| == |Lower(s)|;
    if |s| == 14 {
      forall k | 0 <= k < 14 ensures Lower(s)[k] == small[k] <==> s[k] in {small[k], large[k]} {
        assert Lower(s)[k] == LowerChar(s[k]);
      }
    }
  }

  predicate NamesPatchStage(from: string) {
    SayPatchStage(Words(from))
  }

  /** Only the first FROM of a stage decides. */
  predicate IsPatchStage(stage: Stage) {
    var k := FirstFrom(stage);
    k < |stage| && NamesPatchStage(stage[k].rest)
  }

  method SecurityPatchStageIndex(stages: seq<Stage>) returns (index: Option<nat>)
    ensures index.None? ==> forall stage | stage in stages :: !IsPatchStage(stage)
    ensures index.Some? ==>
              && index.value < |stages| && IsPatchStage(stages[index.value])
              && forall k | 0 <= k < index.value :: !IsPatchStage(stages[k])
  {
    for i := 0 to |stages|
      invariant forall k | 0 <= k < i :: !IsPatchStage(stages[k])
    {
      var stage := stages[i];
      for j := 0 to |stage|
        invariant forall k | 0 <= k < j :: !IsFrom(stage[k])
        invariant FirstFrom(stage) >= j
      {
        if !IsFrom(stage[j]) {
          continue;
        }
        if NamesPatchStage(stage[j].rest) {
          return Some(i);
        }
        break;
      }
    }
    return None;
  }

  function WrittenFroms(sources: seq<Source>): seq<Source> {
    if sources == [] then []
    else
      var froms, last := WrittenFroms(sources[..|sources| - 1]), sources[|sources| - 1];
      if last.Written? && Upper(last.instr) == "FROM" then froms + [last] else froms
  }

  lemma {:induction false} FromsOfMeant(sources: seq<Source>)
    ensures var meant, written := FromsOf(Meant(sources)), WrittenFroms(sources);
            |meant| == |written| && forall k | 0 <= k < |meant| :: meant[k].rest == Join(Arguments(written[k]))
  {
    if sources != [] {
      var front, last := sources[..|sources| - 1], sources[|sources| - 1];
      FromsOfMeant(front);
      FromsOfConcat(Meant(front), MeantAt(last, LineAfter(front)));
      OneFrom(last, LineAfter(front));
    }
  }

  lemma OneFrom(s: Source, n: nat)
    ensures FromsOf(MeantAt(s, n)) == if s.Written? && Upper(s.instr) == "FROM" then MeantAt(s, n) else []
  {
    var meant := MeantAt(s, n);
    assert meant != [] ==> meant == [] + [meant[0]] && meant[..0] == [];
  }

  /** From the written file to the stages: there is one for every written FROM, and it is a
      security-patch stage exactly when the words of that FROM say so, on however many lines they
      stand; if each text is one word, the second and third texts decide. */
  lemma WrittenStageIsPatch(sources: seq<Source>, stages: seq<Stage>)
    requires forall s | s in sources :: Writable(s)
    requires var instructions := Parse(WriteAll(sources)); Joined(stages) == instructions[FirstFrom(instructions)..]
    requires forall stage | stage in stages :: IsStage(stage)
    ensures |stages| == |WrittenFroms(sources)|
    ensures forall k | 0 <= k < |stages| ::
              IsPatchStage(stages[k]) <==> SayPatchStage(AllWords(Arguments(WrittenFroms(sources)[k])))
    ensures forall k | 0 <= k < |stages| && (forall w | w in Arguments(WrittenFroms(sources)[k]) :: IsWord(w)) ::
              IsPatchStage(stages[k]) <==> SayPatchStage(Arguments(WrittenFroms(sources)[k]))
  {
    WrittenFileIsParsed(sources);
    StagesAreFroms(Meant(sources), stages);
    FromsOfMeant(sources);
    forall k | 0 <= k < |stages|
      ensures IsPatchStage(stages[k]) <==> SayPatchStage(AllWords(Arguments(WrittenFroms(sources)[k])))
    {
      assert stages[k] in stages;
      StageIsPatch(stages[k]);
      WordsOfJoin(Arguments(WrittenFroms(sources)[k]));
    }
    forall k | 0 <= k < |stages| && (forall w | w in Arguments(WrittenFroms(sources)[k]) :: IsWord(w))
      ensures IsPatchStage(stages[k]) <==> SayPatchStage(Arguments(WrittenFroms(sources)[k]))
    {
      WordsOfWords(Arguments(WrittenFroms(sources)[k]));
    }
  }

  lemma StageIsPatch(stage: Stage)
    requires IsStage(stage)
    ensures IsPatchStage(stage) <==> SayPatchStage(Words(stage[0].rest))
  {
    assert FirstFrom(stage) == 0;
  }
}
