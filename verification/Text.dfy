/** The string operations of Python's `str` that the modelled scripts use.
    Character classes are the ASCII ones. */
module Text {

  predicate IsDigit(c: char) {
    '0' <= c <= '9'
  }

  predicate IsAlpha(c: char) {
    'a' <= c <= 'z' || 'A' <= c <= 'Z'
  }

  /** The characters `str.strip()` and `str.split()` treat as white space. */
  predicate IsSpace(c: char) {
    c == ' ' || 9 <= c as int <= 13 || 28 <= c as int <= 31
  }

  /** The classes, character by character. */
  lemma ClassesExactly(c: char)
    ensures IsDigit(c) <==> c in "0123456789"
    ensures IsAlpha(c) <==> c in "abcdefghijklmnopqrstuvwxyz" || c in "ABCDEFGHIJKLMNOPQRSTUVWXYZ"
    ensures IsSpace(c) <==> c in " \t\n\U{0B}\U{0C}\r\U{1C}\U{1D}\U{1E}\U{1F}"
  {
    var digits := "0123456789";
    if IsDigit(c) {
      assert digits[c as int - '0' as int] == c;
    }
    Alphabets(c);
  }

  lemma Alphabets(c: char)
    ensures var small, large := "abcdefghijklmnopqrstuvwxyz", "ABCDEFGHIJKLMNOPQRSTUVWXYZ";
            && (forall i | 0 <= i < 26 :: small[i] as int == 'a' as int + i && large[i] as int == 'A' as int + i)
            && (c in small <==> 'a' <= c <= 'z') && (c in large <==> 'A' <= c <= 'Z')
  {
    var small, large := "abcdefghijklmnopqrstuvwxyz", "ABCDEFGHIJKLMNOPQRSTUVWXYZ";
    assert forall i | 0 <= i < 26 :: small[i] as int == 'a' as int + i;
    assert forall i | 0 <= i < 26 :: large[i] as int == 'A' as int + i;
    Alphabet(small, 'a', c);
    Alphabet(large, 'A', c);
  }

  lemma Alphabet(letters: string, first: char, c: char)
    requires |letters| == 26 && forall i | 0 <= i < 26 :: letters[i] as int == first as int + i
    ensures c in letters <==> 0 <= c as int - first as int < 26
  {
    if 0 <= c as int - first as int < 26 {
      assert letters[c as int - first as int] == c;
    }
  }

  predicate Digits(s: string) {
    forall c | c in s :: IsDigit(c)
  }

  /** The value of a run of decimal digits; the empty run counts as zero. */
  function Number(s: string): nat {
    if s == "" then 0
    else
      var last := s[|s| - 1];
      Number(s[..|s| - 1]) * 10 + if IsDigit(last) then last as int - '0' as int else 0
  }

  /** What `str.isdigit()` accepts. */
  predicate IsNumeral(s: string) {
    s != "" && Digits(s)
  }

  /** The decimal representation, as `str(n)` writes it. */
  function Decimal(n: nat): string {
    if n < 10 then [('0' as int + n) as char] else Decimal(n / 10) + [('0' as int + n % 10) as char]
  }

  lemma {:induction false} DecimalNumber(n: nat)
    ensures IsNumeral(Decimal(n)) && Number(Decimal(n)) == n
  {
    var front, last := if n < 10 then "" else Decimal(n / 10), ('0' as int + n % 10) as char;
    assert Decimal(n) == front + [last];
    if n >= 10 {
      DecimalNumber(n / 10);
    }
    assert Decimal(n)[..|Decimal(n)| - 1] == front;
  }

  predicate AllSpace(s: string) {
    forall c | c in s :: IsSpace(c)
  }

  function LStrip(s: string): string {
    if s != "" && IsSpace(s[0]) then LStrip(s[1..]) else s
  }

  function RStrip(s: string): string {
    if s != "" && IsSpace(s[|s| - 1]) then RStrip(s[..|s| - 1]) else s
  }

  function Strip(s: string): string {
    RStrip(LStrip(s))
  }

  /** No white space at either end. */
  predicate Trimmed(s: string) {
    s != "" ==> !IsSpace(s[0]) && !IsSpace(s[|s| - 1])
  }

  /** Stripping removes exactly the white space around a trimmed core. */
  lemma {:induction false} LStripAround(left: string, core: string)
    requires AllSpace(left)
    requires core == "" || !IsSpace(core[0])
    ensures LStrip(left + core) == core
  {
    if left == "" {
      assert left + core == core;
    } else {
      assert (left + core)[1..] == left[1..] + core;
      LStripAround(left[1..], core);
    }
  }

  lemma {:induction false} RStripAround(core: string, right: string)
    requires AllSpace(right)
    requires core == "" || !IsSpace(core[|core| - 1])
    ensures RStrip(core + right) == core
  {
    if right == "" {
      assert core + right == core;
    } else {
      assert (core + right)[..|core + right| - 1] == core + right[..|right| - 1];
      RStripAround(core, right[..|right| - 1]);
    }
  }

  lemma StripAround(left: string, core: string, right: string)
    requires AllSpace(left) && AllSpace(right) && Trimmed(core)
    ensures Strip(left + core + right) == core
  {
    if core == "" {
      assert left + core + right == (left + right) + "";
      LStripAround(left + right, "");
    } else {
      assert left + core + right == left + (core + right);
      LStripAround(left, core + right);
      RStripAround(core, right);
    }
  }

  lemma TrimmedIsStripped(s: string)
    requires Trimmed(s)
    ensures Strip(s) == s
  {
    assert s == "" + s + "";
    StripAround("", s, "");
  }

  lemma {:induction false} LStripParts(s: string) returns (left: string)
    ensures s == left + LStrip(s) && AllSpace(left)
    ensures LStrip(s) == "" || !IsSpace(LStrip(s)[0])
  {
    if s != "" && IsSpace(s[0]) {
      var rest := LStripParts(s[1..]);
      left := [s[0]] + rest;
    } else {
      left := "";
    }
  }

  lemma {:induction false} RStripParts(s: string) returns (right: string)
    ensures s == RStrip(s) + right && AllSpace(right)
    ensures RStrip(s) == "" || !IsSpace(RStrip(s)[|RStrip(s)| - 1])
  {
    if s != "" && IsSpace(s[|s| - 1]) {
      var rest := RStripParts(s[..|s| - 1]);
      right := rest + [s[|s| - 1]];
    } else {
      right := "";
    }
  }

  /** Every string is white space, its stripped core, white space; the core is trimmed. */
  lemma StripParts(s: string) returns (left: string, right: string)
    ensures s == left + Strip(s) + right
    ensures AllSpace(left) && AllSpace(right) && Trimmed(Strip(s))
  {
    left := LStripParts(s);
    right := RStripParts(LStrip(s));
    assert s == left + (Strip(s) + right);
  }

  /** Splits at the first occurrence of `c`, as `str.partition` does; `None` when there is none. */
  function IndexOf(s: string, c: char): (k: nat)
    ensures k <= |s|
    ensures k < |s| ==> s[k] == c
    ensures c !in s[..k]
    ensures k == |s| <==> c !in s
  {
    if s == "" then 0
    else if s[0] == c then 0
    else
      var k := IndexOf(s[1..], c);
      assert s[..k + 1] == [s[0]] + s[1..][..k];
      assert s == [s[0]] + s[1..];
      k + 1
  }

  /** The position of the last occurrence of `c`, or |s| when there is none. */
  function LastIndexOf(s: string, c: char): (k: nat)
    ensures k <= |s|
    ensures k < |s| ==> s[k] == c && c !in s[k + 1..]
    ensures k == |s| <==> c !in s
  {
    if c !in s then |s|
    else if s[|s| - 1] == c then |s| - 1
    else
      assert s == s[..|s| - 1] + [s[|s| - 1]];
      var k := LastIndexOf(s[..|s| - 1], c);
      assert s[k + 1..] == s[..|s| - 1][k + 1..] + [s[|s| - 1]];
      k
  }
}
