/** The memory limits that `docker update` takes, as `_docker_memory_string_to_bytes` of
    `scripts/reliability/reliability_check.py` reads them. */
module MemoryStrings {
  import opened Text
  import opened Wrappers

  function ParseInt(s: string): Option<int> {
    var t := Strip(s);
    if IsNumeral(t) then Some(Number(t))
    else if t != "" && t[0] in "+-" && IsNumeral(t[1..]) then
      var n: int := Number(t[1..]);
      Some(if t[0] == '-' then -n else n)
    else None
  }

  function SuffixFactor(c: char): nat {
    if c in "bB" then 1
    else if c in "kK" then 1024
    else if c in "mM" then 1024 * 1024
    else if c in "gG" then 1024 * 1024 * 1024
    else 0
  }

  /** `None` where Python raises ValueError. */
  function MemoryBytes(value: string): Option<int> {
    var text := Strip(value);
    if text != "" && SuffixFactor(text[|text| - 1]) > 0 then
      var n := ParseInt(text[..|text| - 1]);
      if n.Some? then Some(n.value * SuffixFactor(text[|text| - 1])) else None
    else ParseInt(text)
  }

  /** `str(n)` */
  function IntString(n: int): string {
    if n < 0 then "-" + Decimal(-n) else Decimal(n)
  }

  // ---------- Integers ----------

  predicate IsSign(sign: string) {
    sign in {"", "+", "-"}
  }

  function Signed(sign: string, digits: string): int {
    if sign == "-" then -(Number(digits) as int) else Number(digits)
  }

  lemma SignedDigits(sign: string, digits: string)
    requires IsSign(sign) && IsNumeral(digits)
    ensures var core := sign + digits;
            && core != "" && Trimmed(core) && IsDigit(core[|core| - 1])
            && ParseInt(core) == Some(Signed(sign, digits))
  {
    var core := sign + digits;
    assert digits[0] in digits && digits[|digits| - 1] in digits;
    assert core[|core| - 1] == digits[|digits| - 1];
    TrimmedIsStripped(core);
    if sign == "" {
      assert core == digits;
    } else {
      assert core[0] == sign[0] && core[0] in core && core[1..] == digits;
    }
  }

  /** An optional sign and digits are read, with any white space around them. */
  lemma IntegerIsRead(left: string, sign: string, digits: string, right: string)
    requires AllSpace(left) && IsSign(sign) && IsNumeral(digits) && AllSpace(right)
    ensures ParseInt(left + (sign + digits) + right) == Some(Signed(sign, digits))
  {
    SignedDigits(sign, digits);
    StripAround(left, sign + digits, right);
    TrimmedIsStripped(sign + digits);
  }

  /** Nothing else is read as an integer. */
  lemma ReadIsInteger(s: string) returns (left: string, sign: string, digits: string, right: string)
    requires ParseInt(s).Some?
    ensures AllSpace(left) && IsSign(sign) && IsNumeral(digits) && AllSpace(right)
    ensures s == left + (sign + digits) + right
  {
    left, right := StripParts(s);
    var t := Strip(s);
    if IsNumeral(t) {
      sign, digits := "", t;
      assert sign + digits == t;
    } else {
      sign, digits := t[..1], t[1..];
      assert sign + digits == t;
      assert sign == [t[0]];
    }
  }

  // ---------- Units ----------

  /** What stands before the unit, with its unit behind it. */
  function Limit(left: string, sign: string, digits: string, gap: string, unit: string, right: string): string {
    left + (sign + digits + gap + unit) + right
  }

  lemma UnitText(left: string, sign: string, digits: string, gap: string, c: char, right: string)
    requires AllSpace(left) && IsSign(sign) && IsNumeral(digits) && AllSpace(gap) && AllSpace(right)
    requires !IsSpace(c)
    ensures var text := Strip(Limit(left, sign, digits, gap, [c], right));
            && text != "" && text[|text| - 1] == c
            && ParseInt(text[..|text| - 1]) == Some(Signed(sign, digits))
  {
    var front := sign + digits + gap;
    var text := front + [c];
    SignedDigits(sign, digits);
    assert text[0] == (sign + digits)[0] && text[|text| - 1] == c;
    StripAround(left, text, right);
    assert text[..|text| - 1] == front && front == "" + (sign + digits) + gap;
    IntegerIsRead("", sign, digits, gap);
  }

  lemma UnitlessLimit(left: string, sign: string, digits: string, gap: string, right: string)
    ensures Limit(left, sign, digits, gap, "", right) == left + (sign + digits) + (gap + right)
  {
  }

  lemma PlainNumber(value: string, core: string)
    requires Strip(value) == core && core != "" && IsDigit(core[|core| - 1])
    ensures MemoryBytes(value) == ParseInt(core)
  {
  }

  lemma PlainText(left: string, sign: string, digits: string, gap: string, right: string)
    requires AllSpace(left) && IsSign(sign) && IsNumeral(digits) && AllSpace(gap) && AllSpace(right)
    ensures MemoryBytes(Limit(left, sign, digits, gap, "", right)) == Some(Signed(sign, digits))
  {
    SignedDigits(sign, digits);
    UnitlessLimit(left, sign, digits, gap, right);
    StripAround(left, sign + digits, gap + right);
    PlainNumber(Limit(left, sign, digits, gap, "", right), sign + digits);
  }

  /** An integer with a unit, or without, is read as that many bytes: b stands for one, k for 1024,
      m for 1048576, g for 1073741824, in either case, with white space before the unit and around the whole. */
  lemma MemoryBytesOfUnit(left: string, sign: string, digits: string, gap: string, unit: string, right: string)
    requires AllSpace(left) && IsSign(sign) && IsNumeral(digits) && AllSpace(gap) && AllSpace(right)
    ensures var n, bytes := Signed(sign, digits), MemoryBytes(Limit(left, sign, digits, gap, unit, right));
            && (unit in {"", "b", "B"} ==> bytes == Some(n))
            && (unit in {"k", "K"} ==> bytes == Some(n * 1024))
            && (unit in {"m", "M"} ==> bytes == Some(n * 1048576))
            && (unit in {"g", "G"} ==> bytes == Some(n * 1073741824))
  {
    if unit == "" {
      PlainText(left, sign, digits, gap, right);
    } else if |unit| == 1 && !IsSpace(unit[0]) {
      assert unit == [unit[0]];
      UnitText(left, sign, digits, gap, unit[0], right);
    }
  }

  /** Everything else raises. */
  lemma OnlyUnitsAreRead(value: string)
    returns (left: string, sign: string, digits: string, gap: string, unit: string, right: string)
    requires MemoryBytes(value).Some?
    ensures AllSpace(left) && IsSign(sign) && IsNumeral(digits) && AllSpace(gap) && AllSpace(right)
    ensures unit in {"", "b", "B", "k", "K", "m", "M", "g", "G"}
    ensures value == Limit(left, sign, digits, gap, unit, right)
  {
    var outer: string;
    outer, right := StripParts(value);
    var text := Strip(value);
    var inner: string;
    if text != "" && SuffixFactor(text[|text| - 1]) > 0 {
      inner, sign, digits, gap := ReadIsInteger(text[..|text| - 1]);
      unit := [text[|text| - 1]];
      assert text == text[..|text| - 1] + unit;
    } else {
      inner, sign, digits, gap := ReadIsInteger(text);
      unit := "";
    }
    left := outer + inner;
    LimitParts(outer, inner, sign, digits, gap, unit, right);
  }

  lemma LimitParts(outer: string, inner: string, sign: string, digits: string, gap: string, unit: string, right: string)
    ensures outer + (inner + (sign + digits) + gap + unit) + right ==
            Limit(outer + inner, sign, digits, gap, unit, right)
  {
    assert inner + (sign + digits) + gap + unit == inner + (sign + digits + gap + unit);
    assert outer + (inner + (sign + digits + gap + unit)) == outer + inner + (sign + digits + gap + unit);
  }

  // ---------- Numbers written by the program ----------

  lemma IntStringParts(n: int) returns (sign: string, digits: string)
    ensures IsSign(sign) && IsNumeral(digits) && Signed(sign, digits) == n && IntString(n) == sign + digits
  {
    if n < 0 {
      DecimalNumber(-n);
      sign, digits := "-", Decimal(-n);
    } else {
      DecimalNumber(n);
      sign, digits := "", Decimal(n);
    }
  }

  /** A number written out, with a unit or without one, is read back as so many bytes. */
  lemma MemoryBytesOfIntString(n: int)
    ensures MemoryBytes(IntString(n)) == Some(n)
    ensures MemoryBytes(IntString(n) + "b") == Some(n)
    ensures MemoryBytes(IntString(n) + "k") == Some(n * 1024)
    ensures MemoryBytes(IntString(n) + "m") == Some(n * 1048576)
    ensures MemoryBytes(IntString(n) + "g") == Some(n * 1073741824)
  {
    var sign, digits := IntStringParts(n);
    NoMargins(sign, digits, "");
    NoMargins(sign, digits, "b");
    NoMargins(sign, digits, "k");
    NoMargins(sign, digits, "m");
    NoMargins(sign, digits, "g");
    MemoryBytesOfUnit("", sign, digits, "", "", "");
    MemoryBytesOfUnit("", sign, digits, "", "b", "");
    MemoryBytesOfUnit("", sign, digits, "", "k", "");
    MemoryBytesOfUnit("", sign, digits, "", "m", "");
    MemoryBytesOfUnit("", sign, digits, "", "g", "");
  }

  lemma NoMargins(sign: string, digits: string, unit: string)
    ensures Limit("", sign, digits, "", unit, "") == sign + digits + unit
    ensures unit == "" ==> Limit("", sign, digits, "", unit, "") == sign + digits
  {
  }
}
