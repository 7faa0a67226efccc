/** The order of components in the terms of section 5.6.12 of the Debian Policy Manual: what the
    comparison says where two components first differ. */
module VersionRanking {
  import opened Sequences
  import opened Text
  import opened VersionComponent
  import opened Wrappers

  /** The tilde, then the letters, then all other characters. */
  function RankClass(c: char): nat {
    if c == '~' then 0 else if 'A' <= c <= 'Z' || 'a' <= c <= 'z' then 1 else 2
  }

  /** How characters other than digits are ranked: by class, and by code point within a class. */
  predicate RanksBelow(c: char, d: char) {
    RankClass(c) < RankClass(d) || (RankClass(c) == RankClass(d) && c < d)
  }

  predicate IsNonDigit(c: char) {
    c < '0' || '9' < c
  }

  lemma {:induction false} FirstDifference(p: seq<int>, u: int, x: seq<int>, v: int, y: seq<int>)
    requires u != v
    ensures PaddedCompare(p + ([u] + x), p + ([v] + y)) == if u < v then -1 else 1
  {
    var a, b := p + ([u] + x), p + ([v] + y);
    PaddedStep(a, b);
    if p != [] {
      TailOfConcat(p, [u] + x);
      TailOfConcat(p, [v] + y);
      FirstDifference(p[1..], u, x, v, y);
    }
  }

  lemma TailOfConcat(p: seq<int>, x: seq<int>)
    requires p != []
    ensures Tail(p + x) == p[1..] + x && At(p + x, 0) == p[0]
  {
  }

  lemma CodeAt(x: string, c: char, y: string)
    requires IsNonDigit(c)
    ensures Code(x + ([c] + y)) == Code(x) + ([Order(Some(c))] + Code(y))
  {
    CodeConcat(x, [c] + y);
    CodeOfNonDigit(c, y);
  }

  /** Where two components first differ in characters that are no digits, the ranking of these decides,
      whatever stands before and behind. */
  lemma CharactersRank(x: string, c: char, y: string, d: char, z: string)
    requires IsNonDigit(c) && IsNonDigit(d) && c != d
    ensures PaddedCompare(Code(x + ([c] + y)), Code(x + ([d] + z))) == if RanksBelow(c, d) then -1 else 1
  {
    CodeAt(x, c, y);
    CodeAt(x, d, z);
    FirstDifference(Code(x), Order(Some(c)), Code(y), Order(Some(d)), Code(z));
  }

  lemma CodeAtRun(x: string, d: string, y: string)
    requires !EndsInDigit(x) && IsNumeral(d)
    requires y == "" || IsNonDigit(y[0])
    ensures Code(x + (d + y)) == Code(x) + ([0] + ([Number(d)] + Code(y)))
  {
    CodeConcat(x, d + y);
    CodeOfRun(d, y);
    Split(Number(d), Code(y));
  }

  lemma Split(n: int, y: seq<int>)
    ensures [0, n] + y == [0] + ([n] + y)
  {
  }

  /** Against a number the tilde ranks below and every other character above. */
  lemma CharacterAgainstNumber(x: string, c: char, y: string, d: string, z: string)
    requires IsNonDigit(c)
    requires !EndsInDigit(x) && IsNumeral(d) && (z == "" || IsNonDigit(z[0]))
    ensures PaddedCompare(Code(x + ([c] + y)), Code(x + (d + z))) == if c == '~' then -1 else 1
  {
    CodeAt(x, c, y);
    CodeAtRun(x, d, z);
    FirstDifference(Code(x), Order(Some(c)), Code(y), 0, [Number(d)] + Code(z));
  }

  /** Against the end of the component it is the same. */
  lemma CharacterAgainstEnd(x: string, c: char, y: string)
    requires IsNonDigit(c)
    ensures PaddedCompare(Code(x + ([c] + y)), Code(x)) == if c == '~' then -1 else 1
  {
    Associate(x, [c], y);
    TildeSortsBelowEverything(x, c, y);
  }

  /** Where they first differ in whole numbers, the values of these decide. */
  lemma NumbersRank(x: string, d: string, y: string, e: string, z: string)
    requires !EndsInDigit(x) && IsNumeral(d) && IsNumeral(e) && Number(d) != Number(e)
    requires (y == "" || IsNonDigit(y[0])) && (z == "" || IsNonDigit(z[0]))
    ensures PaddedCompare(Code(x + (d + y)), Code(x + (e + z))) == if Number(d) < Number(e) then -1 else 1
  {
    CodeAtRun(x, d, y);
    CodeAtRun(x, e, z);
    Associate(Code(x), [0], [Number(d)] + Code(y));
    Associate(Code(x), [0], [Number(e)] + Code(z));
    FirstDifference(Code(x) + [0], Number(d), Code(y), Number(e), Code(z));
  }

  /** A missing number counts as zero. */
  lemma NumberAgainstEnd(x: string, e: string, z: string)
    requires !EndsInDigit(x) && IsNumeral(e) && Number(e) != 0
    requires z == "" || IsNonDigit(z[0])
    ensures PaddedCompare(Code(x), Code(x + (e + z))) == -1
  {
    CodeAtRun(x, e, z);
    PaddedExtension(Code(x), Number(e), Code(z));
  }

  lemma {:induction false} PaddedExtension(p: seq<int>, v: int, y: seq<int>)
    requires v > 0
    ensures PaddedCompare(p, p + ([0] + ([v] + y))) == -1
  {
    if p == [] {
      ZeroThen(v, y);
    } else {
      var b := p + ([0] + ([v] + y));
      assert Tail(b) == p[1..] + ([0] + ([v] + y)) && b[0] == p[0];
      PaddedExtension(p[1..], v, y);
      PaddedStep(p, b);
    }
  }

  lemma ZeroThen(v: int, y: seq<int>)
    requires v > 0
    ensures PaddedCompare([], [] + ([0] + ([v] + y))) == -1
  {
    var b := [0] + ([v] + y);
    assert [] + b == b && Tail(b) == [v] + y;
    PaddedStep([], b);
    PaddedStep([], Tail(b));
  }
}
