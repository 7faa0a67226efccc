/** Comparison of one version component (an upstream version or a Debian
    revision): section 5.6.12 of the Debian Policy Manual. */
module VersionComponent {
  import opened Sequences
  import opened Text
  import opened Wrappers

  /** The sort weight of a character; `None` stands for the end of the string. */
  function Order(c: Option<char>): int {
    match c
    case None => 0
    case Some(ch) =>
      if IsDigit(ch) then 0
      else if IsAlpha(ch) then ch as int
      else if ch == '~' then -1
      else ch as int + 256
  }

  /** The length of the digit run that starts `s`. */
  function DigitRun(s: string): (n: nat)
    ensures n <= |s|
    ensures forall k | 0 <= k < n :: IsDigit(s[k])
    ensures n < |s| ==> !IsDigit(s[n])
  {
    if s != "" && IsDigit(s[0]) then 1 + DigitRun(s[1..]) else 0
  }

  /** A version component as a sequence of integers: the weights of its
      non-digits in order, and for every digit run a zero and the run's value. */
  function Code(s: string): seq<int>
    decreases |s|
  {
    if s == "" then []
    else if IsDigit(s[0]) then
      var n := DigitRun(s);
      [0, Number(s[..n])] + Code(s[n..])
    else [Order(Some(s[0]))] + Code(s[1..])
  }

  /** Lexicographic comparison of two integer sequences, each continued by zeros for ever. */
  function PaddedCompare(x: seq<int>, y: seq<int>): int
    decreases |x| + |y|
  {
    if x == [] && y == [] then 0
    else
      var p, q := At(x, 0), At(y, 0);
      if p < q then -1
      else if p > q then 1
      else PaddedCompare(Tail(x), Tail(y))
  }

  function At(x: seq<int>, k: nat): int {
    if k < |x| then x[k] else 0
  }

  function Tail(x: seq<int>): seq<int> {
    if x == [] then [] else x[1..]
  }

  /** The comparison of what is left of both components from `i` and `j` on. */
  function Rest(a: string, i: nat, b: string, j: nat): int
    requires i <= |a| && j <= |b|
  {
    PaddedCompare(Code(a[i..]), Code(b[j..]))
  }

  function CharAt(s: string, i: nat): Option<char> {
    if i < |s| then Some(s[i]) else None
  }

  predicate DigitsBetween(s: string, i: nat, k: nat)
    requires i <= k <= |s|
  {
    forall m | i <= m < k :: IsDigit(s[m])
  }

  /** The loop that advances an index over a digit run. */
  method EndOfDigits(s: string, i: nat) returns (k: nat)
    requires i <= |s|
    ensures i <= k <= |s| && DigitsBetween(s, i, k)
    ensures k < |s| ==> !IsDigit(s[k])
  {
    k := i;
    while k < |s| && IsDigit(s[k])
      invariant i <= k <= |s| && DigitsBetween(s, i, k)
    {
      k := k + 1;
    }
  }

  /** The two-index loop over both components. */
  method VerRevCmp(a: string, b: string) returns (r: int)
    ensures r == PaddedCompare(Code(a), Code(b))
  {
    var i, j := 0, 0;
    ghost var whole := Rest(a, 0, b, 0);
    assert a[0..] == a && b[0..] == b;
    while i < |a| || j < |b|
      invariant 0 <= i <= |a| && 0 <= j <= |b|
      invariant whole == Rest(a, i, b, j)
      decreases |a| - i + |b| - j
    {
      ghost var i0, j0 := i, j;
      while (i < |a| && !IsDigit(a[i])) || (j < |b| && !IsDigit(b[j]))
        invariant i0 <= i <= |a| && j0 <= j <= |b|
        invariant (i == i0 && j == j0) || i + j > i0 + j0
        invariant whole == Rest(a, i, b, j)
        decreases |a| - i + |b| - j
      {
        var ac, bc := CharAt(a, i), CharAt(b, j);
        var oa, ob := Order(ac), Order(bc);
        NonDigitStep(a, i, b, j, whole);
        if oa != ob {
          return if oa < ob then -1 else 1;
        }
        if i < |a| {
          i := i + 1;
        }
        if j < |b| {
          j := j + 1;
        }
      }
      var startI, startJ := i, j;
      i := EndOfDigits(a, startI);
      j := EndOfDigits(b, startJ);
      var na, nb := Number(a[startI..i]), Number(b[startJ..j]);
      DigitStep(a, startI, i, b, startJ, j, whole);
      if na != nb {
        return if na < nb then -1 else 1;
      }
    }
    return 0;
  }

  lemma NonDigitStep(a: string, i: nat, b: string, j: nat, whole: int)
    requires i <= |a| && j <= |b| && whole == Rest(a, i, b, j)
    requires (i < |a| && !IsDigit(a[i])) || (j < |b| && !IsDigit(b[j]))
    ensures var oa, ob := Order(CharAt(a, i)), Order(CharAt(b, j));
            if oa < ob then whole == -1
            else if oa > ob then whole == 1
            else i < |a| && j < |b| && whole == Rest(a, i + 1, b, j + 1)
  {
    CodeHead(a, i);
    CodeHead(b, j);
  }

  lemma DigitStep(a: string, i: nat, i': nat, b: string, j: nat, j': nat, whole: int)
    requires i <= i' <= |a| && j <= j' <= |b| && whole == Rest(a, i, b, j)
    requires DigitsBetween(a, i, i') && DigitsBetween(b, j, j')
    requires i' < |a| ==> i < i' && !IsDigit(a[i'])
    requires j' < |b| ==> j < j' && !IsDigit(b[j'])
    ensures var na, nb := Number(a[i..i']), Number(b[j..j']);
            whole == if na < nb then -1 else if na > nb then 1 else Rest(a, i', b, j')
  {
    CodeDigits(a, i, i');
    CodeDigits(b, j, j');
    PaddedPair(Code(a[i..]), Number(a[i..i']), Code(a[i'..]), Code(b[j..]), Number(b[j..j']), Code(b[j'..]));
  }

  /** The first code of a suffix that does not start with a digit. */
  lemma CodeHead(s: string, i: nat)
    requires i <= |s|
    ensures At(Code(s[i..]), 0) == Order(CharAt(s, i))
    ensures i < |s| && !IsDigit(s[i]) ==> Tail(Code(s[i..])) == Code(s[i + 1..])
    ensures i == |s| ==> Code(s[i..]) == []
  {
    if i < |s| {
      assert s[i..][1..] == s[i + 1..];
    }
  }

  /** A suffix that starts with the digit run s[i..k], possibly empty at the end of `s`. */
  lemma CodeDigits(s: string, i: nat, k: nat)
    requires i <= k <= |s|
    requires DigitsBetween(s, i, k)
    requires k < |s| ==> !IsDigit(s[k])
    requires i < |s| ==> IsDigit(s[i])
    ensures if i < |s| then Code(s[i..]) == [0, Number(s[i..k])] + Code(s[k..])
            else Code(s[i..]) == [] && Number(s[i..k]) == 0 && Code(s[k..]) == []
  {
    if i < |s| {
      var t := s[i..];
      RunIs(t, k - i);
      assert t[..k - i] == s[i..k] && t[k - i..] == s[k..];
    }
  }

  lemma {:induction false} RunIs(s: string, n: nat)
    requires n <= |s|
    requires forall k | 0 <= k < n :: IsDigit(s[k])
    requires n < |s| ==> !IsDigit(s[n])
    ensures DigitRun(s) == n
  {
    if n > 0 {
      RunIs(s[1..], n - 1);
    }
  }

  lemma PaddedStep(x: seq<int>, y: seq<int>)
    ensures PaddedCompare(x, y) ==
            if At(x, 0) < At(y, 0) then -1 else if At(x, 0) > At(y, 0) then 1 else PaddedCompare(Tail(x), Tail(y))
  {
  }

  lemma PaddedPair(x: seq<int>, na: nat, x': seq<int>, y: seq<int>, nb: nat, y': seq<int>)
    requires x == [0, na] + x' || (x == [] == x' && na == 0)
    requires y == [0, nb] + y' || (y == [] == y' && nb == 0)
    ensures PaddedCompare(x, y) == if na < nb then -1 else if na > nb then 1 else PaddedCompare(x', y')
  {
    assert At(x, 0) == 0 && At(Tail(x), 0) == na && Tail(Tail(x)) == x';
    assert At(y, 0) == 0 && At(Tail(y), 0) == nb && Tail(Tail(y)) == y';
    PaddedStep(x, y);
    PaddedStep(Tail(x), Tail(y));
  }

  // ---------- The order of components ----------

  /** `k` is the first place where the padded sequences differ, and `x` is smaller there. */
  ghost predicate BelowAt(x: seq<int>, y: seq<int>, k: nat) {
    At(x, k) < At(y, k) && forall m: nat | m < k :: At(x, m) == At(y, m)
  }

  /** PaddedCompare decides the padded lexicographic order, stated position by position. */
  lemma {:induction false} PaddedCompareMeaning(x: seq<int>, y: seq<int>)
    ensures PaddedCompare(x, y) in {-1, 0, 1}
    ensures PaddedCompare(x, y) == 0 <==> forall k: nat :: At(x, k) == At(y, k)
    ensures PaddedCompare(x, y) == -1 <==> exists k: nat :: BelowAt(x, y, k)
    ensures PaddedCompare(x, y) == 1 <==> exists k: nat :: BelowAt(y, x, k)
    decreases |x| + |y|
  {
    if x != [] || y != [] {
      PaddedCompareMeaning(Tail(x), Tail(y));
      TailAt(x);
      TailAt(y);
      if At(x, 0) == At(y, 0) {
        BelowAtTail(x, y);
        BelowAtTail(y, x);
        if forall k: nat :: At(Tail(x), k) == At(Tail(y), k) {
          forall k: nat ensures At(x, k) == At(y, k) {
            if k > 0 {
              assert At(Tail(x), k - 1) == At(Tail(y), k - 1);
            }
          }
        }
      } else {
        assert BelowAt(x, y, 0) || BelowAt(y, x, 0);
      }
    }
  }

  lemma TailAt(x: seq<int>)
    ensures forall k: nat :: At(Tail(x), k) == At(x, k + 1)
  {
  }

  lemma BelowAtTail(x: seq<int>, y: seq<int>)
    requires At(x, 0) == At(y, 0)
    ensures (exists k: nat :: BelowAt(x, y, k)) <==> (exists k: nat :: BelowAt(Tail(x), Tail(y), k))
  {
    TailAt(x);
    TailAt(y);
    if k: nat :| BelowAt(x, y, k) {
      assert BelowAt(Tail(x), Tail(y), k - 1);
    }
    if k: nat :| BelowAt(Tail(x), Tail(y), k) {
      forall m: nat | m < k + 1 ensures At(x, m) == At(y, m) {
        if m > 0 {
          assert At(Tail(x), m - 1) == At(Tail(y), m - 1);
        }
      }
      assert BelowAt(x, y, k + 1);
    }
  }

  lemma {:induction false} PaddedAntisymmetric(x: seq<int>, y: seq<int>)
    ensures PaddedCompare(y, x) == -PaddedCompare(x, y)
    decreases |x| + |y|
  {
    if x != [] || y != [] {
      PaddedAntisymmetric(Tail(x), Tail(y));
    }
  }

  lemma {:induction false} PaddedTransitive(x: seq<int>, y: seq<int>, z: seq<int>)
    requires PaddedCompare(x, y) <= 0 && PaddedCompare(y, z) <= 0
    ensures PaddedCompare(x, z) <= 0
    ensures PaddedCompare(x, z) == 0 ==> PaddedCompare(x, y) == 0 && PaddedCompare(y, z) == 0
    decreases |x| + |y| + |z|
  {
    if (x != [] || y != [] || z != []) && At(x, 0) == At(y, 0) == At(z, 0) {
      assert PaddedCompare(x, y) == PaddedCompare(Tail(x), Tail(y));
      assert PaddedCompare(y, z) == PaddedCompare(Tail(y), Tail(z));
      assert PaddedCompare(x, z) == PaddedCompare(Tail(x), Tail(z));
      PaddedTransitive(Tail(x), Tail(y), Tail(z));
    }
  }

  lemma CodeOfRun(d: string, t: string)
    requires d != "" && Digits(d)
    requires t == "" || !IsDigit(t[0])
    ensures Code(d + t) == [0, Number(d)] + Code(t)
  {
    assert (d + t)[..|d|] == d && (d + t)[|d|..] == t;
    RunIs(d + t, |d|);
  }

  lemma CodeOfNonDigit(c: char, t: string)
    requires !IsDigit(c)
    ensures Code([c] + t) == [Order(Some(c))] + Code(t)
  {
    assert ([c] + t)[1..] == t;
  }

  predicate EndsInDigit(x: string) {
    x != "" && IsDigit(x[|x| - 1])
  }

  /** The code of a concatenation, when the cut does not split a digit run. */
  lemma {:induction false} CodeConcat(x: string, y: string)
    requires !EndsInDigit(x) || y == "" || !IsDigit(y[0])
    ensures Code(x + y) == Code(x) + Code(y)
    decreases |x|
  {
    if x == "" {
      assert x + y == y;
    } else if IsDigit(x[0]) {
      var n := DigitRun(x);
      assert n < |x| ==> x[n..][|x[n..]| - 1] == x[|x| - 1];
      CodeConcat(x[n..], y);
      RunThenConcat(x[..n], x[n..], y);
      assert x == x[..n] + x[n..];
    } else {
      CodeConcat(x[1..], y);
      NonDigitThenConcat(x[0], x[1..], y);
      assert x == [x[0]] + x[1..];
    }
  }

  lemma RunThenConcat(d: string, t: string, y: string)
    requires d != "" && Digits(d)
    requires t == "" || !IsDigit(t[0])
    requires t != "" || y == "" || !IsDigit(y[0])
    requires Code(t + y) == Code(t) + Code(y)
    ensures Code(d + t + y) == Code(d + t) + Code(y)
  {
    CodeOfRun(d, t);
    CodeOfRun(d, t + y);
    Associate(d, t, y);
    Associate([0, Number(d)], Code(t), Code(y));
  }

  lemma NonDigitThenConcat(c: char, t: string, y: string)
    requires !IsDigit(c)
    requires Code(t + y) == Code(t) + Code(y)
    ensures Code([c] + t + y) == Code([c] + t) + Code(y)
  {
    CodeOfNonDigit(c, t);
    CodeOfNonDigit(c, t + y);
    Associate([c], t, y);
    Associate([Order(Some(c))], Code(t), Code(y));
  }

  lemma {:induction false} ExtensionSign(x: seq<int>, w: int, y: seq<int>)
    requires w != 0
    ensures PaddedCompare(x + [w] + y, x) == if w < 0 then -1 else 1
  {
    if x != [] {
      assert Tail(x + [w] + y) == Tail(x) + [w] + y;
      ExtensionSign(Tail(x), w, y);
    }
  }

  /** A component continued by a tilde is older than the component itself,
      and continued by any other non-digit it is newer. */
  lemma TildeSortsBelowEverything(x: string, c: char, y: string)
    requires !IsDigit(c)
    ensures PaddedCompare(Code(x + [c] + y), Code(x)) == if c == '~' then -1 else 1
  {
    assert x + [c] + y == x + ([c] + y) && ([c] + y)[1..] == y;
    CodeConcat(x, [c] + y);
    assert Code(x + [c] + y) == Code(x) + [Order(Some(c))] + Code(y);
    ExtensionSign(Code(x), Order(Some(c)), Code(y));
  }

  // ---------- Which components are equal ----------

  function StripZeros(d: string): string {
    if d != "" && d[0] == '0' then StripZeros(d[1..]) else d
  }

  /** A component with the leading zeros of every digit run removed, a zero run
      written "0", and a zero run at the very end dropped. */
  function Canonical(s: string): string
    decreases |s|
  {
    if s == "" then ""
    else if IsDigit(s[0]) then
      var n := DigitRun(s);
      var run := StripZeros(s[..n]);
      if n == |s| then run else (if run == "" then "0" else run) + Canonical(s[n..])
    else [s[0]] + Canonical(s[1..])
  }

  /** Two components compare equal exactly when they differ only in leading
      zeros of digit runs and in a missing final run against a zero one. */
  lemma EqualExactlyUpToZeros(a: string, b: string)
    ensures PaddedCompare(Code(a), Code(b)) == 0 <==> Canonical(a) == Canonical(b)
  {
    if PaddedCompare(Code(a), Code(b)) == 0 {
      SameCodeSameCanonical(a, b);
    }
    if Canonical(a) == Canonical(b) {
      CanonicalSameCode(a);
      CanonicalSameCode(b);
      var c := Code(Canonical(a));
      PaddedAntisymmetric(Code(b), c);
      PaddedTransitive(Code(a), c, Code(b));
      PaddedAntisymmetric(Code(a), c);
      PaddedTransitive(Code(b), c, Code(a));
      PaddedAntisymmetric(Code(a), Code(b));
    }
  }

  lemma {:induction false} StripZerosSnoc(d: string)
    requires d != ""
    ensures var last := d[|d| - 1]; var front := StripZeros(d[..|d| - 1]);
            StripZeros(d) == if front == "" && last == '0' then "" else front + [last]
  {
    if |d| > 1 && d[0] == '0' {
      assert d[1..][..|d[1..]| - 1] == d[..|d| - 1][1..];
      StripZerosSnoc(d[1..]);
    }
  }

  lemma {:induction false} NumberDeterminesRun(d: string, e: string)
    requires Digits(d) && Digits(e) && Number(d) == Number(e)
    ensures StripZeros(d) == StripZeros(e)
    decreases |d| + |e|
  {
    if d != "" {
      StripZerosSnoc(d);
      LastDigit(d);
    }
    if e != "" {
      StripZerosSnoc(e);
      LastDigit(e);
    }
    if d != "" && e != "" {
      NumberDeterminesRun(d[..|d| - 1], e[..|e| - 1]);
    } else if d != "" {
      NumberDeterminesRun(d[..|d| - 1], e);
    } else if e != "" {
      NumberDeterminesRun(d, e[..|e| - 1]);
    }
  }

  lemma LastDigit(d: string)
    requires d != "" && Digits(d)
    ensures var front, last := d[..|d| - 1], d[|d| - 1];
            && Digits(front) && IsDigit(last)
            && Number(d) / 10 == Number(front) && Number(d) % 10 == last as int - '0' as int
  {
  }

  lemma {:induction false} StripZerosNumber(d: string)
    requires Digits(d)
    ensures Number(StripZeros(d)) == Number(d) && Digits(StripZeros(d))
  {
    if d != "" {
      var front, last := d[..|d| - 1], d[|d| - 1];
      StripZerosNumber(front);
      StripZerosSnoc(d);
      assert (StripZeros(front) + [last])[..|StripZeros(front)|] == StripZeros(front);
    }
  }

  lemma {:induction false} SameCodeSameCanonical(a: string, b: string)
    requires PaddedCompare(Code(a), Code(b)) == 0
    ensures Canonical(a) == Canonical(b)
    decreases |a| + |b|
  {
    assert a[0..] == a && b[0..] == b;
    if (a != "" && !IsDigit(a[0])) || (b != "" && !IsDigit(b[0])) {
      NonDigitStep(a, 0, b, 0, Rest(a, 0, b, 0));
      assert a[0] == b[0] by {
        assert Order(Some(a[0])) == Order(Some(b[0])) != 0;
      }
      SameCodeSameCanonical(a[1..], b[1..]);
    } else if a != "" || b != "" {
      var n, m := DigitRun(a), DigitRun(b);
      DigitStep(a, 0, n, b, 0, m, Rest(a, 0, b, 0));
      SameCodeSameCanonical(a[n..], b[m..]);
      SameEnd(a[n..], b[m..]);
      NumberDeterminesRun(a[..n], b[..m]);
      CanonicalOfRun(a, n);
      CanonicalOfRun(b, m);
    }
  }

  lemma CanonicalOfRun(s: string, n: nat)
    requires n == DigitRun(s) && (s != "" ==> n > 0)
    ensures var run := StripZeros(s[..n]);
            Canonical(s) == if n == |s| then run else (if run == "" then "0" else run) + Canonical(s[n..])
  {
  }

  /** Components that start with no digit and have equal codes are both empty or both not. */
  lemma SameEnd(s: string, t: string)
    requires s == "" || !IsDigit(s[0])
    requires t == "" || !IsDigit(t[0])
    requires PaddedCompare(Code(s), Code(t)) == 0
    ensures s == "" <==> t == ""
  {
    assert s[0..] == s && t[0..] == t;
    CodeHead(s, 0);
    CodeHead(t, 0);
    PaddedStep(Code(s), Code(t));
  }

  lemma {:induction false} CanonicalSameCode(s: string)
    ensures PaddedCompare(Code(s), Code(Canonical(s))) == 0
    decreases |s|
  {
    if s == "" {
    } else if IsDigit(s[0]) {
      var n := DigitRun(s);
      CanonicalSameCode(s[n..]);
      CanonicalOfRun(s, n);
      CanonicalHead(s[n..]);
      assert s == s[..n] + s[n..];
      assert n == |s| ==> StripZeros(s[..n]) + "" == StripZeros(s[..n]);
      CanonicalSameRun(s[..n], s[n..], Canonical(s[n..]));
    } else {
      var c, t := s[0], s[1..];
      CanonicalSameCode(t);
      assert s == [c] + t;
      CodeOfNonDigit(c, t);
      CodeOfNonDigit(c, Canonical(t));
      PaddedStep(Code([c] + t), Code([c] + Canonical(t)));
    }
  }

  lemma CanonicalSameRun(d: string, rest: string, canonicalRest: string)
    requires d != "" && Digits(d)
    requires rest == "" <==> canonicalRest == ""
    requires rest != "" ==> !IsDigit(rest[0]) && !IsDigit(canonicalRest[0])
    requires PaddedCompare(Code(rest), Code(canonicalRest)) == 0
    ensures var run := StripZeros(d);
            var written := if rest != "" && run == "" then "0" else run;
            PaddedCompare(Code(d + rest), Code(written + canonicalRest)) == 0
  {
    StripZerosNumber(d);
    assert Number("0") == 0;
    var written := if rest != "" && StripZeros(d) == "" then "0" else StripZeros(d);
    SameRun(d, rest, written, canonicalRest);
  }

  lemma CanonicalHead(s: string)
    requires s == "" || !IsDigit(s[0])
    ensures if s == "" then Canonical(s) == "" else Canonical(s) != "" && Canonical(s)[0] == s[0]
  {
  }

  /** Runs of equal value followed by equal codes give equal codes. */
  lemma SameRun(d: string, s: string, e: string, t: string)
    requires Digits(d) && Digits(e) && Number(d) == Number(e)
    requires s != "" ==> d != "" && !IsDigit(s[0])
    requires t != "" ==> e != "" && !IsDigit(t[0])
    requires PaddedCompare(Code(s), Code(t)) == 0
    ensures PaddedCompare(Code(d + s), Code(e + t)) == 0
  {
    assert d == "" ==> d + s == "";
    assert e == "" ==> e + t == "";
    if d != "" {
      CodeOfRun(d, s);
    }
    if e != "" {
      CodeOfRun(e, t);
    }
    PaddedPair(Code(d + s), Number(d), Code(s), Code(e + t), Number(e), Code(t));
  }
}
