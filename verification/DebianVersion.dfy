/** Whole Debian version strings: splitting into epoch, upstream version and
    revision, and the order that section 5.6.12 of the Debian Policy Manual defines. */
module DebianVersion {
  import opened Text
  import opened VersionComponent
  import opened Wrappers

  datatype VersionError = EmptyVersion | NonNumericEpoch | EmptyUpstream | UpstreamNotDigit

  datatype Version = Version(epoch: nat, upstream: string, revision: string)

  /** The part before the first colon, read as a number, and the part behind it. */
  function SplitEpoch(text: string): Result<(nat, string), VersionError> {
    var colon := IndexOf(text, ':');
    if colon == |text| then Ok((0, text))
    else if !IsNumeral(text[..colon]) then Err(NonNumericEpoch)
    else Ok((Number(text[..colon]), text[colon + 1..]))
  }

  /** The parts before and behind the last hyphen; without one the revision is "0". */
  function SplitRevision(rest: string): (string, string) {
    var hyphen := LastIndexOf(rest, '-');
    (rest[..hyphen], if hyphen < |rest| then rest[hyphen + 1..] else "0")
  }

  type Parsed = Result<Version, VersionError>

  function SplitVersion(version: string): Parsed {
    var text := Strip(version);
    if text == "" then Err(EmptyVersion)
    else
      var e := SplitEpoch(text);
      if e.Err? then Err(e.error)
      else if e.value.1 == "" then Err(EmptyUpstream)
      else
        var (upstream, revision) := SplitRevision(e.value.1);
        if upstream == "" || !IsDigit(upstream[0]) then Err(UpstreamNotDigit)
        else Ok(Version(e.value.0, upstream, revision))
  }

  function RenderRevision(upstream: string, revision: Option<string>): string {
    if revision.Some? then upstream + ("-" + revision.value) else upstream
  }

  /** A version string written out from its parts. */
  function Render(epoch: Option<string>, upstream: string, revision: Option<string>): string {
    if epoch.Some? then epoch.value + (":" + RenderRevision(upstream, revision)) else RenderRevision(upstream, revision)
  }

  /** The parts can be told apart again: the colon and the hyphen that separate them are unambiguous. */
  predicate Separable(epoch: Option<string>, upstream: string, revision: Option<string>) {
    && upstream != "" && IsDigit(upstream[0])
    && (if epoch.Some? then IsNumeral(epoch.value) else ':' !in RenderRevision(upstream, revision))
    && (if revision.Some? then '-' !in revision.value else '-' !in upstream)
  }

  function Parts(epoch: Option<string>, upstream: string, revision: Option<string>): Version {
    Version(if epoch.Some? then Number(epoch.value) else 0,
            upstream,
            if revision.Some? then revision.value else "0")
  }

  lemma {:induction false} FirstIndex(s: string, c: char, t: string)
    requires c !in s
    ensures IndexOf(s + ([c] + t), c) == |s|
    ensures (s + ([c] + t))[..|s|] == s && (s + ([c] + t))[|s| + 1..] == t
  {
    if s != "" {
      assert (s + ([c] + t))[1..] == s[1..] + ([c] + t);
      FirstIndex(s[1..], c, t);
    }
  }

  lemma {:induction false} LastIndex(s: string, c: char, t: string)
    requires c !in t
    ensures LastIndexOf(s + ([c] + t), c) == |s|
    ensures (s + ([c] + t))[..|s|] == s && (s + ([c] + t))[|s| + 1..] == t
  {
    var w := s + ([c] + t);
    assert w[|s|] == c;
    if t != "" {
      var front, last := t[..|t| - 1], t[|t| - 1];
      assert w[..|w| - 1] == s + ([c] + front) && w[|w| - 1] == last;
      assert last in t;
      LastIndex(s, c, front);
    }
  }

  lemma SplitRenderedRevision(upstream: string, revision: Option<string>)
    requires if revision.Some? then '-' !in revision.value else '-' !in upstream
    ensures SplitRevision(RenderRevision(upstream, revision)) ==
            (upstream, if revision.Some? then revision.value else "0")
  {
    if revision.Some? {
      LastIndex(upstream, '-', revision.value);
    } else {
      assert upstream[..|upstream|] == upstream;
    }
  }

  lemma SplitRenderedEpoch(epoch: Option<string>, upstream: string, revision: Option<string>)
    requires if epoch.Some? then IsNumeral(epoch.value) else ':' !in RenderRevision(upstream, revision)
    ensures SplitEpoch(Render(epoch, upstream, revision)) ==
            Ok((if epoch.Some? then Number(epoch.value) else 0, RenderRevision(upstream, revision)))
  {
    if epoch.Some? {
      assert ':' !in epoch.value;
      FirstIndex(epoch.value, ':', RenderRevision(upstream, revision));
    }
  }

  /** Splitting undoes rendering, whatever white space surrounds the version. */
  lemma SplitRendered(left: string, epoch: Option<string>, upstream: string, revision: Option<string>, right: string)
    requires AllSpace(left) && AllSpace(right)
    requires Separable(epoch, upstream, revision)
    requires Trimmed(Render(epoch, upstream, revision))
    ensures SplitVersion(left + Render(epoch, upstream, revision) + right) == Ok(Parts(epoch, upstream, revision))
  {
    StripAround(left, Render(epoch, upstream, revision), right);
    SplitRenderedEpoch(epoch, upstream, revision);
    SplitRenderedRevision(upstream, revision);
  }

  /** Only rendered versions are accepted: with SplitRendered, splitting
      succeeds exactly on them, and returns exactly their parts. */
  lemma SplitIsRendered(version: string)
    returns (left: string, epoch: Option<string>, upstream: string, revision: Option<string>, right: string)
    requires SplitVersion(version).Ok?
    ensures AllSpace(left) && AllSpace(right)
    ensures Separable(epoch, upstream, revision)
    ensures Trimmed(Render(epoch, upstream, revision))
    ensures version == left + Render(epoch, upstream, revision) + right
    ensures SplitVersion(version) == Ok(Parts(epoch, upstream, revision))
  {
    left, right := StripParts(version);
    var text := Strip(version);
    var rest: string;
    epoch, rest := EpochParts(text);
    upstream, revision := RevisionParts(rest);
  }

  lemma EpochParts(text: string) returns (epoch: Option<string>, rest: string)
    requires SplitEpoch(text).Ok?
    ensures SplitEpoch(text).value == (if epoch.Some? then Number(epoch.value) else 0, rest)
    ensures text == if epoch.Some? then epoch.value + (":" + rest) else rest
    ensures if epoch.Some? then IsNumeral(epoch.value) else ':' !in rest
  {
    var colon := IndexOf(text, ':');
    if colon == |text| {
      epoch, rest := None, text;
    } else {
      epoch, rest := Some(text[..colon]), text[colon + 1..];
      assert text == text[..colon] + ([text[colon]] + rest);
    }
  }

  lemma RevisionParts(rest: string) returns (upstream: string, revision: Option<string>)
    ensures SplitRevision(rest) == (upstream, if revision.Some? then revision.value else "0")
    ensures rest == RenderRevision(upstream, revision)
    ensures if revision.Some? then '-' !in revision.value else '-' !in upstream
  {
    var hyphen := LastIndexOf(rest, '-');
    upstream := rest[..hyphen];
    if hyphen == |rest| {
      revision := None;
    } else {
      revision := Some(rest[hyphen + 1..]);
      assert rest == upstream + ([rest[hyphen]] + revision.value);
    }
  }

  // ---------- The order ----------

  function VersionOrder(a: Version, b: Version): int {
    if a.epoch != b.epoch then (if a.epoch < b.epoch then -1 else 1)
    else
      var upstream := PaddedCompare(Code(a.upstream), Code(b.upstream));
      if upstream != 0 then upstream else PaddedCompare(Code(a.revision), Code(b.revision))
  }

  function Compare(a: string, b: string): Result<int, VersionError> {
    CompareParsed(SplitVersion(a), SplitVersion(b))
  }

  function CompareParsed(va: Parsed, vb: Parsed): Result<int, VersionError> {
    if va.Err? then Err(va.error)
    else if vb.Err? then Err(vb.error)
    else Ok(VersionOrder(va.value, vb.value))
  }

  function IsOlder(a: string, b: string): Result<bool, VersionError> {
    OlderParsed(SplitVersion(a), SplitVersion(b))
  }

  function OlderParsed(va: Parsed, vb: Parsed): Result<bool, VersionError> {
    var r := CompareParsed(va, vb);
    if r.Ok? then Ok(r.value < 0) else Err(r.error)
  }

  method CompareDebianVersions(a: string, b: string) returns (r: Result<int, VersionError>)
    ensures r == Compare(a, b)
  {
    var va := SplitVersion(a);
    if va.Err? {
      return Err(va.error);
    }
    var vb := SplitVersion(b);
    if vb.Err? {
      return Err(vb.error);
    }
    var Version(epochA, upstreamA, revisionA) := va.value;
    var Version(epochB, upstreamB, revisionB) := vb.value;
    if epochA != epochB {
      return Ok(if epochA < epochB then -1 else 1);
    }
    var upstreamCmp := VerRevCmp(upstreamA, upstreamB);
    if upstreamCmp != 0 {
      return Ok(upstreamCmp);
    }
    var revisionCmp := VerRevCmp(revisionA, revisionB);
    return Ok(revisionCmp);
  }

  predicate WellFormed(v: string) {
    SplitVersion(v).Ok?
  }

  predicate AtMost(a: string, b: string) {
    Compare(a, b).Ok? && Compare(a, b).value <= 0
  }

  lemma VersionOrderLaws(a: Version, b: Version, c: Version)
    ensures VersionOrder(a, a) == 0
    ensures VersionOrder(b, a) == -VersionOrder(a, b)
    ensures VersionOrder(a, b) <= 0 && VersionOrder(b, c) <= 0 ==>
              VersionOrder(a, c) <= 0 &&
              (VersionOrder(a, c) == 0 ==> VersionOrder(a, b) == 0 && VersionOrder(b, c) == 0)
  {
    PaddedAntisymmetric(Code(a.upstream), Code(a.upstream));
    PaddedAntisymmetric(Code(a.revision), Code(a.revision));
    PaddedAntisymmetric(Code(a.upstream), Code(b.upstream));
    PaddedAntisymmetric(Code(a.revision), Code(b.revision));
    var ua, ub, uc := Code(a.upstream), Code(b.upstream), Code(c.upstream);
    var ra, rb, rc := Code(a.revision), Code(b.revision), Code(c.revision);
    if PaddedCompare(ua, ub) <= 0 && PaddedCompare(ub, uc) <= 0 {
      PaddedTransitive(ua, ub, uc);
    }
    if PaddedCompare(ua, ub) == 0 && PaddedCompare(ub, uc) == 0 {
      PaddedZero(ua, ub, uc);
    }
    if PaddedCompare(ra, rb) <= 0 && PaddedCompare(rb, rc) <= 0 {
      PaddedTransitive(ra, rb, rc);
    }
  }

  /** Equal codes are a congruence. */
  lemma PaddedZero(x: seq<int>, y: seq<int>, z: seq<int>)
    requires PaddedCompare(x, y) == 0 && PaddedCompare(y, z) == 0
    ensures PaddedCompare(x, z) == 0
  {
    PaddedTransitive(x, y, z);
    PaddedAntisymmetric(x, y);
    PaddedAntisymmetric(y, z);
    PaddedTransitive(z, y, x);
    PaddedAntisymmetric(x, z);
  }

  lemma ParsedLaws(a: Parsed, b: Parsed, c: Parsed)
    ensures CompareParsed(a, b).Ok? <==> a.Ok? && b.Ok?
    ensures CompareParsed(a, a) == Ok(0) <==> a.Ok?
    ensures a.Ok? && b.Ok? ==> CompareParsed(b, a) == Ok(-CompareParsed(a, b).value)
    ensures a.Ok? && b.Ok? && c.Ok? && CompareParsed(a, b).value <= 0 && CompareParsed(b, c).value <= 0 ==>
              CompareParsed(a, c).value <= 0
  {
    if a.Ok? {
      VersionOrderLaws(a.value, if b.Ok? then b.value else a.value, if c.Ok? then c.value else a.value);
    }
  }

  /** Comparison is defined exactly on well-formed version strings, and is a total preorder of them. */
  lemma CompareIsTotalPreorder(a: string, b: string, c: string)
    ensures Compare(a, b).Ok? <==> WellFormed(a) && WellFormed(b)
    ensures Compare(a, a) == Ok(0) <==> WellFormed(a)
    ensures Compare(a, b).Ok? ==> Compare(b, a) == Ok(-Compare(a, b).value)
    ensures AtMost(a, b) && AtMost(b, c) ==> AtMost(a, c)
  {
    ParsedLaws(SplitVersion(a), SplitVersion(b), SplitVersion(c));
  }

  /** Equal codes give equal results against every third one. */
  lemma {:induction false} EqualCodes(x: seq<int>, y: seq<int>, z: seq<int>)
    requires PaddedCompare(x, y) == 0
    ensures PaddedCompare(x, z) == PaddedCompare(y, z)
    decreases |x| + |y| + |z|
  {
    if x != [] || y != [] || z != [] {
      PaddedStep(x, y);
      PaddedStep(x, z);
      PaddedStep(y, z);
      if x != [] || y != [] {
        EqualCodes(Tail(x), Tail(y), Tail(z));
      }
    }
  }

  lemma ParsedInterchangeable(a: Parsed, b: Parsed, c: Parsed)
    requires CompareParsed(a, b) == Ok(0)
    ensures CompareParsed(a, c) == CompareParsed(b, c)
    ensures CompareParsed(c, a) == CompareParsed(c, b)
    ensures OlderParsed(a, c) == OlderParsed(b, c)
    ensures OlderParsed(c, a) == OlderParsed(c, b)
  {
    if c.Ok? {
      EqualCodes(Code(a.value.upstream), Code(b.value.upstream), Code(c.value.upstream));
      EqualCodes(Code(a.value.revision), Code(b.value.revision), Code(c.value.revision));
      ParsedLaws(a, c, c);
      ParsedLaws(b, c, c);
    }
  }

  /** Versions that compare equal are interchangeable in every comparison. */
  lemma EqualVersionsInterchangeable(a: string, b: string, c: string)
    requires Compare(a, b) == Ok(0)
    ensures Compare(a, c) == Compare(b, c)
    ensures Compare(c, a) == Compare(c, b)
    ensures IsOlder(a, c) == IsOlder(b, c)
    ensures IsOlder(c, a) == IsOlder(c, b)
  {
    ParsedInterchangeable(SplitVersion(a), SplitVersion(b), SplitVersion(c));
  }

  lemma ParsedStrictWeakOrder(a: Parsed, b: Parsed, c: Parsed)
    ensures OlderParsed(a, b).Ok? <==> a.Ok? && b.Ok?
    ensures OlderParsed(a, a) != Ok(true)
    ensures OlderParsed(a, b) == Ok(true) && OlderParsed(b, c) == Ok(true) ==> OlderParsed(a, c) == Ok(true)
    ensures OlderParsed(a, b) == Ok(false) && OlderParsed(b, c) == Ok(false) ==> OlderParsed(a, c) == Ok(false)
  {
    ParsedLaws(a, a, a);
    if a.Ok? && b.Ok? && c.Ok? {
      var va, vb, vc := a.value, b.value, c.value;
      VersionOrderLaws(va, vb, vc);
      VersionOrderLaws(vc, vb, va);
      VersionOrderLaws(va, vc, vb);
      VersionOrderLaws(vb, vc, va);
    }
  }

  /** `IsOlder` is a strict weak order, and fails exactly when a version is malformed. */
  lemma IsOlderIsStrictWeakOrder(a: string, b: string, c: string)
    ensures IsOlder(a, b).Ok? <==> WellFormed(a) && WellFormed(b)
    ensures IsOlder(a, a) != Ok(true)
    ensures IsOlder(a, b) == Ok(true) && IsOlder(b, c) == Ok(true) ==> IsOlder(a, c) == Ok(true)
    ensures IsOlder(a, b) == Ok(false) && IsOlder(b, c) == Ok(false) ==> IsOlder(a, c) == Ok(false)
  {
    ParsedStrictWeakOrder(SplitVersion(a), SplitVersion(b), SplitVersion(c));
  }

  // ---------- What the order is ----------

  /** The component `x` is older: at the first place where the padded codes differ, its own is smaller. */
  ghost predicate ComponentBelow(x: string, y: string) {
    exists k: nat :: BelowAt(Code(x), Code(y), k)
  }

  ghost predicate ComponentSame(x: string, y: string) {
    forall k: nat :: At(Code(x), k) == At(Code(y), k)
  }

  /** The epoch decides first, then the upstream version, then the revision. */
  ghost predicate Precedes(a: Version, b: Version) {
    || a.epoch < b.epoch
    || (a.epoch == b.epoch && ComponentBelow(a.upstream, b.upstream))
    || (a.epoch == b.epoch && ComponentSame(a.upstream, b.upstream) && ComponentBelow(a.revision, b.revision))
  }

  lemma ComponentMeaning(x: string, y: string)
    ensures PaddedCompare(Code(x), Code(y)) in {-1, 0, 1}
    ensures PaddedCompare(Code(x), Code(y)) == -1 <==> ComponentBelow(x, y)
    ensures PaddedCompare(Code(x), Code(y)) == 0 <==> ComponentSame(x, y)
    ensures PaddedCompare(Code(x), Code(y)) == 1 <==> ComponentBelow(y, x)
  {
    PaddedCompareMeaning(Code(x), Code(y));
  }

  lemma VersionOrderMeaning(a: Version, b: Version)
    ensures VersionOrder(a, b) in {-1, 0, 1}
    ensures VersionOrder(a, b) == -1 <==> Precedes(a, b)
    ensures VersionOrder(a, b) == 1 <==> Precedes(b, a)
    ensures VersionOrder(a, b) == 0 <==>
            a.epoch == b.epoch && ComponentSame(a.upstream, b.upstream) && ComponentSame(a.revision, b.revision)
  {
    ComponentMeaning(a.upstream, b.upstream);
    ComponentMeaning(a.revision, b.revision);
    ComponentMeaning(b.upstream, a.upstream);
  }

  lemma ParsedMeaning(a: Parsed, b: Parsed)
    ensures CompareParsed(a, b) == Ok(-1) <==> a.Ok? && b.Ok? && Precedes(a.value, b.value)
    ensures CompareParsed(a, b) == Ok(1) <==> a.Ok? && b.Ok? && Precedes(b.value, a.value)
    ensures CompareParsed(a, b) == Ok(0) <==>
            && a.Ok? && b.Ok? && a.value.epoch == b.value.epoch
            && ComponentSame(a.value.upstream, b.value.upstream) && ComponentSame(a.value.revision, b.value.revision)
    ensures OlderParsed(a, b) == Ok(true) <==> a.Ok? && b.Ok? && Precedes(a.value, b.value)
    ensures OlderParsed(a, b) == Ok(false) <==> a.Ok? && b.Ok? && !Precedes(a.value, b.value)
  {
    if a.Ok? && b.Ok? {
      VersionOrderMeaning(a.value, b.value);
    }
  }

  /** The sign of a comparison, in terms of the parts of both versions. */
  lemma CompareExactly(a: string, b: string)
    ensures Compare(a, b) == Ok(-1) <==>
            WellFormed(a) && WellFormed(b) && Precedes(SplitVersion(a).value, SplitVersion(b).value)
    ensures Compare(a, b) == Ok(1) <==>
            WellFormed(a) && WellFormed(b) && Precedes(SplitVersion(b).value, SplitVersion(a).value)
    ensures Compare(a, b).Ok? ==> Compare(a, b).value in {-1, 0, 1}
  {
    ParsedMeaning(SplitVersion(a), SplitVersion(b));
    ParsedSign(SplitVersion(a), SplitVersion(b));
  }

  lemma ParsedSign(a: Parsed, b: Parsed)
    ensures CompareParsed(a, b).Ok? ==> CompareParsed(a, b).value in {-1, 0, 1}
  {
    if a.Ok? && b.Ok? {
      VersionOrderMeaning(a.value, b.value);
    }
  }

  /** `IsOlder` says yes exactly when both versions are well-formed and the first precedes the second,
      no exactly when both are well-formed and it does not. */
  lemma IsOlderExactly(a: string, b: string)
    ensures IsOlder(a, b) == Ok(true) <==>
            WellFormed(a) && WellFormed(b) && Precedes(SplitVersion(a).value, SplitVersion(b).value)
    ensures IsOlder(a, b) == Ok(false) <==>
            WellFormed(a) && WellFormed(b) && !Precedes(SplitVersion(a).value, SplitVersion(b).value)
  {
    ParsedMeaning(SplitVersion(a), SplitVersion(b));
  }

  /** A pre-release of an upstream version is older than the release, whatever the revisions. */
  lemma TildeVersionIsOlder(a: Version, b: Version, suffix: string)
    requires a.epoch == b.epoch && a.upstream == b.upstream + "~" + suffix
    ensures VersionOrder(a, b) == -1
  {
    TildeSortsBelowEverything(b.upstream, '~', suffix);
  }
}
