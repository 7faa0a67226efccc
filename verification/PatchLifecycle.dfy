/** The decision of `scripts/security/patch_lifecycle_check.py`: is the
    security-patch overlay still required for the base image as shipped? */
module PatchLifecycle {
  import opened DebianVersion
  import opened Text
  import opened VersionComponent
  import opened VersionRanking
  import opened Wrappers

  datatype Class = Required | Redundant | Indeterminate | MetadataDrift

  /** What the lock file records about the overlay. */
  datatype Lock = Lock(patched: string, vulnerable: string, package: string)

  function Classify(baseVersion: Option<string>, basePackage: Option<string>, lock: Lock): (Class, bool) {
    if baseVersion.None? then (Indeterminate, false)
    else if basePackage.Some? && basePackage.value != lock.package then (Indeterminate, false)
    else
      var older := IsOlder(baseVersion.value, lock.patched);
      if older.Err? then (Indeterminate, false)
      else if !older.value then (Redundant, false)
      else if baseVersion.value != lock.vulnerable then (MetadataDrift, false)
      else (Required, true)
  }

  /** Once a base is redundant, so is every well-formed base that is not older. */
  lemma RedundantUpward(base: string, newer: string, package: Option<string>, lock: Lock)
    ensures Classify(Some(base), package, lock).0 == Redundant && IsOlder(newer, base) == Ok(false) ==>
              Classify(Some(newer), package, lock) == (Redundant, false)
  {
    IsOlderIsStrictWeakOrder(newer, base, lock.patched);
  }

  /** While the overlay is still needed, it is needed for every older well-formed base. */
  lemma NeededDownward(base: string, older: string, package: Option<string>, lock: Lock)
    ensures IsOlder(base, older) == Ok(false) && Classify(Some(base), package, lock).0 in {Required, MetadataDrift} ==>
              Classify(Some(older), package, lock).0 in {Required, MetadataDrift}
  {
    IsOlderIsStrictWeakOrder(base, older, lock.patched);
    IsOlderIsStrictWeakOrder(older, lock.patched, lock.patched);
    IsOlderIsStrictWeakOrder(older, older, lock.patched);
  }

  /** The check passes exactly when the base is the recorded vulnerable version, the package
      name does not contradict the lock, and that version is strictly older than the patched one. */
  lemma PassExactly(baseVersion: Option<string>, basePackage: Option<string>, lock: Lock)
    ensures Classify(baseVersion, basePackage, lock).1 <==>
            && baseVersion == Some(lock.vulnerable)
            && basePackage in {None, Some(lock.package)}
            && IsOlder(lock.vulnerable, lock.patched) == Ok(true)
    ensures Classify(baseVersion, basePackage, lock).1 <==> Classify(baseVersion, basePackage, lock).0 == Required
  {
  }

  /** A check that passes is warranted: the overlay is needed for the base and for every well-formed base that
      is not newer, the patched version itself would be redundant, and every redundant base is newer. */
  lemma PassIsWarranted(base: string, package: Option<string>, lock: Lock)
    ensures Classify(Some(base), package, lock).1 ==>
              && Classify(Some(lock.patched), package, lock).0 == Redundant
              && (forall older | IsOlder(base, older) == Ok(false) ::
                    Classify(Some(older), package, lock).0 in {Required, MetadataDrift})
              && (forall newer | Classify(Some(newer), package, lock).0 == Redundant ::
                    IsOlder(base, newer) == Ok(true))
  {
    if Classify(Some(base), package, lock).1 {
      PassExactly(Some(base), package, lock);
      RedundantWhen(Some(lock.patched), package, lock);
      IsOlderIsStrictWeakOrder(lock.patched, lock.patched, lock.patched);
      IsOlderIsStrictWeakOrder(base, lock.patched, lock.patched);
      forall older | IsOlder(base, older) == Ok(false)
        ensures Classify(Some(older), package, lock).0 in {Required, MetadataDrift}
      {
        NeededDownward(base, older, package, lock);
      }
      forall newer | Classify(Some(newer), package, lock).0 == Redundant ensures IsOlder(base, newer) == Ok(true) {
        RedundantWhen(Some(newer), package, lock);
        IsOlderIsStrictWeakOrder(base, newer, lock.patched);
      }
    }
  }

  lemma RedundantWhen(baseVersion: Option<string>, basePackage: Option<string>, lock: Lock)
    ensures Classify(baseVersion, basePackage, lock).0 == Redundant <==>
            && baseVersion.Some?
            && basePackage in {None, Some(lock.package)}
            && IsOlder(baseVersion.value, lock.patched) == Ok(false)
  {
  }

  /** Redundancy is a threshold in the Debian order, and the patched version is where it lies: a base is redundant
      exactly when all bases from it upward are; and if any base is, the patched version is the least one. */
  lemma RedundancyIsThreshold(base: string, package: Option<string>, lock: Lock)
    ensures Classify(Some(base), package, lock).0 == Redundant <==>
            && WellFormed(base)
            && forall newer | IsOlder(newer, base) == Ok(false) :: Classify(Some(newer), package, lock).0 == Redundant
    ensures Classify(Some(base), package, lock).0 == Redundant ==>
            && Classify(Some(lock.patched), package, lock).0 == Redundant
            && IsOlder(base, lock.patched) == Ok(false)
  {
    RedundantWhen(Some(base), package, lock);
    RedundantWhen(Some(lock.patched), package, lock);
    IsOlderIsStrictWeakOrder(base, lock.patched, lock.patched);
    IsOlderIsStrictWeakOrder(lock.patched, lock.patched, lock.patched);
    IsOlderIsStrictWeakOrder(base, base, base);
    if Classify(Some(base), package, lock).0 == Redundant {
      forall newer | IsOlder(newer, base) == Ok(false) ensures Classify(Some(newer), package, lock).0 == Redundant {
        RedundantUpward(base, newer, package, lock);
      }
    }
  }

  /** Evidence that cannot be established never passes: a malformed or missing
      version on either side, or a foreign package, is indeterminate - and nothing else is. */
  lemma IndeterminateExactly(baseVersion: Option<string>, basePackage: Option<string>, lock: Lock)
    ensures Classify(baseVersion, basePackage, lock).0 == Indeterminate <==>
            || baseVersion.None?
            || !WellFormed(baseVersion.value)
            || !WellFormed(lock.patched)
            || (basePackage.Some? && basePackage.value != lock.package)
  {
  }

  /** Whether the overlay is required at all depends on the version only through
      the Debian order: bases that compare equal get the same verdict on redundancy. */
  lemma EqualBasesAgree(a: string, b: string, package: Option<string>, lock: Lock)
    ensures Compare(a, b) == Ok(0) ==>
              (Classify(Some(a), package, lock).0 == Redundant <==> Classify(Some(b), package, lock).0 == Redundant)
  {
    if Compare(a, b) == Ok(0) {
      EqualVersionsInterchangeable(a, b, lock.patched);
      RedundantWhen(Some(a), package, lock);
      RedundantWhen(Some(b), package, lock);
    }
  }

  // ---------- Written versions ----------

  /** A version written from unambiguous parts. */
  predicate Written(text: string, epoch: Option<string>, upstream: string, revision: Option<string>) {
    Separable(epoch, upstream, revision) && Trimmed(text) && text == Render(epoch, upstream, revision)
  }

  lemma WrittenSplits(text: string, epoch: Option<string>, upstream: string, revision: Option<string>)
    requires Written(text, epoch, upstream, revision)
    ensures SplitVersion(text) == Ok(Parts(epoch, upstream, revision))
  {
    assert "" + text + "" == text;
    SplitRendered("", epoch, upstream, revision, "");
  }

  /** The verdict on versions as they are written: the overlay is redundant exactly when the base's parts do not
      precede those of the patched version. */
  lemma WrittenVerdict(base: string, epoch: Option<string>, upstream: string, revision: Option<string>,
                       epoch': Option<string>, upstream': string, revision': Option<string>,
                       package: Option<string>, lock: Lock)
    requires Written(base, epoch, upstream, revision)
    requires Written(lock.patched, epoch', upstream', revision')
    requires package in {None, Some(lock.package)}
    ensures Classify(Some(base), package, lock).0 == Redundant <==>
            !Precedes(Parts(epoch, upstream, revision), Parts(epoch', upstream', revision'))
    ensures Classify(Some(base), package, lock).0 != Indeterminate
  {
    WrittenSplits(base, epoch, upstream, revision);
    WrittenSplits(lock.patched, epoch', upstream', revision');
    IsOlderExactly(base, lock.patched);
    RedundantWhen(Some(base), package, lock);
    IndeterminateExactly(Some(base), package, lock);
  }

  /** A base whose upstream version has a smaller number at the first difference needs the overlay, and
      the other way round it is redundant, whatever the revisions are. */
  lemma NumberDecides(x: string, d: string, y: string, e: string, z: string,
                      revision: Option<string>, revision': Option<string>,
                      base: string, package: Option<string>, lock: Lock)
    requires !EndsInDigit(x) && IsNumeral(d) && IsNumeral(e) && Number(d) != Number(e)
    requires (y == "" || IsNonDigit(y[0])) && (z == "" || IsNonDigit(z[0]))
    requires Written(base, None, x + (d + y), revision)
    requires Written(lock.patched, None, x + (e + z), revision')
    requires package in {None, Some(lock.package)}
    ensures Classify(Some(base), package, lock).0 == Redundant <==> Number(d) > Number(e)
  {
    NumbersRank(x, d, y, e, z);
    ComponentMeaning(x + (d + y), x + (e + z));
    WrittenVerdict(base, None, x + (d + y), revision, None, x + (e + z), revision', package, lock);
  }

  /** With the vulnerable version recorded that a lower number makes older, the check passes on it, and the
      patched version would be redundant. */
  lemma LowerNumberPasses(x: string, d: string, y: string, e: string, z: string,
                          revision: Option<string>, revision': Option<string>, lock: Lock)
    requires !EndsInDigit(x) && IsNumeral(d) && IsNumeral(e) && Number(d) < Number(e)
    requires (y == "" || IsNonDigit(y[0])) && (z == "" || IsNonDigit(z[0]))
    requires Written(lock.vulnerable, None, x + (d + y), revision)
    requires Written(lock.patched, None, x + (e + z), revision')
    ensures Classify(Some(lock.vulnerable), Some(lock.package), lock) == (Required, true)
    ensures Classify(Some(lock.patched), Some(lock.package), lock) == (Redundant, false)
  {
    var package := Some(lock.package);
    NumberDecides(x, d, y, e, z, revision, revision', lock.vulnerable, package, lock);
    WrittenVerdict(lock.vulnerable, None, x + (d + y), revision, None, x + (e + z), revision', package, lock);
    WrittenSplits(lock.patched, None, x + (e + z), revision');
    WrittenSplits(lock.vulnerable, None, x + (d + y), revision);
    IsOlderIsStrictWeakOrder(lock.vulnerable, lock.patched, lock.patched);
    IsOlderIsStrictWeakOrder(lock.patched, lock.patched, lock.patched);
    PassExactly(Some(lock.vulnerable), package, lock);
    RedundantWhen(Some(lock.vulnerable), package, lock);
    RedundantWhen(Some(lock.patched), package, lock);
  }

  /** A written version "3.5.n-1~deb13u2". */
  lemma RecordedIsWritten(text: string, n: char)
    requires IsDigit(n) && text == "3.5." + ([n] + "") + ("-" + "1~deb13u2")
    ensures Written(text, None, "3.5." + ([n] + ""), Some("1~deb13u2"))
  {
    var upstream, revision := "3.5." + ([n] + ""), "1~deb13u2";
    assert upstream == ['3', '.', '5', '.', n];
    assert revision == ['1', '~', 'd', 'e', 'b', '1', '3', 'u', '2'];
    assert text == ['3', '.', '5', '.', n, '-', '1', '~', 'd', 'e', 'b', '1', '3', 'u', '2'];
  }

  lemma OneDigit(n: char)
    requires IsDigit(n)
    ensures IsNumeral([n]) && Number([n]) == n as int - '0' as int
  {
    assert [n][..0] == "" && Number("") == 0;
  }

  /** The versions that the repository records: the check passes on the vulnerable one, and the patched
      one would be redundant. */
  lemma RecordedVersionsPass(package: string)
    ensures var lock := Lock("3.5.7-1~deb13u2", "3.5.6-1~deb13u2", package);
            && Classify(Some(lock.vulnerable), Some(package), lock) == (Required, true)
            && Classify(Some(lock.patched), Some(package), lock) == (Redundant, false)
  {
    var lock := Lock("3.5.7-1~deb13u2", "3.5.6-1~deb13u2", package);
    RecordedIsWritten(lock.vulnerable, '6');
    RecordedIsWritten(lock.patched, '7');
    OneDigit('6');
    OneDigit('7');
    var revision := Some("1~deb13u2");
    LowerNumberPasses("3.5.", ['6'], "", ['7'], "", revision, revision, lock);
  }
}
