/** Preparing a release bundle: `scripts/release/prepare_release_bundle.py`. A staging
    directory is a map from names to contents, which the operations change in place. */
module ReleaseBundle {
  import opened Wrappers
  import opened NameOrder
  import opened ManifestText

  const MANIFEST := "SHA256SUMS"

  type Content = string
  type Files = map<string, Content>

  /** The last component of a source's path, and its content if it is a regular file. */
  datatype Source = Source(name: string, content: Option<Content>)

  datatype BundleError = MissingSource(name: string) | BadName(name: string) | DuplicateName(name: string)
                       | MissingAsset(name: string) | BadManifest(problem: ManifestError)

  // ---------- Staging ----------

  function NamesOf(sources: seq<Source>): seq<string> {
    if sources == [] then [] else NamesOf(sources[..|sources| - 1]) + [sources[|sources| - 1].name]
  }

  function Fault(earlier: seq<string>, s: Source): Option<BundleError> {
    if s.content.None? then Some(MissingSource(s.name))
    else if !IsBasename(s.name) then Some(BadName(s.name))
    else if s.name in earlier then Some(DuplicateName(s.name))
    else None
  }

  /** How many sources come before the first faulty one. */
  function FaultlessCount(sources: seq<Source>): (k: nat)
    ensures k <= |sources|
    ensures k < |sources| ==> Fault(NamesOf(sources[..k]), sources[k]).Some?
  {
    if sources == [] then 0
    else
      var front, last := sources[..|sources| - 1], sources[|sources| - 1];
      var k := FaultlessCount(front);
      assert k < |front| ==> front[..k] == sources[..k];
      if k == |front| && Fault(NamesOf(front), last).None? then |sources| else k
  }

  /** The files after copying the sources one after the other. */
  function Copied(files: Files, sources: seq<Source>): Files {
    if sources == [] then files
    else
      var last := sources[|sources| - 1];
      Copied(files, sources[..|sources| - 1])[last.name := last.content.GetOr("")]
  }

  function StageOutcome(sources: seq<Source>): Result<seq<string>, BundleError> {
    var k := FaultlessCount(sources);
    if k == |sources| then Ok(Sorted(NamesOf(sources)))
    else Err(Fault(NamesOf(sources[..k]), sources[k]).value)
  }

  lemma {:induction false} FirstFault(sources: seq<Source>, k: nat)
    requires k < |sources| && FaultlessCount(sources[..k]) == k && Fault(NamesOf(sources[..k]), sources[k]).Some?
    ensures FaultlessCount(sources) == k
  {
    var front := sources[..|sources| - 1];
    if k == |front| {
      assert sources[..k] == front;
    } else {
      assert front[..k] == sources[..k];
      FirstFault(front, k);
    }
  }

  predicate Stageable(sources: seq<Source>) {
    && (forall s | s in sources :: s.content.Some? && IsBasename(s.name))
    && forall j, k | 0 <= j < k < |sources| :: sources[j].name != sources[k].name
  }

  lemma {:induction false} NamesAt(sources: seq<Source>)
    ensures |NamesOf(sources)| == |sources|
    ensures forall k | 0 <= k < |sources| :: NamesOf(sources)[k] == sources[k].name
  {
    if sources != [] {
      NamesAt(sources[..|sources| - 1]);
    }
  }

  /** Staging succeeds exactly when every source is a file with a bare basename, no two the same. */
  lemma {:induction false} StagesExactly(sources: seq<Source>)
    ensures FaultlessCount(sources) == |sources| <==> Stageable(sources)
  {
    if sources != [] {
      var front, last := sources[..|sources| - 1], sources[|sources| - 1];
      StagesExactly(front);
      NamesAt(front);
      StageableSnoc(sources);
    }
  }

  /** What `error` says is wrong with source `k`. */
  predicate IsFaultOf(error: BundleError, sources: seq<Source>, k: nat)
    requires k < |sources|
  {
    match error
    case MissingSource(name) => name == sources[k].name && sources[k].content.None?
    case BadName(name) => name == sources[k].name && sources[k].content.Some? && !IsBasename(name)
    case DuplicateName(name) =>
      && name == sources[k].name && sources[k].content.Some? && IsBasename(name)
      && exists j | 0 <= j < k :: sources[j].name == name
    case _ => false
  }

  lemma FaultIsOf(sources: seq<Source>, k: nat)
    requires k < |sources| && Fault(NamesOf(sources[..k]), sources[k]).Some?
    ensures IsFaultOf(Fault(NamesOf(sources[..k]), sources[k]).value, sources, k)
  {
    NamesAt(sources[..k]);
  }

  /** A failure is the fault of the first source that makes the list unfit. */
  lemma StopsAtFirstFault(sources: seq<Source>)
    ensures var k := FaultlessCount(sources);
            k < |sources| ==>
              && Stageable(sources[..k]) && !Stageable(sources[..k + 1])
              && StageOutcome(sources).Err? && IsFaultOf(StageOutcome(sources).error, sources, k)
  {
    var k := FaultlessCount(sources);
    if k < |sources| {
      FitBeforeFault(sources);
      FaultIsOf(sources, k);
    }
  }

  lemma {:induction false} FitBeforeFault(sources: seq<Source>)
    ensures var k := FaultlessCount(sources);
            k < |sources| ==> Stageable(sources[..k]) && !Stageable(sources[..k + 1])
  {
    if sources != [] {
      var front := sources[..|sources| - 1];
      FitBeforeFault(front);
      StagesExactly(front);
      StagesExactly(sources);
      var k := FaultlessCount(sources);
      if k < |front| {
        assert front[..k] == sources[..k] && front[..k + 1] == sources[..k + 1];
      } else if k == |front| {
        assert sources[..k + 1] == sources;
      }
    }
  }

  lemma StageableSnoc(sources: seq<Source>)
    requires sources != []
    ensures var front, last := sources[..|sources| - 1], sources[|sources| - 1];
            Stageable(sources) <==>
              && Stageable(front) && last.content.Some? && IsBasename(last.name)
              && forall k | 0 <= k < |front| :: front[k].name != last.name
  {
    var front, last := sources[..|sources| - 1], sources[|sources| - 1];
    assert last in sources && forall s :: s in sources <==> s in front || s == last;
    assert forall k | 0 <= k < |front| :: front[k] == sources[k];
  }

  /** Every staged file has the content of its source, and no other file appears or changes. */
  lemma CopiedExactly(files: Files, sources: seq<Source>)
    requires Stageable(sources)
    ensures forall name :: name in Copied(files, sources) <==> name in files || name in NamesOf(sources)
    ensures forall k | 0 <= k < |sources| ::
              && sources[k].name in Copied(files, sources)
              && Copied(files, sources)[sources[k].name] == sources[k].content.value
    ensures forall name | name in files && name !in NamesOf(sources) :: Copied(files, sources)[name] == files[name]
  {
    CopiedNames(files, sources);
    CopiedContents(files, sources);
  }

  lemma {:induction false} CopiedNames(files: Files, sources: seq<Source>)
    ensures forall name :: name in Copied(files, sources) <==> name in files || name in NamesOf(sources)
    ensures forall name | name in files && name !in NamesOf(sources) :: Copied(files, sources)[name] == files[name]
  {
    if sources != [] {
      CopiedNames(files, sources[..|sources| - 1]);
    }
  }

  lemma {:induction false} CopiedContents(files: Files, sources: seq<Source>)
    requires Stageable(sources)
    ensures forall k | 0 <= k < |sources| ::
              && sources[k].name in Copied(files, sources)
              && Copied(files, sources)[sources[k].name] == sources[k].content.value
  {
    if sources != [] {
      var front, last := sources[..|sources| - 1], sources[|sources| - 1];
      StageableSnoc(sources);
      CopiedContents(files, front);
      forall k | 0 <= k < |sources| ensures
        && sources[k].name in Copied(files, sources)
        && Copied(files, sources)[sources[k].name] == sources[k].content.value
      {
        assert k < |front| ==> front[k] == sources[k];
      }
    }
  }

  // ---------- The manifest ----------

  function AssetFault(files: Files, name: string): Option<BundleError> {
    if !IsBasename(name) then Some(BadName(name))
    else if name !in files then Some(MissingAsset(name))
    else None
  }

  function FirstAssetFault(files: Files, names: seq<string>): Option<BundleError> {
    if names == [] then None
    else if AssetFault(files, names[0]).Some? then AssetFault(files, names[0])
    else FirstAssetFault(files, names[1..])
  }

  function EntryOf(hash: Content -> string, files: Files, name: string): Entry {
    Entry(hash(if name in files then files[name] else ""), name)
  }

  function EntriesOf(hash: Content -> string, files: Files, names: seq<string>): seq<Entry> {
    seq(|names|, k requires 0 <= k < |names| => EntryOf(hash, files, names[k]))
  }

  function ManifestOf(hash: Content -> string, files: Files, basenames: seq<string>): Content {
    JoinLines(Printed(EntriesOf(hash, files, Sorted(basenames))))
  }

  ghost predicate IsHash(hash: Content -> string) {
    forall content :: IsDigest(hash(content))
  }

  predicate Distinct(names: seq<string>) {
    forall j, k | 0 <= j < k < |names| :: names[j] != names[k]
  }

  predicate Basenames(names: seq<string>) {
    forall name | name in names :: IsBasename(name)
  }

  predicate OneLineEach(names: seq<string>) {
    forall name | name in names :: OneLine(name)
  }

  function RecordedNames(lines: seq<string>): seq<string> {
    seq(|Recorded(lines)|, k requires 0 <= k < |Recorded(lines)| => Recorded(lines)[k].name)
  }

  lemma DistinctCons(names: seq<string>)
    requires names != []
    ensures Distinct(names) <==> names[0] !in names[1..] && Distinct(names[1..])
  {
    assert forall k | 1 <= k < |names| :: names[k] == names[1..][k - 1];
    assert forall k | 0 <= k < |names| - 1 :: names[1..][k] == names[k + 1];
  }

  lemma {:induction false} DistinctByCount(names: seq<string>)
    ensures Distinct(names) <==> forall name :: multiset(names)[name] <= 1
  {
    if names != [] {
      var rest := names[1..];
      DistinctByCount(rest);
      DistinctCons(names);
      assert names == [names[0]] + rest;
      assert forall name :: multiset(names)[name] == multiset(rest)[name] + if name == names[0] then 1 else 0;
      assert names[0] in rest <==> multiset(rest)[names[0]] > 0;
    }
  }

  /** Sorting changes neither which names there are nor whether they are distinct. */
  lemma SortedNames(names: seq<string>)
    ensures Distinct(Sorted(names)) <==> Distinct(names)
    ensures forall name :: name in Sorted(names) <==> name in names
  {
    SortedIsAscending(names);
    DistinctByCount(names);
    DistinctByCount(Sorted(names));
    assert forall name :: name in Sorted(names) <==> name in multiset(names);
  }

  lemma {:induction false} PrintedLines(entries: seq<Entry>)
    requires forall e | e in entries :: Printable(e) && OneLine(e.name)
    ensures forall line | line in Printed(entries) :: OneLine(line) && LineIsFine(line)
    ensures Printed(entries) == [] <==> entries == []
  {
    if entries != [] {
      var front, last := entries[..|entries| - 1], entries[|entries| - 1];
      assert last in entries;
      PrintedLines(front);
      EntryRoundTrip(PrintEntry(last), last);
      assert OneLine(PrintEntry(last)) by {
        forall c | c in PrintEntry(last) ensures !IsSeparator(c) {
          assert c in last.digest || c in "  " || c in last.name;
        }
      }
    }
  }

  /** Round trip: the manifest records exactly the sorted names with the digests of their
      contents, and the validator accepts it exactly when no name occurs twice. */
  lemma ManifestRoundTrip(hash: Content -> string, files: Files, basenames: seq<string>)
    requires IsHash(hash) && Basenames(basenames) && OneLineEach(basenames)
    ensures var lines := SplitLines(ManifestOf(hash, files, basenames));
            && Recorded(lines) == EntriesOf(hash, files, Sorted(basenames))
            && (FirstProblem(lines).None? <==> Distinct(basenames))
  {
    SortedNames(basenames);
    EntriesAre(hash, files, Sorted(basenames));
    PrintedRoundTrip(EntriesOf(hash, files, Sorted(basenames)));
  }

  lemma EntriesAre(hash: Content -> string, files: Files, names: seq<string>)
    requires IsHash(hash) && Basenames(names) && OneLineEach(names)
    ensures forall e | e in EntriesOf(hash, files, names) :: Printable(e) && OneLine(e.name)
    ensures DistinctNames(EntriesOf(hash, files, names)) <==> Distinct(names)
  {
    var entries := EntriesOf(hash, files, names);
    forall e | e in entries ensures Printable(e) && OneLine(e.name) {
      assert e.name in names;
    }
    assert forall k | 0 <= k < |names| :: entries[k].name == names[k];
  }

  lemma PrintedRoundTrip(entries: seq<Entry>)
    requires forall e | e in entries :: Printable(e) && OneLine(e.name)
    ensures var lines := SplitLines(JoinLines(Printed(entries)));
            Recorded(lines) == entries && (FirstProblem(lines).None? <==> DistinctNames(entries))
  {
    PrintedLines(entries);
    JoinedLinesAreSplit(Printed(entries));
    PrintedIsRecorded(entries);
    var lines := if entries == [] then [""] else Printed(entries);
    assert forall line | line in lines :: LineIsFine(line);
    AcceptedExactly(lines);
  }

  lemma {:induction false} RecordedAreLines(lines: seq<string>)
    requires forall line | line in lines :: OneLine(line)
    ensures forall e | e in Recorded(lines) :: OneLine(e.name)
  {
    if lines != [] {
      assert lines[0] in lines;
      RecordedAreLines(lines[1..]);
      if ParseEntry(lines[0]).Some? {
        assert forall c | c in lines[0][66..] :: c in lines[0];
      }
    }
  }

  /** The names are read back exactly when none of them contains a line separator. */
  lemma NamesComeBackExactly(hash: Content -> string, files: Files, basenames: seq<string>)
    requires IsHash(hash) && Basenames(basenames)
    ensures RecordedNames(SplitLines(ManifestOf(hash, files, basenames))) == Sorted(basenames) <==>
            OneLineEach(basenames)
  {
    if OneLineEach(basenames) {
      NamesComeBack(hash, files, basenames);
    }
    if RecordedNames(SplitLines(ManifestOf(hash, files, basenames))) == Sorted(basenames) {
      RecordedNamesAreLines(ManifestOf(hash, files, basenames));
      SortedNames(basenames);
    }
  }

  lemma NamesComeBack(hash: Content -> string, files: Files, basenames: seq<string>)
    requires IsHash(hash) && Basenames(basenames) && OneLineEach(basenames)
    ensures RecordedNames(SplitLines(ManifestOf(hash, files, basenames))) == Sorted(basenames)
  {
    ManifestRoundTrip(hash, files, basenames);
  }

  lemma RecordedNamesAreLines(text: Content)
    ensures OneLineEach(RecordedNames(SplitLines(text)))
  {
    SplitLinesAreLines(text);
    RecordedAreLines(SplitLines(text));
    forall name | name in RecordedNames(SplitLines(text)) ensures OneLine(name) {
      var k :| 0 <= k < |RecordedNames(SplitLines(text))| && RecordedNames(SplitLines(text))[k] == name;
      assert Recorded(SplitLines(text))[k] in Recorded(SplitLines(text));
    }
  }

  /** What a consumer checks: every recorded file is there and has the recorded digest. */
  predicate Checks(hash: Content -> string, files: Files) {
    && MANIFEST in files
    && forall e | e in Recorded(SplitLines(files[MANIFEST])) :: e.name in files && hash(files[e.name]) == e.digest
  }

  function Bundled(hash: Content -> string, files: Files, basenames: seq<string>): Files {
    files[MANIFEST := ManifestOf(hash, files, basenames)]
  }

  /** A changed bundle whose manifest is the original one passes exactly when every asset
      is there with a content of the same digest as before. */
  lemma ChecksExactly(hash: Content -> string, files: Files, basenames: seq<string>, files': Files)
    requires IsHash(hash) && Basenames(basenames) && OneLineEach(basenames)
    requires forall name | name in basenames :: name in files
    requires MANIFEST in files' && files'[MANIFEST] == ManifestOf(hash, files, basenames)
    ensures Checks(hash, files') <==>
            forall name | name in basenames :: name in files' && hash(files'[name]) == hash(files[name])
  {
    ManifestRoundTrip(hash, files, basenames);
    SortedNames(basenames);
    EntriesCheck(hash, files, Sorted(basenames), files');
  }

  lemma EntriesCheck(hash: Content -> string, files: Files, names: seq<string>, files': Files)
    requires forall name | name in names :: name in files
    ensures (forall e | e in EntriesOf(hash, files, names) :: e.name in files' && hash(files'[e.name]) == e.digest) <==>
            forall name | name in names :: name in files' && hash(files'[name]) == hash(files[name])
  {
    var entries := EntriesOf(hash, files, names);
    forall name | name in names ensures EntryOf(hash, files, name) in entries {
      var k :| 0 <= k < |names| && names[k] == name;
      assert entries[k] == EntryOf(hash, files, name);
    }
    forall e | e in entries ensures e.name in names && e == EntryOf(hash, files, e.name) {
    }
  }

  /** So the bundle as written passes, unless an asset has the manifest's own name and
      is overwritten with something that has another digest. */
  lemma BundleChecks(hash: Content -> string, files: Files, basenames: seq<string>)
    requires IsHash(hash) && Basenames(basenames) && OneLineEach(basenames)
    requires forall name | name in basenames :: name in files
    ensures Checks(hash, Bundled(hash, files, basenames)) <==>
            (MANIFEST in basenames ==> hash(ManifestOf(hash, files, basenames)) == hash(files[MANIFEST]))
  {
    ChecksExactly(hash, files, basenames, Bundled(hash, files, basenames));
  }

  lemma {:induction false} NoAssetFault(files: Files, names: seq<string>)
    requires forall name | name in names :: IsBasename(name) && name in files
    ensures FirstAssetFault(files, names).None?
  {
    if names != [] {
      assert names[0] in names;
      NoAssetFault(files, names[1..]);
    }
  }

  lemma StagedAreAssets(sources: seq<Source>)
    requires Stageable(sources)
    ensures var files, names := Copied(map[], sources), Sorted(NamesOf(sources));
            && Basenames(names) && Distinct(names) && (forall name | name in names :: name in files)
            && (forall name :: name in names <==> name in NamesOf(sources))
            && Sorted(names) == names
            && FirstAssetFault(files, Sorted(names)).None?
  {
    var names := Sorted(NamesOf(sources));
    NamesAt(sources);
    SortedNames(NamesOf(sources));
    CopiedExactly(map[], sources);
    SortedIsAscending(NamesOf(sources));
    SortedIsAscending(names);
    AscendingIsUnique(Sorted(names), names);
    forall name | name in names ensures IsBasename(name) && name in Copied(map[], sources) {
      var k :| 0 <= k < |sources| && NamesOf(sources)[k] == name;
      assert sources[k] in sources && sources[k].name == name;
    }
    NoAssetFault(Copied(map[], sources), names);
  }

  /** The fault of the staging, or what the validator finds in the manifest, or the names. */
  function PrepareOutcome(hash: Content -> string, sources: seq<Source>): Result<seq<string>, BundleError> {
    var staged := StageOutcome(sources);
    if staged.Err? then staged
    else
      var problem := FirstProblem(SplitLines(ManifestOf(hash, Copied(map[], sources), staged.value)));
      if problem.Some? then Err(BadManifest(problem.value)) else staged
  }

  // ---------- Operations ----------

  class StagingDir {
    var files: Files

    constructor ()
      ensures files == map[]
    {
      files := map[];
    }

    /** A fault stops the staging; the sources before it stay copied. */
    method Stage(sources: seq<Source>) returns (r: Result<seq<string>, BundleError>)
      modifies this
      ensures files == Copied(old(files), sources[..FaultlessCount(sources)])
      ensures r == StageOutcome(sources)
    {
      var seen: seq<string> := [];
      for i := 0 to |sources|
        invariant FaultlessCount(sources[..i]) == i
        invariant seen == NamesOf(sources[..i])
        invariant files == Copied(old(files), sources[..i])
      {
        var s := sources[i];
        assert sources[..i + 1][..i] == sources[..i] && sources[..i + 1][i] == s;
        if s.content.None? {
          FirstFault(sources, i);
          return Err(MissingSource(s.name));
        }
        if !IsBasename(s.name) {
          FirstFault(sources, i);
          return Err(BadName(s.name));
        }
        if s.name in seen {
          FirstFault(sources, i);
          return Err(DuplicateName(s.name));
        }
        seen := seen + [s.name];
        files := files[s.name := s.content.value];
      }
      assert sources[..|sources|] == sources;
      return Ok(Sorted(seen));
    }

    /** A fault leaves the directory as it was; otherwise only the manifest is written. */
    method WriteSums(hash: Content -> string, basenames: seq<string>) returns (r: Result<(), BundleError>)
      modifies this
      ensures var fault := FirstAssetFault(old(files), Sorted(basenames));
              if fault.Some? then r == Err(fault.value) && files == old(files)
              else r == Ok(()) && files == old(files)[MANIFEST := ManifestOf(hash, old(files), basenames)]
    {
      var names := Sorted(basenames);
      var lines: seq<string> := [];
      for i := 0 to |names|
        invariant FirstAssetFault(files, names) == FirstAssetFault(files, names[i..])
        invariant lines == Printed(EntriesOf(hash, files, names[..i]))
        invariant files == old(files)
      {
        var name := names[i];
        assert names[i..][1..] == names[i + 1..];
        if !IsBasename(name) {
          return Err(BadName(name));
        }
        if name !in files {
          return Err(MissingAsset(name));
        }
        var digest := hash(files[name]);
        assert EntriesOf(hash, files, names[..i + 1]) == EntriesOf(hash, files, names[..i]) + [Entry(digest, name)];
        lines := lines + [digest + ("  " + name)];
      }
      assert names[..|names|] == names;
      files := files[MANIFEST := JoinLines(lines)];
      return Ok(());
    }

    /** The whole preparation, without the external check at its end. */
    method Prepare(hash: Content -> string, sources: seq<Source>) returns (r: Result<seq<string>, BundleError>)
      modifies this
      ensures r == PrepareOutcome(hash, sources)
      ensures r.Ok? ==> Stageable(sources) && r.value == Sorted(NamesOf(sources))
      ensures r.Ok? ==> files == Bundled(hash, Copied(map[], sources), r.value)
      ensures IsHash(hash) && Stageable(sources) && OneLineEach(NamesOf(sources)) ==> r.Ok?
      ensures IsHash(hash) && Stageable(sources) && OneLineEach(NamesOf(sources)) && MANIFEST !in NamesOf(sources) ==>
                Checks(hash, files)
    {
      files := map[];
      r := Stage(sources);
      StagesExactly(sources);
      if r.Err? {
        return;
      }
      assert sources[..|sources|] == sources;
      ghost var names, staged := r.value, files;
      var written := WriteSums(hash, r.value);
      if written.Ok? {
        var problem := ValidateManifest(files[MANIFEST]);
        if problem.Some? {
          r := Err(BadManifest(problem.value));
        }
      } else {
        r := Err(written.error);
      }
      StagedAreAssets(sources);
      if IsHash(hash) && OneLineEach(names) {
        ManifestRoundTrip(hash, staged, names);
        BundleChecks(hash, staged, names);
      }
    }
  }
}
