/**
 * The update report of main.js:221-289 (`upToDate`, `writeUpdateInfo`):
 * the catalog of the active repository is compared with the installed
 * packages, and the five `info.*` states are rewritten. The installed
 * inventory, the cached `system.config` / `system.repositories` objects and
 * the current time stamp are inputs.
 */
module UpdateReport {
  import opened Wrappers
  import opened Strings
  import opened SemVer

  /** One catalog entry: a package name and its published `version` (`None` when absent or empty). */
  datatype Package = Package(name: string, version: Option<Version>)

  /** The keys of a JavaScript object are distinct. */
  predicate DistinctNames(c: seq<Package>) {
    forall i, j :: 0 <= i < j < |c| ==> c[i].name != c[j].name
  }

  /** A repository's `json`: its entries in `for…in` order. */
  type Catalog = c: seq<Package> | DistinctNames(c)

  /** The installed packages: name to installed `version` (`None` when absent or empty). */
  type Inventory = map<string, Option<Version>>

  /** An `updatesJson` entry. */
  datatype Update = Update(availableVersion: Version, installedVersion: Version)

  /** The test of main.js:265-267 for one catalog entry. */
  predicate IsCandidate(p: Package, installed: Inventory) {
    && p.name in installed
    && installed[p.name].Some?
    && p.version.Some?
    && p.version.value != installed[p.name].value
    && !UpToDate(p.version.value, installed[p.name].value)
  }

  function CandidateUpdate(p: Package, installed: Inventory): Update
    requires IsCandidate(p, installed)
  {
    Update(p.version.value, installed[p.name].value)
  }

  /** A candidate is exactly a package that is installed and whose published version is strictly newer. */
  lemma CandidateMeansNewer(p: Package, installed: Inventory)
    ensures IsCandidate(p, installed) <==>
      p.name in installed && installed[p.name].Some? && p.version.Some? &&
      Greater(p.version.value, installed[p.name].value)
  {
    if p.name in installed && installed[p.name].Some? && p.version.Some? {
      NotUpToDateMeansNewer(p.version.value, installed[p.name].value);
    }
  }

  /** `name` with everything up to and including its first `.` removed (main.js:276-278). */
  function DisplayName(name: string): (r: string)
    ensures '.' !in name ==> r == name
    ensures '.' in name ==> exists head :: '.' !in head && name == head + "." + r
  {
    var n := IndexOf(name, '.');
    if n == -1 then name
    else
      assert name == name[..n] + "." + name[n + 1..];
      name[n + 1..]
  }

  /** The `updatesJson` built from the entries of `c`. */
  function Candidates(c: seq<Package>, installed: Inventory): map<string, Update> {
    if c == [] then map[]
    else
      var p := c[|c| - 1];
      var m := Candidates(c[..|c| - 1], installed);
      if IsCandidate(p, installed) then m[p.name := CandidateUpdate(p, installed)] else m
  }

  /** The `list` built from the entries of `c`. */
  function DisplayNames(c: seq<Package>, installed: Inventory): seq<string> {
    if c == [] then []
    else
      var p := c[|c| - 1];
      DisplayNames(c[..|c| - 1], installed) + (if IsCandidate(p, installed) then [DisplayName(p.name)] else [])
  }

  /** A candidate is new to the user when the previous report lacks it or lists another available version. */
  predicate IsNew(p: Package, previous: map<string, Update>)
    requires p.version.Some?
  {
    p.name !in previous || previous[p.name].availableVersion != p.version.value
  }

  /** The `newUpdateIndicator` built from the entries of `c`. */
  predicate AnyNew(c: seq<Package>, installed: Inventory, previous: map<string, Update>) {
    if c == [] then false
    else
      var p := c[|c| - 1];
      AnyNew(c[..|c| - 1], installed, previous) || (IsCandidate(p, installed) && IsNew(p, previous))
  }

  /**
   * `updatesJson` holds exactly the candidates of the catalog, each with its
   * published and installed version.
   */
  lemma {:induction false} CandidatesAreUpdates(c: seq<Package>, installed: Inventory)
    requires DistinctNames(c)
    ensures forall name :: name in Candidates(c, installed) <==>
      exists i :: 0 <= i < |c| && c[i].name == name && IsCandidate(c[i], installed)
    ensures forall i :: 0 <= i < |c| && IsCandidate(c[i], installed) ==>
      Candidates(c, installed)[c[i].name] == CandidateUpdate(c[i], installed)
  {
    if c != [] {
      var init := c[..|c| - 1];
      CandidatesAreUpdates(init, installed);
      forall i | 0 <= i < |init| ensures init[i] == c[i] { }
    }
  }

  /** `updatesNumber`, the length of the list, is the number of `updatesJson` keys. */
  lemma {:induction false} CountMatchesKeys(c: seq<Package>, installed: Inventory)
    requires DistinctNames(c)
    ensures |DisplayNames(c, installed)| == |Candidates(c, installed)|
  {
    if c != [] {
      var init := c[..|c| - 1];
      var p := c[|c| - 1];
      CountMatchesKeys(init, installed);
      CandidatesAreUpdates(init, installed);
      assert p.name !in Candidates(init, installed);
    }
  }

  /**
   * `newUpdates` is set exactly when some candidate is missing from the
   * previous `updatesJson` or listed there with another available version.
   */
  lemma {:induction false} AnyNewMeansUnseen(c: seq<Package>, installed: Inventory, previous: map<string, Update>)
    requires DistinctNames(c)
    ensures AnyNew(c, installed, previous) <==>
      (exists name :: name in Candidates(c, installed) &&
        (name !in previous || previous[name].availableVersion != Candidates(c, installed)[name].availableVersion))
  {
    CandidatesAreUpdates(c, installed);
    if c != [] {
      var init := c[..|c| - 1];
      var p := c[|c| - 1];
      AnyNewMeansUnseen(init, installed, previous);
      CandidatesAreUpdates(init, installed);
      assert p.name !in Candidates(init, installed);
      if AnyNew(init, installed, previous) {
        var name :| name in Candidates(init, installed) &&
          (name !in previous || previous[name].availableVersion != Candidates(init, installed)[name].availableVersion);
        assert name != p.name;
        assert name in Candidates(c, installed);
      }
    }
  }

  /** Recomputing with the report just written as the previous one reports nothing new. */
  lemma RecheckIsNotNew(c: seq<Package>, installed: Inventory)
    requires DistinctNames(c)
    ensures !AnyNew(c, installed, Candidates(c, installed))
  {
    AnyNewMeansUnseen(c, installed, Candidates(c, installed));
  }

  /**
   * The loop of main.js:263-281: the candidate map, the display list and the
   * new-update indicator, computed in one pass over the catalog.
   */
  method ComputeReport(c: Catalog, installed: Inventory, previous: map<string, Update>)
    returns (updatesJson: map<string, Update>, list: seq<string>, newUpdates: bool)
    ensures updatesJson == Candidates(c, installed)
    ensures list == DisplayNames(c, installed)
    ensures newUpdates == AnyNew(c, installed, previous)
    ensures |list| == |updatesJson|
  {
    updatesJson, list, newUpdates := map[], [], false;
    for i := 0 to |c|
      invariant updatesJson == Candidates(c[..i], installed)
      invariant list == DisplayNames(c[..i], installed)
      invariant newUpdates == AnyNew(c[..i], installed, previous)
    {
      assert c[..i + 1][..i] == c[..i];
      var p := c[i];
      if p.name in installed && installed[p.name].Some? && p.version.Some? {
        var available, current := p.version.value, installed[p.name].value;
        if available != current && !UpToDate(available, current) {
          if p.name !in previous || previous[p.name].availableVersion != available {
            newUpdates := true;
          }
          updatesJson := updatesJson[p.name := Update(available, current)];
          list := list + [DisplayName(p.name)];
        }
      }
    }
    assert c[..|c|] == c;
    CountMatchesKeys(c, installed);
  }

  // ---------------------------------------------------------------------------
  // the persisted report

  /** An entry of `system.repositories`' `native.repositories`; `json` is its cached catalog. */
  datatype Repository = Repository(json: Option<Catalog>)

  /**
   * The catalog of the active repository, if the cached
   * `system.repositories` object has one (main.js:236-238).
   */
  function ActiveCatalog(activeRepo: string, repositories: Option<map<string, Repository>>): (r: Option<Catalog>)
    ensures r.Some? <==> repositories.Some? && activeRepo in repositories.value && repositories.value[activeRepo].json.Some?
    ensures r.Some? ==> r.value == repositories.value[activeRepo].json.value
  {
    if repositories.Some? && activeRepo in repositories.value then repositories.value[activeRepo].json else None
  }

  /** The `info.*` states this adapter maintains (main.js:240-243, 282-287). */
  class UpdateInfo {
    var updatesNumber: nat
    var updatesList: string
    var newUpdates: bool
    var updatesJson: map<string, Update>
    var lastUpdateCheck: string

    /** The number of updates always matches the report's entries. */
    ghost predicate Valid()
      reads this
    {
      updatesNumber == |updatesJson|
    }

    /**
     * The defaults the state objects are created with (main.js:118-219):
     * 0, `''`, `false`, and `'{}'` for both `updatesJson` (the empty map)
     * and `lastUpdateCheck`.
     */
    constructor ()
      ensures Valid()
      ensures updatesNumber == 0 && updatesList == "" && !newUpdates && updatesJson == map[] && lastUpdateCheck == "{}"
    {
      updatesNumber, updatesList, newUpdates, updatesJson, lastUpdateCheck := 0, "", false, map[], "{}";
    }

    /**
     * `writeUpdateInfo(adapter)` (main.js:226-289). `activeRepo` is `None`
     * when `system.config` or its `common` part is missing; `repositories` is
     * `None` when `system.repositories` has no `native.repositories`; `now`
     * is the time stamp written to `lastUpdateCheck`. The previous
     * `updatesJson` is the state's current value.
     */
    method WriteUpdateInfo(activeRepo: Option<string>, repositories: Option<map<string, Repository>>,
                           installed: Inventory, now: string)
      requires Valid()
      modifies this
      ensures Valid()
      ensures activeRepo.None? ==>
        && updatesNumber == old(updatesNumber) && updatesList == old(updatesList)
        && newUpdates == old(newUpdates) && updatesJson == old(updatesJson)
        && lastUpdateCheck == old(lastUpdateCheck)
      ensures activeRepo.Some? && ActiveCatalog(activeRepo.value, repositories).None? ==>
        && updatesNumber == 0 && updatesList == "" && !newUpdates && updatesJson == map[]
        && lastUpdateCheck == now
      ensures activeRepo.Some? && ActiveCatalog(activeRepo.value, repositories).Some? ==>
        var c := ActiveCatalog(activeRepo.value, repositories).value;
        && updatesJson == Candidates(c, installed)
        && updatesList == Join(DisplayNames(c, installed), ", ")
        && updatesNumber == |DisplayNames(c, installed)|
        && newUpdates == AnyNew(c, installed, old(updatesJson))
        && lastUpdateCheck == now
    {
      if activeRepo.None? {
        return;
      }
      var catalog := ActiveCatalog(activeRepo.value, repositories);
      if catalog.None? {
        updatesNumber, updatesList, newUpdates, updatesJson := 0, "", false, map[];
        lastUpdateCheck := now;
        return;
      }
      var json, list, discovered := ComputeReport(catalog.value, installed, updatesJson);
      updatesNumber := |list|;
      updatesList := Join(list, ", ");
      newUpdates := discovered;
      updatesJson := json;
      lastUpdateCheck := now;
    }
  }

  // ---------------------------------------------------------------------------
  // worked cases

  /** A newer published version is reported, with both versions. */
  lemma UpdateDetected()
    ensures var c := [Package("a", Some(Version(2, 0, 0)))];
      var installed := map["a" := Some(Version(1, 0, 0))];
      Candidates(c, installed) == map["a" := Update(Version(2, 0, 0), Version(1, 0, 0))] &&
      |DisplayNames(c, installed)| == 1
  {
    var c := [Package("a", Some(Version(2, 0, 0)))];
    assert c[..0] == [];
  }

  /** An installed version newer than the published one is not an update. */
  lemma NoDowngrade()
    ensures var c := [Package("a", Some(Version(1, 0, 0)))];
      Candidates(c, map["a" := Some(Version(2, 0, 0))]) == map[]
  {
    var c := [Package("a", Some(Version(1, 0, 0)))];
    assert c[..0] == [];
  }

  /** A version bump of an already reported update is new again. */
  lemma BumpIsNew()
    ensures var installed := map["a" := Some(Version(1, 0, 0))];
      var previous := map["a" := Update(Version(2, 0, 0), Version(1, 0, 0))];
      !AnyNew([Package("a", Some(Version(2, 0, 0)))], installed, previous) &&
      AnyNew([Package("a", Some(Version(2, 0, 1)))], installed, previous)
  {
    assert [Package("a", Some(Version(2, 0, 0)))][..0] == [];
    assert [Package("a", Some(Version(2, 0, 1)))][..0] == [];
  }

  /** The namespace part of a package name is not displayed. */
  lemma NamespaceStripped()
    ensures DisplayName("admin.myplugin") == "myplugin"
  {
    assert IndexOf("admin.myplugin", '.') == 5;
  }
}
