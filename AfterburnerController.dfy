/**
 * The loader's controller: which configuration sections become profiles, where
 * `MSIAfterburner.exe` is looked for, and what the tray menu's commands do to the
 * store and to the launcher.
 *
 * The operating system is a parameter throughout: the module path, whether a
 * file exists, whether its signature validates, the folder the picker returns,
 * whether the store's file opens for writing, and what a launch reports.
 */
module Loader {
  import opened Wrappers
  import opened Seqs
  import opened Text
  import opened StringOrder
  import opened FileSystem
  import opened ConfigFormat
  import opened ConfigFile

  const ConfigName: string := "MSIAfterburnerLoader.cfg"
  const MainSection: string := "Main"
  const StartupDelayKey: string := "StartupDelay"
  const StartupProfileKey: string := "StartupProfile"
  const AfterburnerDirKey: string := "AfterburnerDirPath"
  const ProfileNameKey: string := "Name"
  const ProfileEnabledKey: string := "Enabled"
  const LanguageKey: string := "Lang"
  const EnableRunAfterburnerKey: string := "EnableRunAfterburnerMenuItem"

  const ProfilesCount: int := 5
  const DefaultProfileNamePrefix: string := "Profile "
  const MaxStartupProfileDelay: int := 120
  const InvalidStartupProfileId: int := -1
  const ProfileArgPrefix: string := "-Profile"
  const ProfileArgQuit: string := " -q"
  const AfterburnerExeName: string := "MSIAfterburner.exe"
  const DefaultAfterburnerDirs: seq<string> := ["Program Files (x86)\\MSI Afterburner", "Program Files\\MSI Afterburner"]

  // Which sections are profiles.

  /**
   * The profile id a section stands for: a section other than `Main` whose
   * `Enabled` value reads as a non-zero number, and whose name `stoi` reads as
   * a number from 1 to the profile count. Any other section is no profile.
   */
  function ProfileId(store: Store, section: string): (r: Option<int>)
    ensures r.Some? <==> && section != MainSection && GetInt(store, section, ProfileEnabledKey, 0) != 0
                         && Stoi(section).Some? && 1 <= Stoi(section).value <= ProfilesCount
    ensures r.Some? ==> Stoi(section) == r
  {
    if section != MainSection && GetInt(store, section, ProfileEnabledKey, 0) != 0 then
      match Stoi(section)
      case Some(id) => if 0 < id <= ProfilesCount then Some(id) else None
      case None => None
    else None
  }

  /**
   * Of the sections `1` (enabled), `2` (`Enabled=0`), `x` (enabled, but not a
   * number) and `9` (enabled, but above the profile count), only `1` is a profile.
   */
  lemma ProfileSectionsExample(store: Store)
    requires store == map["1" := map["Enabled" := "1"], "2" := map["Enabled" := "0"],
                          "x" := map["Enabled" := "1"], "9" := map["Enabled" := "1"]]
    ensures ProfileId(store, "1") == Some(1)
    ensures ProfileId(store, "2") == None
    ensures ProfileId(store, "x") == None
    ensures ProfileId(store, "9") == None
  {
    TrimOfTrimmed(ProfileEnabledKey);
    TrimOfTrimmed("1");
    TrimOfTrimmed("2");
    TrimOfTrimmed("x");
    TrimOfTrimmed("9");
    StoiOfIntToString(1, []);
    StoiOfIntToString(0, []);
    StoiOfIntToString(9, []);
    assert IntToString(1) + [] == "1";
    assert IntToString(0) + [] == "0";
    assert IntToString(9) + [] == "9";
    StoiWithoutDigits("x");
    assert GetValue(store, "1", ProfileEnabledKey) == "1";
    assert GetValue(store, "2", ProfileEnabledKey) == "0";
    assert GetInt(store, "1", ProfileEnabledKey, 0) == 1;
    assert GetInt(store, "2", ProfileEnabledKey, 0) == 0;
  }

  /** The profile's display name: its `Name` value, or `Profile <id>` when that is empty. */
  function ProfileName(store: Store, section: string, id: int): (name: string)
    ensures name != []
    ensures GetValue(store, section, ProfileNameKey) != [] ==> name == GetValue(store, section, ProfileNameKey)
    ensures GetValue(store, section, ProfileNameKey) == [] ==> name == DefaultProfileNamePrefix + IntToString(id)
  {
    GetString(store, section, ProfileNameKey, DefaultProfileNamePrefix + IntToString(id))
  }

  /** A profile found in a section: its id and display name. */
  datatype Entry = Entry(id: int, name: string)

  /** What the section loop of `applyConfig` finds in one section. */
  function SectionEntry(store: Store, section: string): (e: Option<Entry>)
    ensures e.Some? <==> ProfileId(store, section).Some?
    ensures e.Some? ==> e.value.id == ProfileId(store, section).value && e.value.name == ProfileName(store, section, e.value.id)
  {
    match ProfileId(store, section)
    case None => None
    case Some(id) => Some(Entry(id, ProfileName(store, section, id)))
  }

  /** What the section loop finds in each of `sections`, in order. */
  function SectionEntries(store: Store, sections: seq<string>): (es: seq<Option<Entry>>)
    ensures |es| == |sections|
    ensures forall i :: 0 <= i < |sections| ==> es[i] == SectionEntry(store, sections[i])
  {
    seq(|sections|, i requires 0 <= i < |sections| => SectionEntry(store, sections[i]))
  }

  /** The controller's view of the profiles: name to id, and the startup profile. */
  datatype Profiles = Profiles(enabled: map<string, int>, startupId: int, startupName: string)

  /**
   * One iteration of the section loop of `applyConfig`: a profile is added under
   * its name unless that name is already taken (`emplace`), and becomes the
   * startup profile when its id is the stored one.
   */
  function ScanStep(startup: int, p: Profiles, e: Option<Entry>): Profiles
  {
    match e
    case None => p
    case Some(Entry(id, name)) =>
      Profiles(
        if name in p.enabled then p.enabled else p.enabled[name := id],
        if startup == id then id else p.startupId,
        if startup == id then name else p.startupName)
  }

  /** The section loop of `applyConfig` over the findings `es`, in order, from `p`. */
  function Scan(startup: int, p: Profiles, es: seq<Option<Entry>>): Profiles
  {
    if es == [] then p
    else ScanStep(startup, Scan(startup, p, es[..|es| - 1]), es[|es| - 1])
  }

  lemma ScanPrefix(startup: int, p: Profiles, es: seq<Option<Entry>>, i: nat)
    requires i < |es|
    ensures Scan(startup, p, es[..i + 1]) == ScanStep(startup, Scan(startup, p, es[..i]), es[i])
  {
    PrefixOfPrefix(es, i, i + 1);
  }

  /** Some finding in `es` is a profile shown under `name`. */
  predicate Names(es: seq<Option<Entry>>, name: string)
  {
    exists i :: 0 <= i < |es| && es[i].Some? && es[i].value.name == name
  }

  /** A profile name is known after the scan iff it was known before or some finding carries it. */
  lemma {:induction false} ScanEnabled(startup: int, p: Profiles, es: seq<Option<Entry>>, name: string)
    ensures name in Scan(startup, p, es).enabled <==> name in p.enabled || Names(es, name)
    decreases |es|
  {
    if es != [] {
      var init := es[..|es| - 1];
      ScanEnabled(startup, p, init, name);
      if Names(init, name) {
        var i :| 0 <= i < |init| && init[i].Some? && init[i].value.name == name;
        assert es[i] == init[i];
      }
      if Names(es, name) {
        var i :| 0 <= i < |es| && es[i].Some? && es[i].value.name == name;
        if i < |init| {
          assert init[i] == es[i];
        }
      }
    }
  }

  /** `emplace` never overwrites: a name known before the scan keeps its id. */
  lemma {:induction false} ScanKeeps(startup: int, p: Profiles, es: seq<Option<Entry>>, name: string)
    requires name in p.enabled
    ensures name in Scan(startup, p, es).enabled
    ensures Scan(startup, p, es).enabled[name] == p.enabled[name]
    decreases |es|
  {
    if es != [] {
      ScanKeeps(startup, p, es[..|es| - 1], name);
    }
  }

  /** The first finding that carries a new name decides its id: later findings with that name are dropped. */
  lemma {:induction false} ScanFirstWins(startup: int, p: Profiles, es: seq<Option<Entry>>, name: string, i: nat)
    requires name !in p.enabled
    requires i < |es| && es[i].Some? && es[i].value.name == name
    requires forall j :: 0 <= j < i ==> es[j].None? || es[j].value.name != name
    ensures name in Scan(startup, p, es).enabled
    ensures Scan(startup, p, es).enabled[name] == es[i].value.id
    decreases |es|
  {
    var init := es[..|es| - 1];
    if i < |init| {
      ScanFirstWins(startup, p, init, name, i);
      var before := Scan(startup, p, init);
      assert name in before.enabled;
    } else {
      assert name !in Scan(startup, p, init).enabled by {
        assert forall j :: 0 <= j < |init| ==> init[j] == es[j];
        ScanEnabled(startup, p, init, name);
      }
    }
  }

  /** Every id the scan records is from 1 to the profile count, and so is a recorded startup id. */
  lemma {:induction false} ScanIdsInRange(startup: int, p: Profiles, es: seq<Option<Entry>>)
    requires forall i :: 0 <= i < |es| && es[i].Some? ==> 1 <= es[i].value.id <= ProfilesCount
    requires forall n :: n in p.enabled ==> 1 <= p.enabled[n] <= ProfilesCount
    requires p.startupId == InvalidStartupProfileId || 1 <= p.startupId <= ProfilesCount
    ensures var r := Scan(startup, p, es);
      && (forall n :: n in r.enabled ==> 1 <= r.enabled[n] <= ProfilesCount)
      && (r.startupId == InvalidStartupProfileId || 1 <= r.startupId <= ProfilesCount)
    decreases |es|
  {
    if es != [] {
      ScanIdsInRange(startup, p, es[..|es| - 1]);
    }
  }

  /** When no finding has the stored startup id, the startup profile is left as it was. */
  lemma {:induction false} ScanStartupAbsent(startup: int, p: Profiles, es: seq<Option<Entry>>)
    requires forall i :: 0 <= i < |es| && es[i].Some? ==> es[i].value.id != startup
    ensures Scan(startup, p, es).startupId == p.startupId
    ensures Scan(startup, p, es).startupName == p.startupName
    decreases |es|
  {
    if es != [] {
      ScanStartupAbsent(startup, p, es[..|es| - 1]);
    }
  }

  /**
   * The last finding with the stored startup id becomes the startup profile,
   * under that finding's name, whether or not its name was already taken.
   */
  lemma {:induction false} ScanStartupLast(startup: int, p: Profiles, es: seq<Option<Entry>>, i: nat)
    requires i < |es| && es[i].Some? && es[i].value.id == startup
    requires forall j :: i < j < |es| && es[j].Some? ==> es[j].value.id != startup
    ensures Scan(startup, p, es).startupId == startup
    ensures Scan(startup, p, es).startupName == es[i].value.name
    decreases |es|
  {
    var init := es[..|es| - 1];
    if i < |init| {
      ScanStartupLast(startup, p, init, i);
    }
  }

  /**
   * Over the store's sections in the map's order, a new name goes to the section
   * whose name sorts first among those showing that name.
   */
  lemma SmallestSectionWins(store: Store, startup: int, p: Profiles, section: string, name: string)
    requires name !in p.enabled
    requires section in store && Yields(store, section, name)
    requires forall t :: t in store && Below(t, section) ==> !Yields(store, t, name)
    ensures var r := Scan(startup, p, SectionEntries(store, ListSections(store)));
      name in r.enabled && r.enabled[name] == ProfileId(store, section).value
  {
    var sections := ListSections(store);
    var es := SectionEntries(store, sections);
    ListSectionsOrdered(store);
    var i :| 0 <= i < |sections| && sections[i] == section;
    forall j | 0 <= j < i
      ensures es[j].None? || es[j].value.name != name
    {
      assert Below(sections[j], sections[i]);
    }
    ScanFirstWins(startup, p, es, name, i);
  }

  /** The section is a profile shown under `name`. */
  predicate Yields(store: Store, section: string, name: string)
  {
    ProfileId(store, section).Some? && ProfileName(store, section, ProfileId(store, section).value) == name
  }

  // Where the executable is looked for.

  /**
   * `getValidAfterburnerPath`: the executable's path in `dir` when that file
   * exists and its signature validates, else the empty text.
   */
  function ValidPath(dir: string, fileExists: string -> bool, signatureOk: string -> bool): string
  {
    var full := DirWithFile(dir, AfterburnerExeName);
    if fileExists(full) && signatureOk(full) then full else []
  }

  /** A path `getValidAfterburnerPath` accepts is the executable in that directory, and passed both checks. */
  lemma ValidPathIn(dir: string, fileExists: string -> bool, signatureOk: string -> bool)
    ensures var p := ValidPath(dir, fileExists, signatureOk);
      && (p != [] <==> fileExists(DirWithFile(dir, AfterburnerExeName)) && signatureOk(DirWithFile(dir, AfterburnerExeName)))
      && (p != [] ==> p == DirWithFile(dir, AfterburnerExeName) && DirWithoutFile(p) == dir)
  {
    DirWithoutFileOfDirWithFile(dir, AfterburnerExeName);
  }

  /** The default directory `dir` on drive number `k` (0 for `A:`, up to 25 for `Z:`). */
  function DriveDir(k: nat, dir: string): string
    requires k < 26
  {
    [('A' as int + k) as char, ':', PathDelimiter] + dir
  }

  /** The default locations: every drive from `A:` to `Z:` with the first default directory, then with the second. */
  function DriveDirs(): (ds: seq<string>)
    ensures |ds| == 26 * |DefaultAfterburnerDirs|
  {
    seq(26 * |DefaultAfterburnerDirs|, j requires 0 <= j < 26 * |DefaultAfterburnerDirs| => DriveDir(j % 26, DefaultAfterburnerDirs[j / 26]))
  }

  /**
   * The directories discovery tries, in order: the stored one when it is not
   * empty, the application's own, the default locations, and the picked folder.
   */
  function Candidates(stored: string, ownDir: string, picked: string): seq<string>
  {
    (if stored != [] then [stored] else []) + [ownDir] + DriveDirs() + [picked]
  }

  /** The executable in the first of `dirs` that holds a valid one, or the empty text. */
  function FirstValid(dirs: seq<string>, fileExists: string -> bool, signatureOk: string -> bool): string
  {
    if dirs == [] then []
    else
      var p := ValidPath(dirs[0], fileExists, signatureOk);
      if p != [] then p else FirstValid(dirs[1..], fileExists, signatureOk)
  }

  /** Nothing is found iff no directory holds a valid executable. */
  lemma {:induction false} FirstValidEmpty(dirs: seq<string>, fileExists: string -> bool, signatureOk: string -> bool)
    ensures FirstValid(dirs, fileExists, signatureOk) == [] <==>
      forall i :: 0 <= i < |dirs| ==> ValidPath(dirs[i], fileExists, signatureOk) == []
  {
    if dirs != [] {
      var rest := dirs[1..];
      FirstValidEmpty(rest, fileExists, signatureOk);
      assert forall i :: 0 < i < |dirs| ==> dirs[i] == rest[i - 1];
    }
  }

  /** What is found comes from the first directory that holds a valid executable; its index is `i`. */
  lemma {:induction false} FirstValidIndex(dirs: seq<string>, fileExists: string -> bool, signatureOk: string -> bool) returns (i: nat)
    requires FirstValid(dirs, fileExists, signatureOk) != []
    ensures i < |dirs| && ValidPath(dirs[i], fileExists, signatureOk) == FirstValid(dirs, fileExists, signatureOk)
    ensures forall j :: 0 <= j < i ==> ValidPath(dirs[j], fileExists, signatureOk) == []
  {
    if ValidPath(dirs[0], fileExists, signatureOk) != [] {
      i := 0;
    } else {
      var rest := dirs[1..];
      var k := FirstValidIndex(rest, fileExists, signatureOk);
      i := k + 1;
      assert forall j :: 0 < j <= i ==> dirs[j] == rest[j - 1];
    }
  }

  /** Searching two lists in turn: the second only matters when nothing is found in the first. */
  lemma {:induction false} FirstValidAppend(dirs: seq<string>, more: seq<string>, fileExists: string -> bool, signatureOk: string -> bool)
    ensures FirstValid(dirs + more, fileExists, signatureOk) ==
      var p := FirstValid(dirs, fileExists, signatureOk);
      if p != [] then p else FirstValid(more, fileExists, signatureOk)
    decreases |dirs|
  {
    if dirs == [] {
      assert [] + more == more;
    } else {
      assert (dirs + more)[0] == dirs[0];
      assert (dirs + more)[1..] == dirs[1..] + more;
      FirstValidAppend(dirs[1..], more, fileExists, signatureOk);
    }
  }

  /** Searching one directory is checking it. */
  lemma FirstValidSingle(dir: string, fileExists: string -> bool, signatureOk: string -> bool)
    ensures FirstValid([dir], fileExists, signatureOk) == ValidPath(dir, fileExists, signatureOk)
  {
    assert [dir][1..] == [];
  }

  // The defaults written when there is no configuration file.

  /** The startup delay and the menu switch `applyConfig` writes when the file is missing. */
  const DefaultStartupProfileDelay: int := 5
  const DefaultEnabled: int := 1

  /** The `Main` entries of a new file: the delay, an empty startup profile, directory and language, the menu switch on. */
  function MainDefaults(store: Store): Store
  {
    var s1 := Assign(store, MainSection, StartupDelayKey, IntToString(DefaultStartupProfileDelay));
    var s2 := Assign(s1, MainSection, StartupProfileKey, []);
    var s3 := Assign(s2, MainSection, AfterburnerDirKey, []);
    var s4 := Assign(s3, MainSection, LanguageKey, []);
    Assign(s4, MainSection, EnableRunAfterburnerKey, IntToString(DefaultEnabled))
  }

  /** Profile section `n` of a new file, named `Profile <n>` and enabled. */
  function ProfileStep(store: Store, n: nat): Store
  {
    var section := IntToString(n);
    var named := Assign(store, section, ProfileNameKey, DefaultProfileNamePrefix + section);
    Assign(named, section, ProfileEnabledKey, IntToString(DefaultEnabled))
  }

  /** The profile sections `1` to `n` of a new file. */
  function ProfileDefaults(store: Store, n: nat): Store
  {
    if n == 0 then store else ProfileStep(ProfileDefaults(store, n - 1), n)
  }

  /** Everything `applyConfig` writes when the file is missing, over what the store held. */
  function Defaults(store: Store): Store
  {
    ProfileDefaults(MainDefaults(store), ProfilesCount)
  }

  /** The store holds something other than a `Main` default, so writing the defaults records a change. */
  predicate MainDefaultsDiffer(store: Store)
  {
    || GetValue(store, MainSection, StartupDelayKey) != IntToString(DefaultStartupProfileDelay)
    || GetValue(store, MainSection, StartupProfileKey) != []
    || GetValue(store, MainSection, AfterburnerDirKey) != []
    || GetValue(store, MainSection, LanguageKey) != []
    || GetValue(store, MainSection, EnableRunAfterburnerKey) != IntToString(DefaultEnabled)
  }

  /**
   * Each write of the `Main` defaults replaces what the store held before any
   * of them, since the five keys are distinct.
   */
  lemma MainDefaultsReplace(store: Store)
    ensures var s1 := Assign(store, MainSection, StartupDelayKey, IntToString(DefaultStartupProfileDelay));
      var s2 := Assign(s1, MainSection, StartupProfileKey, []);
      var s3 := Assign(s2, MainSection, AfterburnerDirKey, []);
      var s4 := Assign(s3, MainSection, LanguageKey, []);
      && GetValue(s1, MainSection, StartupProfileKey) == GetValue(store, MainSection, StartupProfileKey)
      && GetValue(s2, MainSection, AfterburnerDirKey) == GetValue(store, MainSection, AfterburnerDirKey)
      && GetValue(s3, MainSection, LanguageKey) == GetValue(store, MainSection, LanguageKey)
      && GetValue(s4, MainSection, EnableRunAfterburnerKey) == GetValue(store, MainSection, EnableRunAfterburnerKey)
  {
    var s1 := Assign(store, MainSection, StartupDelayKey, IntToString(DefaultStartupProfileDelay));
    var s2 := Assign(s1, MainSection, StartupProfileKey, []);
    var s3 := Assign(s2, MainSection, AfterburnerDirKey, []);
    var s4 := Assign(s3, MainSection, LanguageKey, []);
    var delay := IntToString(DefaultStartupProfileDelay);
    MainOtherKey(store, StartupDelayKey, delay, StartupProfileKey);
    MainOtherKey(store, StartupDelayKey, delay, AfterburnerDirKey);
    MainOtherKey(store, StartupDelayKey, delay, LanguageKey);
    MainOtherKey(store, StartupDelayKey, delay, EnableRunAfterburnerKey);
    MainOtherKey(s1, StartupProfileKey, [], AfterburnerDirKey);
    MainOtherKey(s1, StartupProfileKey, [], LanguageKey);
    MainOtherKey(s1, StartupProfileKey, [], EnableRunAfterburnerKey);
    MainOtherKey(s2, AfterburnerDirKey, [], LanguageKey);
    MainOtherKey(s2, AfterburnerDirKey, [], EnableRunAfterburnerKey);
    MainOtherKey(s3, LanguageKey, [], EnableRunAfterburnerKey);
  }

  /** Writing one `Main` entry leaves every other `Main` entry as it was. */
  lemma MainOtherKey(store: Store, key: string, value: string, other: string)
    requires IsTrimmed(other) && key != other
    ensures GetValue(Assign(store, MainSection, key, value), MainSection, other) == GetValue(store, MainSection, other)
  {
    TrimOfTrimmed(MainSection);
    TrimOfTrimmed(other);
    AssignFinds(store, MainSection, key, value);
  }

  /** Profile section `n` holds something other than its default name and switch. */
  predicate ProfileDiffers(store: Store, n: int)
  {
    || GetValue(store, IntToString(n), ProfileNameKey) != DefaultProfileNamePrefix + IntToString(n)
    || GetValue(store, IntToString(n), ProfileEnabledKey) != IntToString(DefaultEnabled)
  }

  /** Some profile section from `1` to `n` differs from its defaults. */
  predicate ProfilesDiffer(store: Store, n: nat)
  {
    n > 0 && (ProfilesDiffer(store, n - 1) || ProfileDiffers(store, n))
  }

  /** `ProfilesDiffer` holds exactly when some section from `1` to `n` differs from its defaults. */
  lemma {:induction false} ProfilesDifferSome(store: Store, n: nat)
    ensures ProfilesDiffer(store, n) <==> exists m :: 1 <= m <= n && ProfileDiffers(store, m)
  {
    if n > 0 {
      ProfilesDifferSome(store, n - 1);
      if ProfileDiffers(store, n) {
        assert 1 <= n <= n && ProfileDiffers(store, n);
      } else if ProfilesDiffer(store, n - 1) {
        var m :| 1 <= m <= n - 1 && ProfileDiffers(store, m);
        assert 1 <= m <= n && ProfileDiffers(store, m);
      } else {
        forall m | 1 <= m <= n
          ensures !ProfileDiffers(store, m)
        {
          if m < n {
            assert !(1 <= m <= n - 1 && ProfileDiffers(store, m));
          }
        }
      }
    }
  }

  /** Writing the defaults over `store` changes some value. */
  predicate DefaultsDiffer(store: Store)
  {
    MainDefaultsDiffer(store) || ProfilesDiffer(store, ProfilesCount)
  }

  /**
   * When the defaults loop reaches section `n`, that section still holds what
   * the store held before the loop: the earlier sections do not touch it.
   */
  lemma ProfileDiffersBefore(store: Store, n: int)
    requires 1 <= n <= ProfilesCount
    ensures ProfileDiffers(ProfileDefaults(store, n - 1), n) == ProfileDiffers(store, n)
  {
    var section := IntToString(n);
    var before := ProfileDefaults(store, n - 1);
    NumberTrimmed(n);
    EarlierSectionsDiffer(n);
    ProfileDefaultsOthers(store, n - 1, section, ProfileNameKey);
    ProfileDefaultsOthers(store, n - 1, section, ProfileEnabledKey);
    SameFindSameValue(before, store, section, ProfileNameKey);
    SameFindSameValue(before, store, section, ProfileEnabledKey);
  }

  /** Two stores that hold the same entry at a trimmed place give the same `getValue` there. */
  lemma SameFindSameValue(a: Store, b: Store, section: string, key: string)
    requires IsTrimmed(section) && IsTrimmed(key)
    requires Find(a, section, key) == Find(b, section, key)
    ensures GetValue(a, section, key) == GetValue(b, section, key)
  {
    TrimOfTrimmed(section);
    TrimOfTrimmed(key);
  }

  /** The `Main` defaults leave every profile section as it was. */
  lemma {:induction false} MainDefaultsKeepProfiles(store: Store, n: nat)
    ensures ProfilesDiffer(MainDefaults(store), n) == ProfilesDiffer(store, n)
  {
    if n > 0 {
      MainDefaultsKeepProfiles(store, n - 1);
      MainDefaultsKeepProfile(store, n);
    }
  }

  /** The `Main` defaults leave profile section `n` as it was. */
  lemma MainDefaultsKeepProfile(store: Store, n: int)
    ensures ProfileDiffers(MainDefaults(store), n) == ProfileDiffers(store, n)
  {
    var section := IntToString(n);
    NumberTrimmed(n);
    NumberIsNotMain(n);
    MainDefaultsFind(store);
    SameFindSameValue(MainDefaults(store), store, section, ProfileNameKey);
    SameFindSameValue(MainDefaults(store), store, section, ProfileEnabledKey);
  }

  /** A number's text and the default profile name built from it have no surrounding whitespace. */
  lemma NumberTrimmed(n: int)
    ensures IsTrimmed(IntToString(n)) && IsTrimmed(DefaultProfileNamePrefix + IntToString(n))
  {
    var t := IntToString(n);
    assert (DefaultProfileNamePrefix + t)[|DefaultProfileNamePrefix + t| - 1] == t[|t| - 1];
  }

  /** A new file has a `Main` section, so it is not empty. */
  lemma DefaultsHaveMain(store: Store)
    ensures MainSection in Defaults(store)
  {
    MainDefaultsFind(store);
    DefaultsMainFind(store, StartupDelayKey);
  }

  /** A profile section's name is never `Main`. */
  lemma NumberIsNotMain(n: int)
    ensures IntToString(n) != MainSection
  {
    assert IntToString(n)[0] != MainSection[0];
  }

  /** Different numbers below `n` name different sections. */
  lemma EarlierSectionsDiffer(n: int)
    requires n <= ProfilesCount
    ensures forall m :: 1 <= m < n ==> IntToString(m) != IntToString(n)
  {
    forall m | 1 <= m < n
      ensures IntToString(m) != IntToString(n)
    {
      if IntToString(m) == IntToString(n) {
        IntToStringInjective(m, n);
      }
    }
  }

  /** The profile sections `1` to `n` hold their name and switch. */
  lemma {:induction false} ProfileDefaultsFind(store: Store, n: nat)
    requires n <= ProfilesCount
    ensures forall m :: 1 <= m <= n ==>
      && Find(ProfileDefaults(store, n), IntToString(m), ProfileNameKey) == Some(DefaultProfileNamePrefix + IntToString(m))
      && Find(ProfileDefaults(store, n), IntToString(m), ProfileEnabledKey) == Some(IntToString(DefaultEnabled))
  {
    if n > 0 {
      var section := IntToString(n);
      var before := ProfileDefaults(store, n - 1);
      var named := Assign(before, section, ProfileNameKey, DefaultProfileNamePrefix + section);
      ProfileDefaultsFind(store, n - 1);
      AssignFinds(before, section, ProfileNameKey, DefaultProfileNamePrefix + section);
      AssignFinds(named, section, ProfileEnabledKey, IntToString(DefaultEnabled));
      EarlierSectionsDiffer(n);
    }
  }

  /** Every section other than `1` to `n` is left as it was. */
  lemma {:induction false} ProfileDefaultsOthers(store: Store, n: nat, section: string, key: string)
    requires forall m :: 1 <= m <= n ==> section != IntToString(m)
    ensures Find(ProfileDefaults(store, n), section, key) == Find(store, section, key)
  {
    if n > 0 {
      var before := ProfileDefaults(store, n - 1);
      var named := Assign(before, IntToString(n), ProfileNameKey, DefaultProfileNamePrefix + IntToString(n));
      ProfileDefaultsOthers(store, n - 1, section, key);
      AssignFinds(before, IntToString(n), ProfileNameKey, DefaultProfileNamePrefix + IntToString(n));
      AssignFinds(named, IntToString(n), ProfileEnabledKey, IntToString(DefaultEnabled));
    }
  }

  /** The names of the profile sections `1` to `n`. */
  function NumberSections(n: nat): set<string>
  {
    if n == 0 then {} else NumberSections(n - 1) + {IntToString(n)}
  }

  /** The sections of `ProfileDefaults`: those there before, and `1` to `n`. */
  lemma {:induction false} ProfileDefaultsKeys(store: Store, n: nat)
    ensures ProfileDefaults(store, n).Keys == store.Keys + NumberSections(n)
  {
    if n > 0 {
      var before := ProfileDefaults(store, n - 1);
      var named := Assign(before, IntToString(n), ProfileNameKey, DefaultProfileNamePrefix + IntToString(n));
      ProfileDefaultsKeys(store, n - 1);
      AssignKeys(before, IntToString(n), ProfileNameKey, DefaultProfileNamePrefix + IntToString(n));
      AssignKeys(named, IntToString(n), ProfileEnabledKey, IntToString(DefaultEnabled));
    }
  }

  /** The `Main` entries of a new file, and nothing else changed. */
  lemma MainDefaultsFind(store: Store)
    ensures var d := MainDefaults(store);
      && Find(d, MainSection, StartupDelayKey) == Some(IntToString(DefaultStartupProfileDelay))
      && Find(d, MainSection, StartupProfileKey) == Some([])
      && Find(d, MainSection, AfterburnerDirKey) == Some([])
      && Find(d, MainSection, LanguageKey) == Some([])
      && Find(d, MainSection, EnableRunAfterburnerKey) == Some(IntToString(DefaultEnabled))
      && forall s, k :: s != MainSection ==> Find(d, s, k) == Find(store, s, k)
  {
    var s1 := Assign(store, MainSection, StartupDelayKey, IntToString(DefaultStartupProfileDelay));
    var s2 := Assign(s1, MainSection, StartupProfileKey, []);
    var s3 := Assign(s2, MainSection, AfterburnerDirKey, []);
    var s4 := Assign(s3, MainSection, LanguageKey, []);
    AssignFinds(store, MainSection, StartupDelayKey, IntToString(DefaultStartupProfileDelay));
    AssignFinds(s1, MainSection, StartupProfileKey, []);
    AssignFinds(s2, MainSection, AfterburnerDirKey, []);
    AssignFinds(s3, MainSection, LanguageKey, []);
    AssignFinds(s4, MainSection, EnableRunAfterburnerKey, IntToString(DefaultEnabled));
  }

  /** The number `setValue` stored as text reads back through the integer `getValue`. */
  lemma GetIntOfNumber(store: Store, section: string, key: string, n: int, defVal: int)
    requires InInt32(n)
    requires Find(store, Trim(section), Trim(key)) == Some(IntToString(n))
    ensures GetInt(store, section, key, defVal) == n
  {
    StoiOfIntToString(n, []);
    assert IntToString(n) + [] == IntToString(n);
  }

  /** In a new file, the sections `1` to `5` are profiles named `Profile 1` to `Profile 5`. */
  lemma DefaultProfiles(store: Store, n: int)
    requires 1 <= n <= ProfilesCount
    ensures SectionEntry(Defaults(store), IntToString(n)) == Some(Entry(n, DefaultProfileNamePrefix + IntToString(n)))
  {
    var d := Defaults(store);
    var section := IntToString(n);
    TrimOfTrimmed(section);
    assert Find(d, section, ProfileNameKey) == Some(DefaultProfileNamePrefix + section)
      && Find(d, section, ProfileEnabledKey) == Some(IntToString(DefaultEnabled)) by {
      ProfileDefaultsFind(MainDefaults(store), ProfilesCount);
    }
    assert GetInt(d, section, ProfileEnabledKey, 0) == DefaultEnabled by {
      TrimOfTrimmed(ProfileEnabledKey);
      GetIntOfNumber(d, section, ProfileEnabledKey, DefaultEnabled, 0);
    }
    assert Stoi(section) == Some(n) by {
      StoiOfIntToString(n, []);
      assert section + [] == section;
    }
    assert ProfileName(d, section, n) == DefaultProfileNamePrefix + section by {
      TrimOfTrimmed(ProfileNameKey);
    }
    NumberIsNotMain(n);
  }

  /** `Main` of a new file holds what `MainDefaults` wrote: the profile sections are other sections. */
  lemma DefaultsMainFind(store: Store, key: string)
    ensures Find(Defaults(store), MainSection, key) == Find(MainDefaults(store), MainSection, key)
  {
    forall k: int | 1 <= k <= ProfilesCount
      ensures MainSection != IntToString(k)
    {
      NumberIsNotMain(k);
    }
    ProfileDefaultsOthers(MainDefaults(store), ProfilesCount, MainSection, key);
  }

  /** Writing the defaults a second time changes nothing, so it records no change. */
  lemma DefaultsSettled(store: Store)
    ensures !DefaultsDiffer(Defaults(store))
  {
    DefaultsMainSettled(store);
    DefaultsProfilesSettled(store);
  }

  /** A new file's `Main` entries are the `Main` defaults. */
  lemma DefaultsMainSettled(store: Store)
    ensures !MainDefaultsDiffer(Defaults(store))
  {
    TrimOfTrimmed(MainSection);
    TrimOfTrimmed(StartupDelayKey);
    TrimOfTrimmed(StartupProfileKey);
    TrimOfTrimmed(AfterburnerDirKey);
    TrimOfTrimmed(LanguageKey);
    TrimOfTrimmed(EnableRunAfterburnerKey);
    MainDefaultsFind(store);
    DefaultsMainFind(store, StartupDelayKey);
    DefaultsMainFind(store, StartupProfileKey);
    DefaultsMainFind(store, AfterburnerDirKey);
    DefaultsMainFind(store, LanguageKey);
    DefaultsMainFind(store, EnableRunAfterburnerKey);
  }

  /** A new file's profile sections hold their default names and switches. */
  lemma DefaultsProfilesSettled(store: Store)
    ensures !ProfilesDiffer(Defaults(store), ProfilesCount)
  {
    var d := Defaults(store);
    ProfileDefaultsFind(MainDefaults(store), ProfilesCount);
    TrimOfTrimmed(ProfileNameKey);
    TrimOfTrimmed(ProfileEnabledKey);
    forall m | 1 <= m <= ProfilesCount
      ensures !ProfileDiffers(d, m)
    {
      NumberTrimmed(m);
      TrimOfTrimmed(IntToString(m));
    }
    ProfilesDifferSome(d, ProfilesCount);
  }

  /** A store without a file's entries differs from the defaults, so a first start has changes to save. */
  lemma FirstStartChanges(empty: Store)
    requires empty == map[]
    ensures DefaultsDiffer(empty)
  {
    TrimOfTrimmed(MainSection);
    TrimOfTrimmed(StartupDelayKey);
    assert GetValue(empty, MainSection, StartupDelayKey) == [];
  }

  /** In a new file, `Main` holds a delay of 5 seconds, no startup profile, no directory, and the menu switch on. */
  lemma DefaultMain(store: Store)
    ensures var d := Defaults(store);
      && StartupDelay(d) == DefaultStartupProfileDelay
      && GetValue(d, MainSection, StartupProfileKey) == []
      && GetValue(d, MainSection, AfterburnerDirKey) == []
      && GetValue(d, MainSection, LanguageKey) == []
      && RunAfterburnerMenuEnabled(d)
  {
    var d := Defaults(store);
    MainDefaultsFind(store);
    TrimOfTrimmed(MainSection);
    assert GetInt(d, MainSection, StartupDelayKey, 0) == DefaultStartupProfileDelay by {
      DefaultsMainFind(store, StartupDelayKey);
      TrimOfTrimmed(StartupDelayKey);
      GetIntOfNumber(d, MainSection, StartupDelayKey, DefaultStartupProfileDelay, 0);
    }
    assert GetInt(d, MainSection, EnableRunAfterburnerKey, 1) == DefaultEnabled by {
      DefaultsMainFind(store, EnableRunAfterburnerKey);
      TrimOfTrimmed(EnableRunAfterburnerKey);
      GetIntOfNumber(d, MainSection, EnableRunAfterburnerKey, DefaultEnabled, 1);
    }
    assert GetValue(d, MainSection, StartupProfileKey) == [] by {
      DefaultsMainFind(store, StartupProfileKey);
      TrimOfTrimmed(StartupProfileKey);
    }
    assert GetValue(d, MainSection, AfterburnerDirKey) == [] by {
      DefaultsMainFind(store, AfterburnerDirKey);
      TrimOfTrimmed(AfterburnerDirKey);
    }
    assert GetValue(d, MainSection, LanguageKey) == [] by {
      DefaultsMainFind(store, LanguageKey);
      TrimOfTrimmed(LanguageKey);
    }
  }

  // A first start: no configuration file.

  /** The sections `applyConfig` writes into an empty store: `Main` and `1` to `5`. */
  lemma DefaultsKeys(empty: Store)
    requires empty == map[]
    ensures Defaults(empty).Keys == {MainSection} + NumberSections(ProfilesCount)
  {
    var s1 := Assign(empty, MainSection, StartupDelayKey, IntToString(DefaultStartupProfileDelay));
    var s2 := Assign(s1, MainSection, StartupProfileKey, []);
    var s3 := Assign(s2, MainSection, AfterburnerDirKey, []);
    var s4 := Assign(s3, MainSection, LanguageKey, []);
    AssignKeys(empty, MainSection, StartupDelayKey, IntToString(DefaultStartupProfileDelay));
    AssignKeys(s1, MainSection, StartupProfileKey, []);
    AssignKeys(s2, MainSection, AfterburnerDirKey, []);
    AssignKeys(s3, MainSection, LanguageKey, []);
    AssignKeys(s4, MainSection, EnableRunAfterburnerKey, IntToString(DefaultEnabled));
    ProfileDefaultsKeys(MainDefaults(empty), ProfilesCount);
  }

  /** A profile section name is the text of a number from 1 to `n`; `m` is that number. */
  lemma {:induction false} NumberSectionsIn(n: nat, section: string) returns (m: int)
    requires section in NumberSections(n)
    ensures 1 <= m <= n && section == IntToString(m)
  {
    if section == IntToString(n) {
      m := n;
    } else {
      m := NumberSectionsIn(n - 1, section);
    }
  }

  /** Number `m` from 1 to `n` names one of the sections `1` to `n`. */
  lemma {:induction false} NumberSectionsHas(n: nat, m: int)
    requires 1 <= m <= n
    ensures IntToString(m) in NumberSections(n)
  {
    assert NumberSections(n) == NumberSections(n - 1) + {IntToString(n)};
    if m < n {
      NumberSectionsHas(n - 1, m);
    }
  }

  /** Default profile names of different numbers differ. */
  lemma DefaultNamesDiffer(a: int, b: int)
    requires 1 <= a <= ProfilesCount && 1 <= b <= ProfilesCount && a != b
    ensures DefaultProfileNamePrefix + IntToString(a) != DefaultProfileNamePrefix + IntToString(b)
  {
    if DefaultProfileNamePrefix + IntToString(a) == DefaultProfileNamePrefix + IntToString(b) {
      ConcatParts(DefaultProfileNamePrefix, IntToString(a));
      ConcatParts(DefaultProfileNamePrefix, IntToString(b));
      IntToStringInjective(a, b);
    }
  }

  /** A section of a new file: section `m` shows profile `m` as `Profile <m>`. */
  predicate DefaultEntry(section: string, e: Option<Entry>)
  {
    && e.Some? && 1 <= e.value.id <= ProfilesCount
    && section == IntToString(e.value.id) && e.value.name == DefaultProfileNamePrefix + section
  }

  /**
   * What the section loop sees in a new file: sections `1` to `5`, section `m`
   * showing profile `m` as `Profile <m>`, every other section but `Main` showing
   * a default profile too, and no startup profile stored.
   */
  ghost predicate FreshStore(d: Store)
  {
    && StoredStartupId(d) == InvalidStartupProfileId
    && (forall m {:trigger SectionEntry(d, IntToString(m))} :: 1 <= m <= ProfilesCount ==>
         IntToString(m) in d && SectionEntry(d, IntToString(m)) == Some(Entry(m, DefaultProfileNamePrefix + IntToString(m))))
    && (forall s :: s in d && s != MainSection ==> DefaultEntry(s, SectionEntry(d, s)))
  }

  /** The defaults written into an empty store are such a store. */
  lemma DefaultsFresh(empty: Store)
    requires empty == map[]
    ensures FreshStore(Defaults(empty))
  {
    var d := Defaults(empty);
    DefaultsKeys(empty);
    assert StoredStartupId(d) == InvalidStartupProfileId by {
      DefaultMain(empty);
    }
    forall m | 1 <= m <= ProfilesCount
      ensures IntToString(m) in d
      ensures SectionEntry(d, IntToString(m)) == Some(Entry(m, DefaultProfileNamePrefix + IntToString(m)))
    {
      NumberSectionsHas(ProfilesCount, m);
      DefaultProfiles(empty, m);
    }
    forall s | s in d && s != MainSection
      ensures DefaultEntry(s, SectionEntry(d, s))
    {
      var m := NumberSectionsIn(ProfilesCount, s);
      DefaultProfiles(empty, m);
    }
  }

  /** Section `m` of such a store. */
  lemma FreshSection(d: Store, m: int)
    requires FreshStore(d) && 1 <= m <= ProfilesCount
    ensures IntToString(m) in d
    ensures SectionEntry(d, IntToString(m)) == Some(Entry(m, DefaultProfileNamePrefix + IntToString(m)))
  {
  }

  /** The section loop over `d`, from a controller with no profiles. */
  function FirstScan(d: Store): Profiles
  {
    Scan(StoredStartupId(d), Profiles(map[], InvalidStartupProfileId, []), SectionEntries(d, ListSections(d)))
  }

  /** In such a store, only section `m` shows the name `Profile <m>`. */
  lemma FreshYieldsOnly(d: Store, section: string, m: int)
    requires FreshStore(d) && section in d && section != MainSection && 1 <= m <= ProfilesCount
    ensures Yields(d, section, DefaultProfileNamePrefix + IntToString(m)) ==> section == IntToString(m)
  {
    var e := SectionEntry(d, section);
    assert DefaultEntry(section, e);
    if e.value.id != m {
      DefaultNamesDiffer(e.value.id, m);
    }
  }

  /** On a first start, profile `m` is enabled under the name `Profile <m>`. */
  lemma FreshProfileEnabled(d: Store, m: int)
    requires FreshStore(d) && 1 <= m <= ProfilesCount
    ensures var name := DefaultProfileNamePrefix + IntToString(m);
      name in FirstScan(d).enabled && FirstScan(d).enabled[name] == m
  {
    var section := IntToString(m);
    var name := DefaultProfileNamePrefix + section;
    FreshSection(d, m);
    forall t | t in d && Below(t, section)
      ensures !Yields(d, t, name)
    {
      if t != MainSection {
        FreshYieldsOnly(d, t, m);
      }
      BelowIrreflexive(section);
    }
    SmallestSectionWins(d, StoredStartupId(d), Profiles(map[], InvalidStartupProfileId, []), section, name);
  }

  /** On a first start, every enabled name is `Profile <m>` for a profile number `m`. */
  lemma FreshProfileNamed(d: Store, name: string) returns (m: int)
    requires FreshStore(d) && name in FirstScan(d).enabled
    ensures 1 <= m <= ProfilesCount && name == DefaultProfileNamePrefix + IntToString(m)
  {
    var sections := ListSections(d);
    var es := SectionEntries(d, sections);
    ScanEnabled(StoredStartupId(d), Profiles(map[], InvalidStartupProfileId, []), es, name);
    var i :| 0 <= i < |es| && es[i].Some? && es[i].value.name == name;
    assert DefaultEntry(sections[i], SectionEntry(d, sections[i]));
    m := es[i].value.id;
  }

  /** On a first start there is no startup profile. */
  lemma FreshNoStartup(d: Store)
    requires FreshStore(d)
    ensures FirstScan(d).startupId == InvalidStartupProfileId && FirstScan(d).startupName == []
  {
    var startup := StoredStartupId(d);
    var es := SectionEntries(d, ListSections(d));
    assert forall i :: 0 <= i < |es| && es[i].Some? ==> es[i].value.id != startup by {
      assert startup == InvalidStartupProfileId;
    }
    ScanStartupAbsent(startup, Profiles(map[], InvalidStartupProfileId, []), es);
  }

  /**
   * With no configuration file, `applyConfig` enables exactly `Profile 1` to
   * `Profile 5`, with the ids 1 to 5, and sets no startup profile.
   */
  lemma FirstStart(empty: Store)
    requires empty == map[]
    ensures var r := FirstScan(Defaults(empty));
      && (forall m :: 1 <= m <= ProfilesCount ==>
            DefaultProfileNamePrefix + IntToString(m) in r.enabled && r.enabled[DefaultProfileNamePrefix + IntToString(m)] == m)
      && (forall name :: name in r.enabled ==> exists m :: 1 <= m <= ProfilesCount && name == DefaultProfileNamePrefix + IntToString(m))
      && r.startupId == InvalidStartupProfileId && r.startupName == []
  {
    var d := Defaults(empty);
    DefaultsFresh(empty);
    forall m | 1 <= m <= ProfilesCount
      ensures DefaultProfileNamePrefix + IntToString(m) in FirstScan(d).enabled
      ensures FirstScan(d).enabled[DefaultProfileNamePrefix + IntToString(m)] == m
    {
      FreshProfileEnabled(d, m);
    }
    forall name | name in FirstScan(d).enabled
      ensures exists m :: 1 <= m <= ProfilesCount && name == DefaultProfileNamePrefix + IntToString(m)
    {
      var m := FreshProfileNamed(d, name);
    }
    FreshNoStartup(d);
  }

  // The read-only settings.

  /**
   * `getStartupProfileDelay`: the stored delay in seconds, at most 120. The
   * number is read as a signed 32-bit value and compared as unsigned, so a
   * negative value counts as a huge one and gives the maximum.
   */
  function StartupDelay(store: Store): (d: int)
    ensures 0 <= d <= MaxStartupProfileDelay
    ensures var v := GetInt(store, MainSection, StartupDelayKey, 0);
      d == if 0 <= v <= MaxStartupProfileDelay then v else MaxStartupProfileDelay
    ensures GetValue(store, MainSection, StartupDelayKey) == [] ==> d == 0
  {
    var v := GetInt(store, MainSection, StartupDelayKey, 0);
    var unsigned := if v < 0 then v + 0x1_0000_0000 else v;
    if unsigned < MaxStartupProfileDelay then unsigned else MaxStartupProfileDelay
  }

  /** `isRunAfterburnerMenuEnabled`: on unless the stored switch reads as the number 0. */
  function RunAfterburnerMenuEnabled(store: Store): (on: bool)
    ensures on <==> Stoi(GetValue(store, MainSection, EnableRunAfterburnerKey)) != Some(0)
  {
    GetInt(store, MainSection, EnableRunAfterburnerKey, 1) != 0
  }

  /** `getConfigFilePath`: the configuration file beside the executable. */
  function ConfigFilePath(modulePath: string): (path: string)
    ensures DirWithoutFile(path) == ExecutableDirPath(modulePath)
  {
    DirWithoutFileOfDirWithFile(ExecutableDirPath(modulePath), ConfigName);
    DirWithFile(ExecutableDirPath(modulePath), ConfigName)
  }

  /** The arguments `applyProfile` passes: `-Profile<id> -q`. */
  function ProfileArgs(id: int): string
  {
    ProfileArgPrefix + IntToString(id) + ProfileArgQuit
  }

  /** The id can be read back from the arguments, so different profiles are launched with different arguments. */
  lemma ProfileArgsDecode(id: int)
    requires InInt32(id)
    ensures var args := ProfileArgs(id);
      && args[..|ProfileArgPrefix|] == ProfileArgPrefix
      && Stoi(args[|ProfileArgPrefix|..]) == Some(id)
  {
    var args := ProfileArgs(id);
    assert args == ProfileArgPrefix + (IntToString(id) + ProfileArgQuit);
    ConcatParts(ProfileArgPrefix, IntToString(id) + ProfileArgQuit);
    StoiOfIntToString(id, ProfileArgQuit);
  }

  lemma ProfileArgsInjective(a: int, b: int)
    requires InInt32(a) && InInt32(b)
    requires ProfileArgs(a) == ProfileArgs(b)
    ensures a == b
  {
    ProfileArgsDecode(a);
    ProfileArgsDecode(b);
  }

  // Discovery as a whole.

  /**
   * What `tryFindAfterburnerExecutable` settles on: the path already held when no
   * directory is stored, else the executable in the first valid candidate.
   */
  function Discovered(current: string, stored: string, ownDir: string, picked: string,
                      fileExists: string -> bool, signatureOk: string -> bool): string
  {
    if stored == [] && current != [] then current
    else FirstValid(Candidates(stored, ownDir, picked), fileExists, signatureOk)
  }

  /**
   * A found executable is the valid one in the first candidate directory that
   * has one, and the directory written back is that candidate.
   */
  lemma DiscoveredFromCandidate(stored: string, ownDir: string, picked: string,
                                fileExists: string -> bool, signatureOk: string -> bool)
    requires FirstValid(Candidates(stored, ownDir, picked), fileExists, signatureOk) != []
    ensures var dirs := Candidates(stored, ownDir, picked);
      var found := FirstValid(dirs, fileExists, signatureOk);
      exists i :: 0 <= i < |dirs| && found == DirWithFile(dirs[i], AfterburnerExeName) && DirWithoutFile(found) == dirs[i]
        && fileExists(found) && signatureOk(found)
        && forall j :: 0 <= j < i ==> ValidPath(dirs[j], fileExists, signatureOk) == []
  {
    var dirs := Candidates(stored, ownDir, picked);
    var found := FirstValid(dirs, fileExists, signatureOk);
    var i := FirstValidIndex(dirs, fileExists, signatureOk);
    ValidPathIn(dirs[i], fileExists, signatureOk);
  }

  /**
   * Discovery step by step, as `tryFindAfterburnerExecutable` runs it: the stored
   * directory, the application's own, the default locations, then the picked
   * folder, each tried only while nothing is found.
   */
  lemma DiscoveredSteps(current: string, stored: string, ownDir: string, picked: string,
                        fileExists: string -> bool, signatureOk: string -> bool)
    ensures Discovered(current, stored, ownDir, picked, fileExists, signatureOk) ==
      if stored == [] && current != [] then current
      else
        var p1 := if stored != [] then ValidPath(stored, fileExists, signatureOk) else [];
        var p2 := if p1 != [] then p1 else ValidPath(ownDir, fileExists, signatureOk);
        var p3 := if p2 != [] then p2 else FirstValid(DriveDirs(), fileExists, signatureOk);
        if p3 != [] then p3 else ValidPath(picked, fileExists, signatureOk)
  {
    var first: seq<string> := if stored != [] then [stored] else [];
    FirstValidSingle(stored, fileExists, signatureOk);
    FirstValidSingle(ownDir, fileExists, signatureOk);
    FirstValidSingle(picked, fileExists, signatureOk);
    FirstValidAppend(first, [ownDir], fileExists, signatureOk);
    FirstValidAppend(first + [ownDir], DriveDirs(), fileExists, signatureOk);
    FirstValidAppend(first + [ownDir] + DriveDirs(), [picked], fileExists, signatureOk);
  }

  /** Position `26 * i + k` of the default locations is drive number `k` with default directory `i`. */
  lemma DriveDirAt(i: nat, k: nat)
    requires i < |DefaultAfterburnerDirs| && k < 26
    ensures 26 * i + k < |DriveDirs()|
    ensures DriveDirs()[26 * i + k] == DriveDir(k, DefaultAfterburnerDirs[i])
  {
    var j := 26 * i + k;
    assert j / 26 == i && j % 26 == k;
  }

  /** The startup profile id `applyConfig` reads from `Main`, or the invalid id. */
  function StoredStartupId(store: Store): int
  {
    GetInt(store, MainSection, StartupProfileKey, InvalidStartupProfileId)
  }

  /** A profile id stored under `StartupProfile` reads back as the startup id. */
  lemma StoredStartupIdOfNumber(store: Store, id: int)
    requires InInt32(id)
    ensures StoredStartupId(Assign(store, MainSection, StartupProfileKey, IntToString(id))) == id
  {
    TrimOfTrimmed(MainSection);
    TrimOfTrimmed(StartupProfileKey);
    SetIntThenGetInt(store, MainSection, StartupProfileKey, id, InvalidStartupProfileId);
  }

  /** With `StartupProfile` emptied or absent, no startup profile is read. */
  lemma StoredStartupIdCleared(store: Store)
    ensures StoredStartupId(if Find(store, MainSection, StartupProfileKey).Some?
      then Assign(store, MainSection, StartupProfileKey, []) else store) == InvalidStartupProfileId
  {
    TrimOfTrimmed(MainSection);
    TrimOfTrimmed(StartupProfileKey);
    ClearThenGet(store, MainSection, StartupProfileKey, InvalidStartupProfileId, []);
  }

  /** One launch through `safeExec`: the executable and its arguments. */
  datatype Launch = Launch(exe: string, args: string)

  class AfterburnerController {
    const config: ConfigFile
    var enabledProfiles: map<string, int>
    var startupProfileId: int
    var startupProfileName: string
    var afterburnerExecutablePath: string
    /** Every launch made so far, oldest first. */
    var launches: seq<Launch>

    /** The store keeps its invariant; every recorded id is a profile id or, for the startup profile, the invalid id. */
    ghost predicate Valid()
      reads this, config
    {
      config.Valid() && IdsValid()
    }

    /** Every recorded id is a profile id; the startup id may also be the invalid one. */
    ghost predicate IdsValid()
      reads this
    {
      && (forall n :: n in enabledProfiles ==> 1 <= enabledProfiles[n] <= ProfilesCount)
      && (startupProfileId == InvalidStartupProfileId || 1 <= startupProfileId <= ProfilesCount)
    }

    ghost function View(): Profiles
      reads this
    {
      Profiles(enabledProfiles, startupProfileId, startupProfileName)
    }

    /** Opens the store beside the executable; no profiles, no startup profile, no executable yet. */
    constructor (modulePath: string, fileSize: nat, content: Option<string>)
      ensures Valid() && fresh(config)
      ensures config.path == ConfigFilePath(modulePath) && !config.hasChanges
      ensures config.config == Reloaded(map[], fileSize, content)
      ensures View() == Profiles(map[], InvalidStartupProfileId, [])
      ensures afterburnerExecutablePath == [] && launches == []
    {
      var path := ConfigFilePath(modulePath);
      var file := new ConfigFile(path, fileSize, content);
      config := file;
      enabledProfiles := map[];
      startupProfileId := InvalidStartupProfileId;
      startupProfileName := [];
      afterburnerExecutablePath := [];
      launches := [];
    }

    /**
     * The defaults `applyConfig` writes when the file is missing, then saves:
     * the `Main` entries, and the sections `1` to `5`, each named and enabled.
     */
    method WriteDefaults(opens: bool)
      requires Valid()
      modifies config
      ensures Valid()
      ensures config.config == Defaults(old(config.config)) && config.path == old(config.path)
      ensures config.hasChanges == (!opens && (old(config.hasChanges) || DefaultsDiffer(old(config.config))))
    {
      WriteDefaultValues();
      DefaultsHaveMain(old(config.config));
      var written := config.Save(opens);
    }

    /** The writes of the defaults, before the save. */
    method WriteDefaultValues()
      requires config.Valid()
      modifies config
      ensures config.Valid()
      ensures config.config == Defaults(old(config.config)) && config.path == old(config.path)
      ensures config.hasChanges == (old(config.hasChanges) || DefaultsDiffer(old(config.config)))
    {
      WriteMainDefaults();
      WriteProfileSections(ProfilesCount);
      MainDefaultsKeepProfiles(old(config.config), ProfilesCount);
    }

    /** The loop of the defaults over the sections `1` to `count`. */
    method WriteProfileSections(count: nat)
      requires config.Valid() && count <= ProfilesCount
      modifies config
      ensures config.Valid() && config.path == old(config.path)
      ensures config.config == ProfileDefaults(old(config.config), count)
      ensures config.hasChanges == (old(config.hasChanges) || ProfilesDiffer(old(config.config), count))
    {
      ghost var start, changed := config.config, config.hasChanges;
      for i := 0 to count
        invariant config.Valid() && config.path == old(config.path)
        invariant config.config == ProfileDefaults(start, i)
        invariant config.hasChanges == (changed || ProfilesDiffer(start, i))
      {
        WriteProfileDefaults(i + 1, start);
      }
    }

    /** The `Main` part of the defaults. */
    method WriteMainDefaults()
      requires config.Valid()
      modifies config
      ensures config.Valid()
      ensures config.config == MainDefaults(old(config.config)) && config.path == old(config.path)
      ensures config.hasChanges == (old(config.hasChanges) || MainDefaultsDiffer(old(config.config)))
    {
      TrimOfTrimmed(MainSection);
      TrimOfTrimmed(StartupDelayKey);
      TrimOfTrimmed(StartupProfileKey);
      TrimOfTrimmed(AfterburnerDirKey);
      TrimOfTrimmed(LanguageKey);
      TrimOfTrimmed(EnableRunAfterburnerKey);
      MainDefaultsReplace(config.config);
      config.SetInt(MainSection, StartupDelayKey, DefaultStartupProfileDelay);
      config.SetValue(MainSection, StartupProfileKey, []);
      config.SetValue(MainSection, AfterburnerDirKey, []);
      config.SetValue(MainSection, LanguageKey, []);
      config.SetInt(MainSection, EnableRunAfterburnerKey, DefaultEnabled);
    }

    /**
     * One iteration of the defaults loop over `start`: section `n` gets the name
     * `Profile <n>` and is enabled, and a change is recorded when it held
     * anything else before the loop.
     */
    method WriteProfileDefaults(n: nat, ghost start: Store)
      requires config.Valid() && 1 <= n <= ProfilesCount
      requires config.config == ProfileDefaults(start, n - 1)
      modifies config
      ensures config.Valid() && config.path == old(config.path)
      ensures config.config == ProfileDefaults(start, n)
      ensures config.hasChanges == (old(config.hasChanges) || ProfileDiffers(start, n))
    {
      ProfileDiffersBefore(start, n);
      var section := IntToString(n);
      NumberTrimmed(n);
      TrimOfTrimmed(section);
      TrimOfTrimmed(DefaultProfileNamePrefix + section);
      TrimOfTrimmed(ProfileNameKey);
      TrimOfTrimmed(ProfileEnabledKey);
      config.SetValue(section, ProfileNameKey, DefaultProfileNamePrefix + section);
      config.SetInt(section, ProfileEnabledKey, DefaultEnabled);
    }

    /**
     * `applyConfig`: when the file does not exist, writes the defaults and saves;
     * then runs the section loop over the store.
     */
    method ApplyConfig(configExists: bool, opens: bool)
      requires Valid()
      modifies this, config
      ensures Valid()
      ensures config.config == (if configExists then old(config.config) else Defaults(old(config.config)))
      ensures config.path == old(config.path)
      ensures config.hasChanges == if configExists then old(config.hasChanges)
        else !opens && (old(config.hasChanges) || DefaultsDiffer(old(config.config)))
      ensures View() == Scan(StoredStartupId(config.config), old(View()), SectionEntries(config.config, ListSections(config.config)))
      ensures afterburnerExecutablePath == old(afterburnerExecutablePath) && launches == old(launches)
    {
      if !configExists {
        WriteDefaults(opens);
      }
      ScanSections();
    }

    /**
     * The section loop of `applyConfig`, over the sections in the map's order:
     * each profile section adds its name unless taken, and becomes the startup
     * profile when its id is the stored one.
     */
    method ScanSections()
      requires Valid()
      modifies this
      ensures Valid()
      ensures View() == Scan(StoredStartupId(config.config), old(View()), SectionEntries(config.config, ListSections(config.config)))
      ensures afterburnerExecutablePath == old(afterburnerExecutablePath) && launches == old(launches)
    {
      var store := config.config;
      var startup := GetInt(store, MainSection, StartupProfileKey, InvalidStartupProfileId);
      var sections := ListSections(store);
      ghost var es := SectionEntries(store, sections);
      ghost var before := View();
      for i := 0 to |sections|
        invariant Valid() && View() == Scan(startup, before, es[..i])
        invariant afterburnerExecutablePath == old(afterburnerExecutablePath) && launches == old(launches)
      {
        // The checks of the loop body (not `Main`, enabled, a number from 1 to the
        // profile count) and the name lookup are `SectionEntry`.
        ScanSection(startup, SectionEntry(store, sections[i]));
        ScanPrefix(startup, before, es, i);
      }
      PrefixAll(es);
    }

    /** One iteration of the section loop of `applyConfig`, on what the checks found in the section. */
    method ScanSection(startup: int, e: Option<Entry>)
      requires IdsValid() && (e.Some? ==> 1 <= e.value.id <= ProfilesCount)
      modifies this
      ensures IdsValid()
      ensures View() == ScanStep(startup, old(View()), e)
      ensures afterburnerExecutablePath == old(afterburnerExecutablePath) && launches == old(launches)
    {
      match e {
        case Some(Entry(id, name)) =>
          if name !in enabledProfiles {
            enabledProfiles := enabledProfiles[name := id];
          }
          if startup == id {
            startupProfileId := startup;
            startupProfileName := name;
          }
        case None =>
      }
    }

    /**
     * The default-location loops of `tryFindAfterburnerExecutable`: drives `A:` to
     * `Z:` with the first default directory, then with the second, until one
     * holds a valid executable.
     */
    method SearchDrives(fileExists: string -> bool, signatureOk: string -> bool)
      requires afterburnerExecutablePath == []
      modifies this
      ensures afterburnerExecutablePath == FirstValid(DriveDirs(), fileExists, signatureOk)
      ensures View() == old(View()) && launches == old(launches)
    {
      ghost var dirs := DriveDirs();
      ghost var n := 0;
      var i := 0;
      while i < |DefaultAfterburnerDirs| && afterburnerExecutablePath == []
        invariant 0 <= i <= |DefaultAfterburnerDirs| && n <= |dirs|
        invariant afterburnerExecutablePath == FirstValid(dirs[..n], fileExists, signatureOk)
        invariant afterburnerExecutablePath == [] ==> n == 26 * i
        invariant View() == old(View()) && launches == old(launches)
      {
        var disk := 'A';
        while disk <= 'Z' && afterburnerExecutablePath == []
          invariant 'A' <= disk <= '[' && n <= |dirs|
          invariant afterburnerExecutablePath == FirstValid(dirs[..n], fileExists, signatureOk)
          invariant afterburnerExecutablePath == [] ==> n == 26 * i + (disk as int - 'A' as int)
          invariant View() == old(View()) && launches == old(launches)
        {
          var dir := [disk, ':', PathDelimiter] + DefaultAfterburnerDirs[i];
          DriveDirAt(i, disk as int - 'A' as int);
          assert dirs[n] == dir;
          FirstValidAppend(dirs[..n], [dir], fileExists, signatureOk);
          FirstValidSingle(dir, fileExists, signatureOk);
          PrefixSnoc(dirs, n);
          afterburnerExecutablePath := ValidPath(dir, fileExists, signatureOk);
          n := n + 1;
          disk := (disk as int + 1) as char;
        }
        i := i + 1;
      }
      if afterburnerExecutablePath == [] {
        PrefixAll(dirs);
      } else {
        FirstValidAppend(dirs[..n], dirs[n..], fileExists, signatureOk);
        PrefixSuffix(dirs, n);
      }
    }

    /**
     * The search of `tryFindAfterburnerExecutable`: the stored directory, the
     * application's own, the default locations, and the folder the user picks.
     */
    method Discover(modulePath: string, picked: string, fileExists: string -> bool, signatureOk: string -> bool)
      modifies this
      ensures afterburnerExecutablePath == Discovered(old(afterburnerExecutablePath),
        GetValue(config.config, MainSection, AfterburnerDirKey), ExecutableDirPath(modulePath), picked, fileExists, signatureOk)
      ensures View() == old(View()) && launches == old(launches)
    {
      var stored := GetValue(config.config, MainSection, AfterburnerDirKey);
      var ownDir := ExecutableDirPath(modulePath);
      DiscoveredSteps(afterburnerExecutablePath, stored, ownDir, picked, fileExists, signatureOk);
      if stored != [] {
        afterburnerExecutablePath := ValidPath(stored, fileExists, signatureOk);
      }
      if afterburnerExecutablePath == [] {
        afterburnerExecutablePath := ValidPath(ownDir, fileExists, signatureOk);
      }
      if afterburnerExecutablePath == [] {
        SearchDrives(fileExists, signatureOk);
      }
      if afterburnerExecutablePath == [] {
        afterburnerExecutablePath := ValidPath(picked, fileExists, signatureOk);
      }
    }

    /**
     * `tryFindAfterburnerExecutable`: searches for the executable and, when found,
     * stores its directory under `AfterburnerDirPath` and saves.
     */
    method TryFindAfterburnerExecutable(modulePath: string, picked: string, fileExists: string -> bool,
                                        signatureOk: string -> bool, opens: bool) returns (found: bool)
      requires Valid()
      modifies this, config
      ensures Valid()
      ensures afterburnerExecutablePath == Discovered(old(afterburnerExecutablePath),
        GetValue(old(config.config), MainSection, AfterburnerDirKey), ExecutableDirPath(modulePath), picked, fileExists, signatureOk)
      ensures found <==> afterburnerExecutablePath != []
      ensures found ==> config.config == Assign(old(config.config), MainSection, AfterburnerDirKey, Trim(DirWithoutFile(afterburnerExecutablePath)))
      ensures found ==>
        config.hasChanges == (!opens && (old(config.hasChanges)
          || GetValue(old(config.config), MainSection, AfterburnerDirKey) != Trim(DirWithoutFile(afterburnerExecutablePath))))
      ensures !found ==> config.config == old(config.config) && config.hasChanges == old(config.hasChanges)
      ensures config.path == old(config.path) && View() == old(View()) && launches == old(launches)
    {
      Discover(modulePath, picked, fileExists, signatureOk);
      found := afterburnerExecutablePath != [];
      if found {
        TrimOfTrimmed(MainSection);
        TrimOfTrimmed(AfterburnerDirKey);
        config.SetValue(MainSection, AfterburnerDirKey, DirWithoutFile(afterburnerExecutablePath));
        assert MainSection in config.config;
        var written := config.Save(opens);
      }
    }

    /**
     * `init`: applies the configuration, then searches for the executable only
     * when some profile is enabled; succeeds when both hold. The two saves,
     * `applyConfig`'s and the search's, are told separately whether the file
     * opens (`defaultsOpens`, `dirOpens`).
     */
    method Init(configExists: bool, defaultsOpens: bool, dirOpens: bool, modulePath: string, picked: string,
                fileExists: string -> bool, signatureOk: string -> bool) returns (ok: bool)
      requires Valid()
      modifies this, config
      ensures Valid()
      ensures var store := if configExists then old(config.config) else Defaults(old(config.config));
        && View() == Scan(StoredStartupId(store), old(View()), SectionEntries(store, ListSections(store)))
        && (enabledProfiles != map[] ==> afterburnerExecutablePath == Discovered(old(afterburnerExecutablePath),
              GetValue(store, MainSection, AfterburnerDirKey), ExecutableDirPath(modulePath), picked, fileExists, signatureOk))
      ensures enabledProfiles == map[] ==> afterburnerExecutablePath == old(afterburnerExecutablePath)
      ensures ok <==> enabledProfiles != map[] && afterburnerExecutablePath != []
      ensures var store := if configExists then old(config.config) else Defaults(old(config.config));
        config.config == if ok then Assign(store, MainSection, AfterburnerDirKey, Trim(DirWithoutFile(afterburnerExecutablePath))) else store
      ensures var applied := if configExists then old(config.hasChanges)
          else !defaultsOpens && (old(config.hasChanges) || DefaultsDiffer(old(config.config)));
        var store := if configExists then old(config.config) else Defaults(old(config.config));
        config.hasChanges == if ok then !dirOpens && (applied
          || GetValue(store, MainSection, AfterburnerDirKey) != Trim(DirWithoutFile(afterburnerExecutablePath)))
        else applied
      ensures config.path == old(config.path) && launches == old(launches)
    {
      ApplyConfig(configExists, defaultsOpens);
      ghost var store := config.config;
      ghost var view := View();
      if enabledProfiles == map[] {
        ok := false;
      } else {
        ok := TryFindAfterburnerExecutable(modulePath, picked, fileExists, signatureOk, dirOpens);
      }
      assert View() == view;
    }

    /**
     * `setStartupProfile`: a known name becomes the startup profile and its id is
     * stored under `StartupProfile` and saved; an unknown name changes nothing.
     */
    method SetStartupProfile(name: string, opens: bool)
      requires Valid()
      modifies this, config
      ensures Valid()
      ensures name in old(enabledProfiles) ==>
        && View() == Profiles(old(enabledProfiles), old(enabledProfiles)[name], name)
        && config.config == Assign(old(config.config), MainSection, StartupProfileKey, IntToString(startupProfileId))
        && StoredStartupId(config.config) == startupProfileId
        && config.hasChanges == (!opens && (old(config.hasChanges)
             || GetValue(old(config.config), MainSection, StartupProfileKey) != IntToString(startupProfileId)))
      ensures name !in old(enabledProfiles) ==>
        View() == old(View()) && config.config == old(config.config) && config.hasChanges == old(config.hasChanges)
      ensures config.path == old(config.path)
      ensures afterburnerExecutablePath == old(afterburnerExecutablePath) && launches == old(launches)
    {
      if name in enabledProfiles {
        var id := enabledProfiles[name];
        startupProfileId := id;
        startupProfileName := name;
        StoredStartupIdOfNumber(config.config, id);
        StoreStartupId(id, opens);
      }
    }

    /**
     * `removeStartupProfile`: forgets the startup profile, empties the stored id
     * when it is there, and saves.
     */
    method RemoveStartupProfile(opens: bool)
      requires Valid()
      modifies this, config
      ensures Valid()
      ensures View() == Profiles(old(enabledProfiles), InvalidStartupProfileId, [])
      ensures config.config == (if Find(old(config.config), MainSection, StartupProfileKey).Some?
        then Assign(old(config.config), MainSection, StartupProfileKey, []) else old(config.config))
      ensures StoredStartupId(config.config) == InvalidStartupProfileId
      ensures config.hasChanges ==
        ((old(config.hasChanges) || GetValue(old(config.config), MainSection, StartupProfileKey) != [])
         && !(opens && config.config != map[]))
      ensures config.path == old(config.path)
      ensures afterburnerExecutablePath == old(afterburnerExecutablePath) && launches == old(launches)
    {
      startupProfileId := InvalidStartupProfileId;
      startupProfileName := [];
      StoredStartupIdCleared(config.config);
      ClearStartupId(opens);
    }

    /** The store side of `setStartupProfile`: the id under `StartupProfile`, then a save. */
    method StoreStartupId(id: int, opens: bool)
      requires config.Valid() && 1 <= id <= ProfilesCount
      modifies config
      ensures config.Valid() && config.path == old(config.path)
      ensures config.config == Assign(old(config.config), MainSection, StartupProfileKey, IntToString(id))
      ensures config.hasChanges ==
        (!opens && (old(config.hasChanges) || GetValue(old(config.config), MainSection, StartupProfileKey) != IntToString(id)))
    {
      TrimOfTrimmed(MainSection);
      TrimOfTrimmed(StartupProfileKey);
      config.SetInt(MainSection, StartupProfileKey, id);
      assert MainSection in config.config;
      var written := config.Save(opens);
    }

    /** The store side of `removeStartupProfile`: the stored id emptied when it is there, then a save. */
    method ClearStartupId(opens: bool)
      requires config.Valid()
      modifies config
      ensures config.Valid() && config.path == old(config.path)
      ensures config.config == (if Find(old(config.config), MainSection, StartupProfileKey).Some?
        then Assign(old(config.config), MainSection, StartupProfileKey, []) else old(config.config))
      ensures config.hasChanges ==
        ((old(config.hasChanges) || GetValue(old(config.config), MainSection, StartupProfileKey) != [])
         && !(opens && config.config != map[]))
    {
      TrimOfTrimmed(MainSection);
      TrimOfTrimmed(StartupProfileKey);
      config.ClearValue(MainSection, StartupProfileKey);
      var written := config.Save(opens);
    }

    /** `getAvailableProfiles`: the enabled profile names, in the map's order. */
    method GetAvailableProfiles() returns (profiles: seq<string>)
      ensures forall n :: n in profiles <==> n in enabledProfiles
      ensures |profiles| == |enabledProfiles|
      ensures StrictlyIncreasing(profiles)
    {
      var names := SortedKeys(enabledProfiles);
      SortedKeysIncreasing(enabledProfiles);
      profiles := [];
      for i := 0 to |names|
        invariant profiles == names[..i]
      {
        PrefixSnoc(names, i);
        profiles := profiles + [names[i]];
      }
      PrefixAll(names);
    }

    /**
     * `applyProfile`: a known name launches the executable with `-Profile<id> -q`
     * and reports what the launch reports; an unknown name launches nothing.
     */
    method ApplyProfile(name: string, launched: bool) returns (ok: bool)
      requires Valid()
      modifies this
      ensures Valid()
      ensures name in enabledProfiles ==>
        launches == old(launches) + [Launch(afterburnerExecutablePath, ProfileArgs(enabledProfiles[name]))] && ok == launched
      ensures name !in enabledProfiles ==> launches == old(launches) && !ok
      ensures View() == old(View()) && afterburnerExecutablePath == old(afterburnerExecutablePath)
    {
      ok := false;
      if name in enabledProfiles {
        launches := launches + [Launch(afterburnerExecutablePath, ProfileArgPrefix + IntToString(enabledProfiles[name]) + ProfileArgQuit)];
        ok := launched;
      }
    }

    /** `runAfterburner`: launches the executable with no arguments and reports what the launch reports. */
    method RunAfterburner(launched: bool) returns (ok: bool)
      requires Valid()
      modifies this
      ensures Valid()
      ensures launches == old(launches) + [Launch(afterburnerExecutablePath, [])] && ok == launched
      ensures View() == old(View()) && afterburnerExecutablePath == old(afterburnerExecutablePath)
    {
      launches := launches + [Launch(afterburnerExecutablePath, [])];
      ok := launched;
    }
  }
}
