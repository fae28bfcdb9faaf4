# MSI Afterburner Profile Loader: a Dafny model of the core

The loader is a Windows tray application. It keeps five MSI Afterburner
profiles in a small INI-like configuration file, finds `MSIAfterburner.exe`,
and applies a profile by launching the executable with `-Profile<n> -q`. This
project models the parts of it that are plain logic once the operating system
is set aside, and proves properties about them:

- **The configuration store** (`utils/ConfigFile.cpp`):
  - the whitespace `trim`;
  - the line parser and the `reload` loop that folds it over the lines of the file;
  - the `save` loop that writes the map back in key order;
  - the three `getValue` overloads, both `setValue` overloads and `clearValue`,
    with their rules for the unsaved-changes flag;
  - `listSections` and `listKeys`.
- **The controller** (`loader/AfterburnerController.cpp`):
  - the defaults written when no configuration file exists;
  - which sections become profiles, and which name and startup profile win;
  - the fixed-order search for the executable: the stored directory, the
    application's own directory, drives `A:` to `Z:` with each default install
    directory, then the folder the user picks;
  - the startup-profile commands, the profile list, and the two launch commands.
- **The path helpers** (`utils/FileSystem.cpp`): `getDirWithFile`,
  `getDirWithoutFile`, and the name-after-the-last-backslash part of
  `getExecutableName`.

Modules, one per file:

| module | contents |
|---|---|
| `Seqs` | slice identities used by loop invariants |
| `Wrappers` | `Option` |
| `Text` | whitespace and `trim` (as a function, and as the in-place erase loops), `find` and `find_last_of` for one character, `std::stoi` and `std::to_wstring` |
| `StringOrder` | the lexicographic order of `std::map<std::wstring, …>`, and its keys in iteration order (`SortedKeys`) |
| `ConfigFormat` | the store as a value `map<string, map<string, string>>`, the line parser, the load fold, the writer, and the round trip between them |
| `FileSystem` | the path helpers |
| `ConfigFile` | the getters as functions of the map, and class `ConfigFile` (path, map, unsaved-changes flag) whose methods change it |
| `Loader` | the profile scan and the search as specification functions with their lemmas, and class `AfterburnerController` whose methods run the source's loops over its fields |

**The operating system is a parameter.** The model passes in, rather than computes:

- the module path (`GetModuleFileNameW`);
- the file size and file text that `reload` sees (`None` when the file does not open);
- whether the file opens for writing, given separately for each `save`;
- whether the configuration file exists;
- `isFileExist` and `safeValidateExeSignature`, as two predicates on paths;
- the folder that `browseForFolder` returns;
- what `safeExec` reports.

`Save` returns the text it writes. Each launch is appended to the
controller's `launches` log, so "no launch happened" is a statement about
the log.

**Behaviour worth knowing:**

- **`setValue` with an empty key.** It stores the entry, so an empty key can
  be stored.
- **A header with blank inner text.** `[ ]` switches to the section named
  `""` (`ParseBlankHeader`).
- **Two enabled profiles with the same name.** `emplace` keeps the first one
  inserted. The sections are visited in key order, so the section whose name
  sorts first wins (`SmallestSectionWins`).
- **The order of the default directories.** The drive search tries
  `Program Files (x86)\MSI Afterburner` before `Program Files\MSI Afterburner`.
- **The startup name.** `startupProfileName` is set whenever a section's id
  matches the stored startup id, even if that section's `emplace` inserted
  nothing (`ScanStartupLast`).
- **The unsaved-changes flag after a failed save.** Every store write sets the
  flag when the value differs, and `save` clears it only when the file opens;
  so when the file cannot be written, each command leaves the flag set exactly
  when it was set before or some value it wrote differed from what was stored.

## Model

| member | source | states |
|---|---|---|
| `Text.Trim` | utils/ConfigFile.cpp:77-92 | the result has no whitespace at either end and is no longer than the input |
| `Text.TrimIsSlice` | utils/ConfigFile.cpp:77-84 | `trim` removes whitespace at the two ends and nothing else: the result is a slice of the input with only whitespace before and after it |
| `Text.TrimOfTrimmed` | utils/ConfigFile.cpp:77-84 | text with no surrounding whitespace is its own trim |
| `Text.TrimIdempotent` | utils/ConfigFile.cpp:77-92 | trimming twice gives what trimming once gives |
| `Text.TrimKeepsOut` | utils/ConfigFile.cpp:77-84 | trimming never introduces a character (used to show a parsed key holds no `=`) |
| `Text.EraseLeadingSpace` | utils/ConfigFile.cpp:80 | the first `erase` loop leaves the text without its leading whitespace |
| `Text.EraseTrailingSpace` | utils/ConfigFile.cpp:81 | the second `erase` loop leaves the text without its trailing whitespace |
| `Text.EraseSurroundingSpace` | utils/ConfigFile.cpp:77-84 | the in-place `trim` computes `Trim` |
| `Text.IndexOfFinds` | utils/ConfigFile.cpp:300-301 | `find` returns nothing exactly when the character is absent, and otherwise the position of its first occurrence |
| `Text.LastIndexOf` | utils/FileSystem.cpp:90-91 | `find_last_of` returns nothing exactly when the character is absent, and otherwise a position holding it with none after it |
| `Text.DigitPrefix` | utils/ConfigFile.cpp:187 | the longest run of digits at the start of the text |
| `Text.Stoi` | utils/ConfigFile.cpp:185-189 | a value `stoi` returns fits in 32 bits |
| `Text.NatToDigits` | utils/ConfigFile.cpp:350-353 | the decimal digits of `n` denote `n` and have no leading zero |
| `Text.IntToString` | utils/ConfigFile.cpp:350-353 | `to_wstring` writes a non-empty text that starts with `-` or a digit and ends with a digit |
| `Text.StoiOfIntToString` | utils/ConfigFile.cpp:178-193 | `stoi` reads back the number `to_wstring` wrote, also when non-digit text follows (so `12x` reads as 12) |
| `Text.StoiWithoutDigits` | utils/ConfigFile.cpp:183-192 | text with no digit after the whitespace and sign makes `stoi` throw |
| `Text.StoiReads` | utils/ConfigFile.cpp:183-192 | `stoi` skips leading whitespace, reads an optional `+` or `-` and the digit run, and gives that signed value when it fits in 32 bits and throws (`out_of_range`) when it does not |
| `Text.StoiSkipsSpace` | utils/ConfigFile.cpp:183-192 | leading whitespace does not change what `stoi` reads |
| `ConfigFile.GetIntFallsBack` | utils/ConfigFile.cpp:178-193 | the integer `getValue` gives the default exactly when `stoi` cannot read the value, which includes an absent or empty value, and the number `stoi` reads otherwise |
| `Text.IntToStringInjective` | utils/ConfigFile.cpp:350-353 | different 32-bit numbers are written as different texts |
| `StringOrder.BelowIrreflexive` | utils/ConfigFile.h:63 | the map's key order is irreflexive |
| `StringOrder.BelowAsymmetric` | utils/ConfigFile.h:63 | the map's key order is asymmetric |
| `StringOrder.BelowTransitive` | utils/ConfigFile.h:63 | the map's key order is transitive |
| `StringOrder.BelowTotal` | utils/ConfigFile.h:63 | any two different keys are ordered one way or the other |
| `StringOrder.SortedKeys` | utils/ConfigFile.cpp:130-133 | iterating the map visits exactly its keys, each once |
| `StringOrder.SortedKeysIncreasing` | utils/ConfigFile.cpp:130-133 | iterating the map visits the keys in strictly increasing order |
| `StringOrder.SortedUnique` | utils/ConfigFile.cpp:130-133 | a set of keys has only one strictly increasing enumeration, so the iteration order is determined |
| `StringOrder.EmptyKeyFirst` | utils/ConfigFile.cpp:327-332 | a section with the empty name is written first, before any header line |
| `ConfigFormat.AssignFinds` | utils/ConfigFile.cpp:210-215 | `config[section][key] = value` creates the section and the key when absent, stores the value, and changes no other entry |
| `ConfigFormat.ParseLineShape` | utils/ConfigFile.cpp:283-312 | a line that trims to 2 characters or fewer yields nothing; section names are trimmed; an accepted entry has a non-empty, trimmed key with no `=` and a trimmed value |
| `ConfigFormat.ParseShortLine` | utils/ConfigFile.cpp:288-290 | `a=` is dropped |
| `ConfigFormat.ParseEmptyValue` | utils/ConfigFile.cpp:290-307 | `ab=` is accepted with an empty value |
| `ConfigFormat.ParseBlankHeader` | utils/ConfigFile.cpp:292-297 | `[ ]` switches to the section named `""` |
| `ConfigFormat.ParseValueWithEqual` | utils/ConfigFile.cpp:300-304 | the line is split at the first `=`, so the value may contain `=` |
| `ConfigFormat.LoadTrimmed` | utils/ConfigFile.cpp:263-275 | every section name, key and value that `reload` stores is trimmed |
| `ConfigFormat.SplitJoin` | utils/ConfigFile.cpp:269 | reading with `getline` what was written line by line with `endl` gives back the lines |
| `ConfigFormat.ParseEntryLine` | utils/ConfigFile.cpp:283-312 | a written `key=value` line parses back as that entry, when the entry can be restored |
| `ConfigFormat.ParseHeaderLine` | utils/ConfigFile.cpp:283-312 | a written `[name]` line parses back as that section, for a non-empty trimmed name |
| `ConfigFormat.LoadSection` | utils/ConfigFile.cpp:269-275 | reading back one written section adds exactly its entries to that section |
| `ConfigFormat.SaveThenLoad` | utils/ConfigFile.cpp:315-345 | `reload` of what `save` writes restores the whole map when every section has an entry and every entry can be restored (see `ConfigFormat.EntryRestores`) |
| `FileSystem.DirWithFileParts` | utils/FileSystem.cpp:78-81 | `getDirWithFile` is the directory, one backslash, then the file name |
| `FileSystem.DirWithoutFile` | utils/FileSystem.cpp:84-98 | empty when there is no backslash; otherwise a strict prefix of the path, followed in the path by its last backslash |
| `FileSystem.ExecutableName` | utils/FileSystem.cpp:60-75 | the text after the last backslash (empty when there is none), so that the directory, a backslash and the name make up the path |
| `FileSystem.ExecutableDirPath` | utils/FileSystem.cpp:54-57 | the directory of the module path; joined with the name it gives the path back |
| `FileSystem.DirWithoutFileOfDirWithFile` | utils/FileSystem.cpp:78-98 | the directory of a joined path is the directory, when the file name holds no backslash |
| `FileSystem.DirWithFileOfParts` | utils/FileSystem.cpp:60-98 | splitting a path at its last backslash and joining the parts gives the path back |
| `ConfigFile.GetValue` | utils/ConfigFile.cpp:158-175 | the empty text when the trimmed section or the trimmed key is absent, and the stored value otherwise; it is trimmed when the store is |
| `ConfigFile.GetInt` | utils/ConfigFile.cpp:178-193 | the default, or the number `stoi` reads from the value; a 32-bit default gives a 32-bit result |
| `ConfigFile.GetString` | utils/ConfigFile.cpp:196-204 | the stored value whenever it is non-empty, and the default exactly when it is empty or absent |
| `ConfigFile.ListSections` | utils/ConfigFile.cpp:124-136 | every section name once |
| `ConfigFile.ListKeys` | utils/ConfigFile.cpp:139-155 | every key of the section once; nothing for a missing section |
| `ConfigFile.ListSectionsOrdered` | utils/ConfigFile.cpp:124-136 | section names come in strictly increasing order |
| `ConfigFile.ListKeysOrdered` | utils/ConfigFile.cpp:139-155 | keys come in strictly increasing order |
| `ConfigFile.ConfigFile.Empty` | utils/ConfigFile.cpp:95-98 | no path, no entries, nothing unsaved |
| `ConfigFile.ConfigFile.constructor` | utils/ConfigFile.cpp:101-107 | the path is kept, the file is read into an empty map, and nothing is unsaved |
| `ConfigFile.ConfigFile.Reload` | utils/ConfigFile.cpp:250-280 | the path is replaced; the map becomes the file's entries when the file is under 256 KiB and opens, and stays as it was otherwise; the unsaved-changes flag is kept |
| `ConfigFile.ConfigFile.SetValue` | utils/ConfigFile.cpp:207-216 | the trimmed value is stored at the trimmed section and key; the flag becomes set when the old value differs, and is never cleared |
| `ConfigFile.ConfigFile.SetInt` | utils/ConfigFile.cpp:219-223 | stores the number's text, after which the integer getter reads the number whatever its default |
| `ConfigFile.ConfigFile.ClearValue` | utils/ConfigFile.cpp:226-240 | a missing entry is left alone; an existing one is emptied (the key stays), and the flag is set when it was not empty |
| `ConfigFile.ConfigFile.Save` | utils/ConfigFile.cpp:315-345 | writes the serialised map only when it is not empty, has unsaved changes and the file opens; clears the flag only then |
| `ConfigFile.WriteSections` | utils/ConfigFile.cpp:327-338 | the write loop produces the serialised map |
| `ConfigFile.WriteSection` | utils/ConfigFile.cpp:329-337 | one section's header (unless the name is empty) and its entries in key order |
| `ConfigFile.SetThenGet` | utils/ConfigFile.cpp:158-175 | after `setValue`, `getValue` at that place gives the trimmed value, and every other place is unchanged |
| `ConfigFile.SetIntThenGetInt` | utils/ConfigFile.cpp:178-193 | after the integer `setValue`, the integer `getValue` gives the number back |
| `ConfigFile.ClearThenGet` | utils/ConfigFile.cpp:226-240 | after `clearValue` of an entry, each getter returns its default |
| `ConfigFile.SetSameValueUnchanged` | utils/ConfigFile.cpp:207-216 | setting the value already stored changes nothing |
| `Loader.ProfileId` | loader/AfterburnerController.cpp:117-124 | a section is a profile exactly when it is not `Main`, its `Enabled` value read with default 0 is non-zero, and `stoi` reads its name as a number from 1 to 5; that number is the id |
| `Loader.ProfileSectionsExample` | loader/AfterburnerController.cpp:115-124 | of the enabled sections `1`, `x` and `9` and the disabled section `2`, only `1` is a profile |
| `Loader.ProfileName` | loader/AfterburnerController.cpp:126-127 | a profile's name is its `Name` value when that is non-empty, and `Profile <id>` otherwise; so it is never empty |
| `Loader.ScanEnabled` | loader/AfterburnerController.cpp:129 | after the loop, a name is enabled iff it was before or some section yields it |
| `Loader.ScanKeeps` | loader/AfterburnerController.cpp:129 | `emplace` never overwrites a known name |
| `Loader.ScanFirstWins` | loader/AfterburnerController.cpp:129 | the first section that yields a new name decides its id |
| `Loader.SmallestSectionWins` | loader/AfterburnerController.cpp:115-129 | of the sections that yield one name, the one whose name sorts first decides its id |
| `Loader.ScanIdsInRange` | loader/AfterburnerController.cpp:123-135 | every recorded id is from 1 to 5, and the startup id is that or -1 |
| `Loader.ScanStartupAbsent` | loader/AfterburnerController.cpp:131-135 | with no section matching the stored startup id, the startup profile is unchanged |
| `Loader.ScanStartupLast` | loader/AfterburnerController.cpp:131-135 | the last section matching the stored id becomes the startup profile under its own name, even when its name was taken |
| `Loader.ValidPathIn` | loader/AfterburnerController.cpp:181-188 | a directory's executable is accepted iff it exists and its signature validates; its directory is the one tried |
| `Loader.DriveDirAt` | loader/AfterburnerController.cpp:50-54 | position `26i + k` is drive `k` with default directory `i`, so `Program Files (x86)` comes first |
| `Loader.FirstValidEmpty` | loader/AfterburnerController.cpp:145-169 | nothing is found iff no candidate directory holds a valid executable |
| `Loader.FirstValidIndex` | loader/AfterburnerController.cpp:145-169 | what is found comes from a candidate with none valid before it |
| `Loader.FirstValidAppend` | loader/AfterburnerController.cpp:153-169 | each later stage is tried only when the earlier ones found nothing |
| `Loader.DiscoveredSteps` | loader/AfterburnerController.cpp:147-169 | the search is the stored directory (when set), the own directory, the drives, then the picked folder, each tried only while nothing is found |
| `Loader.DiscoveredFromCandidate` | loader/AfterburnerController.cpp:145-175 | a found executable exists, validates, is in the first valid candidate, and the directory written back is that candidate |
| `Loader.MainDefaultsFind` | loader/AfterburnerController.cpp:97-101 | a new file's `Main` holds `StartupDelay=5`, empty `StartupProfile`, `AfterburnerDirPath` and `Lang`, and `EnableRunAfterburnerMenuItem=1`; other sections are untouched |
| `Loader.ProfileDefaultsFind` | loader/AfterburnerController.cpp:103-108 | sections `1` to `n` hold `Name=Profile <m>` and `Enabled=1` |
| `Loader.ProfileDefaultsOthers` | loader/AfterburnerController.cpp:103-108 | the defaults loop touches no other section |
| `Loader.ProfileDefaultsKeys` | loader/AfterburnerController.cpp:103-108 | the defaults loop adds exactly the sections `1` to `n` |
| `Loader.DefaultsHaveMain` | loader/AfterburnerController.cpp:95-110 | the defaults are never empty, so the `save` after them writes |
| `Loader.DefaultsMainFind` | loader/AfterburnerController.cpp:95-108 | the profile sections leave `Main` as its defaults made it |
| `Loader.DefaultMain` | loader/AfterburnerController.cpp:97-101 | with the defaults the startup delay is 5, no startup profile or directory is stored, and the run menu item is on |
| `Loader.DefaultProfiles` | loader/AfterburnerController.cpp:103-127 | with the defaults, section `n` is profile `n` named `Profile <n>` |
| `Loader.ProfilesDifferSome` | loader/AfterburnerController.cpp:103-108 | the loop's running flag over the sections `1` to `n` holds exactly when one of them differs from its defaults |
| `Loader.ProfileDiffersBefore` | loader/AfterburnerController.cpp:103-108 | when the loop reaches section `n`, that section still holds what it held before the loop |
| `Loader.MainDefaultsKeepProfiles` | loader/AfterburnerController.cpp:97-101 | the `Main` defaults leave every profile section as it was |
| `Loader.MainDefaultsReplace` | loader/AfterburnerController.cpp:97-101 | each `Main` default write replaces the value that was stored before any of them |
| `Loader.DefaultsSettled` | loader/AfterburnerController.cpp:95-108 | writing the defaults a second time records no change |
| `Loader.FirstStartChanges` | loader/AfterburnerController.cpp:95-111 | with no entries, writing the defaults records a change, so they stay unsaved when the file cannot be written |
| `Loader.DefaultsKeys` | loader/AfterburnerController.cpp:95-108 | a new file holds exactly `Main` and `1` to `5` |
| `Loader.DefaultsFresh` | loader/AfterburnerController.cpp:95-111 | a new file has profiles 1 to 5 named `Profile <n>` and no stored startup profile |
| `Loader.FreshProfileEnabled` | loader/AfterburnerController.cpp:113-135 | on a first start, `Profile <m>` is enabled with id `m` |
| `Loader.FreshProfileNamed` | loader/AfterburnerController.cpp:113-135 | on a first start, every enabled name is `Profile <m>` for some `m` from 1 to 5 |
| `Loader.FreshNoStartup` | loader/AfterburnerController.cpp:113-135 | on a first start, there is no startup profile |
| `Loader.FirstStart` | loader/AfterburnerController.cpp:93-142 | with no configuration file, `applyConfig` enables exactly `Profile 1` to `Profile 5` with ids 1 to 5 and sets no startup profile |
| `Loader.StartupDelay` | loader/AfterburnerController.cpp:191-194 | the delay is between 0 and 120; a stored value in that range is returned, and anything else (above 120, or negative and so huge as unsigned) gives 120; an absent value gives 0 |
| `Loader.RunAfterburnerMenuEnabled` | loader/AfterburnerController.cpp:87-90 | the menu item is on unless the stored value reads as 0 |
| `Loader.ConfigFilePath` | loader/AfterburnerController.cpp:75-78 | the configuration file sits in the executable's directory |
| `Loader.ProfileArgsDecode` | loader/AfterburnerController.cpp:244-245 | the arguments start with `-Profile` and the id reads back from what follows |
| `Loader.ProfileArgsInjective` | loader/AfterburnerController.cpp:244-245 | different profiles are launched with different arguments |
| `Loader.StoredStartupIdOfNumber` | loader/AfterburnerController.cpp:197-208 | an id stored under `StartupProfile` is read back as the startup id |
| `Loader.StoredStartupIdCleared` | loader/AfterburnerController.cpp:211-218 | after the id is cleared, the startup id reads as -1 |
| `Loader.AfterburnerController.constructor` | loader/AfterburnerController.cpp:57-60 | the store is opened on the file beside the executable; no profiles, startup id -1, no executable, no launch |
| `Loader.AfterburnerController.WriteDefaults` | loader/AfterburnerController.cpp:95-111 | writes the defaults into the store and saves; afterwards changes are unsaved exactly when the file does not open and either some were unsaved before or the store held something other than the defaults (`Loader.DefaultsDiffer`) |
| `Loader.AfterburnerController.WriteDefaultValues` | loader/AfterburnerController.cpp:97-108 | the writes of the defaults leave the store as `Loader.Defaults` of the old one, and record a change exactly when one was recorded before or the store held something other than the defaults |
| `Loader.AfterburnerController.WriteMainDefaults` | loader/AfterburnerController.cpp:97-101 | the five `setValue` calls on `Main`; a change is recorded exactly when one of the five values differed from its default |
| `Loader.AfterburnerController.WriteProfileSections` | loader/AfterburnerController.cpp:103-108 | the defaults loop writes the sections `1` to `n`; a change is recorded exactly when one of them held something other than its default name and switch |
| `Loader.AfterburnerController.WriteProfileDefaults` | loader/AfterburnerController.cpp:105-107 | one iteration of the defaults loop; a change is recorded exactly when the section held something other than its default name and switch |
| `Loader.AfterburnerController.ApplyConfig` | loader/AfterburnerController.cpp:93-142 | writes the defaults only when the file is missing, then the profiles and startup profile are the section loop over the store; the unsaved-changes flag is untouched when the file exists, and otherwise is as `WriteDefaults` leaves it |
| `Loader.AfterburnerController.ScanSections` | loader/AfterburnerController.cpp:113-141 | the section loop, in the map's order, from the stored startup id |
| `Loader.AfterburnerController.ScanSection` | loader/AfterburnerController.cpp:117-139 | one iteration: `emplace`, then the startup match |
| `Loader.AfterburnerController.SearchDrives` | loader/AfterburnerController.cpp:158-164 | the nested drive loops stop at the first valid default location |
| `Loader.AfterburnerController.Discover` | loader/AfterburnerController.cpp:147-169 | the whole search, as `Loader.DiscoveredSteps` orders it |
| `Loader.AfterburnerController.TryFindAfterburnerExecutable` | loader/AfterburnerController.cpp:145-178 | returns whether an executable was found; when found, its directory is stored and saved, and changes stay unsaved exactly when the file does not open and either some were unsaved before or the stored directory differed; otherwise the store and flag are untouched |
| `Loader.AfterburnerController.Init` | loader/AfterburnerController.cpp:67-72 | succeeds iff some profile is enabled and the executable is found; no search when no profile is enabled; the store ends as the applied configuration, plus the found directory on success; the unsaved-changes flag is the one `applyConfig` leaves (its save told separately whether the file opens), and on success is then cleared when the search's save opens the file, or otherwise set when the directory differed |
| `Loader.AfterburnerController.SetStartupProfile` | loader/AfterburnerController.cpp:197-208 | a known name becomes the startup profile and its id is stored and read back, and changes stay unsaved exactly when the file does not open and either some were unsaved before or the stored id differed; an unknown name changes nothing |
| `Loader.AfterburnerController.RemoveStartupProfile` | loader/AfterburnerController.cpp:211-218 | the startup profile becomes -1 and `""`; the stored id is emptied when present and reads back as -1; changes stay unsaved exactly when some were unsaved before or a non-empty id was emptied, and the save did not happen (the file does not open or the store is empty) |
| `Loader.AfterburnerController.StoreStartupId` | loader/AfterburnerController.cpp:205-206 | stores the id under `Main` and saves; changes stay unsaved exactly when the file does not open and either some were unsaved before or the stored id differed |
| `Loader.AfterburnerController.ClearStartupId` | loader/AfterburnerController.cpp:216-217 | empties the stored id when present and saves; changes stay unsaved exactly when some were unsaved before or a non-empty id was emptied, and the save did not happen |
| `Loader.AfterburnerController.GetAvailableProfiles` | loader/AfterburnerController.cpp:227-237 | every enabled name once, in strictly increasing order |
| `Loader.AfterburnerController.ApplyProfile` | loader/AfterburnerController.cpp:240-246 | an unknown name launches nothing and fails; a known one launches once with `-Profile<id> -q` and reports the launch |
| `Loader.AfterburnerController.RunAfterburner` | loader/AfterburnerController.cpp:249-252 | launches once with no arguments and reports the launch |

## Left out

- Locale: whitespace is the fixed set of space and tab to carriage return that `isspace` uses in the classic locale. The `en_US.UTF-8` imbue, wide-character encoding and the `std::string` instantiation of the template are not modelled; text is `seq<char>`, modelled once.
- Line endings: the file text is split at `\n` only, as `getline` does on text read in text mode; a carriage return left in a line is whitespace and is trimmed.
- `getExecutablePath` (`GetModuleFileNameW`, `MAX_PATH`), `getFileSize`, `isFileExist`, `browseForFolder`, `safeValidateExeSignature` and `safeExec` are parameters, not computed.
- The window, menu, tray icon, autorun task, translator and single-instance guard are not part of this model. Neither is `FileLocker`.
- `getPreferredLanguage` and `getStartupProfile` are plain field and value getters; the model reads the fields directly.
- The destructors are not modelled, so the final `save` in the store's destructor is not. The store's two `reload` overloads are modelled as one method taking the path.
- ConfigFormat.SaveThenLoad: the round trip is proved only for maps that can be restored (every section has an entry; every key is non-empty, trimmed, without `=` or line break; every value is trimmed, without line break; no entry line is 2 characters or shorter or looks like a header). The others cannot be restored: such a line is read differently or dropped.
- Loader.AfterburnerController.ScanSection: takes what the checks of the loop body found in the section (`Loader.SectionEntry`), not the section itself, so the checks (`Main`, `Enabled`, `stoi` and the 1 to 5 range) are stated once, in the contract of `Loader.ProfileId`.
- Loader.StartupDelay: `std::min<uint32_t>` is modelled by adding 2^32 to a negative 32-bit value, the conversion C++ makes.
