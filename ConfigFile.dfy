/**
 * The configuration store object: the path of its file, the two-level map and
 * the flag recording unsaved changes. The read-only members are functions of
 * the map; the members that change the object are methods of `ConfigFile`.
 *
 * The file system is a parameter: `Reload` is given the size the file system
 * reports and the file's text, or `None` when the file cannot be opened; `Save`
 * is told whether the file opens for writing and returns the text it writes.
 */
module ConfigFile {
  import opened Wrappers
  import opened Text
  import opened StringOrder
  import opened ConfigFormat
  import opened Seqs

  // The read-only members, on the map they read.

  /** `getValue(section, key)`: the value under the trimmed section and key, or the empty text. */
  function GetValue(store: Store, section: string, key: string): (v: string)
    ensures Trim(section) !in store || Trim(key) !in store[Trim(section)] ==> v == []
    ensures Trim(section) in store && Trim(key) in store[Trim(section)] ==> v == store[Trim(section)][Trim(key)]
    ensures AllTrimmed(store) ==> IsTrimmed(v)
  {
    match Find(store, Trim(section), Trim(key))
    case Some(x) => x
    case None => []
  }

  /**
   * `getValue(section, key, int32_t defVal)`: the value read by `std::stoi`, or the
   * default when the value is empty or `std::stoi` throws.
   */
  function GetInt(store: Store, section: string, key: string, defVal: int): (r: int)
    ensures InInt32(defVal) ==> InInt32(r)
    ensures r == defVal || Stoi(GetValue(store, section, key)) == Some(r)
  {
    var s := GetValue(store, section, key);
    if s != [] && Stoi(s).Some? then Stoi(s).value else defVal
  }

  /** `getValue(section, key, defVal)`: the value, or the default when the value is empty. */
  function GetString(store: Store, section: string, key: string, defVal: string): (r: string)
    ensures GetValue(store, section, key) != [] ==> r == GetValue(store, section, key)
    ensures GetValue(store, section, key) == [] ==> r == defVal
  {
    var s := GetValue(store, section, key);
    if s == [] then defVal else s
  }

  /** `listSections`: every section name, in the map's order. */
  function ListSections(store: Store): (r: seq<string>)
    ensures forall s :: s in r <==> s in store
    ensures |r| == |store|
  {
    SortedKeys(store)
  }

  /** `listKeys`: the keys of the section, in the map's order; the section name is not trimmed here. */
  function ListKeys(store: Store, section: string): (r: seq<string>)
    ensures section in store ==> (forall k :: k in r <==> k in store[section]) && |r| == |store[section]|
    ensures section !in store ==> r == []
  {
    if section in store then SortedKeys(store[section]) else []
  }

  /** What `reload` leaves in the map: the file's entries when it is small enough and opens, else the old map. */
  function Reloaded(previous: Store, fileSize: nat, content: Option<string>): Store
  {
    if fileSize < MaxConfigFileSizeBytes && content.Some? then Load(content.value) else previous
  }

  class ConfigFile {
    var path: string
    var config: Store
    var hasChanges: bool

    /** Names, keys and values are kept trimmed. */
    ghost predicate Valid()
      reads this
    {
      AllTrimmed(config)
    }

    /** The default constructor: no path, no entries, nothing to save. */
    constructor Empty()
      ensures Valid()
      ensures path == [] && config == map[] && !hasChanges
    {
      path := [];
      config := map[];
      hasChanges := false;
    }

    /** Opens the store on `path` and reads the file. */
    constructor (path: string, fileSize: nat, content: Option<string>)
      ensures Valid()
      ensures this.path == path && !hasChanges
      ensures config == Reloaded(map[], fileSize, content)
    {
      this.path := path;
      config := map[];
      hasChanges := false;
      new;
      Reload(path, fileSize, content);
    }

    /**
     * `reload(newPath)`: takes the new path; when the file is smaller than the
     * limit and opens, the map is cleared and every line is parsed in order. The
     * change flag is left as it was.
     */
    method Reload(newPath: string, fileSize: nat, content: Option<string>)
      requires Valid()
      modifies this
      ensures Valid()
      ensures path == newPath && hasChanges == old(hasChanges)
      ensures config == Reloaded(old(config), fileSize, content)
    {
      path := newPath;
      if fileSize < MaxConfigFileSizeBytes && content.Some? {
        config := map[];
        var lines := Split(content.value);
        var section := "";
        var i := 0;
        ghost var st := LoadState("", map[]);
        ghost var done: seq<string> := [];
        while i < |lines|
          invariant 0 <= i <= |lines|
          invariant path == newPath && hasChanges == old(hasChanges)
          invariant done == lines[..i]
          invariant st == LoadState(section, config)
          invariant st == LoadLines(LoadState("", map[]), done)
        {
          match ParseLine(lines[i]) {
            case Header(name) =>
              section := name;
            case Pair(key, value) =>
              config := Assign(config, section, key, value);
            case Skipped =>
          }
          LoadLinesSnoc(LoadState("", map[]), done, lines[i]);
          PrefixSnoc(lines, i);
          st := Step(st, lines[i]);
          done := done + [lines[i]];
          i := i + 1;
        }
        PrefixAll(lines);
        LoadTrimmed(content.value);
      }
    }

    /**
     * `setValue(section, key, value)`: trims the three arguments, creates the
     * entry when it is missing, and records a change when the stored value
     * (trimmed in place first) differs from the new one.
     */
    method SetValue(section: string, key: string, value: string)
      requires Valid()
      modifies this
      ensures Valid()
      ensures path == old(path)
      ensures config == Assign(old(config), Trim(section), Trim(key), Trim(value))
      ensures hasChanges == (old(hasChanges) || GetValue(old(config), section, key) != Trim(value))
    {
      var s := EraseSurroundingSpace(section);
      var k := EraseSurroundingSpace(key);
      var current := GetValue(config, section, key);
      current := EraseSurroundingSpace(current);
      TrimOfTrimmed(GetValue(config, section, key));
      var v := EraseSurroundingSpace(value);
      hasChanges := hasChanges || current != v;
      AssignTrimmed(config, s, k, v);
      config := Assign(config, s, k, v);
    }

    /** `setValue(section, key, int32_t value)`: stores the decimal text of the number. */
    method SetInt(section: string, key: string, value: int)
      requires Valid() && InInt32(value)
      modifies this
      ensures Valid()
      ensures path == old(path)
      ensures config == Assign(old(config), Trim(section), Trim(key), IntToString(value))
      ensures hasChanges == (old(hasChanges) || GetValue(old(config), section, key) != IntToString(value))
      ensures forall defVal :: GetInt(config, section, key, defVal) == value
    {
      var text := IntToString(value);
      TrimOfTrimmed(text);
      SetValue(section, key, text);
      forall defVal
        ensures GetInt(config, section, key, defVal) == value
      {
        SetIntThenGetInt(old(config), section, key, value, defVal);
      }
    }

    /**
     * `clearValue(section, key)`: empties an existing entry (the key stays) and
     * records a change when it was not empty; a missing entry is left alone.
     */
    method ClearValue(section: string, key: string)
      requires Valid()
      modifies this
      ensures Valid()
      ensures path == old(path)
      ensures Find(old(config), Trim(section), Trim(key)).None? ==>
        config == old(config) && hasChanges == old(hasChanges)
      ensures Find(old(config), Trim(section), Trim(key)).Some? ==>
        && config == Assign(old(config), Trim(section), Trim(key), [])
        && hasChanges == (old(hasChanges) || GetValue(old(config), section, key) != [])
    {
      var s := EraseSurroundingSpace(section);
      var k := EraseSurroundingSpace(key);
      if s in config && k in config[s] {
        hasChanges := hasChanges || config[s][k] != [];
        AssignTrimmed(config, s, k, []);
        config := Assign(config, s, k, []);
      }
    }

    /**
     * `save`: when the map is not empty and has unsaved changes, and the file
     * opens, writes every section in the map's order (a header line unless the
     * name is empty, then a `key=value` line per entry) and clears the flag.
     * `written` is the text written, or `None` when nothing was written.
     */
    method Save(opens: bool) returns (written: Option<string>)
      modifies this
      ensures config == old(config) && path == old(path)
      ensures written == (if old(config) != map[] && old(hasChanges) && opens then Some(Serialize(config)) else None)
      ensures hasChanges == (old(hasChanges) && !(old(config) != map[] && opens))
    {
      written := None;
      if config != map[] && hasChanges && opens {
        var lines := WriteSections(config);
        written := Some(Join(lines));
        hasChanges := false;
      }
    }
  }

  /** The write loop of `save`: the lines of every section in the map's order, each to be followed by a line break. */
  method WriteSections(config: Store) returns (lines: seq<string>)
    ensures Join(lines) == Serialize(config)
  {
    lines := [];
    var names := SortedKeys(config);
    for i := 0 to |names|
      invariant lines == StoreLines(config, names[..i])
    {
      var section := WriteSection(names[i], config[names[i]]);
      StoreLinesStep(config, names, i);
      lines := lines + section;
    }
    PrefixAll(names);
  }

  /** One section as `save` writes it: the header line unless the name is empty, then a line per entry. */
  method WriteSection(name: string, sect: Section) returns (lines: seq<string>)
    ensures lines == SectionLines(name, sect)
  {
    var head: seq<string> := if name == [] then [] else [HeaderLine(name)];
    var entries: seq<string> := [];
    var keys := SortedKeys(sect);
    for j := 0 to |keys|
      invariant entries == EntryLines(sect, keys[..j])
    {
      EntryLinesStep(sect, keys, j);
      entries := entries + [EntryLine(keys[j], sect[keys[j]])];
    }
    PrefixAll(keys);
    lines := head + entries;
  }

  // Reading back what was set.

  /** After `setValue`, `getValue` at the same place gives the trimmed value, and every other place is unchanged. */
  lemma SetThenGet(store: Store, section: string, key: string, value: string)
    ensures GetValue(Assign(store, Trim(section), Trim(key), Trim(value)), section, key) == Trim(value)
    ensures forall s, k :: Trim(s) != Trim(section) || Trim(k) != Trim(key) ==>
      GetValue(Assign(store, Trim(section), Trim(key), Trim(value)), s, k) == GetValue(store, s, k)
  {
    AssignFinds(store, Trim(section), Trim(key), Trim(value));
  }

  /** After `setValue` with a 32-bit number, the integer `getValue` reads that number back, whatever the default. */
  lemma SetIntThenGetInt(store: Store, section: string, key: string, n: int, defVal: int)
    requires InInt32(n)
    ensures GetInt(Assign(store, Trim(section), Trim(key), IntToString(n)), section, key, defVal) == n
  {
    AssignFinds(store, Trim(section), Trim(key), IntToString(n));
    StoiOfIntToString(n, []);
    assert IntToString(n) + [] == IntToString(n);
  }

  /** After `clearValue` of an existing entry, every getter falls back to its default. */
  lemma ClearThenGet(store: Store, section: string, key: string, intDefault: int, textDefault: string)
    ensures var cleared := Assign(store, Trim(section), Trim(key), []);
      && GetValue(cleared, section, key) == []
      && GetInt(cleared, section, key, intDefault) == intDefault
      && GetString(cleared, section, key, textDefault) == textDefault
  {
    AssignFinds(store, Trim(section), Trim(key), []);
  }

  /**
   * The integer `getValue` falls back to the default exactly when `stoi` cannot
   * read the value, which covers an absent or empty entry and text such as `abc`.
   */
  lemma GetIntFallsBack(store: Store, section: string, key: string, defVal: int)
    ensures Stoi(GetValue(store, section, key)).None? ==> GetInt(store, section, key, defVal) == defVal
    ensures Stoi(GetValue(store, section, key)).Some? ==>
      GetInt(store, section, key, defVal) == Stoi(GetValue(store, section, key)).value
    ensures GetValue(store, section, key) == [] ==> GetInt(store, section, key, defVal) == defVal
  {
    if GetValue(store, section, key) == [] {
      StoiWithoutDigits([]);
    }
  }

  /** Setting the value that is already stored records no change. */
  lemma SetSameValueUnchanged(store: Store, section: string, key: string, value: string)
    ensures var after := Assign(store, Trim(section), Trim(key), Trim(value));
      GetValue(after, section, key) == Trim(value) && Assign(after, Trim(section), Trim(key), Trim(value)) == after
  {
    var after := Assign(store, Trim(section), Trim(key), Trim(value));
    SetThenGet(store, section, key, value);
    AssignFinds(store, Trim(section), Trim(key), Trim(value));
    assert after[Trim(section)][Trim(key)] == Trim(value);
    assert after[Trim(section)][Trim(key) := Trim(value)] == after[Trim(section)];
  }

  /** `listSections` visits the section names in increasing order, each once. */
  lemma ListSectionsOrdered(store: Store)
    ensures StrictlyIncreasing(ListSections(store))
  {
    SortedKeysIncreasing(store);
  }

  /** `listKeys` visits a section's keys in increasing order, each once. */
  lemma ListKeysOrdered(store: Store, section: string)
    ensures StrictlyIncreasing(ListKeys(store, section))
  {
    if section in store {
      SortedKeysIncreasing(store[section]);
    }
  }
}
