/**
 * The configuration store's data and its text format: a two-level map
 * section -> key -> value, the line parser, the load fold over the lines of a
 * file, the serialiser, and the round trip between them.
 */
module ConfigFormat {
  import opened Wrappers
  import opened Seqs
  import opened Text
  import opened StringOrder

  type Section = map<string, string>
  type Store = map<string, Section>

  /** Files of this size or larger are not read. */
  const MaxConfigFileSizeBytes: nat := 256 * 1024

  const SectionStart: char := '['
  const SectionEnd: char := ']'
  const Equal: char := '='
  const NewLine: char := '\n'

  /** The value stored under `section` / `key`, if any. */
  function Find(store: Store, section: string, key: string): Option<string>
  {
    if section in store && key in store[section] then Some(store[section][key]) else None
  }

  /** `config[section][key] = value`: creates the section and the key when absent (see `AssignFinds`). */
  function Assign(store: Store, section: string, key: string, value: string): Store
  {
    store[section := (if section in store then store[section] else map[])[key := value]]
  }

  /** The sections after `Assign`: those before, and the assigned one. */
  lemma AssignKeys(store: Store, section: string, key: string, value: string)
    ensures Assign(store, section, key, value).Keys == store.Keys + {section}
  {
  }

  /** After an assignment the entry holds the value, the section holds the key, and nothing else changes. */
  lemma AssignFinds(store: Store, section: string, key: string, value: string)
    ensures Assign(store, section, key, value).Keys == store.Keys + {section}
    ensures Find(Assign(store, section, key, value), section, key) == Some(value)
    ensures forall s, k :: (s != section || k != key) ==>
      Find(Assign(store, section, key, value), s, k) == Find(store, s, k)
    ensures forall s :: s in store && s != section ==> Assign(store, section, key, value)[s] == store[s]
    ensures Assign(store, section, key, value)[section].Keys
      == (if section in store then store[section].Keys else {}) + {key}
  {
  }

  // Reading a file.

  /** What one line of the file says. */
  datatype ParsedLine = Header(name: string) | Pair(key: string, value: string) | Skipped

  /**
   * `parseLine`: a trimmed line of at most two characters says nothing; a trimmed
   * line `[...]` names the section that follows (the trimmed inner text, possibly
   * empty); any other line is split at its first `=` into a trimmed key and a
   * trimmed value and is kept only when the key is not empty.
   */
  function ParseLine(line: string): ParsedLine
  {
    ParseTrimmed(Trim(line))
  }

  /** `parseLine` once the line is trimmed. */
  function ParseTrimmed(t: string): ParsedLine
  {
    if |t| <= 2 then Skipped
    else if t[0] == SectionStart && t[|t| - 1] == SectionEnd then Header(Trim(t[1..|t| - 1]))
    else
      match IndexOf(t, Equal)
      case None => Skipped
      case Some(i) =>
        IndexOfFinds(t, Equal);
        var key := Trim(t[..i]);
        if key == [] then Skipped else Pair(key, Trim(t[i + 1..]))
  }

  /**
   * What a parsed line can say: a short line says nothing, section names are
   * trimmed, and a kept entry has a non-empty trimmed key without `=` and a
   * trimmed value.
   */
  lemma ParseLineShape(line: string)
    ensures |Trim(line)| <= 2 ==> ParseLine(line) == Skipped
    ensures ParseLine(line).Header? ==> IsTrimmed(ParseLine(line).name)
    ensures ParseLine(line).Pair? ==>
      var p := ParseLine(line);
      p.key != [] && IsTrimmed(p.key) && IsTrimmed(p.value) && Equal !in p.key
  {
    var t := Trim(line);
    if |t| > 2 && !(t[0] == SectionStart && t[|t| - 1] == SectionEnd) && IndexOf(t, Equal).Some? {
      IndexOfFinds(t, Equal);
      TrimKeepsOut(t[..IndexOf(t, Equal).value], Equal);
    }
  }

  /**
   * Lines of two characters or fewer say nothing, a header with blank inner text
   * names the section `""`, and a value may hold `=` while a key cannot.
   */
  /** `a=` trims to two characters and says nothing. */
  lemma ParseShortLine()
    ensures ParseLine("a=") == Skipped
  {
    TrimOfTrimmed("a=");
  }

  /** `ab=` is an entry with an empty value. */
  lemma ParseEmptyValue()
    ensures ParseLine("ab=") == Pair("ab", "")
  {
    TrimOfTrimmed("ab=");
    TrimOfTrimmed("ab");
    TrimOfTrimmed("");
    assert "ab="[..2] == "ab" && "ab="[3..] == "";
    IndexOfAt("ab=", Equal, 2);
  }

  /** `[ ]` switches to the section with the empty name. */
  lemma ParseBlankHeader()
    ensures ParseLine("[ ]") == Header("")
  {
    TrimOfTrimmed("[ ]");
    assert "[ ]"[1..2] == " ";
    assert TrimStart(" ") == "";
  }

  /** The first `=` splits the line: the value keeps the later ones. */
  lemma ParseValueWithEqual()
    ensures ParseLine("k=a=b") == Pair("k", "a=b")
  {
    TrimOfTrimmed("k=a=b");
    TrimOfTrimmed("k");
    TrimOfTrimmed("a=b");
    assert "k=a=b"[..1] == "k" && "k=a=b"[2..] == "a=b";
    IndexOfAt("k=a=b", Equal, 1);
  }

  /** `std::getline` over the whole text: the lines without their `\n`; a last line without `\n` still counts. */
  function Split(text: string): seq<string>
    decreases |text|
  {
    if text == [] then []
    else
      match IndexOf(text, NewLine)
      case None => [text]
      case Some(i) =>
        IndexOfFinds(text, NewLine);
        [text[..i]] + Split(text[i + 1..])
  }

  /** The state of the load loop: the current section and the map filled so far. */
  datatype LoadState = LoadState(section: string, store: Store)

  /** One iteration of the load loop. */
  function Step(st: LoadState, line: string): LoadState
  {
    match ParseLine(line)
    case Header(name) => LoadState(name, st.store)
    case Pair(key, value) => LoadState(st.section, Assign(st.store, st.section, key, value))
    case Skipped => st
  }

  /** The load loop over `lines`, from state `st`. */
  function LoadLines(st: LoadState, lines: seq<string>): LoadState
  {
    if lines == [] then st
    else Step(LoadLines(st, lines[..|lines| - 1]), lines[|lines| - 1])
  }

  /** What `reload` makes of a readable file: start in section `""` with an empty map. */
  function Load(text: string): Store
  {
    LoadLines(LoadState("", map[]), Split(text)).store
  }

  // Writing a file.

  function HeaderLine(name: string): string
  {
    [SectionStart] + name + [SectionEnd]
  }

  function EntryLine(key: string, value: string): string
  {
    key + [Equal] + value
  }

  /** The `key=value` lines of `keys`, in that order. */
  function EntryLines(sect: Section, keys: seq<string>): seq<string>
    requires forall i :: 0 <= i < |keys| ==> keys[i] in sect
  {
    if keys == [] then []
    else EntryLines(sect, keys[..|keys| - 1]) + [EntryLine(keys[|keys| - 1], sect[keys[|keys| - 1]])]
  }

  /** One section as `save` writes it: a header unless the name is empty, then its entries in key order. */
  function SectionLines(name: string, sect: Section): seq<string>
  {
    (if name == [] then [] else [HeaderLine(name)]) + EntryLines(sect, SortedKeys(sect))
  }

  /** The sections `names`, in that order. */
  function StoreLines(store: Store, names: seq<string>): seq<string>
    requires forall i :: 0 <= i < |names| ==> names[i] in store
  {
    if names == [] then []
    else StoreLines(store, names[..|names| - 1]) + SectionLines(names[|names| - 1], store[names[|names| - 1]])
  }

  /** Writing the entries up to key `i` appends that key's line to the entries before it. */
  lemma EntryLinesStep(sect: Section, keys: seq<string>, i: nat)
    requires forall j :: 0 <= j < |keys| ==> keys[j] in sect
    requires i < |keys|
    ensures EntryLines(sect, keys[..i + 1]) == EntryLines(sect, keys[..i]) + [EntryLine(keys[i], sect[keys[i]])]
  {
    PrefixOfPrefix(keys, i, i + 1);
  }

  /** Writing the sections up to name `i` appends that section's lines to the sections before it. */
  lemma StoreLinesStep(store: Store, names: seq<string>, i: nat)
    requires forall j :: 0 <= j < |names| ==> names[j] in store
    requires i < |names|
    ensures StoreLines(store, names[..i + 1]) == StoreLines(store, names[..i]) + SectionLines(names[i], store[names[i]])
  {
    PrefixOfPrefix(names, i, i + 1);
  }

  /** Every line followed by `std::endl`. */
  function Join(lines: seq<string>): string
  {
    if lines == [] then []
    else Join(lines[..|lines| - 1]) + lines[|lines| - 1] + [NewLine]
  }

  /** The text `save` writes: every section in key order. */
  function Serialize(store: Store): string
  {
    Join(StoreLines(store, SortedKeys(store)))
  }

  /** `save`'s output for two runs of lines is the output for the first followed by that for the second. */
  lemma {:induction false} JoinAppend(a: seq<string>, b: seq<string>)
    ensures Join(a + b) == Join(a) + Join(b)
    decreases |b|
  {
    if b == [] {
      assert a + b == a;
    } else {
      var init := b[..|b| - 1];
      assert (a + b)[..|a + b| - 1] == a + init;
      JoinAppend(a, init);
    }
  }

  // What is read back is trimmed.

  /** Every section name, key and value is trimmed, as `parseLine` and `setValue` leave them. */
  predicate AllTrimmed(store: Store)
  {
    forall s :: s in store ==>
      IsTrimmed(s) && forall k :: k in store[s] ==> IsTrimmed(k) && IsTrimmed(store[s][k])
  }

  lemma AssignTrimmed(store: Store, section: string, key: string, value: string)
    requires AllTrimmed(store) && IsTrimmed(section) && IsTrimmed(key) && IsTrimmed(value)
    ensures AllTrimmed(Assign(store, section, key, value))
  {
    AssignFinds(store, section, key, value);
  }

  /** The load loop only ever produces trimmed section names, keys and values. */
  lemma {:induction false} LoadLinesTrimmed(st: LoadState, lines: seq<string>)
    requires AllTrimmed(st.store) && IsTrimmed(st.section)
    ensures AllTrimmed(LoadLines(st, lines).store) && IsTrimmed(LoadLines(st, lines).section)
  {
    if lines != [] {
      var mid := LoadLines(st, lines[..|lines| - 1]);
      var line := lines[|lines| - 1];
      LoadLinesTrimmed(st, lines[..|lines| - 1]);
      ParseLineShape(line);
      if ParseLine(line).Pair? {
        AssignTrimmed(mid.store, mid.section, ParseLine(line).key, ParseLine(line).value);
      }
    }
  }

  lemma LoadTrimmed(text: string)
    ensures AllTrimmed(Load(text))
  {
    LoadLinesTrimmed(LoadState("", map[]), Split(text));
  }

  // The round trip: what `save` writes, `reload` reads back.

  /** An entry whose `key=value` line reads back as the same entry. */
  predicate EntryRestores(key: string, value: string)
  {
    && key != [] && IsTrimmed(key) && IsTrimmed(value)
    && Equal !in key && NewLine !in key && NewLine !in value
    && |key| + |value| >= 2
    && !(key[0] == SectionStart && value != [] && value[|value| - 1] == SectionEnd)
  }

  /** A section that survives being written and read back: it has an entry, and every entry restores. */
  predicate SectionRestores(name: string, sect: Section)
  {
    && sect != map[] && IsTrimmed(name) && NewLine !in name
    && forall k :: k in sect ==> EntryRestores(k, sect[k])
  }

  predicate Restorable(store: Store)
  {
    forall name :: name in store ==> SectionRestores(name, store[name])
  }

  predicate NoNewLines(lines: seq<string>)
  {
    forall i :: 0 <= i < |lines| ==> NewLine !in lines[i]
  }

  /** Where the first `\n` of a text is, `Split` cuts off the first line. */
  lemma SplitAt(u: string, i: nat)
    requires i < |u| && u[i] == NewLine && NewLine !in u[..i]
    ensures Split(u) == [u[..i]] + Split(u[i + 1..])
  {
    IndexOfAt(u, NewLine, i);
  }

  /** A single `\n`-terminated line splits into itself. */
  lemma SplitOneLine(line: string)
    requires NewLine !in line
    ensures Split(line + [NewLine]) == [line]
  {
    var u := line + [NewLine];
    assert u[..|line|] == line;
    SplitAt(u, |line|);
    assert u[|line| + 1..] == [];
  }

  /** A text that ends a line: `Split` cuts off its first line, both alone and with more text after it. */
  lemma SplitFirst(t: string, more: string) returns (i: nat)
    requires t != [] && t[|t| - 1] == NewLine
    ensures i < |t|
    ensures Split(t) == [t[..i]] + Split(t[i + 1..])
    ensures Split(t + more) == [t[..i]] + Split(t[i + 1..] + more)
  {
    assert NewLine in t by {
      assert t[|t| - 1] == NewLine;
    }
    IndexOfFinds(t, NewLine);
    i := IndexOf(t, NewLine).value;
    assert Split(t) == [t[..i]] + Split(t[i + 1..]) by {
      SplitAt(t, i);
    }
    assert Split(t + more) == [t[..i]] + Split(t[i + 1..] + more) by {
      SplitAtPrefix(t, more, i);
    }
  }

  /** The first line break of `t` is also the first of `t + more`. */
  lemma SplitAtPrefix(t: string, more: string, i: nat)
    requires i < |t| && t[i] == NewLine && NewLine !in t[..i]
    ensures Split(t + more) == [t[..i]] + Split(t[i + 1..] + more)
  {
    var u := t + more;
    assert u[..i] == t[..i];
    assert u[i + 1..] == t[i + 1..] + more;
    SplitAt(u, i);
  }

  /** Reading one more `\n`-terminated line after a text that ends a line adds exactly that line. */
  lemma {:induction false} SplitAppend(t: string, line: string)
    requires t == [] || t[|t| - 1] == NewLine
    requires NewLine !in line
    ensures Split(t + line + [NewLine]) == Split(t) + [line]
    decreases |t|
  {
    if t == [] {
      SplitOneLine(line);
      assert t + line + [NewLine] == line + [NewLine];
    } else {
      var i := SplitFirst(t, line + [NewLine]);
      var rest := t[i + 1..];
      SplitAppend(rest, line);
      assert t + line + [NewLine] == t + (line + [NewLine]);
      assert rest + (line + [NewLine]) == rest + line + [NewLine];
    }
  }

  /** Splitting the written text gives back the written lines. */
  lemma {:induction false} SplitJoin(lines: seq<string>)
    requires NoNewLines(lines)
    ensures Split(Join(lines)) == lines
  {
    if lines != [] {
      var init := lines[..|lines| - 1];
      SplitJoin(init);
      SplitAppend(Join(init), lines[|lines| - 1]);
      assert lines == init + [lines[|lines| - 1]];
    }
  }

  /** The load loop over two runs of lines is the loop over the second, started where the first ended. */
  lemma {:induction false} LoadAppend(st: LoadState, a: seq<string>, b: seq<string>)
    ensures LoadLines(st, a + b) == LoadLines(LoadLines(st, a), b)
    decreases |b|
  {
    if b == [] {
      assert a + b == a;
    } else {
      var init := b[..|b| - 1];
      assert (a + b)[..|a + b| - 1] == a + init;
      LoadAppend(st, a, init);
    }
  }

  /** Where the key, the `=` and the value sit in an entry line. */
  lemma EntryLineParts(key: string, value: string)
    ensures var line := EntryLine(key, value);
      && |line| == |key| + 1 + |value|
      && line[..|key|] == key && line[|key|] == Equal && line[|key| + 1..] == value
  {
    var line := EntryLine(key, value);
    assert line[..|key|] == key;
    assert line[|key| + 1..] == value;
  }

  /** A written entry line parses as the same entry. */
  lemma ParseEntryLine(key: string, value: string)
    requires EntryRestores(key, value)
    ensures ParseLine(EntryLine(key, value)) == Pair(key, value)
  {
    var line := EntryLine(key, value);
    EntryLineParts(key, value);
    assert ParseLine(line) == ParseTrimmed(line) by {
      assert line[0] == key[0];
      assert line[|line| - 1] == if value == [] then Equal else value[|value| - 1];
      TrimOfTrimmed(line);
    }
    assert IndexOf(line, Equal) == Some(|key|) by {
      IndexOfAt(line, Equal, |key|);
    }
    TrimOfTrimmed(key);
    TrimOfTrimmed(value);
  }

  /** A written header line parses as the same section name. */
  lemma ParseHeaderLine(name: string)
    requires name != [] && IsTrimmed(name)
    ensures ParseLine(HeaderLine(name)) == Header(name)
  {
    var line := HeaderLine(name);
    assert ParseLine(line) == ParseTrimmed(line) by {
      TrimOfTrimmed(line);
    }
    assert line[1..|line| - 1] == name;
    TrimOfTrimmed(name);
  }

  /** What a section already holds, or nothing. */
  function Base(store: Store, section: string): Section
  {
    if section in store then store[section] else map[]
  }

  /** The entries of `sect` under `keys`. */
  function Entries(sect: Section, keys: seq<string>): Section
    requires forall i :: 0 <= i < |keys| ==> keys[i] in sect
  {
    map k | k in keys :: sect[k]
  }

  lemma EntriesSnoc(sect: Section, keys: seq<string>)
    requires keys != [] && forall j :: j in keys ==> j in sect
    ensures Entries(sect, keys) == Entries(sect, keys[..|keys| - 1])[keys[|keys| - 1] := sect[keys[|keys| - 1]]]
  {
    assert keys == keys[..|keys| - 1] + [keys[|keys| - 1]];
  }

  /** The load loop over one more line is one more step. */
  lemma LoadLinesSnoc(st: LoadState, lines: seq<string>, line: string)
    ensures LoadLines(st, lines + [line]) == Step(LoadLines(st, lines), line)
  {
    assert (lines + [line])[..|lines|] == lines;
  }

  /** Loading a written entry line assigns that entry in the current section. */
  lemma StepEntry(st: LoadState, key: string, value: string)
    requires EntryRestores(key, value)
    ensures Step(st, EntryLine(key, value)) == LoadState(st.section, Assign(st.store, st.section, key, value))
  {
    ParseEntryLine(key, value);
  }

  /** Loading the entry lines of `keys` is loading those of all but the last key, then assigning the last entry. */
  lemma LoadLastEntry(st: LoadState, sect: Section, keys: seq<string>)
    requires keys != []
    requires forall k :: k in keys ==> k in sect && EntryRestores(k, sect[k])
    ensures
      var mid := LoadLines(st, EntryLines(sect, keys[..|keys| - 1]));
      var k := keys[|keys| - 1];
      LoadLines(st, EntryLines(sect, keys)) == LoadState(mid.section, Assign(mid.store, mid.section, k, sect[k]))
  {
    var k := keys[|keys| - 1];
    var lines := EntryLines(sect, keys[..|keys| - 1]);
    LoadLinesSnoc(st, lines, EntryLine(k, sect[k]));
    StepEntry(LoadLines(st, lines), k, sect[k]);
  }

  /** Loading the entry lines of `keys` adds those entries to the current section. */
  lemma {:induction false} LoadEntryLines(st: LoadState, sect: Section, keys: seq<string>)
    requires forall k :: k in keys ==> k in sect && EntryRestores(k, sect[k])
    ensures LoadLines(st, EntryLines(sect, keys)).section == st.section
    ensures keys == [] ==> LoadLines(st, EntryLines(sect, keys)).store == st.store
    ensures keys != [] ==>
      LoadLines(st, EntryLines(sect, keys)).store
      == st.store[st.section := Base(st.store, st.section) + Entries(sect, keys)]
    decreases |keys|
  {
    if keys != [] {
      var init := keys[..|keys| - 1];
      var k := keys[|keys| - 1];
      var v := sect[k];
      var sec := st.section;
      LoadEntryLines(st, sect, init);
      LoadLastEntry(st, sect, keys);
      var mid := LoadLines(st, EntryLines(sect, init));
      var before := Base(st.store, sec) + Entries(sect, init);
      assert Base(mid.store, sec) == before by {
        if init == [] {
          assert Entries(sect, init) == map[];
        }
      }
      AssignAfter(st.store, mid.store, sec, before, k, v);
      EntriesSnoc(sect, keys);
      UpdateUnion(Base(st.store, sec), Entries(sect, init), k, v);
    }
  }

  lemma AssignAfter(store: Store, mid: Store, sec: string, before: Section, k: string, v: string)
    requires Base(mid, sec) == before
    requires mid == store || mid == store[sec := before]
    ensures Assign(mid, sec, k, v) == store[sec := before[k := v]]
  {
  }

  lemma EmptyUnion(m: Section)
    ensures map[] + m == m
  {
  }

  lemma UpdateUnion(a: Section, b: Section, k: string, v: string)
    ensures (a + b)[k := v] == a + b[k := v]
  {
  }

  /** A section whose entries are all listed: the listed entries are the section. */
  lemma EntriesOfAllKeys(sect: Section)
    ensures Entries(sect, SortedKeys(sect)) == sect
  {
  }

  /** Loading one written section adds its entries under its name. */
  lemma LoadSection(st: LoadState, name: string, sect: Section)
    requires SectionRestores(name, sect)
    requires name == [] ==> st.section == []
    ensures LoadLines(st, SectionLines(name, sect)).store == st.store[name := Base(st.store, name) + sect]
  {
    var keys := SortedKeys(sect);
    assert keys != [];
    EntriesOfAllKeys(sect);
    if name == [] {
      assert SectionLines(name, sect) == EntryLines(sect, keys);
      LoadEntryLines(st, sect, keys);
    } else {
      ParseHeaderLine(name);
      var afterHeader := LoadState(name, st.store);
      LoadAppend(st, [HeaderLine(name)], EntryLines(sect, keys));
      assert LoadLines(st, [HeaderLine(name)]) == afterHeader by {
        LoadLinesSnoc(st, [], HeaderLine(name));
        assert [] + [HeaderLine(name)] == [HeaderLine(name)];
      }
      LoadEntryLines(afterHeader, sect, keys);
    }
  }

  /** The sections of `store` named in `names`. */
  function Sections(store: Store, names: seq<string>): Store
    requires forall i :: 0 <= i < |names| ==> names[i] in store
  {
    map n | n in names :: store[n]
  }

  lemma SectionsSnoc(store: Store, names: seq<string>)
    requires names != [] && forall n :: n in names ==> n in store
    ensures Sections(store, names) == Sections(store, names[..|names| - 1])[names[|names| - 1] := store[names[|names| - 1]]]
  {
    assert names == names[..|names| - 1] + [names[|names| - 1]];
  }

  /** Loading the lines of the sections `names`, in increasing order, gives back exactly those sections. */
  lemma {:induction false} LoadStoreLines(store: Store, names: seq<string>)
    requires Restorable(store)
    requires forall n :: n in names ==> n in store
    requires StrictlyIncreasing(names)
    requires "" in names ==> names[0] == ""
    ensures LoadLines(LoadState("", map[]), StoreLines(store, names)).store == Sections(store, names)
    decreases |names|
  {
    if names != [] {
      var init := names[..|names| - 1];
      var n := names[|names| - 1];
      var st0 := LoadState("", map[]);
      var mid := LoadLines(st0, StoreLines(store, init));
      assert n !in init && (n == [] ==> init == []) by {
        IncreasingDistinct(names);
      }
      LoadStoreLines(store, init);
      assert n == [] ==> mid == st0;
      LoadLastSection(st0, store, names);
      assert Base(mid.store, n) == map[];
      EmptyUnion(store[n]);
      SectionsSnoc(store, names);
    }
  }

  /** Loading the lines of the sections `names` is loading all but the last, then the last section. */
  lemma LoadLastSection(st: LoadState, store: Store, names: seq<string>)
    requires names != [] && forall n :: n in names ==> n in store
    requires SectionRestores(names[|names| - 1], store[names[|names| - 1]])
    requires names[|names| - 1] == [] ==> LoadLines(st, StoreLines(store, names[..|names| - 1])).section == []
    ensures
      var mid := LoadLines(st, StoreLines(store, names[..|names| - 1]));
      var n := names[|names| - 1];
      LoadLines(st, StoreLines(store, names)).store == mid.store[n := Base(mid.store, n) + store[n]]
  {
    var n := names[|names| - 1];
    var head := StoreLines(store, names[..|names| - 1]);
    LoadAppend(st, head, SectionLines(n, store[n]));
    LoadSection(LoadLines(st, head), n, store[n]);
  }

  lemma NoNewLinesAppend(a: seq<string>, b: seq<string>)
    requires NoNewLines(a) && NoNewLines(b)
    ensures NoNewLines(a + b)
  {
    forall i | 0 <= i < |a + b|
      ensures NewLine !in (a + b)[i]
    {
      if i < |a| {
        assert (a + b)[i] == a[i];
      } else {
        assert (a + b)[i] == b[i - |a|];
      }
    }
  }

  lemma {:induction false} EntryLinesHaveNoNewLine(sect: Section, keys: seq<string>)
    requires forall k :: k in keys ==> k in sect && NewLine !in k && NewLine !in sect[k]
    ensures NoNewLines(EntryLines(sect, keys))
  {
    if keys != [] {
      var k := keys[|keys| - 1];
      EntryLinesHaveNoNewLine(sect, keys[..|keys| - 1]);
      assert NewLine !in EntryLine(k, sect[k]);
      NoNewLinesAppend(EntryLines(sect, keys[..|keys| - 1]), [EntryLine(k, sect[k])]);
    }
  }

  lemma SectionLinesHaveNoNewLine(name: string, sect: Section)
    requires SectionRestores(name, sect)
    ensures NoNewLines(SectionLines(name, sect))
  {
    var keys := SortedKeys(sect);
    EntryLinesHaveNoNewLine(sect, keys);
    var head: seq<string> := if name == [] then [] else [HeaderLine(name)];
    assert NoNewLines(head) by {
      if name != [] {
        assert NewLine !in HeaderLine(name);
      }
    }
    NoNewLinesAppend(head, EntryLines(sect, keys));
  }

  lemma {:induction false} StoreLinesHaveNoNewLine(store: Store, names: seq<string>)
    requires Restorable(store)
    requires forall n :: n in names ==> n in store
    ensures NoNewLines(StoreLines(store, names))
  {
    if names != [] {
      var n := names[|names| - 1];
      StoreLinesHaveNoNewLine(store, names[..|names| - 1]);
      SectionLinesHaveNoNewLine(n, store[n]);
      NoNewLinesAppend(StoreLines(store, names[..|names| - 1]), SectionLines(n, store[n]));
    }
  }

  /**
   * Reading back what `save` wrote restores the whole map, provided every section
   * has an entry and every entry's line reads back as itself (see `EntryRestores`).
   */
  lemma SaveThenLoad(store: Store)
    requires Restorable(store)
    ensures Load(Serialize(store)) == store
  {
    var names := SortedKeys(store);
    StoreLinesHaveNoNewLine(store, names);
    SplitJoin(StoreLines(store, names));
    SortedKeysIncreasing(store);
    if "" in store {
      EmptyKeyFirst(store);
    }
    LoadStoreLines(store, names);
  }
}
