/** Persisting [llm] keys: which file `write_llm_config` leaves behind (app/product_config.py). */
module ConfigUpdate {
  import opened Seqs
  import opened Toml
  import opened ConfigFile
  import opened ConfigRoundTrip
  import opened ConfigCanonical

  /**
   * How an update ends. `Unreadable` is the failure that is found by loading the file again: the new
   * text is in the file already.
   */
  datatype Outcome = Written(text: string) | Unreadable(text: string)
                   | BadProvider | BadMode | BadFile | BadLlmEntry

  predicate Falsy(v: Value) {
    v == Str("") || v == Int(0) || v == Bool(false)
  }

  /** The llm table to start from: empty when it is missing or false; any other value raises. */
  function LlmTable(data: Config): Option<map<string, Value>> {
    if "llm" !in data then Some(map[])
    else match data["llm"]
         case Table(entries) => Some(entries)
         case Scalar(v) => if Falsy(v) then Some(map[]) else None
  }

  function AsValues(updates: map<string, string>): map<string, Value> {
    map k | k in updates :: Str(updates[k])
  }

  function Updated(data: Config, updates: map<string, string>): Config
    requires LlmTable(data).Some?
  {
    data["llm" := Table(LlmTable(data).value + AsValues(updates))]
  }

  /** The six keyword arguments are the only keys; the ones left out are not in `updates`. */
  predicate Arguments(updates: map<string, string>) {
    forall k :: k in updates ==> k in LLM_KEYS
  }

  predicate ValidChoice(updates: map<string, string>, key: string, choices: seq<string>) {
    key in updates ==> updates[key] in choices
  }

  method WriteLlmConfig(file: string, updates: map<string, string>) returns (r: Outcome)
    requires Arguments(updates)
    ensures r.BadProvider? <==>
      "provider" in updates && updates["provider"] !in ["auto", "ollama", "openai", "anthropic", "9router"]
    ensures r.BadMode? <==>
      !r.BadProvider? && "mode" in updates && updates["mode"] !in ["auto", "local", "remote"]
    ensures r.BadFile? <==> !r.BadProvider? && !r.BadMode? && Read(file).None?
    ensures r.BadLlmEntry? <==>
      && !r.BadProvider? && !r.BadMode? && Read(file).Some? && "llm" in Read(file).value
      && Read(file).value["llm"] !in {Scalar(Str("")), Scalar(Int(0)), Scalar(Bool(false))}
      && Read(file).value["llm"].Scalar?
    ensures r.Written? || r.Unreadable? ==>
      && Read(file).Some? && LlmTable(Read(file).value).Some?
      && var data := Updated(Read(file).value, updates);
         && r.text == Document(data)
         && (r.Written? <==> Read(r.text).Some?)
         && (Read(r.text) == Some(Kept(data)) <==> BareNames(Kept(data)) && PrintableConfig(data))
         && (BareNames(Kept(data)) ==> (r.Written? <==> PrintableConfig(data)))
  {
    if "provider" in updates && updates["provider"] !in PROVIDERS {
      return BadProvider;
    }
    if "mode" in updates && updates["mode"] !in MODES {
      return BadMode;
    }
    var loaded := Read(file);
    if loaded.None? {
      return BadFile;
    }
    var llm := LlmTable(loaded.value);
    if llm.None? {
      return BadLlmEntry;
    }
    var data := loaded.value["llm" := Table(llm.value + AsValues(updates))];
    var text := DumpToml(data);
    ReadsBackIff(data);
    r := if Read(text).Some? then Written(text) else Unreadable(text);
  }

  // ----- what an update changes -----

  /** Only the given keys of the llm table change, and only sections that are never written are lost. */
  lemma {:induction false} OnlyGivenKeysChange(data: Config, updates: map<string, string>)
    requires LlmTable(data).Some?
    ensures var after, before := Kept(Updated(data, updates)), LlmTable(data).value;
            && "llm" in after && after["llm"].Table?
            && (forall k :: k in updates ==> k in after["llm"].entries && after["llm"].entries[k] == Str(updates[k]))
            && (forall k :: k !in updates ==> (k in after["llm"].entries <==> k in before))
            && (forall k :: k !in updates && k in before ==> after["llm"].entries[k] == before[k])
            && (forall s :: s != "llm" ==> (s in after <==> IsKept(data, s)))
            && (forall s :: s != "llm" && s in after ==> after[s] == data[s])
  {
    var d := Updated(data, updates);
    assert IsKept(d, "llm") by {
      assert KNOWN_SECTIONS[0] == "llm";
    }
    forall s | s != "llm" ensures IsKept(d, s) <==> IsKept(data, s) {
      assert s in d <==> s in data;
    }
  }

  /** The same update again leaves the file as it is. */
  lemma SameUpdateSameFile(data: Config, updates: map<string, string>)
    requires LlmTable(data).Some?
    ensures LlmTable(Kept(Updated(data, updates))).Some?
    ensures Document(Updated(Kept(Updated(data, updates)), updates)) == Document(Updated(data, updates))
  {
    var once := Updated(data, updates);
    OnlyGivenKeysChange(data, updates);
    var again := Updated(Kept(once), updates);
    var entries := LlmTable(data).value + AsValues(updates);
    assert once["llm"] == Table(entries) && Kept(once)["llm"] == Table(entries);
    assert entries + AsValues(updates) == entries;
    assert again == Kept(once);
    TextIsCanonical(once);
  }

  // ----- updates that leave an unreadable file behind -----

  const LINE_FEED: map<string, string> := map["model" := "a\nb"]

  /** Whatever the file holds, a line feed in the model name puts a control character in the new text. */
  lemma {:induction false} LineFeedIsUnprintable(data: Config)
    requires LlmTable(data).Some?
    ensures !PrintableConfig(Updated(data, LINE_FEED))
  {
    var after := Updated(data, LINE_FEED);
    assert "model" in after["llm"].entries && after["llm"].entries["model"] == Str("a\nb");
    assert "a\nb"[1] == '\n' && IsControl('\n');
    assert IsKept(after, "llm") by {
      assert after["llm"].entries != map[];
    }
  }

  lemma EmptyFileIsReadable()
    ensures Read("") == Some(map[])
  {
    assert Split("") == [""] && [""][1..] == [];
  }

  lemma LlmNamesAreBare(updates: map<string, string>)
    requires Arguments(updates)
    ensures BareNames(Kept(Updated(map[], updates)))
  {
    assert BareKey("llm") && forall k :: k in LLM_KEYS ==> BareKey(k);
  }

  /** The empty file is readable, and unreadable once the model has been set to "a", a line feed and "b". */
  method UpdateWithLineFeed() returns (r: Outcome)
    ensures Read("").Some? && r.Unreadable?
  {
    EmptyFileIsReadable();
    LineFeedIsUnprintable(map[]);
    assert LLM_KEYS[2] == "model";
    assert "model" in LINE_FEED && "provider" !in LINE_FEED && "mode" !in LINE_FEED by {
      assert |"model"| == 5 && |"provider"| == 8 && |"mode"| == 4;
    }
    LlmNamesAreBare(LINE_FEED);
    r := WriteLlmConfig("", LINE_FEED);
  }

  lemma {:induction false} FatalLine(st: State, lines: seq<string>, line: string)
    requires line in lines && forall s: State :: s.Reading? ==> ReadLine(s, line).Failed?
    ensures ReadLines(st, lines) == Failed
    decreases |lines|
  {
    if st.Reading? && lines[0] != line {
      FatalLine(ReadLine(st, lines[0]), lines[1..], line);
    }
  }

  /** A table whose name is two words. */
  function TwoWords(first: string, second: string): string {
    first + " " + second
  }

  /** Without quotation marks around it, no reader gets past the blank. */
  lemma {:induction false} HeaderOfTwoWordsFails(st: State, first: string, second: string)
    requires st.Reading? && BareKey(first) && second != "" && IsBareChar(second[0])
    ensures ReadLine(st, Header(TwoWords(first, second))).Failed?
  {
    var line, rest := Header(TwoWords(first, second)), second + "]";
    BareChars(first);
    assert line == "[" + (first + (" " + rest));
    assert line[1..] == first + (" " + rest);
    ReadBareName(first, " " + rest);
    assert SkipBlanks(line) == line && SkipBlanks(line[1..]) == line[1..];
    assert (" " + rest)[1..] == rest;
    assert SkipBlanks(" " + rest) == SkipBlanks(rest) == rest;
    assert ReadLine(st, line) == ReadHeader(st, line[1..]);
  }

  lemma {:induction false} HeaderIsWritten(data: Config, sections: seq<string>, seen: set<string>, section: string)
    requires section in sections && section !in seen && IsKept(data, section)
    ensures Header(section) in Blocks(data, sections, seen)
    decreases |sections|
  {
    if sections[0] != section {
      HeaderIsWritten(data, sections[1..], if sections[0] in seen then seen else seen + {sections[0]}, section);
    }
  }

  lemma {:induction false} InPhysical(lines: seq<string>, line: string)
    requires line in lines && '\n' !in line
    ensures line in Physical(lines)
  {
    if lines[0] == line {
      SplitLine(line);
    } else {
      InPhysical(lines[1..], line);
    }
  }

  lemma HeaderOfTwoWordsIsFatal(lines: seq<string>, first: string, second: string)
    requires BareKey(first) && second != "" && IsBareChar(second[0]) && '\n' !in second
    requires Header(TwoWords(first, second)) in lines
    ensures ReadLines(Reading(map[], None), Physical(lines)) == Failed
  {
    var header := Header(TwoWords(first, second));
    forall st: State | st.Reading? ensures ReadLine(st, header).Failed? {
      HeaderOfTwoWordsFails(st, first, second);
    }
    BareChars(first);
    InPhysical(lines, header);
    FatalLine(Reading(map[], None), Physical(lines), header);
  }

  /** Whatever else a configuration holds, with such a table it is written to a file that cannot be read. */
  lemma TwoWordsAreUnreadable(data: Config, first: string, second: string)
    requires BareKey(first) && second != "" && IsBareChar(second[0]) && '\n' !in second
    requires IsKept(data, TwoWords(first, second))
    ensures Read(Document(data)) == None
  {
    var lines := PREAMBLE + Blocks(data, Sections(data), {});
    HeaderIsWritten(data, Sections(data), {}, TwoWords(first, second));
    HeaderOfTwoWordsIsFatal(lines, first, second);
    DocumentLines(data);
  }

  /** So no update can be written beside such a table. */
  lemma UpdateBesideTwoWords(data: Config, updates: map<string, string>, first: string, second: string)
    requires BareKey(first) && second != "" && IsBareChar(second[0]) && '\n' !in second
    requires TwoWords(first, second) != "llm" && IsKept(data, TwoWords(first, second)) && LlmTable(data).Some?
    ensures Read(Document(Updated(data, updates))) == None
  {
    var name := TwoWords(first, second);
    assert IsKept(Updated(data, updates), name) <==> IsKept(data, name);
    TwoWordsAreUnreadable(Updated(data, updates), first, second);
  }

  // ----- a file that is readable because its name is in quotation marks -----

  function QuotedHeader(name: string): string {
    "[\"" + name + "\"]"
  }

  /** A file with one table of one key. */
  function QuotedFile(name: string, key: string, v: Value): string {
    QuotedHeader(name) + "\n" + KeyLine(key, v)
  }

  predicate Plain(name: string) {
    NoControl(name) && forall i :: 0 <= i < |name| ==> name[i] != '\\' && name[i] != '"'
  }

  lemma {:induction false} PlainEscape(s: string)
    requires forall i :: 0 <= i < |s| ==> s[i] != '\\' && s[i] != '"'
    ensures Escape(s) == s
  {
    if s == "" {
      assert Escape(s) == "";
    } else {
      PlainEscape(s[1..]);
      EscapeConcat([s[0]], s[1..]);
      EscapeChar(s[0]);
      assert s == [s[0]] + s[1..];
    }
  }

  lemma ReadQuotedHeader(st: State, name: string)
    requires st.Reading? && name !in st.config && Plain(name)
    ensures ReadLines(st, Split(QuotedHeader(name))) == Reading(st.config[name := Table(map[])], Some(name))
  {
    var line := QuotedHeader(name);
    assert line == "[" + ("\"" + (name + "\"]")) && line[1..] == "\"" + (name + "\"]");
    assert ("\"" + (name + "\"]"))[1..] == name + "\"]";
    PlainEscape(name);
    ReadEscaped(name, "\"]", "");
    assert "" + name == name;
    assert "\"]"[1..] == "]" && "]"[1..] == "";
    assert SkipBlanks(line) == line && SkipBlanks(line[1..]) == line[1..] && SkipBlanks("]") == "]";
    assert IsControl('\n') && '\n' !in line;
    SplitLine(line);
    assert ReadLine(st, line) == ReadHeader(st, line[1..]);
  }

  /** In quotation marks a name with a blank is read as it is. */
  lemma ReadQuotedFile(name: string, key: string, v: Value)
    requires Plain(name) && BareKey(key) && Printable(v)
    ensures Read(QuotedFile(name, key, v)) == Some(map[name := Table(map[key := v])])
  {
    var start, st := Reading(map[], None), Reading(map[name := Table(map[])], Some(name));
    SplitConcat(QuotedHeader(name), KeyLine(key, v));
    ReadLinesConcat(start, Split(QuotedHeader(name)), Split(KeyLine(key, v)));
    ReadQuotedHeader(start, name);
    assert map[][name := Table(map[])] == map[name := Table(map[])];
    ReadKeyLine(st, key, v);
    Overwrite(map[], name, Table(map[]), Table(map[key := v]));
  }

  lemma TwoWordsArePlain(first: string, second: string)
    requires BareKey(first) && BareKey(second)
    ensures Plain(TwoWords(first, second)) && TwoWords(first, second) != "llm" && '\n' !in second
  {
    var name := TwoWords(first, second);
    assert name[|first|] == ' ';
    assert forall i :: 0 <= i < |name| ==> IsBareChar(name[i]) || name[i] == ' ';
    BareChars(second);
  }

  /**
   * A readable file with a table of two words, such as ["my app"], is unreadable after every update that passes
   * the checks of its arguments.
   */
  method UpdateOfQuotedFile(first: string, second: string, key: string, v: Value, updates: map<string, string>)
    returns (r: Outcome)
    requires BareKey(first) && BareKey(second) && BareKey(key) && Printable(v) && Arguments(updates)
    requires ValidChoice(updates, "provider", PROVIDERS) && ValidChoice(updates, "mode", MODES)
    ensures Read(QuotedFile(TwoWords(first, second), key, v)).Some? && r.Unreadable?
  {
    var name := TwoWords(first, second);
    ghost var data := map[name := Table(map[key := v])];
    TwoWordsArePlain(first, second);
    ReadQuotedFile(name, key, v);
    assert key in data[name].entries;
    UpdateBesideTwoWords(data, updates, first, second);
    r := WriteLlmConfig(QuotedFile(name, key, v), updates);
  }
}
