/** Writing the configuration file: the TOML printer and the update of its [llm] table (app/product_config.py). */
module ConfigFile {
  import opened Seqs
  import opened Toml
  import Sorting
  import Text

  const KNOWN_SECTIONS: seq<string> := ["llm", "server", "logging"]
  const LLM_KEYS: seq<string> := ["provider", "mode", "model", "base_url", "api_key_env", "api_key_file"]
  const PROVIDERS: seq<string> := ["auto", "ollama", "openai", "anthropic", "9router"]
  const MODES: seq<string> := ["auto", "local", "remote"]

  // ----- values as text -----

  /** `s.replace(c, image)` for a one-character needle. */
  function Replace(s: string, c: char, image: string): string {
    if s == "" then "" else (if s[0] == c then image else [s[0]]) + Replace(s[1..], c, image)
  }

  function Escape(s: string): string {
    Replace(Replace(s, '\\', "\\\\"), '"', "\\\"")
  }

  function IntText(n: int): string {
    if n < 0 then "-" + Text.NatText(-n) else Text.NatText(n)
  }

  function ValueText(v: Value): (text: string)
    ensures text != "" && text[|text| - 1] != '\n'
  {
    match v
    case Bool(flag) => if flag then "true" else "false"
    case Int(n) =>
      Text.NatTextReadsBack(if n < 0 then -n else n);
      IntText(n)
    case Str(text) => "\"" + Escape(text) + "\""
  }

  // ----- the document -----

  /** The keys of a table in the order they are written. */
  function KeyOrder(section: string, table: map<string, Value>): seq<string> {
    if section == "llm" then Present(LLM_KEYS, table) + Sorting.SortedStrings(table.Keys - SetOf(LLM_KEYS))
    else Sorting.SortedStrings(table.Keys)
  }

  function Present(keys: seq<string>, table: map<string, Value>): (r: seq<string>)
    ensures forall k :: k in r <==> k in keys && k in table
    ensures Distinct(keys) ==> Distinct(r)
  {
    if keys == [] then [] else
      var rest := Present(keys[1..], table);
      if keys[0] in table then [keys[0]] + rest else rest
  }

  function Header(section: string): string {
    "[" + section + "]"
  }

  function KeyLine(key: string, v: Value): string {
    key + " = " + ValueText(v)
  }

  function KeyLines(table: map<string, Value>, keys: seq<string>): seq<string>
    requires forall k :: k in keys ==> k in table
  {
    if keys == [] then [] else [KeyLine(keys[0], table[keys[0]])] + KeyLines(table, keys[1..])
  }

  /** Is a section written at all? Unknown tables without keys and values outside a table are not. */
  predicate IsKept(data: Config, section: string) {
    section in data && data[section].Table? && (data[section].entries != map[] || section in KNOWN_SECTIONS)
  }

  lemma KeyOrderCovers(section: string, table: map<string, Value>)
    ensures Distinct(KeyOrder(section, table)) && forall k :: k in KeyOrder(section, table) <==> k in table
  {
    if section == "llm" {
      assert Distinct(LLM_KEYS);
      var a, b := Present(LLM_KEYS, table), Sorting.SortedStrings(table.Keys - SetOf(LLM_KEYS));
      forall i, j | 0 <= i < j < |a + b| ensures (a + b)[i] != (a + b)[j] {
        if i < |a| <= j {
          assert a[i] in a && b[j - |a|] in b;
        }
      }
    }
  }

  function Block(data: Config, section: string): seq<string> {
    if IsKept(data, section) then
      var table := data[section].entries;
      KeyOrderCovers(section, table);
      [Header(section)] + KeyLines(table, KeyOrder(section, table)) + [""]
    else []
  }

  /** The lines for these sections, each written the first time it comes up. */
  function Blocks(data: Config, sections: seq<string>, seen: set<string>): seq<string> {
    if sections == [] then []
    else if sections[0] in seen then Blocks(data, sections[1..], seen)
    else Block(data, sections[0]) + Blocks(data, sections[1..], seen + {sections[0]})
  }

  function Sections(data: Config): seq<string> {
    KNOWN_SECTIONS + Sorting.SortedStrings(data.Keys)
  }

  const TITLE := "# YODAW configuration"
  const PREAMBLE: seq<string> := [TITLE, ""]

  function StripFeeds(s: string): string {
    if s != "" && s[|s| - 1] == '\n' then StripFeeds(s[..|s| - 1]) else s
  }

  function Document(data: Config): string {
    StripFeeds(Text.Join("\n", PREAMBLE + Blocks(data, Sections(data), {}))) + "\n"
  }

  /** The lines of one section, appended to what is there. */
  method AppendSection(lines: seq<string>, data: Config, section: string) returns (longer: seq<string>)
    ensures longer == lines + Block(data, section)
  {
    longer := lines;
    if section !in data || !data[section].Table? {
      return;
    }
    var table := data[section].entries;
    var keys := KeyOrder(section, table);
    KeyOrderCovers(section, table);
    NoKeysIsEmpty(table, keys);
    if keys == [] && section !in KNOWN_SECTIONS {
      return;
    }
    longer := longer + [Header(section)];
    ghost var start := longer;
    var j := 0;
    while j < |keys|
      invariant 0 <= j <= |keys|
      invariant longer + KeyLines(table, keys[j..]) == start + KeyLines(table, keys)
    {
      assert keys[j..][1..] == keys[j + 1..];
      MoveHead(longer, KeyLine(keys[j], table[keys[j]]), KeyLines(table, keys[j + 1..]));
      longer := longer + [KeyLine(keys[j], table[keys[j]])];
      j := j + 1;
    }
    assert longer + KeyLines(table, keys[j..]) == longer;
    longer := longer + [""];
    AroundKeys(lines, Header(section), KeyLines(table, keys));
  }

  lemma NoKeysIsEmpty(table: map<string, Value>, keys: seq<string>)
    requires forall k :: k in keys <==> k in table
    ensures keys == [] <==> table == map[]
  {
    if keys != [] {
      assert keys[0] in table;
    }
  }

  lemma MoveHead<T>(a: seq<T>, x: T, b: seq<T>)
    ensures a + ([x] + b) == (a + [x]) + b
  {
  }

  lemma AroundKeys(lines: seq<string>, header: string, keyLines: seq<string>)
    ensures lines + [header] + keyLines + [""] == lines + ([header] + keyLines + [""])
  {
  }

  lemma {:induction false} BlocksAt(data: Config, sections: seq<string>, i: nat, seen: set<string>)
    requires i < |sections|
    ensures Blocks(data, sections[i..], seen)
         == if sections[i] in seen then Blocks(data, sections[i + 1..], seen)
            else Block(data, sections[i]) + Blocks(data, sections[i + 1..], seen + {sections[i]})
  {
    assert sections[i..][0] == sections[i] && sections[i..][1..] == sections[i + 1..];
  }

  /** The loop over the sections: each is written when it comes up first. */
  method AppendSections(lines: seq<string>, data: Config, sections: seq<string>) returns (longer: seq<string>)
    ensures longer == lines + Blocks(data, sections, {})
  {
    longer := lines;
    var seen: set<string> := {};
    var i := 0;
    while i < |sections|
      invariant 0 <= i <= |sections|
      invariant longer + Blocks(data, sections[i..], seen) == lines + Blocks(data, sections, {})
    {
      var section := sections[i];
      BlocksAt(data, sections, i, seen);
      i := i + 1;
      if section in seen {
        continue;
      }
      seen := seen + {section};
      Associate(longer, Block(data, section), Blocks(data, sections[i..], seen));
      longer := AppendSection(longer, data, section);
    }
    NilLeft(longer);
  }

  method DumpToml(data: Config) returns (text: string)
    ensures text == Document(data)
  {
    var lines := AppendSections(PREAMBLE, data, Sections(data));
    text := StripFeeds(Text.Join("\n", lines)) + "\n";
  }

  // ----- the order of keys and sections -----

  /** The places of the keys a table holds. */
  function PresentPlaces(keys: seq<string>, table: map<string, Value>): set<nat> {
    set i: nat | i < |keys| && keys[i] in table
  }

  lemma PresentPlacesSnoc(front: seq<string>, last: string, table: map<string, Value>)
    ensures PresentPlaces(front + [last], table)
      == PresentPlaces(front, table) + if last in table then {|front|} else {}
  {
    var keys := front + [last];
    forall i: nat ensures i in PresentPlaces(keys, table)
                     <==> i in PresentPlaces(front, table) || (i == |front| && last in table)
    {
      if i < |front| {
        assert keys[i] == front[i];
      }
    }
  }

  lemma {:induction false} PresentSnoc(front: seq<string>, last: string, table: map<string, Value>)
    ensures Present(front + [last], table)
      == if last in table then Present(front, table) + [last] else Present(front, table)
  {
    if front == [] {
      assert [last][1..] == [];
    } else {
      PresentSnoc(front[1..], last, table);
      ConsConcat(front, [last]);
    }
  }

  lemma {:induction false} PresentAre(keys: seq<string>, table: map<string, Value>) returns (places: seq<nat>)
    ensures PickedAt(keys, Present(keys, table), places) && SetOf(places) == PresentPlaces(keys, table)
    decreases |keys|
  {
    places := [];
    if keys != [] {
      var front, last := keys[..|keys| - 1], keys[|keys| - 1];
      places := PresentAre(front, table);
      FrontAndLast(keys);
      PresentSnoc(front, last, table);
      PresentPlacesSnoc(front, last, table);
      places := PickNext(front, last, Present(front, table), places, last in table);
    }
  }

  /** The keys of [llm] that are known come first, in their own order; all others follow in alphabetical order. */
  lemma KeyOrderIs(section: string, table: map<string, Value>) returns (known: seq<string>, places: seq<nat>)
    ensures var keys := ["provider", "mode", "model", "base_url", "api_key_env", "api_key_file"];
            && |known| <= |KeyOrder(section, table)| && known == KeyOrder(section, table)[..|known|]
            && (section == "llm" ==> PickedAt(keys, known, places) && SetOf(places) == PresentPlaces(keys, table))
            && (section != "llm" ==> known == [])
            && Sorting.SortedBy(Text.StringLe, KeyOrder(section, table)[|known|..])
  {
    known, places := [], [];
    if section == "llm" {
      known := Present(LLM_KEYS, table);
      places := PresentAre(LLM_KEYS, table);
      Sorting.SortedStringsSorted(table.Keys - SetOf(LLM_KEYS));
      assert KeyOrder(section, table)[|known|..] == Sorting.SortedStrings(table.Keys - SetOf(LLM_KEYS));
    } else {
      Sorting.SortedStringsSorted(table.Keys);
      assert KeyOrder(section, table)[0..] == KeyOrder(section, table);
    }
  }

  /** The sections come up as llm, server, logging, and then all of them in alphabetical order. */
  lemma SectionsAre(data: Config)
    ensures Sections(data)[..3] == ["llm", "server", "logging"]
    ensures Sorting.SortedBy(Text.StringLe, Sections(data)[3..])
    ensures forall s :: s in Sections(data)[3..] <==> s in data
  {
    Sorting.SortedStringsSorted(data.Keys);
    assert Sections(data)[3..] == Sorting.SortedStrings(data.Keys);
  }

  /** A table is written when it has a key or is one of the three known sections; nothing else is. */
  lemma KeptIff(data: Config, s: string)
    ensures IsKept(data, s) <==>
      s in data && data[s].Table? && (s in ["llm", "server", "logging"] || exists k :: k in data[s].entries)
  {
    if s in data && data[s].Table? && data[s].entries != map[] {
      assert data[s].entries.Keys != {};
    }
  }

  /** The blocks of these sections, one after the other. */
  function InTurn(data: Config, sections: seq<string>): seq<string> {
    if sections == [] then [] else InTurn(data, sections[..|sections| - 1]) + Block(data, sections[|sections| - 1])
  }

  lemma {:induction false} BlocksSnoc(data: Config, front: seq<string>, last: string, seen: set<string>)
    ensures Blocks(data, front + [last], seen)
         == Blocks(data, front, seen) + if last in front || last in seen then [] else Block(data, last)
    decreases |front|
  {
    if front == [] {
      assert [last][1..] == [];
      NilLeft(Block(data, last));
    } else {
      var rest := front[1..];
      ConsConcat(front, [last]);
      assert front == [front[0]] + rest;
      if front[0] in seen {
        BlocksSnoc(data, rest, last, seen);
      } else {
        BlocksSnoc(data, rest, last, seen + {front[0]});
        Associate(Block(data, front[0]), Blocks(data, rest, seen + {front[0]}),
                  if last in front || last in seen then [] else Block(data, last));
      }
    }
  }

  /** Every section is written at its first turn. */
  lemma {:induction false} BlocksAreInTurn(data: Config, sections: seq<string>)
    ensures Blocks(data, sections, {}) == InTurn(data, Firsts(sections))
    decreases |sections|
  {
    if sections != [] {
      var front, last := sections[..|sections| - 1], sections[|sections| - 1];
      FrontAndLast(sections);
      BlocksAreInTurn(data, front);
      BlocksSnoc(data, front, last, {});
      FirstsMembers(front, last);
      FirstsSnoc(front, last);
      NilLeft(Firsts(front));
      NilLeft(Blocks(data, front, {}));
      TakeAll(Firsts(front), last);
    }
  }
}
