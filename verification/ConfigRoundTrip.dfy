/** Reading back what the TOML printer wrote gives the configuration again, exactly when its strings are printable. */
module ConfigRoundTrip {
  import opened Seqs
  import opened Toml
  import opened ConfigFile
  import Text

  // ----- strings -----

  lemma {:induction false} ReplaceConcat(a: string, b: string, c: char, image: string)
    ensures Replace(a + b, c, image) == Replace(a, c, image) + Replace(b, c, image)
  {
    if a == "" {
      NilLeft(b);
      NilLeft(Replace(b, c, image));
    } else {
      ReplaceConcat(a[1..], b, c, image);
      ConsConcat(a, b);
      Associate(if a[0] == c then image else [a[0]], Replace(a[1..], c, image), Replace(b, c, image));
    }
  }

  lemma EscapeConcat(a: string, b: string)
    ensures Escape(a + b) == Escape(a) + Escape(b)
  {
    ReplaceConcat(a, b, '\\', "\\\\");
    ReplaceConcat(Replace(a, '\\', "\\\\"), Replace(b, '\\', "\\\\"), '"', "\\\"");
  }

  function EscapedChar(c: char): string {
    if c == '\\' || c == '"' then ['\\', c] else [c]
  }

  lemma EscapeChar(c: char)
    ensures Escape([c]) == EscapedChar(c)
  {
    assert [c][1..] == "";
    assert Replace([c], '\\', "\\\\") == if c == '\\' then "\\\\" else [c];
    if c == '\\' {
      ReplaceConcat("\\", "\\", '"', "\\\"");
      assert "\\"[1..] == "";
      assert "\\\\" == "\\" + "\\";
    }
  }

  /** The escaped form of a printable text is read back, whatever follows it. */
  lemma {:induction false} ReadEscaped(p: string, s: string, done: string)
    requires NoControl(p)
    ensures ReadString(Escape(p) + s, done) == ReadString(s, done + p)
    decreases |p|
  {
    if p == "" {
      assert Escape(p) + s == s && done + p == done;
    } else {
      var c, rest := p[0], p[1..];
      assert p == [c] + rest && !IsControl(c) && NoControl(rest);
      EscapeConcat([c], rest);
      EscapeChar(c);
      var tail := Escape(rest) + s;
      assert Escape(p) + s == EscapedChar(c) + tail;
      ReadEscapedChar(c, tail, done);
      ReadEscaped(rest, s, done + [c]);
      assert done + [c] + rest == done + p;
    }
  }

  lemma {:induction false} ReadEscapedChar(c: char, tail: string, done: string)
    requires !IsControl(c)
    ensures ReadString(EscapedChar(c) + tail, done) == ReadString(tail, done + [c])
  {
    var s := EscapedChar(c) + tail;
    if c == '\\' || c == '"' {
      assert s[0] == '\\' && s[1] == c && s[2..] == tail;
    } else {
      assert s[0] == c && s[1..] == tail;
    }
  }

  predicate Printable(v: Value) {
    v.Str? ==> NoControl(v.text)
  }

  lemma {:induction false} SpanOf(p: char -> bool, a: string, b: string)
    requires (forall i :: 0 <= i < |a| ==> p(a[i])) && (b == "" || !p(b[0]))
    ensures Span(p, a + b) == |a|
  {
    if a == "" {
      assert a + b == b;
    } else {
      SpanOf(p, a[1..], b);
      assert (a + b)[1..] == a[1..] + b;
    }
  }

  lemma {:induction false} ReadNumeral(digits: string)
    requires Text.AllDigits(digits)
    ensures Span(Text.IsDigit, digits) == |digits|
  {
    SpanOf(Text.IsDigit, digits, "");
    assert digits + "" == digits;
  }

  lemma ReadIntText(n: int)
    ensures ReadValue(IntText(n)) == Some((Int(n), ""))
  {
    var m := if n < 0 then -n else n;
    var digits, s := Text.NatText(m), IntText(n);
    Text.NatTextReadsBack(m);
    ReadNumeral(digits);
    assert Text.IsDigit(digits[0]);
    assert digits[..|digits|] == digits && digits[|digits|..] == "";
    if n < 0 {
      assert s[0] == '-' && s[1..] == digits;
    }
    assert ReadInteger(s) == Some((Int(n), ""));
    assert !("true" <= s) && !("false" <= s) by {
      assert "true"[0] == 't' && "false"[0] == 'f';
    }
  }

  /** Only negative numbers have a sign. */
  lemma IntTextIs(n: int)
    ensures n >= 0 ==> Text.AllDigits(IntText(n))
    ensures n < 0 ==> IntText(n)[0] == '-' && Text.AllDigits(IntText(n)[1..])
  {
    Text.NatTextReadsBack(if n < 0 then -n else n);
  }

  lemma ReadValueText(v: Value)
    requires Printable(v)
    ensures ReadValue(ValueText(v)) == Some((v, ""))
  {
    match v
    case Bool(flag) =>
      assert "true"[4..] == "" && "false"[5..] == "";
    case Int(n) =>
      ReadIntText(n);
    case Str(text) =>
      var s := ValueText(v);
      assert s[1..] == Escape(text) + "\"";
      ReadEscaped(text, "\"", "");
      assert "" + text == text && "\""[1..] == "";
  }

  lemma {:induction false} FirstControl(s: string) returns (p: string, c: char, q: string)
    requires !NoControl(s)
    ensures s == p + [c] + q && NoControl(p) && IsControl(c)
  {
    if IsControl(s[0]) {
      p, c, q := "", s[0], s[1..];
    } else {
      p, c, q := FirstControl(s[1..]);
      p := [s[0]] + p;
    }
  }

  lemma {:induction false} NoFeed(s: string)
    requires NoControl(s)
    ensures '\n' !in s && '\n' !in Escape(s)
    decreases |s|
  {
    assert IsControl('\n');
    if s == "" {
      assert Escape(s) == "";
    } else {
      assert s == [s[0]] + s[1..];
      EscapeConcat([s[0]], s[1..]);
      EscapeChar(s[0]);
      NoFeed(s[1..]);
      assert !IsControl(s[0]);
    }
  }

  /** What is left on the first line from the character `c` on. */
  function RestOfLine(c: char, back: string): string {
    if c == '\n' then "" else [c] + Split(back)[0]
  }

  lemma {:induction false} FirstLine(front: string, c: char, back: string)
    requires '\n' !in front
    ensures Split(front + ([c] + back))[0] == front + RestOfLine(c, back)
  {
    SplitPrefix(front, [c] + back);
    SplitStep(c, back);
  }

  lemma EscapeAround(p: string, c: char, q: string)
    requires IsControl(c)
    ensures Escape(p + [c] + q) == Escape(p) + ([c] + Escape(q))
  {
    EscapeConcat(p + [c], q);
    EscapeConcat(p, [c]);
    EscapeChar(c);
  }

  lemma ControlStops(p: string, c: char, back: string)
    requires NoControl(p) && IsControl(c)
    ensures ReadValue("\"" + Escape(p) + RestOfLine(c, back)) == None
  {
    var after := RestOfLine(c, back);
    var x := "\"" + Escape(p) + after;
    assert x[1..] == Escape(p) + after;
    ReadEscaped(p, after, "");
  }

  /** A text with a control character breaks the line it is written on: no string ends there. */
  lemma {:induction false} UnreadableText(text: string, lead: string) returns (x: string)
    requires !NoControl(text) && '\n' !in lead
    ensures Split(lead + ValueText(Str(text)))[0] == lead + x
    ensures x != "" && x[0] == '"' && ReadValue(x) == None
  {
    var p, c, q := FirstControl(text);
    EscapeAround(p, c, q);
    NoFeed(p);
    var front, back := lead + ("\"" + Escape(p)), Escape(q) + "\"";
    x := "\"" + Escape(p) + RestOfLine(c, back);
    Reassociate(lead, Escape(p), [c], Escape(q));
    FirstLine(front, c, back);
    ControlStops(p, c, back);
    Associate(lead, "\"" + Escape(p), RestOfLine(c, back));
  }

  lemma Reassociate(lead: string, p: string, c: string, q: string)
    ensures lead + ("\"" + (p + (c + q)) + "\"") == (lead + ("\"" + p)) + (c + (q + "\""))
  {
    assert "\"" + (p + (c + q)) + "\"" == ("\"" + p) + (c + (q + "\""));
  }

  // ----- one line -----

  lemma {:induction false} BareChars(k: string)
    requires BareKey(k)
    ensures k[0] != '#' && k[0] != '[' && k[0] != '"' && !IsBlank(k[0]) && '\n' !in k
  {
    assert IsBareChar(k[0]);
  }

  lemma ReadBareName(k: string, x: string)
    requires BareKey(k) && x != "" && !IsBareChar(x[0])
    ensures ReadName(k + x) == Some((k, x))
  {
    BareChars(k);
    SpanOf(IsBareChar, k, x);
    assert (k + x)[..|k|] == k && (k + x)[|k|..] == x;
  }

  /** A line `key = x` assigns whatever `x` reads as. */
  lemma ReadKeyIs(st: State, k: string, x: string)
    requires st.Reading? && BareKey(k) && x != "" && !IsBlank(x[0])
    ensures ReadLine(st, k + " = " + x) == Assign(st, k, ReadValue(x))
  {
    BareChars(k);
    var line := k + " = " + x;
    assert line == k + (" = " + x);
    assert SkipBlanks(line) == line;
    ReadBareName(k, " = " + x);
    var rest := "= " + x;
    assert (" = " + x)[1..] == rest;
    assert SkipBlanks(" = " + x) == SkipBlanks(rest) == rest;
    assert rest[1..] == " " + x && (" " + x)[1..] == x;
    assert SkipBlanks(" " + x) == SkipBlanks(x) == x;
  }

  lemma ValueHasNoFeed(v: Value)
    requires Printable(v)
    ensures '\n' !in ValueText(v) && !IsBlank(ValueText(v)[0])
  {
    match v
    case Bool(_) =>
    case Str(text) => NoFeed(text);
    case Int(n) =>
      Text.NatTextReadsBack(if n < 0 then -n else n);
      assert forall c :: c in IntText(n) ==> Text.IsDigit(c) || c == '-';
  }

  /** What reading a written key does: the value again, or nothing more can be read. */
  lemma {:induction false} ReadKeyLine(st: State, k: string, v: Value)
    requires st.Reading? && BareKey(k)
    ensures ReadLines(st, Split(KeyLine(k, v))) == if Printable(v) then Assign(st, k, Some((v, ""))) else Failed
  {
    BareChars(k);
    var lead := k + " = ";
    if Printable(v) {
      ValueHasNoFeed(v);
      SplitLine(KeyLine(k, v));
      ReadKeyIs(st, k, ValueText(v));
      ReadValueText(v);
    } else {
      var x := UnreadableText(v.text, lead);
      ReadKeyIs(st, k, x);
    }
  }

  lemma {:induction false} ReadHeaderLine(st: State, section: string)
    requires st.Reading? && BareKey(section) && section !in st.config
    ensures ReadLines(st, Split(Header(section))) == Reading(st.config[section := Table(map[])], Some(section))
  {
    BareChars(section);
    var line := Header(section);
    SplitLine(line);
    assert line[0] == '[' && line[1..] == section + "]";
    assert SkipBlanks(line) == line;
    assert SkipBlanks(section + "]") == section + "]";
    ReadBareName(section, "]");
    assert "]"[1..] == "";
    assert SkipBlanks("]") == "]";
    assert ReadLine(st, line) == ReadHeader(st, section + "]");
  }

  // ----- tables -----

  /** The physical lines that logical lines take up. */
  function Physical(lines: seq<string>): seq<string> {
    if lines == [] then [] else Split(lines[0]) + Physical(lines[1..])
  }

  lemma {:induction false} PhysicalConcat(a: seq<string>, b: seq<string>)
    ensures Physical(a + b) == Physical(a) + Physical(b)
  {
    if a == [] {
      NilLeft(b);
      NilLeft(Physical(b));
    } else {
      PhysicalConcat(a[1..], b);
      ConsConcat(a, b);
      Associate(Split(a[0]), Physical(a[1..]), Physical(b));
    }
  }

  lemma {:induction false} ReadPhysical(st: State, a: seq<string>, b: seq<string>)
    ensures ReadLines(st, Physical(a + b)) == ReadLines(ReadLines(st, Physical(a)), Physical(b))
  {
    PhysicalConcat(a, b);
    ReadLinesConcat(st, Physical(a), Physical(b));
  }

  lemma {:induction false} PhysicalOne(line: string)
    ensures Physical([line]) == Split(line)
  {
    assert [line][1..] == [];
    assert Split(line) + [] == Split(line);
  }

  ghost predicate PrintableKeys(table: map<string, Value>, keys: seq<string>) {
    forall k :: k in keys && k in table ==> Printable(table[k])
  }

  function Only(table: map<string, Value>, keys: seq<string>): map<string, Value> {
    map k | k in table && k in keys :: table[k]
  }

  /** One key further: what is read first and what is read then make up what is read in all. */
  lemma OnlyStep(earlier: map<string, Value>, table: map<string, Value>, keys: seq<string>)
    requires keys != [] && Distinct(keys) && keys[0] in table
    ensures earlier[keys[0] := table[keys[0]]] + Only(table, keys[1..]) == earlier + Only(table, keys)
  {
    assert keys == [keys[0]] + keys[1..];
  }

  lemma {:induction false} ReadFirstKey(st: State, table: map<string, Value>, keys: seq<string>)
    requires st.Reading? && keys != [] && BareKey(keys[0]) && forall k :: k in keys ==> k in table
    ensures ReadLines(st, Physical(KeyLines(table, keys)))
         == if Printable(table[keys[0]])
            then ReadLines(Assign(st, keys[0], Some((table[keys[0]], ""))), Physical(KeyLines(table, keys[1..])))
            else Failed
  {
    var line := KeyLine(keys[0], table[keys[0]]);
    ReadPhysical(st, [line], KeyLines(table, keys[1..]));
    PhysicalOne(line);
    ReadKeyLine(st, keys[0], table[keys[0]]);
  }

  lemma PrintableStep(table: map<string, Value>, keys: seq<string>)
    requires keys != [] && keys[0] in table
    ensures PrintableKeys(table, keys) <==> Printable(table[keys[0]]) && PrintableKeys(table, keys[1..])
  {
    assert keys == [keys[0]] + keys[1..];
    assert forall k :: k in keys <==> k == keys[0] || k in keys[1..];
  }

  lemma {:induction false} ReadKeyLines(config: Config, section: string, table: map<string, Value>, keys: seq<string>)
    requires section in config && config[section].Table?
    requires Distinct(keys) && forall k :: k in keys ==> k in table && k !in config[section].entries && BareKey(k)
    ensures ReadLines(Reading(config, Some(section)), Physical(KeyLines(table, keys)))
         == if PrintableKeys(table, keys)
            then Reading(config[section := Table(config[section].entries + Only(table, keys))], Some(section))
            else Failed
    decreases |keys|
  {
    var entries := config[section].entries;
    if keys == [] {
      assert entries + Only(table, keys) == entries;
      assert config[section := Table(entries)] == config;
    } else {
      var k, rest := keys[0], keys[1..];
      var st := Reading(config, Some(section));
      PrintableStep(table, keys);
      ReadFirstKey(st, table, keys);
      if Printable(table[k]) {
        var longer := entries[k := table[k]];
        var config' := config[section := Table(longer)];
        assert Assign(st, k, Some((table[k], ""))) == Reading(config', Some(section));
        assert Distinct(rest) && forall x :: x in rest ==> x in table && x !in longer && BareKey(x) by {
          assert forall i :: 0 <= i < |rest| ==> rest[i] == keys[i + 1] && keys[i + 1] in keys;
        }
        ReadKeyLines(config', section, table, rest);
        OnlyStep(entries, table, keys);
        Overwrite(config, section, Table(longer), Table(longer + Only(table, rest)));
      }
    }
  }

  lemma Overwrite(config: Config, section: string, e: Entry, e': Entry)
    ensures config[section := e][section := e'] == config[section := e']
  {
  }

  ghost predicate PrintableTable(table: map<string, Value>) {
    forall k :: k in table ==> Printable(table[k])
  }

  ghost predicate BareNames(data: Config) {
    forall s :: s in data && data[s].Table? ==> BareKey(s) && forall k :: k in data[s].entries ==> BareKey(k)
  }

  ghost predicate PrintableConfig(data: Config) {
    forall s :: IsKept(data, s) ==> PrintableTable(data[s].entries)
  }

  lemma {:induction false} ReadBlockParts(st: State, header: string, keyLines: seq<string>)
    ensures ReadLines(st, Physical([header] + keyLines + [""]))
         == ReadLines(ReadLines(st, Split(header)), Physical(keyLines))
  {
    ReadPhysical(st, [header] + keyLines, [""]);
    ReadPhysical(st, [header], keyLines);
    PhysicalOne(header);
    PhysicalOne("");
    assert Split("") == [""] && [""][1..] == [];
  }

  /** A section that is written is read back as it is; one with a control character in a string cannot be read. */
  lemma {:induction false} ReadBlock(config: Config, current: Option<string>, data: Config, section: string)
    requires BareNames(data) && IsKept(data, section) && section !in config
    ensures ReadLines(Reading(config, current), Physical(Block(data, section)))
         == if PrintableTable(data[section].entries)
            then Reading(config[section := data[section]], Some(section))
            else Failed
  {
    var table := data[section].entries;
    var keys := KeyOrder(section, table);
    KeyOrderCovers(section, table);
    var config0 := config[section := Table(map[])];
    ReadBlockParts(Reading(config, current), Header(section), KeyLines(table, keys));
    ReadHeaderLine(Reading(config, current), section);
    ReadKeyLines(config0, section, table, keys);
    OnlyAll(table, keys);
    Overwrite(config, section, Table(map[]), Table(table));
  }

  lemma OnlyAll(table: map<string, Value>, keys: seq<string>)
    requires forall k :: k in keys <==> k in table
    ensures map[] + Only(table, keys) == table
    ensures PrintableKeys(table, keys) <==> PrintableTable(table)
  {
  }

  // ----- the whole document -----

  /** Is this a section that is still to be written? */
  predicate Due(data: Config, sections: seq<string>, seen: set<string>, s: string) {
    s in sections && s !in seen && IsKept(data, s)
  }

  function DueTables(data: Config, sections: seq<string>, seen: set<string>): Config {
    map s | s in data && Due(data, sections, seen, s) :: data[s]
  }

  ghost predicate PrintableDue(data: Config, sections: seq<string>, seen: set<string>) {
    forall s :: Due(data, sections, seen, s) ==> PrintableTable(data[s].entries)
  }

  lemma {:induction false} SeenIsSkipped(data: Config, sections: seq<string>, seen: set<string>)
    requires sections != [] && (sections[0] in seen || !IsKept(data, sections[0]))
    ensures forall s :: Due(data, sections, seen, s) <==> Due(data, sections[1..], seen + {sections[0]}, s)
  {
    assert sections == [sections[0]] + sections[1..];
  }

  lemma {:induction false} FirstIsDue(data: Config, sections: seq<string>, seen: set<string>)
    requires sections != [] && Due(data, sections, seen, sections[0])
    ensures forall s ::
      Due(data, sections, seen, s) <==> s == sections[0] || Due(data, sections[1..], seen + {sections[0]}, s)
  {
    assert sections == [sections[0]] + sections[1..];
  }

  lemma DueStep(config: Config, data: Config, sections: seq<string>, seen: set<string>)
    requires sections != [] && Due(data, sections, seen, sections[0])
    ensures config[sections[0] := data[sections[0]]] + DueTables(data, sections[1..], seen + {sections[0]})
         == config + DueTables(data, sections, seen)
    ensures PrintableDue(data, sections, seen)
       <==> PrintableTable(data[sections[0]].entries) && PrintableDue(data, sections[1..], seen + {sections[0]})
  {
    FirstIsDue(data, sections, seen);
  }

  lemma {:induction false} ReadBlocks(config: Config, current: Option<string>, data: Config,
                                      sections: seq<string>, seen: set<string>)
    returns (last: Option<string>)
    requires BareNames(data) && config.Keys <= seen
    ensures ReadLines(Reading(config, current), Physical(Blocks(data, sections, seen)))
         == if PrintableDue(data, sections, seen)
            then Reading(config + DueTables(data, sections, seen), last)
            else Failed
    decreases |sections|
  {
    last := current;
    var st := Reading(config, current);
    if sections == [] {
      assert config + DueTables(data, sections, seen) == config;
    } else {
      var s, rest, seen' := sections[0], sections[1..], seen + {sections[0]};
      if s in seen || !IsKept(data, s) {
        SeenIsSkipped(data, sections, seen);
        assert seen' == seen || s !in seen;
        assert s in seen ==> seen' == seen;
        assert s !in seen ==> Block(data, s) + Blocks(data, rest, seen') == Blocks(data, rest, seen');
        last := ReadBlocks(config, current, data, rest, seen');
        assert DueTables(data, rest, seen') == DueTables(data, sections, seen);
      } else {
        ReadPhysical(st, Block(data, s), Blocks(data, rest, seen'));
        ReadBlock(config, current, data, s);
        DueStep(config, data, sections, seen);
        if PrintableTable(data[s].entries) {
          last := ReadBlocks(config[s := data[s]], Some(s), data, rest, seen');
        }
      }
    }
  }

  lemma {:induction false} JoinConcat(a: seq<string>, b: seq<string>)
    requires a != [] && b != []
    ensures Text.Join("\n", a + b) == Text.Join("\n", a) + "\n" + Text.Join("\n", b)
  {
    if |a| == 1 {
      assert (a + b)[1..] == b;
    } else {
      JoinConcat(a[1..], b);
      assert (a + b)[1..] == a[1..] + b;
      assert (a + b)[0] == a[0];
      assert a[0] + "\n" + (Text.Join("\n", a[1..]) + "\n" + Text.Join("\n", b))
          == (a[0] + "\n" + Text.Join("\n", a[1..])) + "\n" + Text.Join("\n", b);
    }
  }

  lemma {:induction false} SplitJoin(lines: seq<string>)
    requires lines != []
    ensures Split(Text.Join("\n", lines)) == Physical(lines)
  {
    if |lines| == 1 {
      PhysicalOne(lines[0]);
      assert lines == [lines[0]];
    } else {
      SplitConcat(lines[0], Text.Join("\n", lines[1..]));
      SplitJoin(lines[1..]);
    }
  }

  /** Lines that end with a blank one after one that does not end in a line feed. */
  predicate Closed(lines: seq<string>) {
    && |lines| >= 2 && lines[|lines| - 1] == ""
    && var x := lines[|lines| - 2];
       x != "" && x[|x| - 1] != '\n'
  }

  lemma {:induction false} KeyLinesClosed(table: map<string, Value>, keys: seq<string>)
    requires forall k :: k in keys ==> k in table
    ensures forall i :: 0 <= i < |KeyLines(table, keys)| ==>
      var x := KeyLines(table, keys)[i];
      x != "" && x[|x| - 1] != '\n'
  {
    if keys != [] {
      KeyLinesClosed(table, keys[1..]);
      var x := KeyLine(keys[0], table[keys[0]]);
      assert x[|x| - 1] == ValueText(table[keys[0]])[|ValueText(table[keys[0]])| - 1];
    }
  }

  lemma {:induction false} BlocksClosed(front: seq<string>, data: Config, sections: seq<string>, seen: set<string>)
    requires Closed(front)
    ensures Closed(front + Blocks(data, sections, seen))
    decreases |sections|
  {
    if sections == [] {
      assert front + [] == front;
    } else if sections[0] in seen {
      BlocksClosed(front, data, sections[1..], seen);
    } else {
      var s := sections[0];
      var seen' := seen + {s};
      if IsKept(data, s) {
        var table := data[s].entries;
        KeyOrderCovers(s, table);
        KeyLinesClosed(table, KeyOrder(s, table));
      }
      assert Closed(front + Block(data, s));
      BlocksClosed(front + Block(data, s), data, sections[1..], seen');
      Associate(front, Block(data, s), Blocks(data, sections[1..], seen'));
    }
  }

  /** Stripping the trailing line feeds and adding one changes nothing. */
  lemma {:induction false} StripClosed(lines: seq<string>)
    requires Closed(lines)
    ensures StripFeeds(Text.Join("\n", lines)) + "\n" == Text.Join("\n", lines)
  {
    var n := |lines|;
    var front, x := lines[..n - 1], lines[n - 2];
    assert lines == front + [""];
    JoinConcat(front, [""]);
    var y := Text.Join("\n", front);
    assert Text.Join("\n", lines) == y + "\n";
    assert y != "" && y[|y| - 1] == x[|x| - 1] by {
      if n > 2 {
        assert front == front[..n - 2] + [x];
        JoinConcat(front[..n - 2], [x]);
      } else {
        assert front == [x];
      }
    }
    assert (y + "\n")[..|y|] == y;
    assert StripFeeds(y) == y;
  }

  lemma {:induction false} DocumentLines(data: Config)
    ensures Split(Document(data)) == Physical(PREAMBLE + Blocks(data, Sections(data), {}))
  {
    var lines := PREAMBLE + Blocks(data, Sections(data), {});
    BlocksClosed(PREAMBLE, data, Sections(data), {});
    StripClosed(lines);
    SplitJoin(lines);
  }

  /** A comment and a blank line say nothing. */
  lemma {:induction false} ReadComment(st: State, comment: string)
    requires comment != "" && comment[0] == '#' && NoControl(comment)
    ensures ReadLines(st, Physical([comment, ""])) == st
  {
    assert [comment, ""] == [comment] + [""];
    ReadPhysical(st, [comment], [""]);
    PhysicalOne(comment);
    PhysicalOne("");
    assert IsControl('\n');
    SplitLine(comment);
    assert SkipBlanks(comment) == comment;
    assert Split("") == [""];
  }

  /** What is written of a configuration: all of it but values outside tables and empty unknown tables. */
  function Kept(data: Config): Config {
    map s | s in data && IsKept(data, s) :: data[s]
  }

  lemma AllDue(data: Config, sections: seq<string>)
    requires forall s :: s in data ==> s in sections
    ensures map[] + DueTables(data, sections, {}) == Kept(data)
    ensures PrintableDue(data, sections, {}) <==> PrintableConfig(data)
  {
    assert forall s :: Due(data, sections, {}, s) <==> IsKept(data, s);
  }

  lemma TitleIsComment()
    ensures TITLE != "" && TITLE[0] == '#' && NoControl(TITLE)
  {
  }

  lemma ReadWritten(data: Config, comment: string, sections: seq<string>) returns (last: Option<string>)
    requires BareNames(data) && comment != "" && comment[0] == '#' && NoControl(comment)
    requires forall s :: s in data ==> s in sections
    ensures ReadLines(Reading(map[], None), Physical([comment, ""] + Blocks(data, sections, {})))
         == if PrintableConfig(data) then Reading(Kept(data), last) else Failed
  {
    var st := Reading(map[], None);
    ReadComment(st, comment);
    ReadPhysical(st, [comment, ""], Blocks(data, sections, {}));
    last := ReadBlocks(map[], None, data, sections, {});
    AllDue(data, sections);
  }

  /** Under bare names, reading what was written gives the same tables, or fails because of a control character. */
  lemma BareReadsBack(data: Config)
    requires BareNames(data)
    ensures Read(Document(data)) == if PrintableConfig(data) then Some(Kept(data)) else None
  {
    DocumentLines(data);
    TitleIsComment();
    var last := ReadWritten(data, TITLE, Sections(data));
  }
}
