/**
 * Names the printer does not quote. Whatever a document reads as, a name in it that is not bare was written with
 * more quotation marks and backslashes than it has, so such names never come back as they were.
 */
module ConfigNames {
  import opened Seqs
  import opened Toml
  import opened ConfigFile
  import opened ConfigRoundTrip
  import Text

  // ----- what unquoting costs -----

  /** The quotation marks and backslashes in a text. */
  function Quotes(s: string): nat {
    if s == "" then 0 else (if s[0] == '"' || s[0] == '\\' then 1 else 0) + Quotes(s[1..])
  }

  lemma {:induction false} QuotesConcat(a: string, b: string)
    ensures Quotes(a + b) == Quotes(a) + Quotes(b)
  {
    if a == "" {
      NilLeft(b);
    } else {
      QuotesConcat(a[1..], b);
      ConsConcat(a, b);
    }
  }

  lemma {:induction false} NoQuotes(s: string)
    requires forall i :: 0 <= i < |s| ==> s[i] != '"' && s[i] != '\\'
    ensures Quotes(s) == 0
  {
    if s != "" {
      NoQuotes(s[1..]);
    }
  }

  lemma BareHasNoQuotes(k: string)
    requires BareKey(k)
    ensures Quotes(k) == 0
  {
    forall i | 0 <= i < |k| ensures k[i] != '"' && k[i] != '\\' {
      assert IsBareChar(k[i]);
    }
    NoQuotes(k);
  }

  lemma {:induction false} SkipKeepsQuotes(s: string)
    ensures Quotes(SkipBlanks(s)) == Quotes(s)
  {
    if s != "" && IsBlank(s[0]) {
      SkipKeepsQuotes(s[1..]);
    }
  }

  lemma {:induction false} SkipConcat(a: string, b: string)
    ensures SkipBlanks(a + b) == if SkipBlanks(a) == "" then SkipBlanks(b) else SkipBlanks(a) + b
  {
    if a == "" {
      NilLeft(b);
    } else if IsBlank(a[0]) {
      SkipConcat(a[1..], b);
      ConsConcat(a, b);
    }
  }

  lemma OneMore(done: string, c: char)
    ensures Quotes(done + [c]) <= Quotes(done) + 1
    ensures c != '"' && c != '\\' ==> Quotes(done + [c]) == Quotes(done)
  {
    QuotesConcat(done, [c]);
    assert [c][1..] == "";
  }

  /** Unquoting loses at least the closing quotation mark. */
  lemma {:induction false} UnquotingCosts(s: string, done: string)
    ensures ReadString(s, done).Some? ==> Quotes(ReadString(s, done).value.0) < Quotes(done) + Quotes(s)
    decreases |s|
  {
    if s != "" && s[0] == '\\' && |s| >= 2 && Unescaped(s[1]).Some? {
      var c := Unescaped(s[1]).value;
      OneMore(done, c);
      UnquotingCosts(s[2..], done + [c]);
      assert s[1..][1..] == s[2..];
    } else if s != "" && s[0] != '"' && s[0] != '\\' && !IsControl(s[0]) {
      OneMore(done, s[0]);
      UnquotingCosts(s[1..], done + [s[0]]);
    }
  }

  /** What a printed value starts with: a quotation mark, or it has none at all. */
  predicate ValueStart(v: string) {
    v != "" && (v[0] == '"' || Quotes(v) == 0)
  }

  /** A string that is still open where the value begins ends with the value's first quotation mark. */
  lemma {:induction false} UnquotingStopsAtValue(a: string, v: string, done: string)
    requires ValueStart(v)
    ensures ReadString(a + (" = " + v), done).Some? ==>
      Quotes(ReadString(a + (" = " + v), done).value.0) <= Quotes(done) + Quotes(a)
    decreases |a|
  {
    var s := a + (" = " + v);
    if a == "" {
      IntoValue(v, done);
      NilLeft(" = " + v);
    } else if a[0] == '\\' {
      if |a| >= 2 && Unescaped(a[1]).Some? {
        var c := Unescaped(a[1]).value;
        OneMore(done, c);
        assert s[2..] == a[2..] + (" = " + v);
        assert a[1..][1..] == a[2..];
        UnquotingStopsAtValue(a[2..], v, done + [c]);
      } else {
        assert s[1] == if |a| >= 2 then a[1] else ' ';
      }
    } else if a[0] != '"' && !IsControl(a[0]) {
      OneMore(done, a[0]);
      ConsConcat(a, " = " + v);
      UnquotingStopsAtValue(a[1..], v, done + [a[0]]);
    }
  }

  lemma IntoValue(v: string, done: string)
    requires ValueStart(v)
    ensures ReadString(" = " + v, done).Some? ==> Quotes(ReadString(" = " + v, done).value.0) <= Quotes(done)
  {
    var s := " = " + v;
    if v[0] == '"' {
      assert s[1..] == "= " + v && ("= " + v)[1..] == " " + v && (" " + v)[1..] == v;
      OneMore(done, ' ');
      OneMore(done + [' '], '=');
      OneMore(done + [' '] + ['='], ' ');
      assert ReadString(s, done) == ReadString("= " + v, done + [' ']);
      assert ReadString("= " + v, done + [' ']) == ReadString(" " + v, done + [' '] + ['=']);
    } else {
      UnquotingCosts(s, done);
      QuotesConcat(" = ", v);
      NoQuotes(" = ");
    }
  }

  // ----- the names that lines declare -----

  /** The table or key a line declares, when it declares one. */
  function NameAt(line: string): Option<string> {
    var s := SkipBlanks(line);
    var read := ReadName(if s != "" && s[0] == '[' then SkipBlanks(s[1..]) else s);
    if read.None? then None else Some(read.value.0)
  }

  predicate Modest(name: string, bound: nat) {
    BareKey(name) || Quotes(name) < bound
  }

  predicate ModestLine(line: string, bound: nat) {
    NameAt(line).Some? ==> Modest(NameAt(line).value, bound)
  }

  ghost predicate ModestLines(lines: seq<string>, bound: nat) {
    forall line :: line in lines ==> ModestLine(line, bound)
  }

  ghost predicate ModestNames(config: Config, bound: nat) {
    forall s :: s in config && config[s].Table? ==>
      Modest(s, bound) && forall k :: k in config[s].entries ==> Modest(k, bound)
  }

  lemma BarePrefix(s: string)
    requires Span(IsBareChar, s) > 0
    ensures BareKey(s[..Span(IsBareChar, s)])
  {
  }

  lemma ReadLineModest(st: State, line: string, bound: nat)
    requires st.Reading? && ModestNames(st.config, bound) && ModestLine(line, bound)
    ensures ReadLine(st, line).Reading? ==> ModestNames(ReadLine(st, line).config, bound)
  {
  }

  lemma {:induction false} ReadLinesModest(st: State, lines: seq<string>, bound: nat)
    requires st.Reading? && ModestNames(st.config, bound) && ModestLines(lines, bound)
    ensures ReadLines(st, lines).Reading? ==> ModestNames(ReadLines(st, lines).config, bound)
    decreases |lines|
  {
    if lines != [] {
      ReadLineModest(st, lines[0], bound);
      if ReadLine(st, lines[0]).Reading? {
        ReadLinesModest(ReadLine(st, lines[0]), lines[1..], bound);
      }
    }
  }

  // ----- printed lines declare modest names -----

  lemma ReadNameModest(s: string, bound: nat)
    requires Quotes(s) <= bound
    ensures ReadName(s).Some? ==> Modest(ReadName(s).value.0, bound)
  {
    if s != "" && s[0] == '"' {
      UnquotingCosts(s[1..], "");
    } else if Span(IsBareChar, s) > 0 {
      BarePrefix(s);
    }
  }

  lemma FewQuotesModest(line: string, bound: nat)
    requires Quotes(line) <= bound
    ensures ModestLine(line, bound)
  {
    var s := SkipBlanks(line);
    SkipKeepsQuotes(line);
    if s != "" && s[0] == '[' {
      SkipKeepsQuotes(s[1..]);
      ReadNameModest(SkipBlanks(s[1..]), bound);
    } else {
      ReadNameModest(s, bound);
    }
  }

  lemma ReadKeyModest(a: string, v: string, bound: nat)
    requires a != "" && Quotes(a) <= bound && ValueStart(v)
    ensures ReadName(a + (" = " + v)).Some? ==> Modest(ReadName(a + (" = " + v)).value.0, bound)
  {
    var s := a + (" = " + v);
    if a[0] == '"' {
      ConsConcat(a, " = " + v);
      UnquotingStopsAtValue(a[1..], v, "");
    } else if Span(IsBareChar, s) > 0 {
      BarePrefix(s);
    }
  }

  /** The line on which a key ends and its value begins. */
  lemma KeyPieceModest(a: string, v: string, bound: nat)
    requires Quotes(a) <= bound && ValueStart(v)
    ensures ModestLine(a + (" = " + v), bound)
  {
    var tail := " = " + v;
    var s := SkipBlanks(a);
    SkipConcat(a, tail);
    SkipKeepsQuotes(a);
    EqualsIsNoName(v);
    if s != "" && s[0] == '[' {
      ConsConcat(s, tail);
      SkipConcat(s[1..], tail);
      SkipKeepsQuotes(s[1..]);
      if SkipBlanks(s[1..]) != "" {
        ReadKeyModest(SkipBlanks(s[1..]), v, bound);
      }
    } else if s != "" {
      ReadKeyModest(s, v, bound);
    }
  }

  lemma EqualsIsNoName(v: string)
    ensures SkipBlanks(" = " + v) == "= " + v && ReadName("= " + v) == None
  {
    assert (" = " + v)[1..] == "= " + v;
  }

  /** No name in quotation marks starts here: at most the closing one of a value. */
  predicate NoOpening(s: string) {
    var r := SkipBlanks(s);
    r == "" || r == "\"" || r[0] != '"'
  }

  predicate Silent(line: string) {
    var s := SkipBlanks(line);
    NoOpening(line) && (s != "" && s[0] == '[' ==> NoOpening(s[1..]))
  }

  lemma SilentIsModest(line: string, bound: nat)
    requires Silent(line)
    ensures ModestLine(line, bound)
  {
    var s := SkipBlanks(line);
    var start := if s != "" && s[0] == '[' then SkipBlanks(s[1..]) else s;
    assert "\""[1..] == "";
    if start != "" && start[0] != '"' && Span(IsBareChar, start) > 0 {
      BarePrefix(start);
    }
  }

  lemma SilentStep(c: char, line: string)
    requires Silent(line) && c != '"'
    ensures Silent([c] + line)
  {
    assert ([c] + line)[1..] == line;
  }

  /** The lines of an escaped text and its closing quotation mark: every other one has a backslash before it. */
  lemma {:induction false} EscapedIsSilent(text: string)
    ensures forall p :: p in Split(Escape(text) + "\"") ==> Silent(p)
  {
    if text == "" {
      SplitLine("\"");
      NilLeft("\"");
    } else {
      var c, rest := text[0], text[1..];
      assert text == [c] + rest;
      EscapeConcat([c], rest);
      EscapeChar(c);
      EscapedIsSilent(rest);
      var tail := Escape(rest) + "\"";
      Associate(EscapedChar(c), Escape(rest), "\"");
      if c == '\\' || c == '"' {
        assert ['\\', c] + tail == ['\\'] + ([c] + tail);
        SplitStep('\\', [c] + tail);
        SplitStep(c, tail);
        assert Silent(['\\'] + ([c] + Split(tail)[0]));
      } else {
        SplitStep(c, tail);
        SilentStep(c, Split(tail)[0]);
      }
    }
  }

  // ----- logical lines and the lines they take up -----

  /** The lines of two texts, the last of the first continued by the first of the second. */
  function Glue(x: seq<string>, y: seq<string>): seq<string>
    requires x != [] && y != []
  {
    x[..|x| - 1] + [x[|x| - 1] + y[0]] + y[1..]
  }

  lemma {:induction false} GlueLater(line: string, x: seq<string>, y: seq<string>)
    requires x != [] && y != []
    ensures Glue([line] + x, y) == [line] + Glue(x, y)
  {
    var lines := [line] + x;
    assert lines[..|lines| - 1] == [line] + x[..|x| - 1];
  }

  lemma {:induction false} GluePrefixed(c: char, x: seq<string>, y: seq<string>)
    requires x != [] && y != []
    ensures Glue(Prefixed(c, x), y) == Prefixed(c, Glue(x, y))
  {
    if |x| == 1 {
      Associate([c], x[0], y[0]);
      NilLeft([x[0] + y[0]]);
      NilLeft([([c] + x[0]) + y[0]]);
    } else {
      GlueLater([c] + x[0], x[1..], y);
      GlueLater(x[0], x[1..], y);
      assert x == [x[0]] + x[1..];
    }
  }

  lemma {:induction false} SplitAppend(a: string, b: string)
    ensures Split(a + b) == Glue(Split(a), Split(b))
  {
    if a == "" {
      NilLeft(b);
      NilLeft(Split(b)[0]);
    } else {
      SplitAppend(a[1..], b);
      ConsConcat(a, b);
      SplitStep(a[0], a[1..] + b);
      if a[0] == '\n' {
        GlueLater("", Split(a[1..]), Split(b));
      } else {
        GluePrefixed(a[0], Split(a[1..]), Split(b));
      }
    }
  }

  lemma {:induction false} PieceHasFewerQuotes(s: string, p: string)
    requires p in Split(s)
    ensures Quotes(p) <= Quotes(s)
  {
    if s != "" {
      var rest := Split(s[1..]);
      if p in rest {
        PieceHasFewerQuotes(s[1..], p);
      } else if s[0] != '\n' {
        PieceHasFewerQuotes(s[1..], rest[0]);
        assert p == [s[0]] + rest[0];
        assert p[1..] == rest[0];
      }
    }
  }

  lemma FewQuotesModestLines(s: string, bound: nat)
    requires Quotes(s) <= bound
    ensures ModestLines(Split(s), bound)
  {
    forall p | p in Split(s) ensures ModestLine(p, bound) {
      PieceHasFewerQuotes(s, p);
      FewQuotesModest(p, bound);
    }
  }

  lemma HeaderModest(section: string, bound: nat)
    requires Quotes(section) <= bound
    ensures ModestLines(Split(Header(section)), bound)
  {
    QuotesConcat("[" + section, "]");
    QuotesConcat("[", section);
    NoQuotes("[");
    NoQuotes("]");
    FewQuotesModestLines(Header(section), bound);
  }

  /** The first line of a printed value, and the lines after it. */
  lemma ValueLines(v: Value)
    ensures ValueStart(Split(ValueText(v))[0]) && forall p :: p in Split(ValueText(v))[1..] ==> Silent(p)
  {
    var text := ValueText(v);
    match v
    case Str(t) =>
      var rest := Escape(t) + "\"";
      Associate("\"", Escape(t), "\"");
      SplitStep('"', rest);
      EscapedIsSilent(t);
    case _ =>
      ValueHasNoFeed(v);
      SplitLine(text);
      ScalarHasNoQuotes(v);
  }

  lemma ScalarHasNoQuotes(v: Value)
    requires !v.Str?
    ensures Quotes(ValueText(v)) == 0
  {
    if v.Int? {
      Text.NatTextReadsBack(if v.number < 0 then -v.number else v.number);
      assert forall i :: 0 <= i < |IntText(v.number)| ==>
          Text.IsDigit(IntText(v.number)[i]) || IntText(v.number)[i] == '-';
    }
    NoQuotes(ValueText(v));
  }

  lemma KeyLineModest(k: string, v: Value, bound: nat)
    requires Quotes(k) <= bound
    ensures ModestLines(Split(KeyLine(k, v)), bound)
  {
    var x, y := Split(k), Split(ValueText(v));
    var tail := " = " + ValueText(v);
    ValueLines(v);
    SplitPrefix(" = ", ValueText(v));
    SplitAppend(k, tail);
    Associate(k, " = ", ValueText(v));
    var last := x[|x| - 1];
    forall p | p in Split(KeyLine(k, v)) ensures ModestLine(p, bound) {
      if p in x[..|x| - 1] {
        PieceHasFewerQuotes(k, p);
        FewQuotesModest(p, bound);
      } else if p in y[1..] {
        SilentIsModest(p, bound);
      } else {
        PieceHasFewerQuotes(k, last);
        KeyPieceModest(last, y[0], bound);
      }
    }
  }

  ghost predicate ModestText(lines: seq<string>, bound: nat) {
    forall l :: l in lines ==> ModestLines(Split(l), bound)
  }

  lemma {:induction false} PhysicalModest(lines: seq<string>, bound: nat)
    requires ModestText(lines, bound)
    ensures ModestLines(Physical(lines), bound)
  {
    if lines != [] {
      PhysicalModest(lines[1..], bound);
    }
  }

  lemma {:induction false} KeyLinesModest(table: map<string, Value>, keys: seq<string>, bound: nat)
    requires forall k :: k in keys ==> k in table && Quotes(k) <= bound
    ensures ModestText(KeyLines(table, keys), bound)
  {
    if keys != [] {
      KeyLineModest(keys[0], table[keys[0]], bound);
      KeyLinesModest(table, keys[1..], bound);
    }
  }

  /** No name of a table that is written has more quotation marks and backslashes than this. */
  ghost predicate Within(config: Config, bound: nat) {
    forall s :: s in config && config[s].Table? ==>
      Quotes(s) <= bound && forall k :: k in config[s].entries ==> Quotes(k) <= bound
  }

  lemma BlockModest(data: Config, section: string, bound: nat)
    requires Within(Kept(data), bound)
    ensures ModestText(Block(data, section), bound)
  {
    if IsKept(data, section) {
      var table := Kept(data)[section].entries;
      KeyOrderCovers(section, table);
      HeaderModest(section, bound);
      KeyLinesModest(table, KeyOrder(section, table), bound);
      FewQuotesModestLines("", bound);
    }
  }

  lemma {:induction false} BlocksModest(data: Config, sections: seq<string>, seen: set<string>, bound: nat)
    requires Within(Kept(data), bound)
    ensures ModestText(Blocks(data, sections, seen), bound)
    decreases |sections|
  {
    if sections != [] {
      BlockModest(data, sections[0], bound);
      BlocksModest(data, sections[1..], if sections[0] in seen then seen else seen + {sections[0]}, bound);
    }
  }

  lemma PreambleModest(title: string, bound: nat)
    requires Quotes(title) == 0
    ensures ModestText([title, ""], bound)
  {
    FewQuotesModestLines(title, bound);
    FewQuotesModestLines("", bound);
  }

  lemma ReadModest(text: string, bound: nat)
    requires ModestLines(Split(text), bound) && Read(text).Some?
    ensures ModestNames(Read(text).value, bound)
  {
    ReadLinesModest(Reading(map[], None), Split(text), bound);
  }

  lemma TitleHasNoQuotes()
    ensures Quotes(TITLE) == 0
  {
    NoQuotes(TITLE);
  }

  /** Whatever a document reads as, its names are bare or have lost a quotation mark. */
  lemma DocumentModest(data: Config, bound: nat)
    requires Within(Kept(data), bound) && Read(Document(data)).Some?
    ensures ModestNames(Read(Document(data)).value, bound)
  {
    TitleHasNoQuotes();
    PreambleModest(TITLE, bound);
    BlocksModest(data, Sections(data), {}, bound);
    PhysicalModest(PREAMBLE + Blocks(data, Sections(data), {}), bound);
    DocumentLines(data);
    ReadModest(Document(data), bound);
  }

  // ----- only bare names come back -----

  lemma {:induction false} SomeBound(names: set<string>) returns (bound: nat)
    ensures forall n :: n in names ==> Quotes(n) <= bound
    decreases |names|
  {
    if names == {} {
      bound := 0;
    } else {
      var n :| n in names;
      bound := SomeBound(names - {n});
      bound := bound + Quotes(n);
    }
  }

  lemma {:induction false} OnlyBareWithin(data: Config, bound: nat)
    requires Read(Document(data)) == Some(Kept(data)) && Within(Kept(data), bound)
    ensures BareNames(Kept(data))
    decreases bound
  {
    DocumentModest(data, bound);
    if bound > 0 {
      forall n | Modest(n, bound) ensures Quotes(n) <= bound - 1 {
        if BareKey(n) {
          BareHasNoQuotes(n);
        }
      }
      OnlyBareWithin(data, bound - 1);
    }
  }

  /** A configuration that comes back as it was has bare names only. */
  lemma OnlyBareNamesReadBack(data: Config)
    requires Read(Document(data)) == Some(Kept(data))
    ensures BareNames(Kept(data))
  {
    var kept := Kept(data);
    var keys := set s, k | s in kept && kept[s].Table? && k in kept[s].entries :: k;
    var bound := SomeBound(kept.Keys + keys);
    assert Within(kept, bound) by {
      forall s, k | s in kept && kept[s].Table? && k in kept[s].entries ensures Quotes(k) <= bound {
        assert k in keys;
      }
    }
    OnlyBareWithin(data, bound);
  }
}
