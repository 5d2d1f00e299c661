/**
 * A reader for the part of TOML v1.0.0 ("Comment", "Key/Value Pair", "Keys", "String", "Integer",
 * "Boolean", "Table") that the configuration file uses: keys and table headers of one part, bare or in
 * quotation marks, basic strings with the one-letter escapes, decimal integers and booleans.
 */
module Toml {
  import opened Seqs
  import Text

  datatype Value = Str(text: string) | Int(number: int) | Bool(flag: bool)

  /** What a top-level name stands for. */
  datatype Entry = Table(entries: map<string, Value>) | Scalar(value: Value)

  type Config = map<string, Entry>

  // ----- characters -----

  predicate IsBlank(c: char) {
    c == ' ' || c == '\t'
  }

  predicate IsBareChar(c: char) {
    'A' <= c <= 'Z' || 'a' <= c <= 'z' || Text.IsDigit(c) || c == '_' || c == '-'
  }

  predicate BareKey(k: string) {
    k != "" && forall i :: 0 <= i < |k| ==> IsBareChar(k[i])
  }

  /** Control characters other than tab: allowed neither in a basic string nor in a comment. */
  predicate IsControl(c: char) {
    (c as int < 32 && c != '\t') || c as int == 127
  }

  predicate NoControl(s: string) {
    forall i :: 0 <= i < |s| ==> !IsControl(s[i])
  }

  // ----- tokens -----

  function SkipBlanks(s: string): (r: string)
    ensures r == "" || !IsBlank(r[0])
  {
    if s != "" && IsBlank(s[0]) then SkipBlanks(s[1..]) else s
  }

  /** Only blanks and perhaps a comment are left on the line. */
  predicate Ends(s: string) {
    var r := SkipBlanks(s);
    r == "" || (r[0] == '#' && NoControl(r))
  }

  function Span(p: char -> bool, s: string): (n: nat)
    ensures n <= |s| && (forall i :: 0 <= i < n ==> p(s[i])) && (n < |s| ==> !p(s[n]))
  {
    if s != "" && p(s[0]) then 1 + Span(p, s[1..]) else 0
  }

  /** The rest of a basic string after `done`, up to its closing quotation mark, and what follows. */
  function ReadString(s: string, done: string): Option<(string, string)> {
    if s == "" then None
    else if s[0] == '"' then Some((done, s[1..]))
    else if s[0] == '\\' then
      if |s| < 2 then None
      else match Unescaped(s[1])
           case None => None
           case Some(c) => ReadString(s[2..], done + [c])
    else if IsControl(s[0]) then None
    else ReadString(s[1..], done + [s[0]])
  }

  function Unescaped(c: char): Option<char> {
    if c == '"' || c == '\\' then Some(c)
    else if c == 'n' then Some('\n')
    else if c == 't' then Some('\t')
    else if c == 'r' then Some('\r')
    else if c == 'b' then Some(8 as char)
    else if c == 'f' then Some(12 as char)
    else None
  }

  /** A decimal integer: an optional sign, then digits without a leading zero. */
  function ReadInteger(s: string): Option<(Value, string)> {
    var digits := if s != "" && (s[0] == '-' || s[0] == '+') then s[1..] else s;
    var n := Span(Text.IsDigit, digits);
    if n == 0 || (n > 1 && digits[0] == '0') then None else
      var m: int := Text.DigitsValue(digits[..n]);
      Some((Int(if s[0] == '-' then -m else m), digits[n..]))
  }

  function ReadValue(s: string): Option<(Value, string)> {
    if s != "" && s[0] == '"' then
      match ReadString(s[1..], "")
      case None => None
      case Some((text, rest)) => Some((Str(text), rest))
    else if "true" <= s then Some((Bool(true), s[4..]))
    else if "false" <= s then Some((Bool(false), s[5..]))
    else ReadInteger(s)
  }

  // ----- lines -----

  /** What has been read, and the table the next keys belong to; a malformed line ends the reading. */
  datatype State = Reading(config: Config, current: Option<string>) | Failed

  function ReadLine(st: State, line: string): State
    requires st.Reading?
  {
    var s := SkipBlanks(line);
    if Ends(s) then st
    else if s[0] == '[' then ReadHeader(st, SkipBlanks(s[1..]))
    else ReadAssignment(st, s)
  }

  /** A key, bare or a basic string, and what follows it. */
  function ReadName(s: string): Option<(string, string)> {
    if s != "" && s[0] == '"' then ReadString(s[1..], "") else
      var n := Span(IsBareChar, s);
      if n == 0 then None else Some((s[..n], s[n..]))
  }

  /** No table may be defined twice, nor take a name that a value already has. */
  function ReadHeader(st: State, s: string): State
    requires st.Reading?
  {
    match ReadName(s)
    case None => Failed
    case Some((name, after)) =>
      var rest := SkipBlanks(after);
      if rest == "" || rest[0] != ']' || !Ends(rest[1..]) || name in st.config then Failed
      else Reading(st.config[name := Table(map[])], Some(name))
  }

  function ReadAssignment(st: State, s: string): State
    requires st.Reading?
  {
    match ReadName(s)
    case None => Failed
    case Some((name, after)) =>
      var rest := SkipBlanks(after);
      if rest == "" || rest[0] != '=' then Failed else Assign(st, name, ReadValue(SkipBlanks(rest[1..])))
  }

  /** No key may be given twice in the same table. */
  function Assign(st: State, key: string, read: Option<(Value, string)>): State
    requires st.Reading?
  {
    if read.None? || !Ends(read.value.1) then Failed else
      var value := read.value.0;
      match st.current
      case None =>
        if key in st.config then Failed
        else Reading(st.config[key := Scalar(value)], None)
      case Some(table) =>
        if table !in st.config || !st.config[table].Table? || key in st.config[table].entries then Failed
        else Reading(st.config[table := Table(st.config[table].entries[key := value])], st.current)
  }

  function ReadLines(st: State, lines: seq<string>): State
    decreases |lines|
  {
    if st.Failed? || lines == [] then st else ReadLines(ReadLine(st, lines[0]), lines[1..])
  }

  /** A character in front of the first line. */
  function Prefixed(c: char, lines: seq<string>): seq<string>
    requires lines != []
  {
    [[c] + lines[0]] + lines[1..]
  }

  /** The physical lines of a text: what stands between its line feeds. */
  function Split(s: string): (lines: seq<string>)
    ensures lines != []
  {
    if s == "" then [""] else
      var rest := Split(s[1..]);
      if s[0] == '\n' then [""] + rest else Prefixed(s[0], rest)
  }

  function Read(text: string): Option<Config> {
    var st := ReadLines(Reading(map[], None), Split(text));
    if st.Reading? then Some(st.config) else None
  }

  // ----- lines and blocks of lines -----

  lemma {:induction false} ReadLinesConcat(st: State, a: seq<string>, b: seq<string>)
    ensures ReadLines(st, a + b) == ReadLines(ReadLines(st, a), b)
    decreases |a|
  {
    if st.Reading? && a != [] {
      ReadLinesConcat(ReadLine(st, a[0]), a[1..], b);
      assert (a + b)[1..] == a[1..] + b;
    } else if a == [] {
      assert a + b == b;
    }
  }

  lemma {:induction false} SplitStep(c: char, s: string)
    ensures Split([c] + s) == if c == '\n' then [""] + Split(s) else Prefixed(c, Split(s))
  {
    assert ([c] + s)[1..] == s;
  }

  lemma {:induction false} PrefixedConcat(c: char, a: seq<string>, b: seq<string>)
    requires a != []
    ensures Prefixed(c, a + b) == Prefixed(c, a) + b
  {
    ConsConcat(a, b);
    Associate([[c] + a[0]], a[1..], b);
  }

  lemma {:induction false} SplitConcat(a: string, b: string)
    ensures Split(a + "\n" + b) == Split(a) + Split(b)
  {
    if a == "" {
      SplitStep('\n', b);
      assert a + "\n" + b == ['\n'] + b;
    } else {
      var rest := a[1..];
      SplitConcat(rest, b);
      SplitStep(a[0], rest + "\n" + b);
      SplitStep(a[0], rest);
      assert a + "\n" + b == [a[0]] + (rest + "\n" + b);
      assert a == [a[0]] + rest;
      if a[0] == '\n' {
        Associate([""], Split(rest), Split(b));
      } else {
        PrefixedConcat(a[0], Split(rest), Split(b));
      }
    }
  }

  /** The first physical line of a text whose beginning has no line feed. */
  lemma {:induction false} SplitPrefix(p: string, s: string)
    requires '\n' !in p
    ensures Split(p + s) == [p + Split(s)[0]] + Split(s)[1..]
  {
    if p == "" {
      NilLeft(s);
      NilLeft(Split(s)[0]);
    } else {
      var rest := p[1..];
      assert p == [p[0]] + rest && p[0] in p && '\n' !in rest;
      SplitPrefix(rest, s);
      SplitStep(p[0], rest + s);
      Associate([p[0]], rest, s);
      Associate([p[0]], rest, Split(s)[0]);
    }
  }

  lemma {:induction false} SplitLine(s: string)
    requires '\n' !in s
    ensures Split(s) == [s]
  {
    SplitPrefix(s, "");
    NilLeft(s);
  }
}
