/**
 The configuration file: `config_write_file` prints it, `_readConfig` reads it back.
 Text is a sequence of characters; a C string ends at the first NUL.
 */
module Config {
  import opened Bytes

  datatype Config = Config(flags: nat, debugFile: string, serialFile: string, vars: map<string, string>)

  datatype Group = Generic | Vars | Unknown

  /** What one line of the file says. */
  datatype Line = Nothing | Header(group: Group) | Assign(name: string, value: string)

  // ----- characters -----

  predicate IsSpace(c: char) { c == ' ' || '\t' <= c <= '\r' }
  predicate IsNul(c: char) { c == '\0' }
  predicate IsHash(c: char) { c == '#' }
  predicate IsNewline(c: char) { c == '\n' }
  predicate NotSpace(c: char) { !IsSpace(c) }
  predicate EndsName(c: char) { IsSpace(c) || c == '=' }

  function Lower(c: char): char { if 'A' <= c <= 'Z' then c - 'A' + 'a' else c }

  predicate SameIgnoringCase(a: string, b: string) {
    |a| == |b| && forall i :: 0 <= i < |a| ==> Lower(a[i]) == Lower(b[i])
  }

  /** Number of characters before the first one that satisfies `stop`. */
  function Until(s: string, stop: char -> bool): (n: nat)
    ensures n <= |s| && (n < |s| ==> stop(s[n])) && forall i :: 0 <= i < n ==> !stop(s[i])
  {
    if s == "" || stop(s[0]) then 0 else 1 + Until(s[1..], stop)
  }

  lemma UntilIs(s: string, stop: char -> bool, n: nat)
    requires n <= |s| && (n < |s| ==> stop(s[n])) && forall i :: 0 <= i < n ==> !stop(s[i])
    ensures Until(s, stop) == n
  {
  }

  // ----- one line -----

  /** The line without its end. */
  function Trimmed(lbuf: string): string {
    var s := lbuf[..Until(lbuf, IsNul)];
    if s != "" && (s[|s| - 1] == '\n' || s[|s| - 1] == '\r') then s[..|s| - 1] else s
  }

  /** A line without its comment and its leading blanks. */
  function Stripped(t: string): string {
    var u := t[..Until(t, IsHash)];
    u[Until(u, NotSpace)..]
  }

  /** What a line says, if anything. */
  function Content(lbuf: string): string { Stripped(Trimmed(lbuf)) }

  function GroupOf(s: string): Group {
    if |s| >= 9 && SameIgnoringCase(s[..9], "[generic]") then Generic
    else if |s| >= 6 && SameIgnoringCase(s[..6], "[vars]") then Vars
    else Unknown
  }

  /** A value is the run of non-blanks behind the equals sign. */
  function ValueOf(name: string, s: string): Line {
    var v := s[Until(s, NotSpace)..];
    if v == "" then Nothing else Assign(name, v[..Until(v, IsSpace)])
  }

  function AssignmentOf(s: string): Line {
    var n := Until(s, EndsName);
    var rest := s[n..];
    var eq := rest[Until(rest, NotSpace)..];
    if eq == "" || eq[0] != '=' then Nothing else ValueOf(s[..n], eq[1..])
  }

  function LineOf(lbuf: string): (l: Line) {
    var s := Content(lbuf);
    if s == "" then Nothing
    else if s[0] == '[' then Header(GroupOf(s))
    else AssignmentOf(s)
  }

  // ----- the whole file -----

  /** What `fgets` delivers into a buffer of 256 characters. */
  function ChunkSize(text: string): (n: nat)
    requires text != ""
    ensures 1 <= n <= |text|
  {
    var line := Until(text, IsNewline) + 1;
    var n := if line < 255 then line else 255;
    if n < |text| then n else |text|
  }

  function Apply(l: Line, group: Group, cfg: Config): (r: (Group, Config)) {
    match l
    case Nothing => (group, cfg)
    case Header(g) => (g, cfg)
    case Assign(name, value) => (group, Assigned(group, name, value, cfg))
  }

  function Assigned(group: Group, name: string, value: string, cfg: Config): Config {
    match group
    case Unknown => cfg
    case Vars => if name in cfg.vars then cfg else cfg.(vars := cfg.vars[name := value])
    case Generic =>
      if SameIgnoringCase(name, "flags") then
        var v := ScanInt(value);
        if v.Some? then cfg.(flags := v.value % 0x1_0000_0000) else cfg
      else if SameIgnoringCase(name, "debugFile") then cfg.(debugFile := value)
      else if SameIgnoringCase(name, "serialFile") then cfg.(serialFile := value)
      else cfg
  }

  function ReadFrom(text: string, group: Group, cfg: Config): (r: Config)
    decreases |text|
  {
    if text == "" then cfg
    else
      var n := ChunkSize(text);
      var next := Apply(LineOf(text[..n]), group, cfg);
      ReadFrom(text[n..], next.0, next.1)
  }

  // ----- numbers: scanf("%i") and printf("%08x") -----

  predicate IsHex(c: char) { '0' <= c <= '9' || 'a' <= c <= 'f' || 'A' <= c <= 'F' }

  function DigitValue(c: char): nat
    requires IsHex(c)
  {
    if '0' <= c <= '9' then (c - '0') as int
    else if 'a' <= c <= 'f' then (c - 'a') as int + 10
    else (c - 'A') as int + 10
  }

  function Numeral(s: string, base: nat): nat
    requires forall i :: 0 <= i < |s| ==> IsHex(s[i])
  {
    if s == "" then 0 else base * Numeral(s[..|s| - 1], base) + DigitValue(s[|s| - 1])
  }

  predicate NotDigit(c: char) { !('0' <= c <= '9') }
  predicate NotOctal(c: char) { !('0' <= c <= '7') }
  predicate NotHex(c: char) { !IsHex(c) }

  function ScanInt(s: string): (v: Option<int>) {
    if s != "" && s[0] == '-' then
      match ScanNat(s[1..]) case None => None case Some(n) => Some(-n)
    else ScanNat(if s != "" && s[0] == '+' then s[1..] else s)
  }

  function ScanNat(s: string): (v: Option<int>) {
    if |s| > 2 && s[0] == '0' && (s[1] == 'x' || s[1] == 'X') && IsHex(s[2]) then
      Some(Numeral(s[2..2 + Until(s[2..], NotHex)], 16))
    else if s != "" && s[0] == '0' then Some(Numeral(s[..Until(s, NotOctal)], 8))
    else if s != "" && '1' <= s[0] <= '9' then Some(Numeral(s[..Until(s, NotDigit)], 10))
    else None
  }

  function HexDigit(n: nat): (c: char)
    requires n < 16
    ensures IsHex(c) && DigitValue(c) == n
  {
    if n < 10 then '0' + n as char else 'a' + (n - 10) as char
  }

  /** `n` as `digits` hexadecimal digits. */
  function Hex(n: nat, digits: nat): (s: string)
    ensures |s| == digits && forall i :: 0 <= i < |s| ==> IsHex(s[i])
  {
    if digits == 0 then "" else Hex(n / 16, digits - 1) + [HexDigit(n % 16)]
  }

  function Power16(digits: nat): nat { if digits == 0 then 1 else 16 * Power16(digits - 1) }

  lemma {:induction false} HexRoundTrip(n: nat, digits: nat)
    requires n < Power16(digits)
    ensures Numeral(Hex(n, digits), 16) == n
  {
    if digits > 0 {
      HexRoundTrip(n / 16, digits - 1);
      var s := Hex(n, digits);
      assert s[..|s| - 1] == Hex(n / 16, digits - 1);
    }
  }

  // ----- the printer -----

  const COMMENT := "# This file has been automatically created"

  /** What `%s` prints of a string: all up to the first NUL. */
  function CText(s: string): string { s[..Until(s, IsNul)] }

  function NameValue(name: string, value: string): string { CText(name) + "=" + CText(value) }

  /** One line for every variable whose name and value are not empty. */
  function VarLines(order: seq<string>, vars: map<string, string>): seq<string>
    requires forall k :: k in order ==> k in vars
  {
    if order == [] then []
    else
      var k := order[0];
      (if k != "" && vars[k] != "" then [NameValue(k, vars[k])] else []) + VarLines(order[1..], vars)
  }

  function FileLines(cfg: Config): seq<string> {
    [COMMENT, NameValue("flags", "0x" + Hex(cfg.flags, 8))]
    + (if cfg.debugFile != "" then [NameValue("debugFile", cfg.debugFile)] else [])
    + (if cfg.serialFile != "" then [NameValue("serialFile", cfg.serialFile)] else [])
  }

  /** All lines of the file; `order` is the order in which the map of variables is walked. */
  function Lines(cfg: Config, order: seq<string>): seq<string>
    requires Enumerates(order, cfg.vars)
  {
    FileLines(cfg) + if cfg.vars == map[] then [] else ["", "[vars]"] + VarLines(order, cfg.vars)
  }

  function Text(lines: seq<string>): string {
    if lines == [] then "" else lines[0] + "\n" + Text(lines[1..])
  }

  predicate Enumerates(order: seq<string>, vars: map<string, string>) {
    && (forall k :: k in order ==> k in vars) && (forall k :: k in vars ==> k in order)
    && forall i, j :: 0 <= i < j < |order| ==> order[i] != order[j]
  }

  // ----- what survives -----

  predicate Clean(s: string) {
    s != "" && forall i :: 0 <= i < |s| ==> !IsSpace(s[i]) && s[i] != '#' && s[i] != '\0'
  }

  predicate CleanName(s: string) {
    Clean(s) && s[0] != '[' && forall i :: 0 <= i < |s| ==> s[i] != '='
  }

  /** The configuration can be written to the file and read back. */
  predicate Storable(cfg: Config) {
    && cfg.flags < 0x1_0000_0000
    && (cfg.debugFile != "" ==> Clean(cfg.debugFile) && |NameValue("debugFile", cfg.debugFile)| <= 255)
    && (cfg.serialFile != "" ==> Clean(cfg.serialFile) && |NameValue("serialFile", cfg.serialFile)| <= 255)
    && forall k :: k in cfg.vars && k != "" && cfg.vars[k] != "" ==>
         CleanName(k) && Clean(cfg.vars[k]) && |NameValue(k, cfg.vars[k])| <= 255
  }

  /** No blank, no comment and no NUL. */
  predicate Plain(s: string) { forall i :: 0 <= i < |s| ==> !IsSpace(s[i]) && s[i] != '#' && s[i] != '\0' }

  /** A line that `fgets` delivers whole: 254 characters and the line end, or 255 and the line end by itself. */
  predicate Short(l: string) {
    |l| <= 255 && (|l| == 255 ==> Plain(l)) && forall i :: 0 <= i < |l| ==> l[i] != '\n'
  }

  /** A line that fits the buffer is read as one line. */
  lemma ReadOneLine(l: string, rest: string, group: Group, cfg: Config)
    requires Short(l)
    ensures var next := Apply(LineOf(l + "\n"), group, cfg);
      ReadFrom(l + "\n" + rest, group, cfg) == ReadFrom(rest, next.0, next.1)
  {
    hide LineOf, Apply;
    var text := l + "\n" + rest;
    UntilIs(text, IsNewline, |l|);
    if |l| < 255 {
      assert text[..|l| + 1] == l + "\n" && text[|l| + 1..] == rest;
    } else {
      assert text[..255] == l && text[255..] == "\n" + rest;
      PlainLine(l);
      var next := Apply(LineOf(l), group, cfg);
      ReadLineEnd(rest, next.0, next.1);
    }
  }

  lemma PlainLine(l: string)
    requires Plain(l) && l != ""
    ensures LineOf(l) == LineOf(l + "\n")
  {
    hide Content, AssignmentOf, GroupOf;
    PlainContent(l);
    PlainIsContent(l);
  }

  lemma PlainIsContent(l: string)
    requires Plain(l) && l != ""
    ensures Content(l) == l
  {
    hide Until;
    UntilIs(l, IsNul, |l|);
    UntilIs(l, IsHash, |l|);
    UntilIs(l, NotSpace, 0);
    assert l[..|l|] == l && l[0..] == l;
  }

  /** A line end by itself says nothing. */
  lemma ReadLineEnd(rest: string, group: Group, cfg: Config)
    ensures ReadFrom("\n" + rest, group, cfg) == ReadFrom(rest, group, cfg)
  {
    hide LineOf;
    var text := "\n" + rest;
    UntilIs(text, IsNewline, 0);
    assert text[..1] == "" + "\n" && text[1..] == rest;
    EmptyLineRead();
  }

  /** A printed assignment is read as that assignment. */
  lemma AssignmentRead(name: string, value: string)
    requires CleanName(name) && Clean(value)
    ensures LineOf(NameValue(name, value) + "\n") == Assign(name, value)
  {
    hide Content, NameValue, CText;
    CleanLine(name, value);
    var s := name + "=" + value;
    PlainContent(s);
    var n := |name|;
    UntilIs(s, EndsName, n);
    assert s[..n] == name && s[n..] == "=" + value;
    UntilIs(s[n..], NotSpace, 0);
    assert s[n..][0..] == s[n..] && s[n..][1..] == value;
    UntilIs(value, NotSpace, 0);
    UntilIs(value, IsSpace, |value|);
    assert value[0..] == value && value[..|value|] == value;
  }

  lemma CleanLine(name: string, value: string)
    requires Clean(name) && Clean(value)
    ensures NameValue(name, value) == name + "=" + value
  {
    hide CText;
    CleanText(name);
    CleanText(value);
  }

  lemma CleanText(s: string)
    requires Clean(s)
    ensures CText(s) == s
  {
    UntilIs(s, IsNul, |s|);
    assert s[..|s|] == s;
  }

  /** A line without blanks, comments and NULs is its own content. */
  lemma PlainContent(s: string)
    requires s != "" && Plain(s)
    ensures Content(s + "\n") == s
  {
    var l := s + "\n";
    UntilIs(l, IsNul, |l|);
    assert l[..|l|] == l && l[..|l| - 1] == s;
    UntilIs(s, IsHash, |s|);
    assert s[..|s|] == s;
    UntilIs(s, NotSpace, 0);
    assert s[0..] == s;
  }

  /** Reading line by line, once the text is cut into lines. */
  function ReadLines(lines: seq<string>, group: Group, cfg: Config): (r: (Group, Config)) {
    if lines == [] then (group, cfg)
    else
      var next := Apply(LineOf(lines[0] + "\n"), group, cfg);
      ReadLines(lines[1..], next.0, next.1)
  }

  lemma {:induction false} TextRead(lines: seq<string>, group: Group, cfg: Config)
    requires forall l :: l in lines ==> Short(l)
    ensures ReadFrom(Text(lines), group, cfg) == ReadLines(lines, group, cfg).1
    decreases |lines|
  {
    hide LineOf, Apply, ReadFrom;
    if lines == [] {
      EmptyRead(group, cfg);
    } else {
      assert Short(lines[0]);
      ReadOneLine(lines[0], Text(lines[1..]), group, cfg);
      var next := Apply(LineOf(lines[0] + "\n"), group, cfg);
      TextRead(lines[1..], next.0, next.1);
    }
  }

  lemma EmptyRead(group: Group, cfg: Config)
    ensures ReadFrom("", group, cfg) == cfg
  {
  }

  lemma {:induction false} ReadLinesConcat(a: seq<string>, b: seq<string>, group: Group, cfg: Config)
    ensures var mid := ReadLines(a, group, cfg);
      ReadLines(a + b, group, cfg) == ReadLines(b, mid.0, mid.1)
    decreases |a|
  {
    hide LineOf, Apply;
    if a == [] {
      assert a + b == b;
    } else {
      assert (a + b)[1..] == a[1..] + b;
      var next := Apply(LineOf(a[0] + "\n"), group, cfg);
      ReadLinesConcat(a[1..], b, next.0, next.1);
    }
  }

  lemma OneLine(l: string, group: Group, cfg: Config)
    ensures ReadLines([l], group, cfg) == Apply(LineOf(l + "\n"), group, cfg)
  {
    hide LineOf, Apply;
    assert [l][1..] == [];
  }

  /** The variables that are printed at all. */
  function Printed(order: seq<string>, vars: map<string, string>): map<string, string>
    requires forall k :: k in order ==> k in vars
  {
    map k | k in order && k != "" && vars[k] != "" :: vars[k]
  }

  predicate StorableVars(order: seq<string>, vars: map<string, string>)
    requires forall k :: k in order ==> k in vars
  {
    forall k :: k in order && k != "" && vars[k] != "" ==>
      CleanName(k) && Clean(vars[k]) && |NameValue(k, vars[k])| <= 255
  }

  lemma {:induction false} VarsRead(order: seq<string>, vars: map<string, string>, cfg: Config)
    requires (forall k :: k in order ==> k in vars) && StorableVars(order, vars)
    ensures ReadLines(VarLines(order, vars), Vars, cfg) == (Vars, cfg.(vars := Printed(order, vars) + cfg.vars))
    ensures forall l :: l in VarLines(order, vars) ==> Short(l)
    decreases |order|
  {
    hide LineOf, CleanName, Clean, Short, Assigned, Printed, NameValue, ReadLines;
    if order == [] {
      NothingPrinted(vars, cfg.vars);
      assert ReadLines([], Vars, cfg) == (Vars, cfg) by { NoLines(Vars, cfg); }
    } else {
      var k, v, rest := order[0], vars[order[0]], order[1..];
      var head := if k != "" && v != "" then [NameValue(k, v)] else [];
      var cfg' := if k != "" && v != "" then Assigned(Vars, k, v, cfg) else cfg;
      VarRead(k, v, cfg);
      VarsRead(rest, vars, cfg');
      ReadLinesConcat(head, VarLines(rest, vars), Vars, cfg);
      PrintedFirst(order, vars, cfg);
    }
  }

  lemma NoLines(group: Group, cfg: Config)
    ensures ReadLines([], group, cfg) == (group, cfg)
  {
  }

  lemma NothingPrinted(vars: map<string, string>, base: map<string, string>)
    ensures Printed([], vars) + base == base
  {
  }

  lemma VarRead(k: string, v: string, cfg: Config)
    requires k != "" && v != "" ==> CleanName(k) && Clean(v) && |NameValue(k, v)| <= 255
    ensures var lines := if k != "" && v != "" then [NameValue(k, v)] else [];
      && (forall l :: l in lines ==> Short(l))
      && ReadLines(lines, Vars, cfg) == (Vars, if k != "" && v != "" then Assigned(Vars, k, v, cfg) else cfg)
  {
    hide LineOf, CleanName, Clean, Short, Assigned, NameValue;
    if k != "" && v != "" {
      AssignmentRead(k, v);
      OneLine(NameValue(k, v), Vars, cfg);
      LineIsShort(k, v);
    }
  }

  /** What is in the map already stays, so the first assignment of a name wins. */
  lemma PrintedFirst(order: seq<string>, vars: map<string, string>, cfg: Config)
    requires order != [] && forall k :: k in order ==> k in vars
    ensures var k := order[0];
      var cfg' := if k != "" && vars[k] != "" then Assigned(Vars, k, vars[k], cfg) else cfg;
      cfg'.(vars := Printed(order[1..], vars) + cfg'.vars) == cfg.(vars := Printed(order, vars) + cfg.vars)
  {
    var k, rest := order[0], order[1..];
    assert forall x :: x in order <==> x == k || x in rest;
    var cfg' := if k != "" && vars[k] != "" then Assigned(Vars, k, vars[k], cfg) else cfg;
    assert Printed(rest, vars) + cfg'.vars == Printed(order, vars) + cfg.vars;
  }

  lemma LineIsShort(name: string, value: string)
    requires CleanName(name) && Clean(value) && |NameValue(name, value)| <= 255
    ensures Short(NameValue(name, value))
  {
    hide NameValue;
    CleanLine(name, value);
  }

  lemma CommentRead(s: string)
    requires s != "" && s[0] == '#'
    ensures LineOf(s) == Nothing
  {
    var u := s[..Until(s, IsNul)];
    assert u[0] == '#';
    var t := if u[|u| - 1] == '\n' || u[|u| - 1] == '\r' then u[..|u| - 1] else u;
    if t != "" {
      assert t[0] == '#';
      UntilIs(t, IsHash, 0);
    }
  }

  lemma EmptyLineRead()
    ensures LineOf("" + "\n") == Nothing
  {
    UntilIs("\n", IsNul, 1);
    assert "" + "\n" == "\n" && "\n"[..1] == "\n" && "\n"[..0] == "";
  }

  lemma VarsHeaderRead()
    ensures LineOf("[vars]" + "\n") == Header(Vars) && Short("[vars]")
  {
    var s := "[vars]";
    PlainContent(s);
    assert s[..6] == s;
  }

  lemma KeywordsClean()
    ensures CleanName("flags") && CleanName("debugFile") && CleanName("serialFile")
  {
  }

  lemma CommentShort()
    ensures Short(COMMENT) && COMMENT != "" && (COMMENT + "\n")[0] == '#'
  {
  }

  lemma PowerOf8()
    ensures Power16(8) == 0x1_0000_0000
  {
    assert Power16(2) == 256;
    assert Power16(4) == 0x1_0000;
    assert Power16(6) == 0x100_0000;
  }

  /** The flags come back from their hexadecimal form. */
  lemma FlagsRead(flags: nat)
    requires flags < 0x1_0000_0000
    ensures var v := "0x" + Hex(flags, 8); Clean(v) && |NameValue("flags", v)| < 255 && ScanInt(v) == Some(flags)
  {
    hide Hex, Numeral, Power16, DigitValue;
    assert |CText("flags")| <= 5;
    var h, v := Hex(flags, 8), "0x" + Hex(flags, 8);
    assert v[2..] == h && v[2] == h[0] && v[0] == '0' && v[1] == 'x';
    UntilIs(h, NotHex, 8);
    assert v[2..2 + Until(v[2..], NotHex)] == h;
    PowerOf8();
    HexRoundTrip(flags, 8);
  }

  lemma AssignLine(name: string, value: string, cfg: Config)
    requires CleanName(name) && Clean(value)
    ensures ReadLines([NameValue(name, value)], Generic, cfg) == (Generic, Assigned(Generic, name, value, cfg))
  {
    hide LineOf, NameValue, CleanName, Clean, Assigned;
    OneLine(NameValue(name, value), Generic, cfg);
    AssignmentRead(name, value);
  }

  lemma Keywords(value: string, cfg: Config)
    ensures Assigned(Generic, "debugFile", value, cfg) == cfg.(debugFile := value)
    ensures Assigned(Generic, "serialFile", value, cfg) == cfg.(serialFile := value)
    ensures ScanInt(value).Some? && 0 <= ScanInt(value).value < 0x1_0000_0000 ==>
      Assigned(Generic, "flags", value, cfg) == cfg.(flags := ScanInt(value).value)
  {
    hide ScanInt;
  }

  /** The first part of the file restores the flags and the file names that were printed. */
  lemma GenericRead(cfg: Config, base: Config)
    requires Storable(cfg)
    ensures ReadLines(FileLines(cfg), Generic, base) == (Generic, base.(flags := cfg.flags,
      debugFile := if cfg.debugFile != "" then cfg.debugFile else base.debugFile,
      serialFile := if cfg.serialFile != "" then cfg.serialFile else base.serialFile))
    ensures forall l :: l in FileLines(cfg) ==> Short(l)
  {
    hide LineOf, ReadLines, NameValue, Clean, CleanName, Assigned, Hex, ScanInt;
    var f := "0x" + Hex(cfg.flags, 8);
    var comment, flags := [COMMENT], [NameValue("flags", f)];
    var debug := if cfg.debugFile != "" then [NameValue("debugFile", cfg.debugFile)] else [];
    var serial := if cfg.serialFile != "" then [NameValue("serialFile", cfg.serialFile)] else [];
    assert FileLines(cfg) == comment + flags + debug + serial;
    KeywordsClean();
    CommentShort();
    CommentRead(COMMENT + "\n");
    OneLine(COMMENT, Generic, base);
    FlagsRead(cfg.flags);
    AssignLine("flags", f, base);
    Keywords(f, base);
    LineIsShort("flags", f);
    var c1 := base.(flags := cfg.flags);
    ReadLinesConcat(comment, flags, Generic, base);
    FileRead("debugFile", cfg.debugFile, c1);
    var c2 := if cfg.debugFile != "" then c1.(debugFile := cfg.debugFile) else c1;
    ReadLinesConcat(comment + flags, debug, Generic, base);
    FileRead("serialFile", cfg.serialFile, c2);
    ReadLinesConcat(comment + flags + debug, serial, Generic, base);
  }

  lemma FileRead(name: string, file: string, cfg: Config)
    requires name == "debugFile" || name == "serialFile"
    requires file != "" ==> Clean(file) && |NameValue(name, file)| <= 255
    ensures var lines := if file != "" then [NameValue(name, file)] else [];
      && (forall l :: l in lines ==> Short(l))
      && ReadLines(lines, Generic, cfg) == (Generic,
           if file == "" then cfg
           else if name == "debugFile" then cfg.(debugFile := file) else cfg.(serialFile := file))
  {
    hide LineOf, NameValue, Clean, CleanName, Assigned;
    KeywordsClean();
    if file != "" {
      AssignLine(name, file, cfg);
      Keywords(file, cfg);
      LineIsShort(name, file);
    }
  }

  /**
   Headline: reading what was written restores the flags, both file names (an empty one is not written,
   so whatever was there before stays) and every variable with a name and a value.
   */
  lemma RoundTrip(cfg: Config, order: seq<string>, base: Config)
    requires Storable(cfg) && Enumerates(order, cfg.vars)
    ensures ReadFrom(Text(Lines(cfg, order)), Generic, base) == Config(cfg.flags,
      if cfg.debugFile != "" then cfg.debugFile else base.debugFile,
      if cfg.serialFile != "" then cfg.serialFile else base.serialFile,
      Printed(order, cfg.vars) + base.vars)
  {
    hide LineOf, ReadLines, FileLines, ReadFrom, Text, Clean, CleanName, VarLines, NameValue, Short;
    var file := FileLines(cfg);
    GenericRead(cfg, base);
    var mid := ReadLines(file, Generic, base).1;
    if cfg.vars == map[] {
      assert Printed(order, cfg.vars) + base.vars == base.vars;
      assert Lines(cfg, order) == file + [] == file;
      TextRead(file, Generic, base);
    } else {
      var head, vars := ["", "[vars]"], VarLines(order, cfg.vars);
      HeadRead(mid);
      VarsRead(order, cfg.vars, mid);
      ReadLinesConcat(head, vars, Generic, mid);
      ReadLinesConcat(file, head + vars, Generic, base);
      TextRead(file + (head + vars), Generic, base);
    }
  }

  /** The lines of the file, spelled out. */
  lemma LinesTold(flags: nat, debug: string, serial: string, name: string, value: string)
    requires Clean(debug) && Clean(serial) && Clean(name) && Clean(value)
    ensures var cfg := Config(flags, debug, serial, map[name := value]);
      && Enumerates([name], cfg.vars)
      && Lines(cfg, [name]) ==
           ["# This file has been automatically created", "flags" + "=" + ("0x" + Hex(flags, 8)),
            "debugFile" + "=" + debug, "serialFile" + "=" + serial, "", "[vars]", name + "=" + value]
  {
    hide Hex, Clean, CText, NameValue;
    var cfg := Config(flags, debug, serial, map[name := value]);
    var h := "0x" + Hex(flags, 8);
    KeywordsClean();
    CleanHex(flags);
    CleanLine("flags", h);
    CleanLine("debugFile", debug);
    CleanLine("serialFile", serial);
    CleanLine(name, value);
    CleanIsSome(debug, serial, name, value);
    assert [name][1..] == [] && VarLines([name], cfg.vars) == [NameValue(name, value)];
  }

  /** The text is its lines, each with a line end. */
  lemma TextTold(line: string, lines: seq<string>)
    ensures Text([]) == "" && Text([line] + lines) == line + "\n" + Text(lines)
  {
    assert ([line] + lines)[1..] == lines;
  }

  lemma CleanIsSome(a: string, b: string, c: string, d: string)
    requires Clean(a) && Clean(b) && Clean(c) && Clean(d)
    ensures a != "" && b != "" && c != "" && d != ""
  {
  }

  lemma CleanHex(flags: nat)
    ensures Clean("0x" + Hex(flags, 8))
  {
    hide Hex;
  }

  /** Hexadecimal, octal and decimal numbers, as `%i` reads them. */
  lemma HexTold()
    ensures ScanInt("0x1f") == Some(31) && ScanInt("x") == None
  {
    UntilIs("1f", NotHex, 2);
    assert "0x1f"[2..] == "1f" && "0x1f"[2..4] == "1f";
    assert "1f"[..1] == "1" && "1"[..0] == "";
    assert Numeral("1", 16) == 1 && Numeral("1f", 16) == 31;
  }

  lemma OctalTold()
    ensures ScanInt("017") == Some(15)
  {
    UntilIs("017", NotOctal, 3);
    assert "017"[..3] == "017" && "017"[..2] == "01" && "01"[..1] == "0" && "0"[..0] == "";
    assert Numeral("0", 8) == 0 && Numeral("01", 8) == 1 && Numeral("017", 8) == 15;
  }

  lemma DecimalTold()
    ensures ScanInt("19") == Some(19) && ScanInt("-19") == Some(-19)
  {
    UntilIs("19", NotDigit, 2);
    assert "19"[..2] == "19" && "-19"[1..] == "19" && "19"[..1] == "1" && "1"[..0] == "";
    assert Numeral("1", 10) == 1 && Numeral("19", 10) == 19;
  }

  /** Blanks around name and value, a comment and a line end do not matter. */
  lemma LineTold()
    ensures LineOf(" a = b #c\n") == Assign("a", "b") && LineOf("[GENERIC]") == Header(Generic)
    ensures LineOf("[x]") == Header(Unknown) && LineOf("a b") == Nothing
  {
    hide Until, Content, AssignmentOf;
    ContentTold();
    AssignmentTold();
    PlainIsContent("[GENERIC]");
    PlainIsContent("[x]");
    assert "[GENERIC]"[..9] == "[GENERIC]";
  }

  lemma ContentTold()
    ensures Content(" a = b #c\n") == "a = b " && Content("a b") == "a b"
  {
    hide Until;
    UntilIs(" a = b #c\n", IsNul, 10);
    UntilIs(" a = b #c", IsHash, 7);
    UntilIs(" a = b ", NotSpace, 1);
    assert " a = b #c\n"[..10] == " a = b #c\n" && " a = b #c\n"[..9] == " a = b #c";
    assert " a = b #c"[..7] == " a = b " && " a = b "[1..] == "a = b ";
    UntilIs("a b", IsNul, 3);
    UntilIs("a b", IsHash, 3);
    UntilIs("a b", NotSpace, 0);
    assert "a b"[..3] == "a b" && "a b"[0..] == "a b";
  }

  lemma AssignmentTold()
    ensures AssignmentOf("a = b ") == Assign("a", "b") && AssignmentOf("a b") == Nothing
  {
    hide Until;
    UntilIs("a = b ", EndsName, 1);
    UntilIs(" = b ", NotSpace, 1);
    UntilIs(" b ", NotSpace, 1);
    UntilIs("b ", IsSpace, 1);
    assert "a = b "[..1] == "a" && "a = b "[1..] == " = b " && " = b "[1..] == "= b " && "= b "[1..] == " b ";
    assert " b "[1..] == "b " && "b "[..1] == "b";
    UntilIs("a b", EndsName, 1);
    UntilIs(" b", NotSpace, 1);
    assert "a b"[1..] == " b" && " b"[1..] == "b";
  }

  // ----- what can be read at all -----

  /** A name and a value as a line of at most 255 characters can give them. */
  predicate Readable(name: string, value: string) {
    (name == "" || CleanName(name)) && Clean(value) && |name| + 1 + |value| <= 255
  }

  lemma TrimmedFacts(lbuf: string)
    ensures var t := Trimmed(lbuf); |t| <= |lbuf| && forall i :: 0 <= i < |t| ==> t[i] != '\0'
  {
    hide Until;
    forall i | 0 <= i < |Trimmed(lbuf)| ensures Trimmed(lbuf)[i] != '\0' {
      assert Trimmed(lbuf)[i] == lbuf[i] && !IsNul(lbuf[i]);
    }
  }

  lemma StrippedFacts(t: string)
    requires forall i :: 0 <= i < |t| ==> t[i] != '\0'
    ensures var s := Stripped(t);
      |s| <= |t| && (s != "" ==> !IsSpace(s[0])) && forall i :: 0 <= i < |s| ==> s[i] != '\0' && s[i] != '#'
  {
    hide Until;
    var u := t[..Until(t, IsHash)];
    var k := Until(u, NotSpace);
    forall i | 0 <= i < |Stripped(t)| ensures Stripped(t)[i] != '\0' && Stripped(t)[i] != '#' {
      assert Stripped(t)[i] == t[k + i] && !IsHash(t[k + i]);
    }
  }

  /** What is left of a line has neither NUL nor comment, starts with a non-blank and is no longer than the line. */
  lemma ContentFacts(lbuf: string)
    ensures var s := Content(lbuf);
      && |s| <= |lbuf| && (s != "" ==> !IsSpace(s[0]))
      && forall i :: 0 <= i < |s| ==> s[i] != '\0' && s[i] != '#'
  {
    hide Trimmed, Stripped;
    TrimmedFacts(lbuf);
    StrippedFacts(Trimmed(lbuf));
  }

  lemma ValueFacts(name: string, s: string)
    requires forall i :: 0 <= i < |s| ==> s[i] != '\0' && s[i] != '#'
    ensures var l := ValueOf(name, s); l.Assign? ==> l.name == name && Clean(l.value) && |l.value| <= |s|
  {
    hide Until;
    var v := s[Until(s, NotSpace)..];
    if v != "" {
      var w := v[..Until(v, IsSpace)];
      assert forall i :: 0 <= i < |v| ==> v[i] == s[Until(s, NotSpace) + i];
      assert forall i :: 0 <= i < |w| ==> w[i] == v[i] && !IsSpace(v[i]);
    }
  }

  /** Every assignment that a line can give is readable. */
  lemma LineFacts(lbuf: string)
    requires |lbuf| <= 255
    ensures var l := LineOf(lbuf); l.Assign? ==> Readable(l.name, l.value)
  {
    hide Content, Until, ValueOf, Clean;
    ContentFacts(lbuf);
    var s := Content(lbuf);
    if s != "" && s[0] != '[' {
      var n := Until(s, EndsName);
      var rest := s[n..];
      var k := Until(rest, NotSpace);
      var eq := rest[k..];
      if eq != "" && eq[0] == '=' {
        assert forall i :: 0 <= i < |eq[1..]| ==> eq[1..][i] == s[n + k + 1 + i];
        ValueFacts(s[..n], eq[1..]);
        NameFacts(s, n);
      }
    }
  }

  lemma NameFacts(s: string, n: nat)
    requires n <= |s| && s != "" && s[0] != '[' && forall i :: 0 <= i < |s| ==> s[i] != '\0' && s[i] != '#'
    requires forall i :: 0 <= i < n ==> !EndsName(s[i])
    ensures s[..n] == "" || CleanName(s[..n])
  {
  }

  predicate ReadableFile(s: string) { s == "" || Clean(s) }

  /** Nothing in the configuration that a file could not hold. */
  predicate AllReadable(cfg: Config) {
    && ReadableFile(cfg.debugFile) && ReadableFile(cfg.serialFile)
    && forall k :: k in cfg.vars ==> Readable(k, cfg.vars[k])
  }

  const MAX_DEBUG_FILE := 245
  const MAX_SERIAL_FILE := 244

  /** The file names singled out fit a line. */
  predicate Bounded(cfg: Config, debug: bool, serial: bool) {
    (debug ==> |cfg.debugFile| <= MAX_DEBUG_FILE) && (serial ==> |cfg.serialFile| <= MAX_SERIAL_FILE)
  }

  lemma ApplyKeeps(l: Line, group: Group, cfg: Config, debug: bool, serial: bool)
    requires l.Assign? ==> Readable(l.name, l.value)
    ensures var r := Apply(l, group, cfg).1;
      (AllReadable(cfg) ==> AllReadable(r)) && (Bounded(cfg, debug, serial) ==> Bounded(r, debug, serial))
  {
    hide ScanInt, Clean, CleanName;
  }

  /** Whatever the text, what is read from it is readable, and file names that fitted still fit. */
  lemma {:induction false} ReadKeeps(text: string, group: Group, cfg: Config, debug: bool, serial: bool)
    ensures var r := ReadFrom(text, group, cfg);
      (AllReadable(cfg) ==> AllReadable(r)) && (Bounded(cfg, debug, serial) ==> Bounded(r, debug, serial))
    decreases |text|
  {
    hide LineOf, Apply, AllReadable, Bounded, Readable;
    if text != "" {
      var n := ChunkSize(text);
      var l := LineOf(text[..n]);
      var next := Apply(l, group, cfg);
      LineFacts(text[..n]);
      ApplyKeeps(l, group, cfg, debug, serial);
      ReadKeeps(text[n..], next.0, next.1, debug, serial);
    }
  }

  lemma {:induction false} TextConcat(a: seq<string>, b: seq<string>)
    ensures Text(a + b) == Text(a) + Text(b)
  {
    if a == [] {
      assert a + b == b && "" + Text(b) == Text(b);
    } else {
      TextConcat(a[1..], b);
      assert (a + b)[1..] == a[1..] + b;
      assert a[0] + "\n" + (Text(a[1..]) + Text(b)) == a[0] + "\n" + Text(a[1..]) + Text(b);
    }
  }

  /** Lines that fit, and any text behind them. */
  lemma {:induction false} PrefixRead(lines: seq<string>, rest: string, group: Group, cfg: Config)
    requires forall l :: l in lines ==> Short(l)
    ensures var mid := ReadLines(lines, group, cfg);
      ReadFrom(Text(lines) + rest, group, cfg) == ReadFrom(rest, mid.0, mid.1)
    decreases |lines|
  {
    hide LineOf, Apply, ReadFrom, Short;
    if lines == [] {
      assert Text(lines) + rest == rest;
    } else {
      var more := Text(lines[1..]) + rest;
      assert Text(lines) + rest == lines[0] + "\n" + more;
      ReadOneLine(lines[0], more, group, cfg);
      var next := Apply(LineOf(lines[0] + "\n"), group, cfg);
      PrefixRead(lines[1..], rest, next.0, next.1);
    }
  }

  /** A file name too long for its line is cut, and no later line can bring it back. */
  lemma LongFileLost(name: string, file: string, rest: string, cfg: Config)
    requires Clean(file) && |NameValue(name, file)| > 255 && (name == "debugFile" || name == "serialFile")
    ensures Bounded(ReadFrom(NameValue(name, file) + "\n" + rest, Generic, cfg),
                    name == "debugFile", name == "serialFile")
  {
    hide LineOf, Assigned, CText, NameValue, Clean, CleanName;
    KeywordsClean();
    var text, k := NameValue(name, file) + "\n" + rest, 255 - 1 - |name|;
    CleanLine(name, file) by { NameIsClean(name); }
    var kept := file[..k];
    CleanPrefix(file, k);
    CleanLine(name, kept) by { NameIsClean(name); }
    var line := NameValue(name, kept);
    assert text[..255] == line && |line| == 255;
    assert ChunkSize(text) == 255 by { LongChunk(text, line, name, kept); }
    AssignmentRead(name, kept);
    LineIsShort(name, kept);
    PlainLine(line) by { PlainNameValue(name, kept); }
    Keywords(kept, cfg);
    var next := Apply(LineOf(line), Generic, cfg);
    ReadKeeps(text[255..], next.0, next.1, name == "debugFile", name == "serialFile");
  }

  lemma NameIsClean(name: string)
    requires CleanName(name)
    ensures Clean(name)
  {
  }

  lemma CleanPrefix(s: string, k: nat)
    requires Clean(s) && 0 < k <= |s|
    ensures Clean(s[..k])
  {
  }

  lemma PlainNameValue(name: string, value: string)
    requires CleanName(name) && Clean(value)
    ensures Plain(NameValue(name, value)) && NameValue(name, value) != ""
  {
    hide NameValue;
    CleanLine(name, value);
  }

  lemma LongChunk(text: string, line: string, name: string, value: string)
    requires |text| > 255 && text[..255] == line == NameValue(name, value) && CleanName(name) && Clean(value)
    ensures ChunkSize(text) == 255
  {
    hide NameValue, Clean, CleanName;
    PlainNameValue(name, value);
    var n := Until(text, IsNewline);
    assert forall i :: 0 <= i < 255 ==> text[i] == line[i];
  }

  /** A configuration that comes back whole could be written: every printed line is clean and fits. */
  lemma RestoredIsStorable(cfg: Config, order: seq<string>, base: Config)
    requires cfg.flags < 0x1_0000_0000 && Enumerates(order, cfg.vars) && base.vars == map[]
    requires ReadableFile(base.debugFile) && ReadableFile(base.serialFile)
    requires ReadFrom(Text(Lines(cfg, order)), Generic, base) == cfg
    ensures Storable(cfg)
  {
    hide ReadFrom, Text, Lines, NameValue, Clean, CleanName, Short;
    var text := Text(Lines(cfg, order));
    assert AllReadable(base);
    ReadKeeps(text, Generic, base, false, false);
    FilesFit(cfg, order, base);
    forall k | k in cfg.vars && k != "" && cfg.vars[k] != ""
      ensures CleanName(k) && Clean(cfg.vars[k]) && |NameValue(k, cfg.vars[k])| <= 255
    {
      assert Readable(k, cfg.vars[k]);
      CleanLine(k, cfg.vars[k]) by { NameIsClean(k); }
    }
  }

  /** The lines in front of the file names. */
  function FirstLines(cfg: Config): seq<string> { [COMMENT, NameValue("flags", "0x" + Hex(cfg.flags, 8))] }

  function FileLine(name: string, file: string): seq<string> { if file != "" then [NameValue(name, file)] else [] }

  lemma FirstRead(cfg: Config, base: Config)
    requires cfg.flags < 0x1_0000_0000
    ensures ReadLines(FirstLines(cfg), Generic, base) == (Generic, base.(flags := cfg.flags))
    ensures forall l :: l in FirstLines(cfg) ==> Short(l)
  {
    hide Short, NameValue, ReadLines, Clean;
    var bare := Config(cfg.flags, "", "", map[]);
    assert FileLines(bare) == FirstLines(cfg);
    GenericRead(bare, base);
  }

  /** Neither file name can be longer than its line allows. */
  lemma FilesFit(cfg: Config, order: seq<string>, base: Config)
    requires cfg.flags < 0x1_0000_0000 && Enumerates(order, cfg.vars)
    requires ReadFrom(Text(Lines(cfg, order)), Generic, base) == cfg && AllReadable(cfg)
    ensures cfg.debugFile != "" ==> |NameValue("debugFile", cfg.debugFile)| <= 255
    ensures cfg.serialFile != "" ==> |NameValue("serialFile", cfg.serialFile)| <= 255
  {
    hide ReadFrom, Text, NameValue, Clean, CleanName, Short, ReadLines, VarLines, Hex;
    var first := FirstLines(cfg);
    var debug, serial := FileLine("debugFile", cfg.debugFile), FileLine("serialFile", cfg.serialFile);
    var rest := if cfg.vars == map[] then [] else ["", "[vars]"] + VarLines(order, cfg.vars);
    var c1 := base.(flags := cfg.flags);
    assert Lines(cfg, order) == first + (debug + (serial + rest));
    TextConcat(first, debug + (serial + rest));
    FirstRead(cfg, base);
    PrefixRead(first, Text(debug + (serial + rest)), Generic, base);
    if cfg.debugFile != "" && |NameValue("debugFile", cfg.debugFile)| > 255 {
      FileFirst("debugFile", cfg.debugFile, serial + rest);
      LongFileLost("debugFile", cfg.debugFile, Text(serial + rest), c1);
      NameLength("debugFile", cfg.debugFile);
      assert false;
    }
    TextConcat(debug, serial + rest);
    FileRead("debugFile", cfg.debugFile, c1);
    PrefixRead(debug, Text(serial + rest), Generic, c1);
    if cfg.serialFile != "" && |NameValue("serialFile", cfg.serialFile)| > 255 {
      FileFirst("serialFile", cfg.serialFile, rest);
      LongFileLost("serialFile", cfg.serialFile, Text(rest), ReadLines(debug, Generic, c1).1);
      NameLength("serialFile", cfg.serialFile);
      assert false;
    }
  }

  lemma NameLength(name: string, file: string)
    requires Clean(file) && (name == "debugFile" || name == "serialFile")
    ensures |NameValue(name, file)| == |name| + 1 + |file|
  {
    hide NameValue, CText;
    KeywordsClean();
    CleanLine(name, file);
  }

  lemma FileFirst(name: string, file: string, rest: seq<string>)
    requires file != ""
    ensures Text(FileLine(name, file) + rest) == NameValue(name, file) + "\n" + Text(rest)
  {
    hide NameValue;
    assert ([NameValue(name, file)] + rest)[1..] == rest;
  }

  /** Every name and value is clean and every line of the file has at most 255 characters. */
  predicate Restorable(cfg: Config) {
    Storable(cfg) && forall k :: k in cfg.vars ==> k != "" && cfg.vars[k] != ""
  }

  /**
   Headline: started without variables and with file names that a file could hold, the configuration comes back
   whole exactly when every name and value is clean, every line has at most 255 characters, and an empty file name
   was empty beforehand too.
   */
  lemma RestoredExactly(cfg: Config, order: seq<string>, base: Config)
    requires cfg.flags < 0x1_0000_0000 && Enumerates(order, cfg.vars) && base.vars == map[]
    requires ReadableFile(base.debugFile) && ReadableFile(base.serialFile)
    ensures ReadFrom(Text(Lines(cfg, order)), Generic, base) == cfg <==>
      && Restorable(cfg)
      && (cfg.debugFile == "" ==> base.debugFile == "") && (cfg.serialFile == "" ==> base.serialFile == "")
  {
    hide ReadFrom, Text, Lines, CleanName, Clean, NameValue;
    var back := ReadFrom(Text(Lines(cfg, order)), Generic, base);
    if back == cfg { RestoredIsStorable(cfg, order, base); }
    if back == cfg || Restorable(cfg) {
      RoundTrip(cfg, order, base);
      var kept := Printed(order, cfg.vars) + base.vars;
      if Restorable(cfg) { assert kept == cfg.vars; }
      if back == cfg {
        forall k | k in cfg.vars ensures k != "" && cfg.vars[k] != "" { assert k in kept; }
      }
    }
  }

  const DEFAULT_DEBUG_FILE := "/tmp/cj.log"

  /** Switching the debug file off is not remembered: the default of a fresh start returns. */
  lemma NoDebugFileForgotten(flags: nat)
    requires flags < 0x1_0000_0000
    ensures var off := Config(flags, "", "", map[]);
      ReadFrom(Text(Lines(off, [])), Generic, off.(debugFile := DEFAULT_DEBUG_FILE)).debugFile == DEFAULT_DEBUG_FILE
  {
    hide ReadFrom, Text, Lines;
    var off := Config(flags, "", "", map[]);
    RoundTrip(off, [], off.(debugFile := DEFAULT_DEBUG_FILE));
  }

  lemma HeadRead(cfg: Config)
    ensures ReadLines(["", "[vars]"], Generic, cfg) == (Vars, cfg)
    ensures Short("") && Short("[vars]")
  {
    hide LineOf, ReadLines;
    EmptyLineRead();
    VarsHeaderRead();
    OneLine("", Generic, cfg);
    OneLine("[vars]", Generic, cfg);
    ReadLinesConcat([""], ["[vars]"], Generic, cfg);
    assert [""] + ["[vars]"] == ["", "[vars]"];
  }

  // ----- the reader and the printer as loops -----

  /** A pointer moves on to the next character that satisfies `stop`, or to the end. */
  method Skip(s: string, from: nat, stop: char -> bool) returns (p: nat)
    requires from <= |s|
    ensures p == from + Until(s[from..], stop)
  {
    p := from;
    while p < |s| && !stop(s[p])
      invariant from <= p <= |s| && forall i :: from <= i < p ==> !stop(s[i])
    {
      p := p + 1;
    }
    UntilIs(s[from..], stop, p - from);
  }

  method ParseLine(lbuf: string) returns (l: Line)
    ensures l == LineOf(lbuf)
  {
    hide Until, GroupOf;
    var end := Skip(lbuf, 0, IsNul);
    assert lbuf[0..] == lbuf;
    var s := lbuf[..end];
    if s == "" { return Nothing; }
    if s[end - 1] == '\n' || s[end - 1] == '\r' { s := s[..end - 1]; }
    var hash := Skip(s, 0, IsHash);
    assert s[0..] == s;
    s := s[..hash];
    var p := Skip(s, 0, NotSpace);
    assert s[0..] == s;
    s := s[p..];
    assert s == Content(lbuf);
    if s == "" { return Nothing; }
    if s[0] == '[' { return Header(GroupOf(s)); }
    l := ParseAssignment(s);
  }

  method ParseAssignment(s: string) returns (l: Line)
    ensures l == AssignmentOf(s)
  {
    hide Until, ValueOf;
    assert s[0..] == s;
    var n := Skip(s, 0, EndsName);
    var p := Skip(s, n, NotSpace);
    assert s[n..][p - n..] == s[p..];
    if p == |s| || s[p] != '=' { return Nothing; }
    assert s[p..][1..] == s[p + 1..];
    l := ParseValue(s[..n], s, p + 1);
  }

  method ParseValue(name: string, s: string, from: nat) returns (l: Line)
    requires from <= |s|
    ensures l == ValueOf(name, s[from..])
  {
    hide Until;
    var p := Skip(s, from, NotSpace);
    assert s[from..][p - from..] == s[p..];
    if p == |s| { return Nothing; }
    var end := Skip(s, p, IsSpace);
    assert s[p..][..end - p] == s[p..end];
    return Assign(name, s[p..end]);
  }

  method ReadConfig(text: string, base: Config) returns (cfg: Config)
    ensures cfg == ReadFrom(text, Generic, base)
  {
    hide LineOf, Apply, ReadFrom, ChunkSize;
    var group, pos := Generic, 0;
    cfg := base;
    assert text[0..] == text;
    while pos < |text|
      invariant 0 <= pos <= |text| && ReadFrom(text, Generic, base) == ReadFrom(text[pos..], group, cfg)
    {
      var rest := text[pos..];
      var n := ChunkSize(rest);
      var l := ParseLine(rest[..n]);
      ReadStep(rest, group, cfg);
      var next := Apply(l, group, cfg);
      group, cfg := next.0, next.1;
      assert rest[n..] == text[pos + n..];
      pos := pos + n;
    }
    assert text[pos..] == "";
    EmptyRead(group, cfg);
  }

  lemma ReadStep(text: string, group: Group, cfg: Config)
    requires text != ""
    ensures var n := ChunkSize(text);
      var next := Apply(LineOf(text[..n]), group, cfg);
      ReadFrom(text, group, cfg) == ReadFrom(text[n..], next.0, next.1)
  {
    hide LineOf, Apply, ChunkSize;
  }

  method WriteConfig(cfg: Config, order: seq<string>) returns (text: string)
    requires Enumerates(order, cfg.vars)
    ensures text == Text(Lines(cfg, order))
  {
    hide FileLines, VarLines, Text;
    var lines := FileLines(cfg);
    ghost var file := lines;
    if cfg.vars != map[] {
      var vars := PrintVars(order, cfg.vars);
      lines := lines + ["", "[vars]"] + vars;
      assert lines == file + (["", "[vars]"] + vars);
    } else {
      assert lines == file + [];
    }
    text := Print(lines);
  }

  function VarLine(k: string, v: string): seq<string> { if k != "" && v != "" then [NameValue(k, v)] else [] }

  lemma VarLinesAt(order: seq<string>, vars: map<string, string>, i: nat)
    requires i < |order| && forall k :: k in order ==> k in vars
    ensures VarLines(order[i..], vars) == VarLine(order[i], vars[order[i]]) + VarLines(order[i + 1..], vars)
  {
    hide NameValue;
    assert order[i..][0] == order[i] && order[i..][1..] == order[i + 1..];
  }

  method PrintVars(order: seq<string>, vars: map<string, string>) returns (lines: seq<string>)
    requires forall k :: k in order ==> k in vars
    ensures lines == VarLines(order, vars)
  {
    hide NameValue, VarLines;
    lines := [];
    var i := 0;
    assert order[0..] == order;
    while i < |order|
      invariant 0 <= i <= |order| && lines + VarLines(order[i..], vars) == VarLines(order, vars)
    {
      var k := order[i];
      ghost var rest := VarLines(order[i + 1..], vars);
      VarLinesAt(order, vars, i);
      assert lines + (VarLine(k, vars[k]) + rest) == lines + VarLine(k, vars[k]) + rest;
      if k != "" && vars[k] != "" { lines := lines + [NameValue(k, vars[k])]; }
      i := i + 1;
    }
    assert order[i..] == [] && VarLines([], vars) == [] by { NoVarLines(vars); }
  }

  lemma NoVarLines(vars: map<string, string>)
    ensures VarLines([], vars) == []
  {
  }

  method Print(lines: seq<string>) returns (text: string)
    ensures text == Text(lines)
  {
    text := "";
    var i := |lines|;
    while i > 0
      invariant 0 <= i <= |lines| && text == Text(lines[i..])
    {
      i := i - 1;
      assert lines[i..][1..] == lines[i + 1..];
      text := lines[i] + "\n" + text;
    }
    assert lines[0..] == lines;
  }
}
