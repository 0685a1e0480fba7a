/**
 * src/modules/config_parse.py: a `configparser.ConfigParser` whose option
 * names are lower-cased, loaded from the first config file that reads, and
 * typed lookups that fall back to a default on any failure.
 *
 * The parser's contents are modelled after a file's syntax has been parsed:
 * a file is the sequence of its section headers with their options, as the
 * file lists them.
 */
module ConfigParse {
  import opened Common
  import opened Text

  /** The name configparser gives its section of defaults. */
  const DefaultSection: string := "DEFAULT"

  /** A parser's contents: the DEFAULT section's options, and every other
      section's options, keys already passed through `optionxform`. */
  datatype Parser = Parser(defaults: map<string, string>, sections: map<string, map<string, string>>)

  /** One `[name]` header of a config file and the options below it, in file order. */
  datatype SectionText = SectionText(name: string, options: seq<(string, string)>)

  /** What an existing path holds: a file that parses; one that cannot be
      opened, which `read` skips without raising; or one with a syntax error,
      which configparser reads to the end before raising ParsingError, so
      that `good`, its well-formed headers and options, are still stored. */
  datatype ConfigFile = Readable(body: seq<SectionText>) | Unopenable | Unparsable(good: seq<SectionText>)

  datatype ReadError = DuplicateSection(section: string) | DuplicateOption(section: string, option: string) | ParsingError

  /** The parser after a read, and the exception the read raised, if any:
      configparser fills the parser in place, so what it stored before
      raising stays. */
  datatype ReadResult = ReadResult(parser: Parser, error: Option<ReadError>)

  /** Part way through a file: the parser, the (section, option) pairs this
      file has set so far, and the exception that stopped the read, if any. */
  datatype Progress = Progress(parser: Parser, added: set<(string, string)>, error: Option<ReadError>)

  datatype LookupError = NoSection(section: string) | NoOption(section: string, option: string)

  /** `optionxform = str.lower`. */
  function OptionXform(option: string): (r: string)
    ensures r == LowerStr(option)
    ensures |r| == |option|
    ensures forall i :: 0 <= i < |r| ==> r[i] == Lower(option[i]) && !('A' <= r[i] <= 'Z')
  {
    LowerStr(option)
  }

  /** `create_config_parser()`: a parser holding nothing yet. */
  function CreateConfigParser(): (r: Parser)
    ensures r.defaults == map[] && r.sections == map[]
  {
    Parser(map[], map[])
  }

  // ---------------------------------------------------------------------
  // Reading a file

  /** The header `[name]`: DEFAULT and a section already known reuse their
      dictionary; any other name starts an empty one. */
  function OpenSection(p: Parser, name: string): (r: Parser)
    ensures r.defaults == p.defaults
    ensures r.sections.Keys == if name == DefaultSection then p.sections.Keys else p.sections.Keys + {name}
    ensures forall s :: s in p.sections ==> r.sections[s] == p.sections[s]
  {
    if name == DefaultSection || name in p.sections then p
    else p.(sections := p.sections[name := map[]])
  }

  /** Store one option under an open section. */
  function AddOption(p: Parser, name: string, key: string, value: string): (r: Parser)
    requires name == DefaultSection || name in p.sections
    ensures r.sections.Keys == p.sections.Keys
  {
    if name == DefaultSection then p.(defaults := p.defaults[key := value])
    else p.(sections := p.sections[name := p.sections[name][key := value]])
  }

  /** The options under one header. Setting a (section, option) pair this
      file has already set raises DuplicateOptionError; the options before it
      stay stored. */
  function ReadOptions(p: Parser, name: string, options: seq<(string, string)>, added: set<(string, string)>): (r: Progress)
    requires name == DefaultSection || name in p.sections
    ensures r.parser.sections.Keys == p.sections.Keys
    ensures added <= r.added
    ensures r.error.Some? ==> r.error.value.DuplicateOption?
    decreases |options|
  {
    if options == [] then Progress(p, added, None)
    else
      var key := OptionXform(options[0].0);
      if (name, key) in added then Progress(p, added, Some(DuplicateOption(name, key)))
      else ReadOptions(AddOption(p, name, key, options[0].1), name, options[1..], added + {(name, key)})
  }

  /** The headers of one file. Opening a section this file has already opened
      raises DuplicateSectionError; DEFAULT may be opened any number of
      times. `sections` and `added` are what this file has opened and set. */
  function ReadBody(p: Parser, body: seq<SectionText>, sections: set<string>, added: set<(string, string)>): (r: ReadResult)
    ensures p.sections.Keys <= r.parser.sections.Keys
    decreases |body|
  {
    if body == [] then ReadResult(p, None)
    else
      var name := body[0].name;
      if name != DefaultSection && name in sections then ReadResult(p, Some(DuplicateSection(name)))
      else
        var o := ReadOptions(OpenSection(p, name), name, body[0].options, added);
        if o.error.Some? then ReadResult(o.parser, o.error)
        else ReadBody(o.parser, body[1..], sections + {name}, o.added)
  }

  /** `parser.read(path)` of an existing path: an unopenable file is skipped
      silently; a repeated header or option raises at once; a syntax error
      raises once the rest of the file has been read. */
  function AfterRead(p: Parser, f: ConfigFile): (r: ReadResult)
    ensures f.Unopenable? ==> r == ReadResult(p, None)
    ensures f.Unparsable? ==> r.error.Some?
    ensures p.sections.Keys <= r.parser.sections.Keys
  {
    match f
    case Unopenable => ReadResult(p, None)
    case Readable(body) => ReadBody(p, body, {}, {})
    case Unparsable(good) =>
      var r := ReadBody(p, good, {}, {});
      if r.error.Some? then r else ReadResult(r.parser, Some(ParsingError))
  }

  /** A read as its caller sees it when the exception escapes: the parser,
      or the exception. */
  function Escaping(r: ReadResult): (e: Result<Parser, ReadError>)
    ensures e.Ok? <==> r.error.None?
    ensures e.Ok? ==> e.value == r.parser
    ensures e.Err? ==> e.error == r.error.value
  {
    if r.error.Some? then Err(r.error.value) else Ok(r.parser)
  }

  /** The parser object that `read` fills in place. */
  class ConfigParser {
    var state: Parser

    /** `create_config_parser()`. */
    constructor ()
      ensures state == CreateConfigParser()
    {
      state := CreateConfigParser();
    }

    /** `read(path)`; `raised` tells whether it raised. What the read
        stored before raising stays in the parser. */
    method Read(f: ConfigFile) returns (raised: bool)
      modifies this
      ensures raised <==> AfterRead(old(state), f).error.Some?
      ensures state == AfterRead(old(state), f).parser
    {
      var r := AfterRead(state, f);
      raised := r.error.Some?;
      state := r.parser;
    }
  }

  // ---------------------------------------------------------------------
  // Loading

  /** The default search list of `load_config`, most preferred first. */
  const DefaultPaths: seq<string> := ["config_hidden.cfg", "config.cfg"]

  /** The search of `load_config` over `paths` (`fs` maps the existing
      paths to their contents), filling one parser: the first existing path
      whose read does not raise ends it; a read that raises is passed over,
      but what it stored stays in the parser. */
  function LoadFrom(p: Parser, paths: seq<string>, fs: map<string, ConfigFile>): Parser
    decreases |paths|
  {
    if paths == [] then p
    else if paths[0] in fs then
      var r := AfterRead(p, fs[paths[0]]);
      if r.error.None? then r.parser else LoadFrom(r.parser, paths[1..], fs)
    else LoadFrom(p, paths[1..], fs)
  }

  /** `load_config(config_paths)`. */
  method LoadConfig(configPaths: Option<seq<string>>, fs: map<string, ConfigFile>) returns (parser: ConfigParser)
    ensures fresh(parser)
    ensures parser.state == LoadFrom(CreateConfigParser(), if configPaths.None? then DefaultPaths else configPaths.value, fs)
  {
    var paths := if configPaths.None? then DefaultPaths else configPaths.value;
    parser := new ConfigParser();
    var i := 0;
    while i < |paths|
      invariant 0 <= i <= |paths|
      invariant LoadFrom(CreateConfigParser(), paths, fs) == LoadFrom(parser.state, paths[i..], fs)
    {
      var path := paths[i];
      assert paths[i..][1..] == paths[i + 1..];
      if path in fs {
        var raised := parser.Read(fs[path]);
        if !raised {
          return;
        }
      }
      i := i + 1;
    }
  }

  /** The first existing path provides the configuration when its read does
      not raise; later paths are never read. */
  lemma {:induction false} LoadFromFirst(p: Parser, paths: seq<string>, fs: map<string, ConfigFile>, i: nat)
    requires i < |paths| && paths[i] in fs && AfterRead(p, fs[paths[i]]).error.None?
    requires forall j :: 0 <= j < i ==> paths[j] !in fs
    ensures LoadFrom(p, paths, fs) == AfterRead(p, fs[paths[i]]).parser
    decreases i
  {
    if i > 0 {
      LoadFromFirst(p, paths[1..], fs, i - 1);
    }
  }

  /** When no path exists, the parser is left as it was. */
  lemma {:induction false} LoadFromNothing(p: Parser, paths: seq<string>, fs: map<string, ConfigFile>)
    requires forall j :: 0 <= j < |paths| ==> paths[j] !in fs
    ensures LoadFrom(p, paths, fs) == p
    decreases |paths|
  {
    if paths != [] {
      LoadFromNothing(p, paths[1..], fs);
    }
  }

  /** The search never drops a section: one stored by a read that raised is
      still there when a later read succeeds or the search runs out. */
  lemma {:induction false} LoadFromKeeps(p: Parser, paths: seq<string>, fs: map<string, ConfigFile>)
    ensures p.sections.Keys <= LoadFrom(p, paths, fs).sections.Keys
    decreases |paths|
  {
    if paths != [] {
      if paths[0] in fs {
        var r := AfterRead(p, fs[paths[0]]);
        if r.error.Some? {
          LoadFromKeeps(r.parser, paths[1..], fs);
        }
      } else {
        LoadFromKeeps(p, paths[1..], fs);
      }
    }
  }

  /** A file with a syntax error still stores its first well-formed section,
      although the read raises. */
  lemma UnparsableKeepsFirst(p: Parser, good: seq<SectionText>)
    requires good != [] && good[0].name != DefaultSection
    ensures AfterRead(p, Unparsable(good)).error.Some?
    ensures good[0].name in AfterRead(p, Unparsable(good)).parser.sections
  {
    var name := good[0].name;
    var o := ReadOptions(OpenSection(p, name), name, good[0].options, {});
    if o.error.None? {
      assert name in o.parser.sections;
    }
  }

  /** An existing `config_hidden.cfg` that cannot be opened still ends the
      search: `read` does not raise for it, so `config.cfg` is never read. */
  lemma HiddenUnopenable(fs: map<string, ConfigFile>)
    requires "config_hidden.cfg" in fs && fs["config_hidden.cfg"] == Unopenable
    ensures LoadFrom(CreateConfigParser(), DefaultPaths, fs) == CreateConfigParser()
  {
    assert DefaultPaths[0] == "config_hidden.cfg";
  }

  // ---------------------------------------------------------------------
  // Lookup

  /** `parser.get(section, option)` without interpolation. */
  function Get(p: Parser, section: string, option: string): (r: Result<string, LookupError>)
    ensures r.Err? && r.error.NoSection? <==> section !in p.sections && section != DefaultSection
  {
    var key := OptionXform(option);
    if section !in p.sections && section != DefaultSection then Err(NoSection(section))
    else if section in p.sections && key in p.sections[section] then Ok(p.sections[section][key])
    else if key in p.defaults then Ok(p.defaults[key])
    else Err(NoOption(section, key))
  }

  lemma LowerStrIdempotent(s: string)
    ensures LowerStr(LowerStr(s)) == LowerStr(s)
  {
    forall i | 0 <= i < |s| ensures Lower(Lower(s[i])) == Lower(s[i]) {
      CaseKeeps(s[i]);
    }
  }

  /** Option lookup ignores the case of the option name. */
  lemma GetIgnoresCase(p: Parser, section: string, option: string)
    ensures Get(p, section, option) == Get(p, section, OptionXform(option))
  {
    LowerStrIdempotent(option);
  }

  /** After a header's options read without a duplicate, each of them is
      found under its lowered name with the value the file gives it. */
  lemma {:induction false} ReadOptionsStores(p: Parser, name: string, options: seq<(string, string)>, added: set<(string, string)>, i: nat)
    requires name != DefaultSection && name in p.sections
    requires i < |options| && ReadOptions(p, name, options, added).error.None?
    ensures var q := ReadOptions(p, name, options, added).parser;
      OptionXform(options[i].0) in q.sections[name] && q.sections[name][OptionXform(options[i].0)] == options[i].1
    decreases |options|
  {
    var key := OptionXform(options[0].0);
    var p' := AddOption(p, name, key, options[0].1);
    if i == 0 {
      ReadOptionsKeeps(p', name, options[1..], added + {(name, key)}, key);
    } else {
      ReadOptionsStores(p', name, options[1..], added + {(name, key)}, i - 1);
    }
  }

  /** An option key already set is never overwritten by a read that succeeds. */
  lemma {:induction false} ReadOptionsKeeps(p: Parser, name: string, options: seq<(string, string)>, added: set<(string, string)>, key: string)
    requires name != DefaultSection && name in p.sections
    requires (name, key) in added && key in p.sections[name] && ReadOptions(p, name, options, added).error.None?
    ensures var q := ReadOptions(p, name, options, added).parser;
      key in q.sections[name] && q.sections[name][key] == p.sections[name][key]
    decreases |options|
  {
    if options != [] {
      var k := OptionXform(options[0].0);
      ReadOptionsKeeps(AddOption(p, name, k, options[0].1), name, options[1..], added + {(name, k)}, key);
    }
  }

  /** Two spellings of one option under the same header that differ only in
      case make the read raise. */
  lemma {:induction false} CaseCollisionRaises(p: Parser, name: string, options: seq<(string, string)>, added: set<(string, string)>, i: nat, j: nat)
    requires name == DefaultSection || name in p.sections
    requires i < j < |options| && OptionXform(options[i].0) == OptionXform(options[j].0)
    ensures ReadOptions(p, name, options, added).error.Some?
    decreases |options|
  {
    var key := OptionXform(options[0].0);
    if (name, key) !in added {
      var p' := AddOption(p, name, key, options[0].1);
      if i == 0 {
        SeenRaises(p', name, options[1..], added + {(name, key)}, j - 1, key);
      } else {
        CaseCollisionRaises(p', name, options[1..], added + {(name, key)}, i - 1, j - 1);
      }
    }
  }

  /** An option the file has already set under this section makes the read raise. */
  lemma {:induction false} SeenRaises(p: Parser, name: string, options: seq<(string, string)>, added: set<(string, string)>, j: nat, key: string)
    requires name == DefaultSection || name in p.sections
    requires j < |options| && OptionXform(options[j].0) == key && (name, key) in added
    ensures ReadOptions(p, name, options, added).error.Some?
    decreases |options|
  {
    var k := OptionXform(options[0].0);
    if j > 0 && (name, k) !in added {
      SeenRaises(AddOption(p, name, k, options[0].1), name, options[1..], added + {(name, k)}, j - 1, key);
    }
  }

  /** Options whose lowered names are distinct and not yet set under this
      section read without raising, and the pairs they set are added. */
  lemma {:induction false} ReadOptionsDistinct(p: Parser, name: string, options: seq<(string, string)>, added: set<(string, string)>)
    requires name == DefaultSection || name in p.sections
    requires forall i, j :: 0 <= i < j < |options| ==> OptionXform(options[i].0) != OptionXform(options[j].0)
    requires forall i :: 0 <= i < |options| ==> (name, OptionXform(options[i].0)) !in added
    ensures var r := ReadOptions(p, name, options, added);
      r.error.None? && forall x :: x in r.added <==> x in added || exists i :: 0 <= i < |options| && x == (name, OptionXform(options[i].0))
    decreases |options|
  {
    if options != [] {
      var key := OptionXform(options[0].0);
      var rest := options[1..];
      forall i | 0 <= i < |rest| ensures (name, OptionXform(rest[i].0)) !in added + {(name, key)} {
        assert rest[i] == options[i + 1];
      }
      forall i, j | 0 <= i < j < |rest| ensures OptionXform(rest[i].0) != OptionXform(rest[j].0) {
        assert rest[i] == options[i + 1] && rest[j] == options[j + 1];
      }
      ReadOptionsDistinct(AddOption(p, name, key, options[0].1), name, rest, added + {(name, key)});
      var r := ReadOptions(p, name, options, added);
      forall x ensures x in r.added <==> x in added || exists i :: 0 <= i < |options| && x == (name, OptionXform(options[i].0)) {
        if exists i :: 0 <= i < |options| && x == (name, OptionXform(options[i].0)) {
          var i :| 0 <= i < |options| && x == (name, OptionXform(options[i].0));
          if i > 0 {
            assert rest[i - 1] == options[i];
          }
        }
        if exists i :: 0 <= i < |rest| && x == (name, OptionXform(rest[i].0)) {
          var i :| 0 <= i < |rest| && x == (name, OptionXform(rest[i].0));
          assert rest[i] == options[i + 1];
        }
      }
    }
  }

  /** Two DEFAULT headers in one file read without raising when no option
      name, lowered, occurs twice among them: DEFAULT is exempt from the
      duplicate-section rule. */
  lemma RepeatedDefault(p: Parser, a: seq<(string, string)>, b: seq<(string, string)>)
    requires forall i, j :: 0 <= i < j < |a + b| ==> OptionXform((a + b)[i].0) != OptionXform((a + b)[j].0)
    ensures AfterRead(p, Readable([SectionText(DefaultSection, a), SectionText(DefaultSection, b)])).error.None?
  {
    forall i, j | 0 <= i < j < |a| ensures OptionXform(a[i].0) != OptionXform(a[j].0) {
      assert a[i] == (a + b)[i] && a[j] == (a + b)[j];
    }
    ReadOptionsDistinct(p, DefaultSection, a, {});
    var o := ReadOptions(p, DefaultSection, a, {});
    forall i, j | 0 <= i < j < |b| ensures OptionXform(b[i].0) != OptionXform(b[j].0) {
      assert b[i] == (a + b)[|a| + i] && b[j] == (a + b)[|a| + j];
    }
    forall j | 0 <= j < |b| ensures (DefaultSection, OptionXform(b[j].0)) !in o.added {
      forall i | 0 <= i < |a| ensures OptionXform(a[i].0) != OptionXform(b[j].0) {
        assert a[i] == (a + b)[i] && b[j] == (a + b)[|a| + j];
      }
    }
    ReadOptionsDistinct(o.parser, DefaultSection, b, o.added);
    var o' := ReadOptions(o.parser, DefaultSection, b, o.added);
    var body := [SectionText(DefaultSection, a), SectionText(DefaultSection, b)];
    assert OpenSection(p, DefaultSection) == p && OpenSection(o.parser, DefaultSection) == o.parser;
    assert body[1..] == [SectionText(DefaultSection, b)];
    assert ReadBody(o'.parser, [], {DefaultSection}, o'.added).error.None?;
    assert ReadBody(o.parser, body[1..], {DefaultSection}, o.added).error.None?;
    assert {} + {DefaultSection} == {DefaultSection};
    assert ReadBody(p, body, {}, {}) == ReadBody(o.parser, body[1..], {DefaultSection}, o.added);
  }

  /** A section other than DEFAULT opened twice in one file makes the read
      raise. */
  lemma RepeatedSection(p: Parser, name: string, a: seq<(string, string)>, b: seq<(string, string)>)
    requires name != DefaultSection
    ensures AfterRead(p, Readable([SectionText(name, a), SectionText(name, b)])).error.Some?
  {
    var o := ReadOptions(OpenSection(p, name), name, a, {});
    var body := [SectionText(name, a), SectionText(name, b)];
    if o.error.None? {
      assert body[1..] == [SectionText(name, b)];
      assert ReadBody(p, body, {}, {}) == ReadBody(o.parser, body[1..], {name}, o.added);
    }
  }

  /** After a header's options read without raising, each of them is
      recorded as set under its section. */
  lemma {:induction false} ReadOptionsAdds(p: Parser, name: string, options: seq<(string, string)>, added: set<(string, string)>, i: nat)
    requires name == DefaultSection || name in p.sections
    requires i < |options| && ReadOptions(p, name, options, added).error.None?
    ensures (name, OptionXform(options[i].0)) in ReadOptions(p, name, options, added).added
    decreases |options|
  {
    var key := OptionXform(options[0].0);
    if i > 0 {
      ReadOptionsAdds(AddOption(p, name, key, options[0].1), name, options[1..], added + {(name, key)}, i - 1);
    }
  }

  /** One option, lowered, under two DEFAULT headers of one file makes the
      read raise: duplicates are tracked per (section, option) across headers. */
  lemma RepeatedDefaultOption(p: Parser, a: seq<(string, string)>, b: seq<(string, string)>, i: nat, j: nat)
    requires i < |a| && j < |b| && OptionXform(a[i].0) == OptionXform(b[j].0)
    ensures AfterRead(p, Readable([SectionText(DefaultSection, a), SectionText(DefaultSection, b)])).error.Some?
  {
    var o := ReadOptions(p, DefaultSection, a, {});
    var body := [SectionText(DefaultSection, a), SectionText(DefaultSection, b)];
    assert OpenSection(p, DefaultSection) == p;
    if o.error.None? {
      ReadOptionsAdds(p, DefaultSection, a, {}, i);
      SeenRaises(o.parser, DefaultSection, b, o.added, j, OptionXform(a[i].0));
      assert OpenSection(o.parser, DefaultSection) == o.parser;
      assert body[1..] == [SectionText(DefaultSection, b)];
      assert {} + {DefaultSection} == {DefaultSection};
      assert ReadBody(p, body, {}, {}) == ReadBody(o.parser, body[1..], {DefaultSection}, o.added);
    }
  }

  // ---------------------------------------------------------------------
  // Conversions

  predicate IsDigit(c: char) {
    '0' <= c <= '9'
  }

  /** Digits with single underscores between them, as Python's `int()` accepts. */
  predicate DigitGroups(b: string) {
    b != [] && IsDigit(b[0]) && IsDigit(b[|b| - 1]) &&
    (forall i :: 0 <= i < |b| ==> IsDigit(b[i]) || b[i] == '_') &&
    (forall i :: 0 <= i < |b| - 1 ==> b[i] == '_' ==> b[i + 1] != '_')
  }

  /** The number the digits of `b` spell, underscores ignored. */
  function DigitsValue(b: string): nat
    decreases |b|
  {
    if b == [] then 0
    else if IsDigit(b[|b| - 1]) then 10 * DigitsValue(b[..|b| - 1]) + (b[|b| - 1] as int - '0' as int)
    else DigitsValue(b[..|b| - 1])
  }

  /** `int(value)` in base 10 over ASCII: surrounding whitespace, an optional
      sign, then digit groups; None where Python raises ValueError. */
  function ParseInt(s: string): Option<int> {
    var t := Strip(s);
    if t != [] && (t[0] == '+' || t[0] == '-') then
      if DigitGroups(t[1..]) then Some(if t[0] == '-' then -(DigitsValue(t[1..]) as int) else DigitsValue(t[1..])) else None
    else if DigitGroups(t) then Some(DigitsValue(t)) else None
  }

  /** The decimal rendering `str(n)` of a natural number. */
  function Decimal(n: nat): (r: string)
    ensures r != [] && forall i :: 0 <= i < |r| ==> IsDigit(r[i])
    decreases n
  {
    if n < 10 then [('0' as int + n) as char] else Decimal(n / 10) + [('0' as int + n % 10) as char]
  }

  lemma {:induction false} DecimalValue(n: nat)
    ensures DigitsValue(Decimal(n)) == n
    decreases n
  {
    if n >= 10 {
      DecimalValue(n / 10);
      assert Decimal(n)[..|Decimal(n)| - 1] == Decimal(n / 10);
    }
  }

  lemma DecimalDigits(n: nat)
    ensures DigitGroups(Decimal(n)) && IsStripped(Decimal(n))
    ensures Decimal(n)[0] != '+' && Decimal(n)[0] != '-'
  {
  }

  /** `int(str(n)) == n`. */
  lemma ParseIntDecimal(n: int)
    ensures ParseInt(if n < 0 then "-" + Decimal(-n) else Decimal(n)) == Some(n)
  {
    if n < 0 {
      ParseIntNegative(-n);
    } else {
      DecimalValue(n);
      DecimalDigits(n);
      StripOfStripped(Decimal(n));
    }
  }

  /** `int(str(-m)) == -m`: the minus sign is read back. */
  lemma ParseIntNegative(m: nat)
    ensures ParseInt("-" + Decimal(m)) == Some(-(m as int))
  {
    var d := Decimal(m);
    DecimalValue(m);
    DecimalDigits(m);
    var s := "-" + d;
    assert s[0] == '-' && s[1..] == d;
    assert IsStripped(s) by {
      assert s[|s| - 1] == d[|d| - 1];
    }
    StripOfStripped(s);
  }

  /** Surrounding whitespace never changes what `int()` reads. */
  lemma ParseIntStrip(s: string)
    ensures ParseInt(Strip(s)) == ParseInt(s)
  {
    StripIsStripped(s);
    StripOfStripped(Strip(s));
  }

  const TrueStates: set<string> := {"1", "yes", "true", "on"}
  const FalseStates: set<string> := {"0", "no", "false", "off"}

  /** `getboolean`: the lower-cased value looked up in BOOLEAN_STATES; None
      where configparser raises ValueError. */
  function ParseBool(v: string): (r: Option<bool>)
    ensures r == Some(true) <==> LowerStr(v) in TrueStates
    ensures r == Some(false) <==> LowerStr(v) in FalseStates
  {
    var k := LowerStr(v);
    if k in TrueStates then Some(true) else if k in FalseStates then Some(false) else None
  }

  /** `getboolean` ignores case. */
  lemma ParseBoolIgnoresCase(v: string)
    ensures ParseBool(LowerStr(v)) == ParseBool(v)
  {
    LowerStrIdempotent(v);
  }

  /** The pieces of a split, stripped, empty ones dropped, order kept. */
  function StripAll(pieces: seq<string>): (r: seq<string>)
    ensures |r| <= |pieces|
    decreases |pieces|
  {
    if pieces == [] then []
    else
      var t := Strip(pieces[0]);
      (if t == [] then [] else [t]) + StripAll(pieces[1..])
  }

  /** The `list` conversion: `[item.strip() for item in value.split(",") if item.strip()]`. */
  function ParseList(value: string): seq<string> {
    StripAll(SplitOn(value, ','))
  }

  /** An item survives exactly when it is the non-empty strip of some piece. */
  lemma {:induction false} StripAllMembers(pieces: seq<string>, x: string)
    ensures x in StripAll(pieces) <==> x != [] && exists i :: 0 <= i < |pieces| && Strip(pieces[i]) == x
    decreases |pieces|
  {
    if pieces != [] {
      StripAllMembers(pieces[1..], x);
      if exists i :: 0 <= i < |pieces[1..]| && Strip(pieces[1..][i]) == x {
        var i :| 0 <= i < |pieces[1..]| && Strip(pieces[1..][i]) == x;
        assert Strip(pieces[i + 1]) == x;
      }
      if x != [] && exists i :: 0 <= i < |pieces| && Strip(pieces[i]) == x {
        var i :| 0 <= i < |pieces| && Strip(pieces[i]) == x;
        if i > 0 {
          assert Strip(pieces[1..][i - 1]) == x;
        }
      }
    }
  }

  /** Every item of a parsed list is non-empty with no surrounding whitespace. */
  lemma {:induction false} StripAllItems(pieces: seq<string>)
    ensures forall i :: 0 <= i < |StripAll(pieces)| ==> StripAll(pieces)[i] != [] && IsStripped(StripAll(pieces)[i])
    decreases |pieces|
  {
    if pieces != [] {
      StripIsStripped(pieces[0]);
      StripAllItems(pieces[1..]);
    }
  }

  lemma ParseListItems(value: string)
    ensures forall i :: 0 <= i < |ParseList(value)| ==> ParseList(value)[i] != [] && IsStripped(ParseList(value)[i])
  {
    StripAllItems(SplitOn(value, ','));
  }

  /** A list of non-empty, stripped, comma-free items survives being joined
      with commas and parsed back. */
  lemma {:induction false} StripAllOfItems(xs: seq<string>)
    requires forall i :: 0 <= i < |xs| ==> xs[i] != [] && IsStripped(xs[i])
    ensures StripAll(xs) == xs
    decreases |xs|
  {
    if xs != [] {
      StripOfStripped(xs[0]);
      StripAllOfItems(xs[1..]);
    }
  }

  lemma ParseListJoin(xs: seq<string>)
    requires forall i :: 0 <= i < |xs| ==> xs[i] != [] && IsStripped(xs[i]) && ',' !in xs[i]
    ensures ParseList(Join(xs, ",")) == xs
  {
    if xs != [] {
      SplitOnJoin(xs, ',');
    }
    StripAllOfItems(xs);
  }

  // ---------------------------------------------------------------------
  // get_config_value

  /** The values `get_config_value` hands back: a string, an int, a bool, a
      list of strings, or the `None` default. */
  datatype Value = Str(s: string) | Int(i: int) | Bool(b: bool) | List(items: seq<string>) | NoneValue

  /** `get_config_value(parser, section, option, default, value_type)`: the
      option converted by `value_type`, or `default`, unconverted, when the
      lookup or the conversion fails. */
  function GetConfigValue(p: Parser, section: string, option: string, default: Value, valueType: string): (r: Value)
    requires valueType != "float"
    ensures Get(p, section, option).Err? ==> r == default
    ensures Get(p, section, option).Ok? && (valueType == "str" || valueType !in {"int", "bool", "list"}) ==>
      r == Str(Get(p, section, option).value)
    ensures Get(p, section, option).Ok? && valueType == "int" ==>
      r == if ParseInt(Get(p, section, option).value).Some? then Int(ParseInt(Get(p, section, option).value).value) else default
    ensures Get(p, section, option).Ok? && valueType == "bool" ==>
      r == if ParseBool(Get(p, section, option).value).Some? then Bool(ParseBool(Get(p, section, option).value).value) else default
    ensures Get(p, section, option).Ok? && valueType == "list" ==> r == List(ParseList(Get(p, section, option).value))
  {
    match Get(p, section, option)
    case Err(_) => default
    case Ok(v) =>
      if valueType == "int" then
        (match ParseInt(v) case Some(n) => Int(n) case None => default)
      else if valueType == "bool" then
        (match ParseBool(v) case Some(b) => Bool(b) case None => default)
      else if valueType == "list" then List(ParseList(v))
      else Str(v)
  }

  /** An `int` lookup of an option written as a decimal number gives that number. */
  lemma GetConfigValueInt(p: Parser, section: string, option: string, default: Value, n: int)
    requires Get(p, section, option) == Ok(if n < 0 then "-" + Decimal(-n) else Decimal(n))
    ensures GetConfigValue(p, section, option, default, "int") == Int(n)
  {
    ParseIntDecimal(n);
  }

  /** `int()` fails on a value holding any character other than whitespace,
      a sign, a digit or an underscore. */
  lemma ParseIntRejects(s: string, c: char)
    requires c in s && !IsSpace(c) && !IsDigit(c) && c != '_' && c != '+' && c != '-'
    ensures ParseInt(s) == None
  {
    StripKeeps(s, c);
    var t := Strip(s);
    var i :| 0 <= i < |t| && t[i] == c;
    if t[0] == '+' || t[0] == '-' {
      assert t[1..][i - 1] == c;
    }
  }

  /** An `int` lookup of a value that is not a number, such as "abc", gives
      the default. */
  lemma GetConfigValueNotInt(p: Parser, section: string, option: string, default: Value, c: char)
    requires Get(p, section, option).Ok? && c in Get(p, section, option).value
    requires !IsSpace(c) && !IsDigit(c) && c != '_' && c != '+' && c != '-'
    ensures GetConfigValue(p, section, option, default, "int") == default
  {
    ParseIntRejects(Get(p, section, option).value, c);
  }

  /** Every item of a `list` lookup is non-empty and stripped. */
  lemma GetConfigValueList(p: Parser, section: string, option: string, default: Value)
    requires Get(p, section, option).Ok?
    ensures var r := GetConfigValue(p, section, option, default, "list");
      r.List? && forall i :: 0 <= i < |r.items| ==> r.items[i] != [] && IsStripped(r.items[i])
  {
    ParseListItems(Get(p, section, option).value);
  }

  // ---------------------------------------------------------------------
  // The module's settings

  /** The values config_parse.py binds at import time. */
  datatype Settings = Settings(
    gamePath: Value, torrentPath: Value, logFilePath: Value, waitTime: Value, onStartup: Value, debugLogging: Value,
    host: Value, port: Value, username: Value, password: Value,
    qbitCategory: Value, maxTorrentsPerRun: Value, deleteAfterProcessing: Value,
    gogAllGamesFile: Value, gogRecentGamesFile: Value, gogAllGamesUrl: Value, gogRecentGamesUrl: Value, cacheRefreshHours: Value,
    removeExtras: Value, extrasPatterns: Value, removeEmptyDirs: Value, removeTextFiles: Value)

  function SettingsOf(p: Parser): (r: Settings)
    ensures "admin" !in p.sections ==> r.gamePath == Str("/data/library/") && r.waitTime == Int(4)
    ensures "cleanup" !in p.sections ==>
      r.extrasPatterns == Str("soundtrack,ost,flac,wav,mp3,artbook,booklet,wallpaper") && r.removeExtras == Bool(true)
  {
    Settings(
      GetConfigValue(p, "admin", "game_library_root_path", Str("/data/library/"), "str"),
      GetConfigValue(p, "admin", "torrents_completed_root_path", Str("/data/torrent/"), "str"),
      GetConfigValue(p, "admin", "log_file_path", Str("logs/logs.log"), "str"),
      GetConfigValue(p, "admin", "wait_time_hours", Int(4), "int"),
      GetConfigValue(p, "admin", "on_startup", Bool(true), "bool"),
      GetConfigValue(p, "admin", "debug_logging", Bool(false), "bool"),
      GetConfigValue(p, "qbittorrent", "host", Str("localhost"), "str"),
      GetConfigValue(p, "qbittorrent", "port", Int(8080), "int"),
      GetConfigValue(p, "qbittorrent", "username", Str("admin"), "str"),
      GetConfigValue(p, "qbittorrent", "password", Str("password"), "str"),
      GetConfigValue(p, "qbittorrent", "category", Str("gog"), "str"),
      GetConfigValue(p, "qbittorrent", "max_torrents_per_run", Int(0), "int"),
      GetConfigValue(p, "qbittorrent", "delete_after_processing", Bool(true), "bool"),
      GetConfigValue(p, "gog", "gog_all_games_file", Str("cache/gog_all_games.json"), "str"),
      GetConfigValue(p, "gog", "gog_recent_games_file", Str("cache/gog_recent_games.json"), "str"),
      GetConfigValue(p, "gog", "gog_all_games_url", Str("https://gog-games.to/api/web/all-games"), "str"),
      GetConfigValue(p, "gog", "gog_recent_games_url", Str("https://gog-games.to/api/web/recent-torrents"), "str"),
      GetConfigValue(p, "gog", "cache_refresh_hours", Int(24), "int"),
      GetConfigValue(p, "cleanup", "remove_extras", Bool(true), "bool"),
      GetConfigValue(p, "cleanup", "extras_patterns", Str("soundtrack,ost,flac,wav,mp3,artbook,booklet,wallpaper"), "list"),
      GetConfigValue(p, "cleanup", "remove_empty_dirs", Bool(true), "bool"),
      GetConfigValue(p, "cleanup", "remove_text_files", Bool(true), "bool"))
  }
}
