/**
 * The directive parser of the main script: comment lines such as
 * `//PART=HA` or `//ESP32S3` in the sketch fold, line by line, over a
 * default configuration.
 */
module Directives {

  import opened Wrappers
  import opened PyStr
  import opened FileSystem
  import opened SeqFacts

  /** The `cfg` dictionary the parser returns and the scheme selector updates. */
  datatype Config = Config(
    part: string,
    flash: string,
    psram: Option<string>,
    erase: bool,
    cust: Option<string>,
    platform: string,
    com: Option<string>)

  const Defaults := Config("AUTO", "4MB", None, false, None, "esp32", None)

  const FlashSizes: set<string> := {"2MB", "4MB", "8MB", "16MB", "32MB"}

  const Chips: set<string> := {"esp32", "esp32s3", "esp32c3"}

  /** `norm_flash`: strip unit letters and spaces, keep one of five sizes, else "4MB". */
  function NormFlash(val: string): (r: string)
    ensures r in FlashSizes
  {
    var v := Replace(Replace(Replace(Upper(val), " ", ""), "MB", ""), "M", "");
    if v in {"2", "4", "8", "16", "32"} then SizeSuffix(v); v + "MB" else "4MB"
  }

  lemma SizeSuffix(v: string)
    requires v in {"2", "4", "8", "16", "32"}
    ensures v + "MB" in FlashSizes
  {
    if v == "2" { assert v + "MB" == "2MB"; }
    else if v == "4" { assert v + "MB" == "4MB"; }
    else if v == "8" { assert v + "MB" == "8MB"; }
    else if v == "16" { assert v + "MB" == "16MB"; }
    else { assert v + "MB" == "32MB"; }
  }

  /**
   * A size written as digits, with or without an `M`/`MB` unit in any case,
   * is kept when it is one of the five sizes and becomes "4MB" otherwise.
   */
  lemma NormFlashDigits(d: string, unit: string)
    requires IsDigits(d) && unit in {"", "M", "m", "MB", "mb", "Mb", "mB"}
    ensures NormFlash(d + unit) == if d in {"2", "4", "8", "16", "32"} then d + "MB" else "4MB"
  {
    var u := Upper(unit);
    UpperConcat(d, unit);
    UpperMatches(d, d);
    assert u in {"", "M", "MB"} by {
      if unit in {"m", "M"} { UpperMatches(unit, "M"); }
      else if unit == "" { UpperMatches(unit, ""); }
      else { UpperMatches(unit, "MB"); }
    }
    assert Upper(d + unit) == d + u;
    assert ' ' !in d + u;
    ReplaceAbsent(d + u, " ", "");
    ReplaceSkip(d, u, "MB", "");
    var w := Replace(u, "MB", "");
    if u == "MB" {
      ReplaceLeading("MB", [], "");
      assert u == "MB" + [];
      assert w == [];
    } else {
      ReplaceShort(u, "MB", "");
    }
    assert w in {"", "M"};
    ReplaceSkip(d, w, "M", "");
    if w == "M" {
      ReplaceLeading("M", [], "");
      assert w == "M" + [];
    } else {
      ReplaceShort(w, "M", "");
    }
    assert d + [] == d;
  }

  /** Normalising a normalised size changes nothing. */
  lemma NormFlashIdempotent(val: string)
    ensures NormFlash(NormFlash(val)) == NormFlash(val)
  {
    var r := NormFlash(val);
    var d :=
      if r == "2MB" then "2" else if r == "4MB" then "4" else if r == "8MB" then "8"
      else if r == "16MB" then "16" else "32";
    assert r == d + "MB";
    NormFlashDigits(d, "MB");
  }

  /** The comparison key both alias tables use: `val.strip().upper().replace("-", "_")`. */
  function AliasKey(val: string): string
  {
    Replace(Upper(Strip(val)), "-", "_")
  }

  const MsKeys: set<string> := {"MS", "MINIMAL_SPIFFS", "MIN_SPIFFS", "MIN_SPIPFS", "MIN_SPIFS"}
  const HaKeys: set<string> := {"HA", "HUGE_APP", "HUGEAPP", "HUGE"}
  const DefaultKeys: set<string> := {"DEF", "DEFAULT"}
  const AutoKeys: set<string> := {"AUTO", "AUT"}

  /** The four alias tables of `norm_part_alias`, tested in order. */
  function AliasToken(u: string): (r: Option<string>)
    ensures r.Some? <==> u in MsKeys + HaKeys + DefaultKeys + AutoKeys
  {
    if u in MsKeys then Some("MS")
    else if u in HaKeys then Some("HA")
    else if u in DefaultKeys then Some("DEFAULT")
    else if u in AutoKeys then Some("AUTO")
    else None
  }

  /** `norm_part_alias`: an alias becomes its short token; any other name is kept, trimmed. */
  function NormPartAlias(val: string): (r: string)
    ensures r in {"MS", "HA", "DEFAULT", "AUTO"} || r == Strip(val)
    ensures val != [] && AliasKey(val) !in MsKeys + HaKeys + DefaultKeys + AutoKeys ==> r == Strip(val)
  {
    if val == [] then "AUTO"
    else
      match AliasToken(AliasKey(val))
      case Some(t) => t
      case None => Strip(val)
  }

  /** The key of a trimmed name: upper-cased, with every hyphen read as an underscore. */
  lemma AliasKeyOf(s: string, t: string)
    requires s != [] && !IsSpace(s[0]) && !IsSpace(s[|s| - 1]) && |s| == |t|
    requires forall i :: 0 <= i < |s| ==> t[i] == if s[i] == '-' then '_' else UpperChar(s[i])
    ensures AliasKey(s) == t
  {
    StripAfterPrefix(s, []);
    assert s + [] == s;
    ReplaceChar(Upper(s), '-', '_');
  }

  /** Case is ignored: values equal up to case have the same key. */
  lemma AliasKeyCaseless(a: string, b: string)
    requires Upper(a) == Upper(b)
    ensures AliasKey(a) == AliasKey(b)
  {
    UpperStrip(a);
    UpperStrip(b);
  }

  /** So an alias is recognised however it is capitalised. */
  lemma NormPartAliasCaseless(a: string, b: string)
    requires a != [] && b != [] && Upper(a) == Upper(b)
    requires AliasKey(a) in MsKeys + HaKeys + DefaultKeys + AutoKeys
    ensures NormPartAlias(a) == NormPartAlias(b) && NormPartAlias(a) in {"MS", "HA", "DEFAULT", "AUTO"}
  {
    AliasKeyCaseless(a, b);
    var t := AliasToken(AliasKey(a));
    assert t.Some?;
    assert NormPartAlias(a) == t.value && NormPartAlias(b) == t.value;
  }

  /** A value whose upper-cased form is the spelling `u` has the key of `u`. */
  lemma KeyOfSpelling(s: string, u: string, key: string)
    requires Upper(s) == u && u != [] && !IsSpace(u[0]) && !IsSpace(u[|u| - 1]) && |u| == |key|
    requires forall i :: 0 <= i < |u| ==> key[i] == if u[i] == '-' then '_' else UpperChar(u[i])
    ensures s != [] && AliasKey(s) == key
  {
    UpperIdempotent(s);
    AliasKeyCaseless(s, u);
    AliasKeyOf(u, key);
  }

  /** Each table's keys share a first letter, and the four letters differ. */
  lemma KeyInitials(k: string)
    ensures k in MsKeys ==> k != [] && k[0] == 'M'
    ensures k in HaKeys ==> k != [] && k[0] == 'H'
    ensures k in DefaultKeys ==> k != [] && k[0] == 'D'
    ensures k in AutoKeys ==> k != [] && k[0] == 'A'
  {
  }

  /** No key is in two tables, so the order of the tests does not matter. */
  lemma KeyTablesDisjoint()
    ensures MsKeys * HaKeys == {} && MsKeys * DefaultKeys == {} && MsKeys * AutoKeys == {}
    ensures HaKeys * DefaultKeys == {} && HaKeys * AutoKeys == {} && DefaultKeys * AutoKeys == {}
  {
    assert "HA"[0] != "MS"[0];
    assert "AUTO"[0] != "HUGE"[0];
    assert "DEFAULT"[0] != "HUGEAPP"[0];
  }

  /** The tables are tested on the key: a key in a table gives that table's token. */
  lemma MsTable(val: string)
    requires val != [] && AliasKey(val) in MsKeys
    ensures NormPartAlias(val) == "MS"
  {
  }

  lemma HaTable(val: string)
    requires val != [] && AliasKey(val) in HaKeys
    ensures NormPartAlias(val) == "HA"
  {
    KeyInitials(AliasKey(val));
  }

  lemma DefaultTable(val: string)
    requires val != [] && AliasKey(val) in DefaultKeys
    ensures NormPartAlias(val) == "DEFAULT"
  {
    KeyInitials(AliasKey(val));
  }

  lemma AutoTable(val: string)
    requires val != [] && AliasKey(val) in AutoKeys
    ensures NormPartAlias(val) == "AUTO"
  {
    KeyInitials(AliasKey(val));
  }

  // The alias spellings of the directive documentation, in any capitalisation.

  lemma MsSpellings(s: string)
    requires Upper(s) in {"MS", "MIN-SPIFFS", "MIN_SPIPFS", "MINIMAL-SPIFFS", "MIN-SPIFS"}
    ensures s != [] && AliasKey(s) in MsKeys
  {
    var u := Upper(s);
    if u == "MS" { KeyOfSpelling(s, u, "MS"); }
    else if u == "MIN-SPIFFS" { KeyOfSpelling(s, u, "MIN_SPIFFS"); }
    else if u == "MIN_SPIPFS" { KeyOfSpelling(s, u, "MIN_SPIPFS"); }
    else if u == "MINIMAL-SPIFFS" { KeyOfSpelling(s, u, "MINIMAL_SPIFFS"); }
    else { KeyOfSpelling(s, u, "MIN_SPIFS"); }
  }

  lemma HaSpellings(s: string)
    requires Upper(s) in {"HA", "HUGE-APP", "HUGE_APP", "HUGEAPP", "HUGE"}
    ensures s != [] && AliasKey(s) in HaKeys
  {
    var u := Upper(s);
    if u == "HA" { KeyOfSpelling(s, u, "HA"); }
    else if u == "HUGE-APP" { KeyOfSpelling(s, u, "HUGE_APP"); }
    else if u == "HUGE_APP" { KeyOfSpelling(s, u, "HUGE_APP"); }
    else if u == "HUGEAPP" { KeyOfSpelling(s, u, "HUGEAPP"); }
    else { KeyOfSpelling(s, u, "HUGE"); }
  }

  lemma DefaultSpellings(s: string)
    requires Upper(s) in {"DEF", "DEFAULT"}
    ensures s != [] && AliasKey(s) in DefaultKeys
  {
    var u := Upper(s);
    if u == "DEF" { KeyOfSpelling(s, u, "DEF"); }
    else { KeyOfSpelling(s, u, "DEFAULT"); }
  }

  lemma AutoSpellings(s: string)
    requires Upper(s) in {"AUT", "AUTO"}
    ensures s != [] && AliasKey(s) in AutoKeys
  {
    var u := Upper(s);
    if u == "AUT" { KeyOfSpelling(s, u, "AUT"); }
    else { KeyOfSpelling(s, u, "AUTO"); }
  }

  /** "ms", "min-spiffs" and even the misspelt "MIN_SPIPFS" give MS, in any case. */
  lemma MsAliases(s: string)
    requires Upper(s) in {"MS", "MIN-SPIFFS", "MIN_SPIPFS", "MINIMAL-SPIFFS", "MIN-SPIFS"}
    ensures NormPartAlias(s) == "MS"
  {
    MsSpellings(s);
    MsTable(s);
  }

  lemma HaAliases(s: string)
    requires Upper(s) in {"HA", "HUGE-APP", "HUGE_APP", "HUGEAPP", "HUGE"}
    ensures NormPartAlias(s) == "HA"
  {
    HaSpellings(s);
    HaTable(s);
  }

  lemma DefaultAliases(s: string)
    requires Upper(s) in {"DEF", "DEFAULT"}
    ensures NormPartAlias(s) == "DEFAULT"
  {
    DefaultSpellings(s);
    DefaultTable(s);
  }

  /** An empty value and both spellings of AUTO select the size heuristic. */
  lemma AutoAliases(s: string)
    requires s == [] || Upper(s) in {"AUT", "AUTO"}
    ensures NormPartAlias(s) == "AUTO"
  {
    if s != [] {
      AutoSpellings(s);
      AutoTable(s);
    }
  }

  /** The tokens the alias table produces resolve to themselves. */
  lemma TokensFixed(t: string)
    requires t in {"MS", "HA", "DEFAULT", "AUTO"}
    ensures NormPartAlias(t) == t
  {
    UpperMatches(t, t);
    if t == "MS" { MsAliases(t); }
    else if t == "HA" { HaAliases(t); }
    else if t == "DEFAULT" { DefaultAliases(t); }
    else { AutoAliases(t); }
  }

  /** On the trimmed values the parser passes in, normalising twice is normalising once. */
  lemma NormPartAliasIdempotent(val: string)
    requires Strip(val) == val
    ensures NormPartAlias(NormPartAlias(val)) == NormPartAlias(val)
  {
    var r := NormPartAlias(val);
    if r in {"MS", "HA", "DEFAULT", "AUTO"} {
      TokensFixed(r);
    } else {
      assert r == Strip(val) == val;
    }
  }

  /** A serial port is always "COM" followed by the value with every "COM" removed. */
  function ComPort(val: string): string
  {
    "COM" + Replace(Upper(val), "COM", "")
  }

  /** The value of `//PLATFORM=`: the two newer chips by either spelling, anything else is esp32. */
  function PlatformValue(val: string): (r: string)
    ensures r in Chips
  {
    var p := Upper(val);
    if p in {"ESP32S3", "ESP32_S3"} then "esp32s3"
    else if p in {"ESP32C3", "ESP32_C3"} then "esp32c3"
    else "esp32"
  }

  /** What one sketch line asks for, with the value already normalised as it is stored. */
  datatype Directive =
    | Ignored
    | SetPart(part: string)
    | SetFlash(flash: string)
    | SetPsram(psram: string)
    | SetErase(erase: bool)
    | SetCust(cust: string)
    | SetCom(com: string)
    | SetPlatform(platform: string)

  /** `line.split("=", 1)[1].strip()` */
  function ValueOf(line: string): string
    requires '=' in line
  {
    Strip(AfterFirst(line, '='))
  }

  /** The body of the parsing loop: strip the line, then the first prefix that matches decides. */
  function Classify(raw: string): (d: Directive)
    ensures d.SetFlash? ==> d.flash in FlashSizes
    ensures d.SetPlatform? ==> d.platform in Chips
  {
    Recognize(Strip(raw))
  }

  /** The `if`/`elif` chain over a stripped line. */
  function Recognize(line: string): (d: Directive)
    ensures d.SetFlash? ==> d.flash in FlashSizes
    ensures d.SetPlatform? ==> d.platform in Chips
  {
    if "//-" <= line then Ignored
    else if "//PART=" <= line then
      assert line[6] == '='; SetPart(NormPartAlias(ValueOf(line)))
    else if "//FLASH-SIZE=" <= line then
      assert line[12] == '='; SetFlash(NormFlash(ValueOf(line)))
    else if "//FLASH=" <= line then
      assert line[7] == '='; SetFlash(NormFlash(ValueOf(line)))
    else if "//PSRAM=" <= line then
      assert line[7] == '='; SetPsram(ValueOf(line))
    else if "//ERASE=" <= line then
      assert line[7] == '='; SetErase(Upper(ValueOf(line)) == "TRUE")
    else if "//CUST=" <= line then
      assert line[6] == '='; SetCust(ValueOf(line))
    else if "//COM=" <= line then
      assert line[5] == '='; SetCom(ComPort(ValueOf(line)))
    else if "//PLATFORM=" <= line then
      assert line[10] == '='; SetPlatform(PlatformValue(ValueOf(line)))
    else if "//ESP32S3" <= line then SetPlatform("esp32s3")
    else if "//ESP32C3" <= line then SetPlatform("esp32c3")
    else if "//ESP32" <= line then SetPlatform("esp32")
    else Ignored
  }

  /** The names of the configuration fields, and the value a field holds. */
  datatype Field = PartField | FlashField | PsramField | EraseField | CustField | ComField | PlatformField

  datatype FieldValue = Text(text: string) | MaybeText(maybe: Option<string>) | Flag(flag: bool)

  function Get(cfg: Config, f: Field): FieldValue
  {
    match f
    case PartField => Text(cfg.part)
    case FlashField => Text(cfg.flash)
    case PsramField => MaybeText(cfg.psram)
    case EraseField => Flag(cfg.erase)
    case CustField => MaybeText(cfg.cust)
    case ComField => MaybeText(cfg.com)
    case PlatformField => Text(cfg.platform)
  }

  /** The field a directive writes, if any. */
  function Target(d: Directive): Option<Field>
  {
    match d
    case Ignored => None
    case SetPart(_) => Some(PartField)
    case SetFlash(_) => Some(FlashField)
    case SetPsram(_) => Some(PsramField)
    case SetErase(_) => Some(EraseField)
    case SetCust(_) => Some(CustField)
    case SetCom(_) => Some(ComField)
    case SetPlatform(_) => Some(PlatformField)
  }

  /** The value a directive writes into its field. */
  function Written(d: Directive): FieldValue
    requires d != Ignored
  {
    match d
    case SetPart(v) => Text(v)
    case SetFlash(v) => Text(v)
    case SetPsram(v) => MaybeText(Some(v))
    case SetErase(b) => Flag(b)
    case SetCust(v) => MaybeText(Some(v))
    case SetCom(v) => MaybeText(Some(v))
    case SetPlatform(v) => Text(v)
  }

  /** One assignment `cfg[KEY] = value`: the target field changes, every other field is kept. */
  function Apply(cfg: Config, d: Directive): (r: Config)
    ensures forall f :: Get(r, f) == if Target(d) == Some(f) then Written(d) else Get(cfg, f)
  {
    match d
    case Ignored => cfg
    case SetPart(v) => cfg.(part := v)
    case SetFlash(v) => cfg.(flash := v)
    case SetPsram(v) => cfg.(psram := Some(v))
    case SetErase(b) => cfg.(erase := b)
    case SetCust(v) => cfg.(cust := Some(v))
    case SetCom(v) => cfg.(com := Some(v))
    case SetPlatform(v) => cfg.(platform := v)
  }

  /** The directives of the given lines, in file order. */
  function ClassifyAll(lines: seq<string>): (ds: seq<Directive>)
    ensures |ds| == |lines| && forall i :: 0 <= i < |lines| ==> ds[i] == Classify(lines[i])
  {
    if lines == [] then [] else ClassifyAll(lines[..|lines| - 1]) + [Classify(lines[|lines| - 1])]
  }

  /** The configuration after applying the directives in order to the defaults. */
  function Run(ds: seq<Directive>): Config
  {
    if ds == [] then Defaults else Apply(Run(ds[..|ds| - 1]), ds[|ds| - 1])
  }

  /** The configuration `parse_directives` returns for the given lines. */
  function Parse(lines: seq<string>): Config
  {
    Run(ClassifyAll(lines))
  }

  /**
   * `parse_directives`: the file is opened without a `try`, so a read
   * failure propagates and no configuration is produced.
   */
  method ParseDirectives(src: SourceFile) returns (r: Option<Config>)
    ensures r == if src.failed then None else Some(Parse(src.lines))
  {
    var lines := src.lines;
    var cfg := Defaults;
    var i := 0;
    while i < |lines|
      invariant 0 <= i <= |lines|
      invariant cfg == Parse(lines[..i])
    {
      assert lines[..i + 1][..i] == lines[..i];
      RunStep(ClassifyAll(lines[..i]), Classify(lines[i]));
      cfg := Apply(cfg, Classify(lines[i]));
      i := i + 1;
    }
    assert lines[..|lines|] == lines;
    if src.failed {
      return None;
    }
    return Some(cfg);
  }

  // ---------------- properties of the parser ----------------

  /** One more directive is applied to the configuration of the directives before it. */
  lemma RunStep(ds: seq<Directive>, d: Directive)
    ensures Run(ds + [d]) == Apply(Run(ds), d)
  {
    DropLast(ds, d);
  }

  /** Directives that never write `f`, appended after `pre`, leave `f` as `pre` left it. */
  lemma {:induction false} UntouchedField(pre: seq<Directive>, post: seq<Directive>, f: Field)
    requires forall j :: 0 <= j < |post| ==> Target(post[j]) != Some(f)
    ensures Get(Run(pre + post), f) == Get(Run(pre), f)
    decreases |post|
  {
    if post == [] {
      Unit(pre);
    } else {
      var init := post[..|post| - 1];
      UntouchedField(pre, init, f);
      Snoc(pre, post);
      RunStep(pre + init, post[|post| - 1]);
    }
  }

  /** Later directive wins: a field holds what the last directive writing it wrote. */
  lemma LastDirectiveWins(ds: seq<Directive>, k: nat, f: Field)
    requires k < |ds| && Target(ds[k]) == Some(f)
    requires forall j :: k < j < |ds| ==> Target(ds[j]) != Some(f)
    ensures Get(Run(ds), f) == Written(ds[k])
  {
    var pre, post := ds[..k] + [ds[k]], ds[k + 1..];
    Around(ds, k);
    UntouchedField(pre, post, f);
    RunStep(ds[..k], ds[k]);
    ApplyWrites(Run(ds[..k]), ds[k], f);
  }

  lemma ApplyWrites(cfg: Config, d: Directive, f: Field)
    requires Target(d) == Some(f)
    ensures Get(Apply(cfg, d), f) == Written(d)
  {
  }

  /** A field no directive writes keeps its default. */
  lemma UnwrittenFieldKeepsDefault(ds: seq<Directive>, f: Field)
    requires forall j :: 0 <= j < |ds| ==> Target(ds[j]) != Some(f)
    ensures Get(Run(ds), f) == Get(Defaults, f)
  {
    UntouchedField([], ds, f);
    Unit(ds);
  }

  /** Ignored lines can be dropped from anywhere without changing the result. */
  lemma {:induction false} IgnoredChangesNothing(a: seq<Directive>, b: seq<Directive>)
    ensures Run(a + [Ignored] + b) == Run(a + b)
    decreases |b|
  {
    if b == [] {
      Unit(a + [Ignored]);
      Unit(a);
      RunStep(a, Ignored);
    } else {
      var b' := b[..|b| - 1];
      var x := b[|b| - 1];
      IgnoredChangesNothing(a, b');
      Snoc(a + [Ignored], b);
      Snoc(a, b);
      RunStep(a + [Ignored] + b', x);
      RunStep(a + b', x);
    }
  }

  lemma ClassifyAllConcat(a: seq<string>, b: seq<string>)
    ensures ClassifyAll(a + b) == ClassifyAll(a) + ClassifyAll(b)
  {
    var l, r := ClassifyAll(a + b), ClassifyAll(a) + ClassifyAll(b);
    assert |l| == |r|;
    forall i | 0 <= i < |l|
      ensures l[i] == r[i]
    {
      if i < |a| { assert (a + b)[i] == a[i]; } else { assert (a + b)[i] == b[i - |a|]; }
    }
  }

  /** On lines: a line the parser ignores can be removed from the file. */
  lemma IgnoredLineChangesNothing(a: seq<string>, line: string, b: seq<string>)
    requires Classify(line) == Ignored
    ensures Parse(a + [line] + b) == Parse(a + b)
  {
    IgnoredChangesNothing(ClassifyAll(a), ClassifyAll(b));
    ClassifyAllConcat(a + [line], b);
    ClassifyAllConcat(a, [line]);
    ClassifyAllConcat(a, b);
  }

  /** On lines: the last line writing a field decides it, and lines writing other fields do not matter. */
  lemma LastLineWins(lines: seq<string>, k: nat, f: Field)
    requires k < |lines| && Target(Classify(lines[k])) == Some(f)
    requires forall j :: k < j < |lines| ==> Target(Classify(lines[j])) != Some(f)
    ensures Get(Parse(lines), f) == Written(Classify(lines[k]))
  {
    LastDirectiveWins(ClassifyAll(lines), k, f);
  }

  /** Directives that keep the enumerations keep a well-formed configuration well-formed. */
  lemma {:induction false} RunWellFormed(ds: seq<Directive>)
    requires forall i :: 0 <= i < |ds| ==> (ds[i].SetFlash? ==> ds[i].flash in FlashSizes)
    requires forall i :: 0 <= i < |ds| ==> (ds[i].SetPlatform? ==> ds[i].platform in Chips)
    ensures Run(ds).flash in FlashSizes && Run(ds).platform in Chips
  {
    if ds != [] {
      var init := ds[..|ds| - 1];
      RunWellFormed(init);
      var d := ds[|ds| - 1];
      assert Run(ds) == Apply(Run(init), d);
    }
  }

  /** Whatever the lines, the flash size and the chip stay inside their enumerations. */
  lemma ParseWellFormed(lines: seq<string>)
    ensures Parse(lines).flash in FlashSizes && Parse(lines).platform in Chips
  {
    var ds := ClassifyAll(lines);
    RunWellFormed(ds);
    assert Parse(lines) == Run(ds);
  }

  // ---------------- the directive table ----------------

  /** A line `<key>=<v>` with a key free of spaces and `=` carries the trimmed `v`. */
  lemma KeyedLine(p: string, v: string)
    requires |p| >= 2 && p[|p| - 1] == '=' && '=' !in p[..|p| - 1] && !IsSpace(p[0])
    ensures Strip(p + v) == p + TrimRight(v)
    ensures '=' in p + TrimRight(v) && ValueOf(p + TrimRight(v)) == Strip(v)
  {
    StripAfterPrefix(p, v);
    AfterFirstPrefix(p, TrimRight(v), '=');
    StripTrimRight(v);
  }

  // Which branch of the chain a stripped line `<key>=<w>` takes.

  lemma RecognizePart(w: string)
    ensures var line := "//PART=" + w; '=' in line && Recognize(line) == SetPart(NormPartAlias(ValueOf(line)))
  {
    var line := "//PART=" + w;
    assert line[2] == 'P' && !("//-" <= line);
    assert "//PART=" <= line;
  }

  lemma RecognizeFlashSize(w: string)
    ensures var line := "//FLASH-SIZE=" + w; '=' in line && Recognize(line) == SetFlash(NormFlash(ValueOf(line)))
  {
    var line := "//FLASH-SIZE=" + w;
    assert line[2] == 'F' && !("//-" <= line);
    assert line[2] == 'F' && !("//PART=" <= line);
    assert "//FLASH-SIZE=" <= line;
  }

  lemma RecognizeFlash(w: string)
    ensures var line := "//FLASH=" + w; '=' in line && Recognize(line) == SetFlash(NormFlash(ValueOf(line)))
  {
    var line := "//FLASH=" + w;
    assert line[2] == 'F' && !("//-" <= line);
    assert line[2] == 'F' && !("//PART=" <= line);
    assert line[7] == '=' && !("//FLASH-SIZE=" <= line);
    assert "//FLASH=" <= line;
  }

  lemma RecognizePsram(w: string)
    ensures var line := "//PSRAM=" + w; '=' in line && Recognize(line) == SetPsram(ValueOf(line))
  {
    var line := "//PSRAM=" + w;
    assert line[2] == 'P' && !("//-" <= line);
    assert line[3] == 'S' && !("//PART=" <= line);
    assert line[2] == 'P' && !("//FLASH-SIZE=" <= line);
    assert line[2] == 'P' && !("//FLASH=" <= line);
    assert "//PSRAM=" <= line;
  }

  lemma RecognizeErase(w: string)
    ensures var line := "//ERASE=" + w; '=' in line && Recognize(line) == SetErase(Upper(ValueOf(line)) == "TRUE")
  {
    var line := "//ERASE=" + w;
    assert line[2] == 'E' && !("//-" <= line);
    assert line[2] == 'E' && !("//PART=" <= line);
    assert line[2] == 'E' && !("//FLASH-SIZE=" <= line);
    assert line[2] == 'E' && !("//FLASH=" <= line);
    assert line[2] == 'E' && !("//PSRAM=" <= line);
    assert "//ERASE=" <= line;
  }

  lemma RecognizeCust(w: string)
    ensures var line := "//CUST=" + w; '=' in line && Recognize(line) == SetCust(ValueOf(line))
  {
    var line := "//CUST=" + w;
    assert line[2] == 'C' && !("//-" <= line);
    assert line[2] == 'C' && !("//PART=" <= line);
    assert line[2] == 'C' && !("//FLASH-SIZE=" <= line);
    assert line[2] == 'C' && !("//FLASH=" <= line);
    assert line[2] == 'C' && !("//PSRAM=" <= line);
    assert line[2] == 'C' && !("//ERASE=" <= line);
    assert "//CUST=" <= line;
  }

  lemma RecognizeCom(w: string)
    ensures var line := "//COM=" + w; '=' in line && Recognize(line) == SetCom(ComPort(ValueOf(line)))
  {
    var line := "//COM=" + w;
    assert line[2] == 'C' && !("//-" <= line);
    assert line[2] == 'C' && !("//PART=" <= line);
    assert line[2] == 'C' && !("//FLASH-SIZE=" <= line);
    assert line[2] == 'C' && !("//FLASH=" <= line);
    assert line[2] == 'C' && !("//PSRAM=" <= line);
    assert line[2] == 'C' && !("//ERASE=" <= line);
    assert line[3] == 'O' && !("//CUST=" <= line);
    assert "//COM=" <= line;
  }

  lemma RecognizePlatform(w: string)
    ensures var line := "//PLATFORM=" + w; '=' in line && Recognize(line) == SetPlatform(PlatformValue(ValueOf(line)))
  {
    var line := "//PLATFORM=" + w;
    assert line[2] == 'P' && !("//-" <= line);
    assert line[3] == 'L' && !("//PART=" <= line);
    assert line[2] == 'P' && !("//FLASH-SIZE=" <= line);
    assert line[2] == 'P' && !("//FLASH=" <= line);
    assert line[3] == 'L' && !("//PSRAM=" <= line);
    assert line[2] == 'P' && !("//ERASE=" <= line);
    assert line[2] == 'P' && !("//CUST=" <= line);
    assert line[2] == 'P' && !("//COM=" <= line);
    assert "//PLATFORM=" <= line;
  }

  lemma RecognizeS3(w: string)
    ensures Recognize("//ESP32S3" + w) == SetPlatform("esp32s3")
  {
    var line := "//ESP32S3" + w;
    assert line[2] == 'E' && line[3] == 'S' && line[7] == 'S';
    assert !("//-" <= line) && !("//PART=" <= line) && !("//FLASH-SIZE=" <= line) && !("//FLASH=" <= line);
    assert !("//PSRAM=" <= line) && !("//ERASE=" <= line) && !("//CUST=" <= line) && !("//COM=" <= line);
    assert !("//PLATFORM=" <= line) && "//ESP32S3" <= line;
  }

  lemma RecognizeC3(w: string)
    ensures Recognize("//ESP32C3" + w) == SetPlatform("esp32c3")
  {
    var line := "//ESP32C3" + w;
    assert line[2] == 'E' && line[3] == 'S' && line[7] == 'C';
    assert !("//-" <= line) && !("//PART=" <= line) && !("//FLASH-SIZE=" <= line) && !("//FLASH=" <= line);
    assert !("//PSRAM=" <= line) && !("//ERASE=" <= line) && !("//CUST=" <= line) && !("//COM=" <= line);
    assert !("//PLATFORM=" <= line) && !("//ESP32S3" <= line) && "//ESP32C3" <= line;
  }

  lemma RecognizeUnderscored(w: string)
    ensures Recognize("//ESP32_S3" + w) == SetPlatform("esp32")
  {
    var line := "//ESP32_S3" + w;
    assert line[2] == 'E' && line[3] == 'S' && line[7] == '_';
    assert !("//-" <= line) && !("//PART=" <= line) && !("//FLASH-SIZE=" <= line) && !("//FLASH=" <= line);
    assert !("//PSRAM=" <= line) && !("//ERASE=" <= line) && !("//CUST=" <= line) && !("//COM=" <= line);
    assert !("//PLATFORM=" <= line) && !("//ESP32S3" <= line) && !("//ESP32C3" <= line) && "//ESP32" <= line;
  }

  /** Disabled directives (`//-...`) are ignored. */
  lemma DisabledIgnored(v: string)
    ensures Classify("//-" + v) == Ignored
  {
    StripKeepsPrefix("//-", "//-" + v);
  }

  lemma PartDirective(v: string)
    ensures Classify("//PART=" + v) == SetPart(NormPartAlias(Strip(v)))
  {
    KeyedLine("//PART=", v);
    RecognizePart(TrimRight(v));
  }

  /** `//FLASH-SIZE=` and `//FLASH=` are the same directive. */
  lemma FlashSizeDirective(v: string)
    ensures Classify("//FLASH-SIZE=" + v) == SetFlash(NormFlash(Strip(v)))
  {
    KeyedLine("//FLASH-SIZE=", v);
    RecognizeFlashSize(TrimRight(v));
  }

  lemma FlashDirective(v: string)
    ensures Classify("//FLASH=" + v) == SetFlash(NormFlash(Strip(v)))
  {
    KeyedLine("//FLASH=", v);
    RecognizeFlash(TrimRight(v));
  }

  lemma PsramDirective(v: string)
    ensures Classify("//PSRAM=" + v) == SetPsram(Strip(v))
  {
    KeyedLine("//PSRAM=", v);
    RecognizePsram(TrimRight(v));
  }

  lemma EraseDirective(v: string)
    ensures Classify("//ERASE=" + v) == SetErase(Upper(Strip(v)) == "TRUE")
  {
    KeyedLine("//ERASE=", v);
    RecognizeErase(TrimRight(v));
  }

  /** CUST is stored as text, so `//CUST=FALSE` stores the non-empty "FALSE". */
  lemma CustDirective(v: string)
    ensures Classify("//CUST=" + v) == SetCust(Strip(v))
  {
    KeyedLine("//CUST=", v);
    RecognizeCust(TrimRight(v));
  }

  lemma ComDirective(v: string)
    ensures Classify("//COM=" + v) == SetCom(ComPort(Strip(v)))
  {
    KeyedLine("//COM=", v);
    RecognizeCom(TrimRight(v));
  }

  lemma PlatformDirective(v: string)
    ensures Classify("//PLATFORM=" + v) == SetPlatform(PlatformValue(Strip(v)))
  {
    KeyedLine("//PLATFORM=", v);
    RecognizePlatform(TrimRight(v));
  }

  /**
   * Bare chip lines match by prefix: `//ESP32S3...` and `//ESP32C3...` pick
   * the newer chips, while `//ESP32_S3` only matches `//ESP32` and gives esp32.
   */
  lemma BareChipDirectives(v: string)
    ensures Classify("//ESP32S3" + v) == SetPlatform("esp32s3")
    ensures Classify("//ESP32C3" + v) == SetPlatform("esp32c3")
    ensures Classify("//ESP32_S3" + v) == SetPlatform("esp32")
  {
    StripAfterPrefix("//ESP32S3", v);
    StripAfterPrefix("//ESP32C3", v);
    StripAfterPrefix("//ESP32_S3", v);
    RecognizeS3(TrimRight(v));
    RecognizeC3(TrimRight(v));
    RecognizeUnderscored(TrimRight(v));
  }

  /** Writing the "COM" prefix (in any case) in front of a port value changes nothing. */
  lemma ComPrefixIgnored(p: string, v: string)
    requires Upper(p) == "COM"
    ensures ComPort(p + v) == ComPort(v)
  {
    assert Upper(p + v) == "COM" + Upper(v);
    ReplaceLeading("COM", Upper(v), "");
  }

  /** `//COM=5` and `//COM=com5` both name COM5. */
  lemma ComSpellings()
    ensures ComPort("5") == ComPort("com5") == "COM5"
  {
    assert Upper("com") == "COM";
    assert "com5" == "com" + "5";
    ComPrefixIgnored("com", "5");
    assert Upper("5") == "5";
    ReplaceAbsent("5", "COM", "");
  }

  /** `//PLATFORM=ESP32S3` and `//PLATFORM=ESP32_S3` both give esp32s3; anything unknown gives esp32. */
  lemma PlatformSpellings()
    ensures PlatformValue("ESP32S3") == PlatformValue("esp32_s3") == "esp32s3"
    ensures PlatformValue("esp32c3") == PlatformValue("ESP32_C3") == "esp32c3"
    ensures PlatformValue("ESP8266") == PlatformValue("") == "esp32"
  {
    UpperMatches("ESP32S3", "ESP32S3");
    UpperMatches("esp32_s3", "ESP32_S3");
    UpperMatches("esp32c3", "ESP32C3");
    UpperMatches("ESP32_C3", "ESP32_C3");
    UpperMatches("ESP8266", "ESP8266");
    UpperMatches("", "");
  }
}
