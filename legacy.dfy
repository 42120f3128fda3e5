/**
 * The earlier script, `bf4.py`: its own directive parser (five fields, no alias
 * tables), the board name it compiles with, and its fixed classic-ESP32 merge layout.
 */
module Legacy {
  import opened Wrappers
  import opened PyStr
  import opened PyInt
  import opened FileSystem
  import opened SeqFacts
  import MergeLayout

  // ---------------------------------------------------------------------------
  // Directives
  // ---------------------------------------------------------------------------

  /** The `cfg` dict of the earlier script. */
  datatype Config = Config(part: string, com: Option<string>, erase: bool, psram: Option<string>, flashSize: string)

  const Defaults := Config("minimal", None, false, None, "4MB")

  /** What one sketch line asks for, with the value as it is stored. */
  datatype Directive =
    | Ignored
    | SetPart(part: string)
    | SetCom(com: string)
    | SetErase(erase: bool)
    | SetPsram(psram: string)
    | SetFlashSize(flashSize: string)

  /** `line.split("=")[1].strip()`: the text between the first and the second `=`, trimmed. */
  function ValueOf(line: string): string
    requires '=' in line
  {
    Strip(Split(line, '=')[1])
  }

  /** The body of the loop: strip the line, then the first prefix that matches decides. */
  function Classify(raw: string): Directive
  {
    Recognize(Strip(raw))
  }

  /** The `if`/`elif` chain over a stripped line. */
  function Recognize(line: string): Directive
  {
    if "//PART=" <= line then
      assert line[6] == '='; SetPart(ValueOf(line))
    else if "//COM=" <= line then
      assert line[5] == '='; SetCom("COM" + ValueOf(line))
    else if "//ERASE=" <= line then
      assert line[7] == '='; SetErase(Lower(ValueOf(line)) == "true")
    else if "//PSRAM=" <= line then
      assert line[7] == '='; SetPsram(Upper(ValueOf(line)))
    else if "//FLASH-SIZE=" <= line then
      assert line[12] == '='; FlashSizeOf(ValueOf(line))
    else Ignored
  }

  /** `if val.isdigit(): cfg["FLASH-SIZE"] = f"{val}MB"`; any other value writes nothing. */
  function FlashSizeOf(val: string): Directive
  {
    if IsDigits(val) then SetFlashSize(val + "MB") else Ignored
  }

  datatype Field = PartField | ComField | EraseField | PsramField | FlashSizeField

  datatype FieldValue = Text(text: string) | MaybeText(maybe: Option<string>) | Flag(flag: bool)

  function Get(cfg: Config, f: Field): FieldValue
  {
    match f
    case PartField => Text(cfg.part)
    case ComField => MaybeText(cfg.com)
    case EraseField => Flag(cfg.erase)
    case PsramField => MaybeText(cfg.psram)
    case FlashSizeField => Text(cfg.flashSize)
  }

  /** The field a directive writes, if any. */
  function Target(d: Directive): Option<Field>
  {
    match d
    case Ignored => None
    case SetPart(_) => Some(PartField)
    case SetCom(_) => Some(ComField)
    case SetErase(_) => Some(EraseField)
    case SetPsram(_) => Some(PsramField)
    case SetFlashSize(_) => Some(FlashSizeField)
  }

  /** The value a directive writes into its field. */
  function Written(d: Directive): FieldValue
    requires d != Ignored
  {
    match d
    case SetPart(v) => Text(v)
    case SetCom(v) => MaybeText(Some(v))
    case SetErase(b) => Flag(b)
    case SetPsram(v) => MaybeText(Some(v))
    case SetFlashSize(v) => Text(v)
  }

  /** One assignment `cfg[KEY] = value`: the target field changes, every other field is kept. */
  function Apply(cfg: Config, d: Directive): (r: Config)
    ensures forall f :: Get(r, f) == if Target(d) == Some(f) then Written(d) else Get(cfg, f)
  {
    match d
    case Ignored => cfg
    case SetPart(v) => cfg.(part := v)
    case SetCom(v) => cfg.(com := Some(v))
    case SetErase(b) => cfg.(erase := b)
    case SetPsram(v) => cfg.(psram := Some(v))
    case SetFlashSize(v) => cfg.(flashSize := v)
  }

  /** The configuration the loop has built after the given lines: each line applied in turn to the defaults. */
  function Parse(lines: seq<string>): Config
  {
    if lines == [] then Defaults else Apply(Parse(lines[..|lines| - 1]), Classify(lines[|lines| - 1]))
  }

  /**
   * `parse_directives`: reading happens inside a `try`, so whatever stops it (the
   * open, or a line that cannot be decoded) leaves the configuration of the lines
   * read so far, which is all defaults when nothing was read.
   */
  method ParseDirectives(src: SourceFile) returns (r: Config)
    ensures r == Parse(src.lines)
  {
    var lines := src.lines;
    var cfg := Defaults;
    var i := 0;
    while i < |lines|
      invariant 0 <= i <= |lines|
      invariant cfg == Parse(lines[..i])
    {
      assert lines[..i + 1][..i] == lines[..i];
      cfg := Apply(cfg, Classify(lines[i]));
      i := i + 1;
    }
    assert lines[..|lines|] == lines;
    return cfg;
  }

  // ---------------- properties of the parser ----------------

  lemma ParseStep(lines: seq<string>, line: string)
    ensures Parse(lines + [line]) == Apply(Parse(lines), Classify(line))
  {
    DropLast(lines, line);
  }

  /** Lines that never write `f`, read after `pre`, leave `f` as `pre` left it. */
  lemma {:induction false} UntouchedField(pre: seq<string>, post: seq<string>, f: Field)
    requires forall j :: 0 <= j < |post| ==> Target(Classify(post[j])) != Some(f)
    ensures Get(Parse(pre + post), f) == Get(Parse(pre), f)
    decreases |post|
  {
    if post == [] {
      Unit(pre);
    } else {
      var init, last := post[..|post| - 1], post[|post| - 1];
      UntouchedField(pre, init, f);
      Snoc(pre, post);
      ParseStep(pre + init, last);
    }
  }

  /** Later line wins: a field holds what the last line writing it wrote. */
  lemma LastLineWins(lines: seq<string>, k: nat, f: Field)
    requires k < |lines| && Target(Classify(lines[k])) == Some(f)
    requires forall j :: k < j < |lines| ==> Target(Classify(lines[j])) != Some(f)
    ensures Get(Parse(lines), f) == Written(Classify(lines[k]))
  {
    var pre, post := lines[..k] + [lines[k]], lines[k + 1..];
    Around(lines, k);
    UntouchedField(pre, post, f);
    ParseStep(lines[..k], lines[k]);
  }

  /** A field no line writes keeps its default; so an unreadable file gives the defaults. */
  lemma UnwrittenFieldKeepsDefault(lines: seq<string>, f: Field)
    requires forall j :: 0 <= j < |lines| ==> Target(Classify(lines[j])) != Some(f)
    ensures Get(Parse(lines), f) == Get(Defaults, f)
    ensures Parse([]) == Defaults
  {
    UntouchedField([], lines, f);
    Unit(lines);
  }

  /** A line the parser ignores can be removed from anywhere in the file. */
  lemma {:induction false} IgnoredLineChangesNothing(a: seq<string>, line: string, b: seq<string>)
    requires Classify(line) == Ignored
    ensures Parse(a + [line] + b) == Parse(a + b)
    decreases |b|
  {
    if b == [] {
      Unit(a + [line]);
      Unit(a);
      ParseStep(a, line);
    } else {
      var init, last := b[..|b| - 1], b[|b| - 1];
      IgnoredLineChangesNothing(a, line, init);
      Snoc(a + [line], b);
      Snoc(a, b);
      ParseStep(a + [line] + init, last);
      ParseStep(a + init, last);
    }
  }

  // ---------------- the directive table ----------------

  /** A line `<key>=<v>`, stripped, is the key and the value trimmed on the right. */
  lemma KeyedLine(p: string, v: string)
    requires |p| >= 2 && p[|p| - 1] == '=' && '=' !in p[..|p| - 1] && !IsSpace(p[0])
    ensures Strip(p + v) == p + TrimRight(v)
    ensures '=' in p + TrimRight(v) && ValueOf(p + TrimRight(v)) == Strip(Split(TrimRight(v), '=')[0])
  {
    StripAfterPrefix(p, v);
    var q, t := p[..|p| - 1], TrimRight(v);
    LastApart(p, t);
    SplitAt(q, '=', t);
    assert Split(p + t, '=') == [q] + Split(t, '=');
    assert Split(p + t, '=')[1] == Split(t, '=')[0];
  }

  /** A value without `=` is taken whole, trimmed. */
  lemma PlainValue(v: string)
    requires '=' !in v
    ensures Strip(Split(TrimRight(v), '=')[0]) == Strip(v)
  {
    assert '=' !in TrimRight(v);
    SplitNone(TrimRight(v), '=');
    StripTrimRight(v);
  }

  /** A value with a second `=` is cut there: `//PART=a=b` carries "a". */
  lemma CutValue(a: string, b: string)
    requires '=' !in a
    ensures Strip(Split(TrimRight(a + "=" + b), '=')[0]) == Strip(a)
  {
    TrimRightAfter(a + "=", b);
    assert a + "=" + TrimRight(b) == a + ['='] + TrimRight(b);
    SplitAt(a, '=', TrimRight(b));
  }

  lemma RecognizePart(w: string)
    ensures var line := "//PART=" + w; '=' in line && Recognize(line) == SetPart(ValueOf(line))
  {
    var line := "//PART=" + w;
    assert "//PART=" <= line;
  }

  lemma RecognizeCom(w: string)
    ensures var line := "//COM=" + w; '=' in line && Recognize(line) == SetCom("COM" + ValueOf(line))
  {
    var line := "//COM=" + w;
    assert line[2] == 'C' && !("//PART=" <= line);
    assert "//COM=" <= line;
  }

  lemma RecognizeErase(w: string)
    ensures var line := "//ERASE=" + w; '=' in line && Recognize(line) == SetErase(Lower(ValueOf(line)) == "true")
  {
    var line := "//ERASE=" + w;
    assert line[2] == 'E' && !("//PART=" <= line) && !("//COM=" <= line);
    assert "//ERASE=" <= line;
  }

  lemma RecognizePsram(w: string)
    ensures var line := "//PSRAM=" + w; '=' in line && Recognize(line) == SetPsram(Upper(ValueOf(line)))
  {
    var line := "//PSRAM=" + w;
    assert line[3] == 'S' && !("//PART=" <= line);
    assert line[2] == 'P' && !("//COM=" <= line) && !("//ERASE=" <= line);
    assert "//PSRAM=" <= line;
  }

  lemma RecognizeFlashSize(w: string)
    ensures var line := "//FLASH-SIZE=" + w;
      '=' in line && Recognize(line) == FlashSizeOf(ValueOf(line))
  {
    var line := "//FLASH-SIZE=" + w;
    assert line[2] == 'F';
    assert !("//PART=" <= line) && !("//COM=" <= line) && !("//ERASE=" <= line) && !("//PSRAM=" <= line);
    assert "//FLASH-SIZE=" <= line;
  }

  /** `//PART=` stores the value as written, trimmed: there is no alias table here. */
  lemma PartDirective(v: string)
    requires '=' !in v
    ensures Classify("//PART=" + v) == SetPart(Strip(v))
  {
    KeyedLine("//PART=", v);
    RecognizePart(TrimRight(v));
    PlainValue(v);
  }

  /** Only the text up to a second `=` counts. */
  lemma PartCut(a: string, b: string)
    requires '=' !in a
    ensures Classify("//PART=" + (a + "=" + b)) == SetPart(Strip(a))
  {
    KeyedLine("//PART=", a + "=" + b);
    RecognizePart(TrimRight(a + "=" + b));
    CutValue(a, b);
  }

  /** `//COM=` puts "COM" in front of whatever is written, even "COM5" (giving "COMCOM5"). */
  lemma ComDirective(v: string)
    requires '=' !in v
    ensures Classify("//COM=" + v) == SetCom("COM" + Strip(v))
  {
    KeyedLine("//COM=", v);
    RecognizeCom(TrimRight(v));
    PlainValue(v);
  }

  /** So a value that already starts with "COM" gets the prefix twice: "COM5" is stored as "COMCOM5". */
  lemma ComDuplicated(v: string)
    requires '=' !in v && "COM" <= v && Strip(v) == v
    ensures Classify("//COM=" + v) == SetCom("COMCOM" + v[3..])
  {
    ComDirective(v);
    DoublePrefix(v);
  }

  lemma DoublePrefix(v: string)
    requires "COM" <= v
    ensures "COM" + v == "COMCOM" + v[3..]
  {
    assert v == "COM" + v[3..];
  }

  /** ERASE is true exactly for "true" in any case. */
  lemma EraseDirective(v: string)
    requires '=' !in v
    ensures Classify("//ERASE=" + v) == SetErase(Lower(Strip(v)) == "true")
  {
    KeyedLine("//ERASE=", v);
    RecognizeErase(TrimRight(v));
    PlainValue(v);
  }

  /** PSRAM is stored upper-cased. */
  lemma PsramDirective(v: string)
    requires '=' !in v
    ensures Classify("//PSRAM=" + v) == SetPsram(Upper(Strip(v)))
  {
    KeyedLine("//PSRAM=", v);
    RecognizePsram(TrimRight(v));
    PlainValue(v);
  }

  /**
   * FLASH-SIZE is `<digits>MB` for a non-empty all-digit value, with no check against
   * the sizes that exist; any other value leaves the previous size in place.
   */
  lemma FlashSizeDirective(v: string)
    requires '=' !in v
    ensures IsDigits(Strip(v)) ==> Classify("//FLASH-SIZE=" + v) == SetFlashSize(Strip(v) + "MB")
    ensures !IsDigits(Strip(v)) ==> Classify("//FLASH-SIZE=" + v) == Ignored
  {
    KeyedLine("//FLASH-SIZE=", v);
    RecognizeFlashSize(TrimRight(v));
    PlainValue(v);
  }

  /** Nothing but a recognised prefix starts a directive: `//-PART=` and `//FLASH=` are plain comments. */
  lemma DisabledIgnored(v: string)
    ensures Classify("//-PART=" + v) == Ignored
  {
    StripAfterPrefix("//-PART=", v);
    DisabledLine(TrimRight(v));
  }

  lemma DisabledLine(w: string)
    ensures Recognize("//-PART=" + w) == Ignored
  {
    var a := "//-PART=" + w;
    assert a[2] == '-';
    Differs("//PART=", a, 2);
    Differs("//COM=", a, 2);
    Differs("//ERASE=", a, 2);
    Differs("//PSRAM=", a, 2);
    Differs("//FLASH-SIZE=", a, 2);
  }

  lemma ShortFlashIgnored(v: string)
    ensures Classify("//FLASH=" + v) == Ignored
  {
    StripAfterPrefix("//FLASH=", v);
    ShortFlashLine(TrimRight(v));
  }

  lemma ShortFlashLine(w: string)
    ensures Recognize("//FLASH=" + w) == Ignored
  {
    var b := "//FLASH=" + w;
    assert b[2] == 'F' && b[7] == '=';
    Differs("//PART=", b, 2);
    Differs("//COM=", b, 2);
    Differs("//ERASE=", b, 2);
    Differs("//PSRAM=", b, 2);
    Differs("//FLASH-SIZE=", b, 7);
  }

  // ---------------------------------------------------------------------------
  // Board name
  // ---------------------------------------------------------------------------

  const Board := "esp32:esp32:esp32"

  /** The board name of `compile_sketch`: fixed flash options, the scheme, an optional PSRAM. */
  function Fqbn(part: string, psram: Option<string>): string
  {
    var fqbn := Board + ":FlashMode=qio" + "," + "FlashFreq=80" + "," + "PartitionScheme=" + part;
    if psram.Some? && psram.value != [] then fqbn + ",PSRAM=" + psram.value else fqbn
  }

  /**
   * Split at the commas the name is the fixed flash options and the scheme, plus the
   * PSRAM value exactly when it is non-empty, passed through unmapped.
   */
  lemma FqbnOptions(part: string, psram: Option<string>)
    requires ',' !in part && (psram.Some? ==> ',' !in psram.value)
    ensures Split(Fqbn(part, psram), ',') ==
      [Board + ":FlashMode=qio", "FlashFreq=80", "PartitionScheme=" + part] +
      (if psram.Some? && psram.value != [] then ["PSRAM=" + psram.value] else [])
  {
    var a, b, c := Board + ":FlashMode=qio", "FlashFreq=80", "PartitionScheme=" + part;
    assert ',' !in a && ',' !in b && ',' !in c;
    FqbnJoined(part, psram);
    if psram.Some? && psram.value != [] {
      var d := "PSRAM=" + psram.value;
      assert ',' !in d;
      SplitFour(a, b, c, d, ',');
    } else {
      SplitThree(a, b, c, ',');
    }
  }

  /** The name is its comma-separated options, joined. */
  lemma FqbnJoined(part: string, psram: Option<string>)
    ensures var a, b, c := Board + ":FlashMode=qio", "FlashFreq=80", "PartitionScheme=" + part;
      if psram.Some? && psram.value != [] then
        Fqbn(part, psram) == a + [','] + (b + [','] + (c + [','] + ("PSRAM=" + psram.value)))
      else Fqbn(part, psram) == a + [','] + (b + [','] + c)
  {
    var a, b, p := Board + ":FlashMode=qio", "FlashFreq=80", "PartitionScheme=";
    Regroup(a, b, p, part);
    if psram.Some? && psram.value != [] {
      Regroup4(a, b, p + part, psram.value);
    }
  }

  lemma Regroup(a: string, b: string, p: string, part: string)
    ensures a + "," + b + "," + p + part == a + [','] + (b + [','] + (p + part))
  {
  }

  lemma Regroup4(a: string, b: string, c: string, d: string)
    ensures a + [','] + (b + [','] + c) + ",PSRAM=" + d == a + [','] + (b + [','] + (c + [','] + ("PSRAM=" + d)))
  {
  }

  // ---------------------------------------------------------------------------
  // Merge
  // ---------------------------------------------------------------------------

  /** The offsets as the command writes them, in order, with the image each one places. */
  function Offsets(): seq<string>
  {
    ["0x1000", "0x8000", "0xe000", "0x10000"]
  }

  /** Where the build keeps the images: `build/esp32.esp32.esp32` if it exists, else the build folder. */
  function BuildSub(buildDir: string, existing: set<string>): string
  {
    var sub := Join(Join(buildDir, "build"), "esp32.esp32.esp32");
    if sub in existing then sub else buildDir
  }

  function Required(buildDir: string, inoName: string, existing: set<string>): seq<string>
  {
    var sub := BuildSub(buildDir, existing);
    var base := Stem(inoName);
    [Join(sub, base + ".ino.bootloader.bin"), Join(sub, base + ".ino.partitions.bin"),
     Join(sub, base + ".ino.bin"), MergeLayout.BootApp0]
  }

  /** The command: fixed chip, the output, the flash size, then the four offset/image pairs. */
  function Command(merged: string, flashSize: string, boot: string, part: string, app: string): string
  {
    MergeLayout.Quote(MergeLayout.Esptool) + " --chip esp32 merge-bin -o " + MergeLayout.Quote(merged)
      + " --flash-size " + flashSize
      + " " + Offsets()[0] + " " + MergeLayout.Quote(boot)
      + " " + Offsets()[1] + " " + MergeLayout.Quote(part)
      + " " + Offsets()[2] + " " + MergeLayout.Quote(MergeLayout.BootApp0)
      + " " + Offsets()[3] + " " + MergeLayout.Quote(app)
  }

  /** A missing input stops the run; a merged file the tool did not write stops it too. */
  datatype MergeResult = MissingFile(path: string) | NotCreated(command: string) | Merged(command: string, output: string)

  /**
   * `merge_bin`: `existing` are the paths present before the tool runs, and `written`
   * whether the merged file exists after it.
   */
  function MergeOf(buildDir: string, inoName: string, flashSize: string, existing: set<string>, written: bool): MergeResult
  {
    var req := Required(buildDir, inoName, existing);
    var merged := Join(buildDir, Stem(inoName) + "_merged.bin");
    match FirstAbsent(req, existing)
    case Some(p) => MissingFile(p)
    case None =>
      var cmd := Command(merged, flashSize, req[0], req[1], req[2]);
      if written then Merged(cmd, merged) else NotCreated(cmd)
  }

  /** The existence check runs in a loop before the command is built. */
  method MergeBin(buildDir: string, inoName: string, flashSize: string, existing: set<string>, written: bool)
    returns (r: MergeResult)
    ensures r == MergeOf(buildDir, inoName, flashSize, existing, written)
  {
    var baseName := Stem(inoName);
    var buildSub := Join(Join(buildDir, "build"), "esp32.esp32.esp32");
    if buildSub !in existing {
      buildSub := buildDir;
    }
    var boot := Join(buildSub, baseName + ".ino.bootloader.bin");
    var part := Join(buildSub, baseName + ".ino.partitions.bin");
    var app := Join(buildSub, baseName + ".ino.bin");
    var merged := Join(buildDir, baseName + "_merged.bin");
    var missing := FirstMissing([boot, part, app, MergeLayout.BootApp0], existing);
    if missing.Some? {
      return MissingFile(missing.value);
    }
    var cmd := Command(merged, flashSize, boot, part, app);
    if !written {
      return NotCreated(cmd);
    }
    return Merged(cmd, merged);
  }

  /** The offsets read as 0x1000, 0x8000, 0xE000 and 0x10000: strictly increasing, bootloader first. */
  lemma OffsetsIncrease()
    ensures |Offsets()| == 4
    ensures forall i :: 0 <= i < 4 ==> ParseInt(Offsets()[i]).Some?
    ensures ParseInt(Offsets()[0]) == Some(0x1000) && ParseInt(Offsets()[1]) == Some(0x8000)
    ensures ParseInt(Offsets()[2]) == Some(0xE000) && ParseInt(Offsets()[3]) == Some(0x10000)
  {
    var o := Offsets();
    OffsetDigits();
    HexOffset(o[0], "1000", 0x1000);
    HexOffset(o[1], "8000", 0x8000);
    HexOffset(o[2], "e000", 0xE000);
    HexOffset(o[3], "10000", 0x10000);
  }

  /** The digit strings after `0x`, read in base 16. */
  lemma OffsetDigits()
    ensures Value("1000", 16) == 0x1000 && Value("8000", 16) == 0x8000
    ensures Value("e000", 16) == 0xE000 && Value("10000", 16) == 0x10000
  {
    assert "1000"[..3] == "100" && "100"[..2] == "10" && "10"[..1] == "1";
    assert "8000"[..3] == "800" && "800"[..2] == "80" && "80"[..1] == "8";
    assert "e000"[..3] == "e00" && "e00"[..2] == "e0" && "e0"[..1] == "e";
    assert "10000"[..4] == "1000";
  }

  /** `0x` followed by hexadecimal digits of value `n` reads as `n`. */
  lemma HexOffset(w: string, digits: string, n: nat)
    requires w == "0x" + digits && digits != [] && AllHex(digits) && Value(digits, 16) == n
    ensures ParseInt(w) == Some(n)
  {
    assert w[2..] == digits;
  }

  /** A missing input stops the run before any command is built; otherwise the tool decides. */
  lemma MissingStops(buildDir: string, inoName: string, flashSize: string, existing: set<string>, written: bool)
    ensures MergeOf(buildDir, inoName, flashSize, existing, written).MissingFile? <==>
      exists p :: p in Required(buildDir, inoName, existing) && p !in existing
    ensures (forall p :: p in Required(buildDir, inoName, existing) ==> p in existing) ==>
      (MergeOf(buildDir, inoName, flashSize, existing, written).Merged? <==> written)
    ensures var r, req := MergeOf(buildDir, inoName, flashSize, existing, written), Required(buildDir, inoName, existing);
      r.MissingFile? ==>
        r.path !in existing &&
        exists k :: 0 <= k < |req| && req[k] == r.path && forall j :: 0 <= j < k ==> req[j] in existing
  {
    var req := Required(buildDir, inoName, existing);
    var r := MergeOf(buildDir, inoName, flashSize, existing, written);
    match FirstAbsent(req, existing)
    case Some(p) =>
      assert r.MissingFile? && r.path == p;
      var k :| 0 <= k < |req| && req[k] == p && p !in existing;
      assert req[k] in req;
    case None =>
      assert !r.MissingFile? && (r.Merged? <==> written);
      forall p | p in req
        ensures p in existing
      {
        var i :| 0 <= i < |req| && req[i] == p;
      }
  }
}
