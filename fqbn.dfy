/**
 * The fully qualified board name handed to the Arduino command line (`build_fqbn`):
 * a base per chip, the partition scheme, and a PSRAM option only the core understands.
 */
module BoardDescriptor {
  import opened Wrappers
  import opened PyStr
  import opened Directives
  import opened SeqFacts

  /** The chip named by the base: the platform itself when known, esp32 otherwise. */
  function BoardChip(platform: string): (r: string)
    ensures r in Chips
    ensures r == platform || r == "esp32"
    ensures platform in Chips ==> r == platform
  {
    if platform == "esp32s3" then "esp32s3"
    else if platform == "esp32c3" then "esp32c3"
    else "esp32"
  }

  /** The base of the board name, chosen by platform with esp32 as the fallback. */
  function BoardBase(platform: string): string
  {
    if platform == "esp32" then "esp32:esp32:esp32"
    else if platform == "esp32s3" then "esp32:esp32:esp32s3"
    else if platform == "esp32c3" then "esp32:esp32:esp32c3"
    else "esp32:esp32:esp32"
  }

  /** The key the PSRAM tables are tested on: upper-cased with every space removed. */
  function PsramKey(v: string): string
  {
    Replace(Upper(v), " ", "")
  }

  const OpiKeys: set<string> := {"OPI", "ON", "EN", "ENABLED", "QIO_OPI", "OCTAL"}
  const QspiKeys: set<string> := {"QPI", "QSPI"}
  const OffKeys: set<string> := {"OFF", "NONE", "DIS", "DISABLED"}
  const OnKeys: set<string> := {"ON", "EN", "ENABLED"}

  /** The PSRAM menu value: a per-chip table, and the value as written when no entry matches. */
  function PsramValue(platform: string, v: string): (r: string)
    ensures r in {"opi", "qspi", "disabled", "enabled"} || r == v
  {
    var k := PsramKey(v);
    if platform == "esp32s3" then
      if k in OpiKeys then "opi"
      else if k in QspiKeys then "qspi"
      else if k in OffKeys then "disabled"
      else v
    else if platform == "esp32" then
      if k in OnKeys then "enabled"
      else if k in OffKeys then "disabled"
      else v
    else v
  }

  /** `,PSRAM=<value>` when PSRAM is set to a non-empty value, nothing otherwise. */
  function PsramOption(platform: string, psram: Option<string>): string
  {
    if psram.None? || psram.value == [] then ""
    else ",PSRAM=" + PsramValue(platform, psram.value)
  }

  /** `build_fqbn`: base, then the partition scheme, then the optional PSRAM option. */
  function BuildFqbn(cfg: Config): string
  {
    BoardBase(cfg.platform) + ":PartitionScheme=" + (cfg.part + PsramOption(cfg.platform, cfg.psram))
  }

  // ---------------------------------------------------------------------------
  // Reading the name back
  // ---------------------------------------------------------------------------

  /** The base is vendor, architecture and chip, separated by colons. */
  lemma BaseFields(platform: string)
    ensures BoardBase(platform) == "esp32" + [':'] + "esp32" + [':'] + BoardChip(platform)
  {
  }

  /** The options field: the scheme, then the PSRAM option if any. */
  function OptionsOf(cfg: Config): string
  {
    "PartitionScheme=" + (cfg.part + PsramOption(cfg.platform, cfg.psram))
  }

  /** Neither the scheme nor the PSRAM value holds the separator `c`. */
  predicate FreeOf(cfg: Config, c: char)
  {
    c !in cfg.part && (cfg.psram.Some? ==> c !in cfg.psram.value)
  }

  lemma PsramOptionFree(platform: string, psram: Option<string>, c: char)
    requires c != ',' && c != '=' && !('A' <= c <= 'Z') && !('a' <= c <= 'z')
    requires psram.Some? ==> c !in psram.value
    ensures c !in PsramOption(platform, psram)
  {
    if psram.Some? && psram.value != [] {
      var v := PsramValue(platform, psram.value);
      assert c !in v;
      assert PsramOption(platform, psram) == ",PSRAM=" + v;
    }
  }

  /**
   * Split at the colons, the name gives back vendor, architecture, the chip the
   * platform selects, and the options, provided no value holds a colon.
   */
  lemma FqbnFields(cfg: Config)
    requires FreeOf(cfg, ':')
    ensures Split(BuildFqbn(cfg), ':') == ["esp32", "esp32", BoardChip(cfg.platform), OptionsOf(cfg)]
  {
    var chip := BoardChip(cfg.platform);
    var opts := OptionsOf(cfg);
    OptionsFree(cfg, ':');
    FqbnJoined(cfg);
    SplitFour("esp32", "esp32", chip, opts, ':');
  }

  lemma OptionsFree(cfg: Config, c: char)
    requires FreeOf(cfg, c) && c != ',' && c != '=' && !('A' <= c <= 'Z') && !('a' <= c <= 'z')
    ensures c !in OptionsOf(cfg)
  {
    PsramOptionFree(cfg.platform, cfg.psram, c);
  }

  /** Regrouping a base of three colon-separated fields followed by a colon and more text. */
  lemma Regroup(base: string, e: string, chip: string, opts: string)
    requires base == e + [':'] + e + [':'] + chip
    ensures base + [':'] + opts == e + [':'] + (e + [':'] + (chip + [':'] + opts))
  {
  }

  lemma SchemeLiteral()
    ensures ":PartitionScheme=" == [':'] + "PartitionScheme="
  {
  }

  /** The name is the four fields joined by colons. */
  lemma FqbnJoined(cfg: Config)
    ensures BuildFqbn(cfg) == "esp32" + [':'] + ("esp32" + [':'] + (BoardChip(cfg.platform) + [':'] + OptionsOf(cfg)))
  {
    var base := BoardBase(cfg.platform);
    var lit := "PartitionScheme=";
    var tail := cfg.part + PsramOption(cfg.platform, cfg.psram);
    BaseFields(cfg.platform);
    SchemeLiteral();
    Reassociate(base, [':'], lit, tail);
    Regroup(base, "esp32", BoardChip(cfg.platform), lit + tail);
  }

  /**
   * Split at the commas, the options are the partition scheme and, only when PSRAM is
   * non-empty, the PSRAM value: no flash mode, frequency or size is ever emitted.
   */
  lemma FqbnOptions(cfg: Config)
    requires FreeOf(cfg, ',')
    ensures Split(OptionsOf(cfg), ',') ==
              ["PartitionScheme=" + cfg.part] +
              (if cfg.psram.None? || cfg.psram.value == [] then []
               else ["PSRAM=" + PsramValue(cfg.platform, cfg.psram.value)])
  {
    var head := "PartitionScheme=" + cfg.part;
    assert ',' !in head;
    if cfg.psram.None? || cfg.psram.value == [] {
      assert OptionsOf(cfg) == head;
      SplitNone(head, ',');
    } else {
      var v := PsramValue(cfg.platform, cfg.psram.value);
      var tail := "PSRAM=" + v;
      assert ',' !in v;
      assert OptionsOf(cfg) == head + [','] + tail;
      SplitAt(head, ',', tail);
      SplitNone(tail, ',');
    }
  }

  // ---------------------------------------------------------------------------
  // The PSRAM tables
  // ---------------------------------------------------------------------------

  /** The key is the value upper-cased with every space deleted, the other characters kept in order. */
  lemma PsramKeyOf(v: string)
    ensures PsramKey(v) == Without(Upper(v), ' ')
  {
    ReplaceDelete(Upper(v), ' ');
  }

  /** Case is ignored: values equal up to case map alike whenever their key is in the chip's table. */
  lemma PsramCaseless(platform: string, a: string, b: string)
    requires Upper(a) == Upper(b)
    requires (platform == "esp32s3" && PsramKey(a) in OpiKeys + QspiKeys + OffKeys)
          || (platform == "esp32" && PsramKey(a) in OnKeys + OffKeys)
    ensures PsramValue(platform, a) == PsramValue(platform, b)
  {
    assert PsramKey(a) == PsramKey(b);
  }

  /** On an S3 the three tables give opi, qspi and disabled. */
  lemma S3Psram(v: string)
    ensures PsramKey(v) in OpiKeys ==> PsramValue("esp32s3", v) == "opi"
    ensures PsramKey(v) in QspiKeys ==> PsramValue("esp32s3", v) == "qspi"
    ensures PsramKey(v) in OffKeys ==> PsramValue("esp32s3", v) == "disabled"
    ensures PsramKey(v) !in OpiKeys + QspiKeys + OffKeys ==> PsramValue("esp32s3", v) == v
  {
    assert OpiKeys * QspiKeys == {} && OpiKeys * OffKeys == {} && QspiKeys * OffKeys == {} by {
      assert "OPI"[0] != "QPI"[0];
    }
  }

  /** On an esp32 ON/EN/ENABLED give enabled and the off spellings disabled. */
  lemma Esp32Psram(v: string)
    ensures PsramKey(v) in OnKeys ==> PsramValue("esp32", v) == "enabled"
    ensures PsramKey(v) in OffKeys ==> PsramValue("esp32", v) == "disabled"
    ensures PsramKey(v) !in OnKeys + OffKeys ==> PsramValue("esp32", v) == v
  {
  }

  /** Every other platform, the C3 included, passes the value through as written. */
  lemma OtherPsram(platform: string, v: string)
    requires platform !in {"esp32s3", "esp32"}
    ensures PsramValue(platform, v) == v
  {
  }

  /** "on" means OPI on an S3 but plain enabled on an esp32; "Q SPI", the space dropped, is qspi. */
  lemma PsramSpellings(v: string, w: string)
    requires Upper(v) == "ON" && Upper(w) == "Q SPI"
    ensures PsramValue("esp32s3", v) == "opi" && PsramValue("esp32", v) == "enabled"
    ensures PsramValue("esp32c3", v) == v && PsramValue("esp32s3", w) == "qspi"
  {
    OnKey(v);
    QSpiKey(w);
    S3Psram(v);
    Esp32Psram(v);
    S3Psram(w);
  }

  lemma OnKey(v: string)
    requires Upper(v) == "ON"
    ensures PsramKey(v) == "ON"
  {
    PsramKeyOf(v);
    assert "ON"[1..] == "N" && "N"[1..] == [];
  }

  lemma QSpiKey(w: string)
    requires Upper(w) == "Q SPI"
    ensures PsramKey(w) == "QSPI"
  {
    PsramKeyOf(w);
    assert "Q SPI"[1..] == " SPI" && " SPI"[1..] == "SPI";
    assert Without("SPI", ' ') == "SPI" by {
      assert "SPI"[1..] == "PI" && "PI"[1..] == "I" && "I"[1..] == [];
    }
  }

  /** An empty or absent PSRAM value adds no option at all. */
  lemma NoPsramNoOption(cfg: Config)
    requires cfg.psram.None? || cfg.psram == Some([])
    ensures BuildFqbn(cfg) == BoardBase(cfg.platform) + ":PartitionScheme=" + cfg.part
  {
  }
}
