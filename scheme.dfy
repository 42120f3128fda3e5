/**
 * Choice of the partition scheme (`auto_choose_partition`), the capacity test of the
 * SPIFFS image builder (`make_spiffs_image`) and the gate in `main` that decides whether
 * a SPIFFS image is flashed, and where.
 */
module SchemeSelector {
  import opened Wrappers
  import opened PyStr
  import opened Directives
  import opened PartitionTable

  /** Bytes kept free for the filesystem's own structures. */
  const Margin: int := 4096

  /** The chooser's own min_spiffs keys: narrower than the parser's table (no misspellings). */
  const ChooserMsKeys: set<string> := {"MS", "MINIMAL_SPIFFS", "MIN_SPIFFS"}

  /** Keys that leave the choice to the payload size. */
  const AutoOrBlank: set<string> := {"", "AUTO", "AUT"}

  /** The three schemes the chooser can name on its own. */
  const Schemes: set<string> := {"min_spiffs", "huge_app", "default"}

  /** `size and data < size - margin`: a known, non-zero capacity with the margin to spare. */
  predicate Roomy(data: nat, size: Option<nat>)
  {
    size.Some? && size.value != 0 && data < size.value - Margin
  }

  /** The capacity reported for a scheme, if its table has a SPIFFS row. */
  function SizeOf(region: Option<Spiffs>): (r: Option<nat>)
    ensures r.Some? <==> region.Some?
    ensures region.Some? ==> r.value == region.value.size
  {
    match region
    case None => None
    case Some(s) => Some(s.size)
  }

  /**
   * `auto_choose_partition`: explicit aliases first, then a name used as given, then
   * (AUTO) the smaller scheme whose SPIFFS region still holds the payload.
   */
  function ChooseScheme(part: string, data: Option<nat>, sizeMin: Option<nat>, sizeHa: Option<nat>): (r: string)
    ensures r in Schemes || r == part
  {
    var u := AliasKey(part);
    if u in ChooserMsKeys then "min_spiffs"
    else if u in HaKeys then "huge_app"
    else if u in DefaultKeys then "default"
    else if u !in AutoOrBlank then part
    else AutoScheme(data, sizeMin, sizeHa)
  }

  /** The AUTO case: no payload gives default; otherwise min_spiffs, then huge_app, then default. */
  function AutoScheme(data: Option<nat>, sizeMin: Option<nat>, sizeHa: Option<nat>): (r: string)
    ensures r in Schemes
  {
    if data.None? then "default"
    else if Roomy(data.value, sizeMin) then "min_spiffs"
    else if Roomy(data.value, sizeHa) then "huge_app"
    else "default"
  }

  /**
   * The in-place update of `cfg["PART"]`: only the scheme changes, and the two tables
   * are consulted only in the AUTO case with a known payload.
   */
  method AutoChoosePartition(dir: PartitionDir, cfg: Config, data: Option<nat>) returns (r: Config)
    ensures r == cfg.(part := ChooseScheme(cfg.part, data,
                  SizeOf(SpiffsRegionOf(dir, "min_spiffs")), SizeOf(SpiffsRegionOf(dir, "huge_app"))))
  {
    ghost var m, h := SizeOf(SpiffsRegionOf(dir, "min_spiffs")), SizeOf(SpiffsRegionOf(dir, "huge_app"));
    var u := AliasKey(cfg.part);
    ExplicitAliases(cfg.part, data, m, h);
    if u in ChooserMsKeys {
      return cfg.(part := "min_spiffs");
    }
    if u in HaKeys {
      return cfg.(part := "huge_app");
    }
    if u in DefaultKeys {
      return cfg.(part := "default");
    }
    if u !in AutoOrBlank {
      assert ChooseScheme(cfg.part, data, m, h) == cfg.part;
      return cfg;
    }
    AutoDelegates(cfg.part, data, m, h);
    if data.None? {
      return cfg.(part := "default");
    }
    var regionMin := GetSpiffsRegion(dir, "min_spiffs");
    var regionHa := GetSpiffsRegion(dir, "huge_app");
    var sizeMin := SizeOf(regionMin);
    var sizeHa := SizeOf(regionHa);
    var d := data.value;
    var part: string;
    if sizeMin.Some? && sizeMin.value != 0 && d < sizeMin.value - Margin {
      part := "min_spiffs";
    } else if sizeHa.Some? && sizeHa.value != 0 && d < sizeHa.value - Margin {
      part := "huge_app";
    } else {
      part := "default";
    }
    return cfg.(part := part);
  }

  // ---------------------------------------------------------------------------
  // Properties of the choice
  // ---------------------------------------------------------------------------

  /** The AUTO keys and the empty key are in none of the alias tables. */
  lemma AutoKeysApart()
    ensures forall u :: u in AutoOrBlank ==> u !in ChooserMsKeys && u !in HaKeys && u !in DefaultKeys
  {
    KeyTablesDisjoint();
    assert ChooserMsKeys <= MsKeys;
    assert forall u :: u in MsKeys + HaKeys + DefaultKeys ==> |u| >= 2;
    assert AutoOrBlank == AutoKeys + {""};
  }

  /** An explicit alias names its scheme whatever the payload and the tables say. */
  lemma ExplicitAliases(part: string, data: Option<nat>, sizeMin: Option<nat>, sizeHa: Option<nat>)
    ensures AliasKey(part) in ChooserMsKeys ==> ChooseScheme(part, data, sizeMin, sizeHa) == "min_spiffs"
    ensures AliasKey(part) in HaKeys ==> ChooseScheme(part, data, sizeMin, sizeHa) == "huge_app"
    ensures AliasKey(part) in DefaultKeys ==> ChooseScheme(part, data, sizeMin, sizeHa) == "default"
  {
    KeyTablesDisjoint();
  }

  /** Any other non-AUTO name (default_8MB, no_ota, a custom table) is used unchanged. */
  lemma NamedSchemeKept(part: string, data: Option<nat>, sizeMin: Option<nat>, sizeHa: Option<nat>)
    requires AliasKey(part) !in ChooserMsKeys + HaKeys + DefaultKeys + AutoOrBlank
    ensures ChooseScheme(part, data, sizeMin, sizeHa) == part
  {
  }

  /** Outside the AUTO case the payload and the region sizes play no part. */
  lemma SizesIrrelevantUnlessAuto(part: string, d1: Option<nat>, m1: Option<nat>, h1: Option<nat>,
                                  d2: Option<nat>, m2: Option<nat>, h2: Option<nat>)
    requires AliasKey(part) !in AutoOrBlank
    ensures ChooseScheme(part, d1, m1, h1) == ChooseScheme(part, d2, m2, h2)
  {
    ExplicitAliases(part, d1, m1, h1);
    ExplicitAliases(part, d2, m2, h2);
  }

  /** With an AUTO key the choice is the size heuristic's alone. */
  lemma AutoDelegates(part: string, data: Option<nat>, sizeMin: Option<nat>, sizeHa: Option<nat>)
    requires AliasKey(part) in AutoOrBlank
    ensures ChooseScheme(part, data, sizeMin, sizeHa) == AutoScheme(data, sizeMin, sizeHa)
  {
    AutoKeysApart();
  }

  /** AUTO without a data directory falls back to the default scheme. */
  lemma AutoWithoutData(sizeMin: Option<nat>, sizeHa: Option<nat>)
    ensures AutoScheme(None, sizeMin, sizeHa) == "default"
  {
  }

  /**
   * AUTO with a payload: min_spiffs exactly when its region has room, huge_app exactly
   * when min_spiffs has not and huge_app has, default exactly when neither has.
   */
  lemma AutoChoice(d: nat, sizeMin: Option<nat>, sizeHa: Option<nat>)
    ensures AutoScheme(Some(d), sizeMin, sizeHa) == "min_spiffs" <==> Roomy(d, sizeMin)
    ensures AutoScheme(Some(d), sizeMin, sizeHa) == "huge_app" <==> !Roomy(d, sizeMin) && Roomy(d, sizeHa)
    ensures AutoScheme(Some(d), sizeMin, sizeHa) == "default" <==> !Roomy(d, sizeMin) && !Roomy(d, sizeHa)
  {
  }

  /** Room is strict: a payload that leaves exactly the margin free is refused. */
  lemma RoomyBoundary(d: nat, size: nat)
    requires size > 0
    ensures Roomy(d, Some(size)) <==> d + Margin < size
    ensures !Roomy(d, None) && !Roomy(d, Some(0))
  {
  }

  /** Room shrinks with the payload: what does not fit now does not fit a larger payload. */
  lemma RoomyMonotone(d: nat, e: nat, size: Option<nat>)
    requires d <= e && Roomy(e, size)
    ensures Roomy(d, size)
  {
  }

  /** With regions of 1 MiB (min_spiffs) and 3 MiB (huge_app), three payloads land on three schemes. */
  lemma AutoExamples()
    ensures AutoScheme(Some(900000), Some(1048576), Some(3145728)) == "min_spiffs"
    ensures AutoScheme(Some(1200000), Some(1048576), Some(3145728)) == "huge_app"
    ensures AutoScheme(Some(4000000), Some(1048576), Some(3145728)) == "default"
  {
  }

  /** The scheme names the chooser writes are themselves keys of its alias tables. */
  lemma SchemeKeys(t: string)
    requires t in Schemes
    ensures t == "min_spiffs" ==> AliasKey(t) in ChooserMsKeys
    ensures t == "huge_app" ==> AliasKey(t) in HaKeys
    ensures t == "default" ==> AliasKey(t) in DefaultKeys
  {
    if t == "min_spiffs" {
      UpperMatches(t, "MIN_SPIFFS");
      KeyOfSpelling(t, "MIN_SPIFFS", "MIN_SPIFFS");
    } else if t == "huge_app" {
      UpperMatches(t, "HUGE_APP");
      KeyOfSpelling(t, "HUGE_APP", "HUGE_APP");
    } else {
      UpperMatches(t, "DEFAULT");
      KeyOfSpelling(t, "DEFAULT", "DEFAULT");
    }
  }

  /** A scheme name the chooser produces is chosen again, unchanged. */
  lemma SchemeFixed(t: string, data: Option<nat>, sizeMin: Option<nat>, sizeHa: Option<nat>)
    requires t in Schemes
    ensures ChooseScheme(t, data, sizeMin, sizeHa) == t
  {
    SchemeKeys(t);
    ExplicitAliases(t, data, sizeMin, sizeHa);
  }

  /** Choosing again, with any payload and any tables, keeps the scheme chosen. */
  lemma ChooseIdempotent(part: string, d1: Option<nat>, m1: Option<nat>, h1: Option<nat>,
                         d2: Option<nat>, m2: Option<nat>, h2: Option<nat>)
    ensures ChooseScheme(ChooseScheme(part, d1, m1, h1), d2, m2, h2) == ChooseScheme(part, d1, m1, h1)
  {
    var r := ChooseScheme(part, d1, m1, h1);
    if r in Schemes {
      SchemeFixed(r, d2, m2, h2);
    } else {
      SizesIrrelevantUnlessAuto(part, d1, m1, h1, d2, m2, h2);
    }
  }

  /**
   * The parser's tokens resolve as their tables say: "MS" (from any spelling, the
   * misspelt ones included) to min_spiffs, "HA" to huge_app, "DEFAULT" to default,
   * and "AUTO" leaves the choice to the sizes.
   */
  lemma ParsedTokens(t: string, data: Option<nat>, sizeMin: Option<nat>, sizeHa: Option<nat>)
    requires t in {"MS", "HA", "DEFAULT", "AUTO"}
    ensures t == "MS" ==> ChooseScheme(t, data, sizeMin, sizeHa) == "min_spiffs"
    ensures t == "HA" ==> ChooseScheme(t, data, sizeMin, sizeHa) == "huge_app"
    ensures t == "DEFAULT" ==> ChooseScheme(t, data, sizeMin, sizeHa) == "default"
    ensures t == "AUTO" ==> AliasKey(t) in AutoOrBlank
  {
    TokenKey(t);
    ExplicitAliases(t, data, sizeMin, sizeHa);
  }

  /** The four tokens are their own keys. */
  lemma TokenKey(t: string)
    requires t in {"MS", "HA", "DEFAULT", "AUTO"}
    ensures AliasKey(t) == t
  {
    assert forall i :: 0 <= i < |t| ==> 'A' <= t[i] <= 'Z' && UpperChar(t[i]) == t[i];
    UpperMatches(t, t);
    KeyOfSpelling(t, t, t);
  }

  /** So a parsed alias from the wider parser table still selects min_spiffs. */
  lemma ParsedMsAlias(val: string, data: Option<nat>, sizeMin: Option<nat>, sizeHa: Option<nat>)
    requires val != [] && AliasKey(val) in MsKeys
    ensures ChooseScheme(NormPartAlias(val), data, sizeMin, sizeHa) == "min_spiffs"
  {
    MsTable(val);
    ParsedTokens(NormPartAlias(val), data, sizeMin, sizeHa);
  }

  // ---------------------------------------------------------------------------
  // Building and flashing the SPIFFS image
  // ---------------------------------------------------------------------------

  /** What `make_spiffs_image` reports, with the reason when no image was made. */
  datatype ImageResult = NoDataDir | TooLarge | ToolFailed | Built

  /**
   * `make_spiffs_image`: no data directory, then the capacity test `payload > size - 4096`,
   * then the external tool; `written` is whether the tool left the output file behind.
   */
  function MakeSpiffsImage(payload: Option<nat>, size: nat, written: bool): (r: ImageResult)
  {
    if payload.None? then NoDataDir
    else if payload.value > size - Margin then TooLarge
    else if !written then ToolFailed
    else Built
  }

  /** The capacity test in additive form: a payload is accepted up to exactly `size - 4096`. */
  lemma ImageCapacity(payload: nat, size: nat, written: bool)
    ensures MakeSpiffsImage(Some(payload), size, written) != TooLarge <==> payload + Margin <= size
    ensures MakeSpiffsImage(Some(payload), size, written) == Built <==> payload + Margin <= size && written
    ensures MakeSpiffsImage(None, size, written) == NoDataDir
  {
  }

  /** The capacity test is not strict, unlike the chooser's: the boundary payload is accepted. */
  lemma ImageBoundary(size: nat)
    requires size >= Margin
    ensures MakeSpiffsImage(Some(size - Margin), size, true) == Built
    ensures MakeSpiffsImage(Some(size - Margin + 1), size, true) == TooLarge
  {
  }

  /** `if cfg["CUST"]`: a CUST value that is present and not empty. */
  predicate CustEnabled(cust: Option<string>)
  {
    cust.Some? && cust.value != []
  }

  /**
   * The SPIFFS step of `main`: the offset at which the image is flashed, or None when
   * the step is skipped. `region` is the SPIFFS row of the chosen scheme's table.
   */
  function SpiffsFlashOffset(cust: Option<string>, region: Option<Spiffs>, payload: Option<nat>,
                             written: bool): (r: Option<nat>)
  {
    if !CustEnabled(cust) then None
    else if region.None? || region.value.size == 0 then None
    else if MakeSpiffsImage(payload, region.value.size, written) != Built then None
    else Some(region.value.offset)
  }

  /** An image is flashed exactly when every gate opens, and then at the region's offset. */
  lemma SpiffsGates(cust: Option<string>, region: Option<Spiffs>, payload: Option<nat>, written: bool)
    ensures SpiffsFlashOffset(cust, region, payload, written).Some? <==>
              CustEnabled(cust) && region.Some? && region.value.size != 0 &&
              payload.Some? && payload.value + Margin <= region.value.size && written
    ensures SpiffsFlashOffset(cust, region, payload, written).Some? ==>
              SpiffsFlashOffset(cust, region, payload, written).value == region.value.offset
  {
    if CustEnabled(cust) && region.Some? && region.value.size != 0 && payload.Some? {
      ImageCapacity(payload.value, region.value.size, written);
    }
  }

  /** Without CUST (absent, or the empty value) nothing is flashed to SPIFFS. */
  lemma NoCustNoSpiffs(cust: Option<string>, region: Option<Spiffs>, payload: Option<nat>, written: bool)
    requires cust.None? || cust == Some([])
    ensures SpiffsFlashOffset(cust, region, payload, written) == None
  {
  }

  /**
   * The margins agree: when AUTO picks min_spiffs or huge_app for a payload, the image
   * builder later accepts the same payload for the same table, so with CUST set and the
   * tool succeeding the image is flashed at that table's SPIFFS offset.
   */
  lemma AutoChoiceIsFlashable(dir: PartitionDir, part: string, d: nat, cust: Option<string>)
    requires AliasKey(part) in AutoOrBlank && CustEnabled(cust)
    requires ChooseScheme(part, Some(d), SizeOf(SpiffsRegionOf(dir, "min_spiffs")),
                          SizeOf(SpiffsRegionOf(dir, "huge_app"))) in {"min_spiffs", "huge_app"}
    ensures var chosen := ChooseScheme(part, Some(d), SizeOf(SpiffsRegionOf(dir, "min_spiffs")),
                                       SizeOf(SpiffsRegionOf(dir, "huge_app")));
            SpiffsRegionOf(dir, chosen).Some? &&
            SpiffsFlashOffset(cust, SpiffsRegionOf(dir, chosen), Some(d), true) ==
              Some(SpiffsRegionOf(dir, chosen).value.offset)
  {
    var sizeMin := SizeOf(SpiffsRegionOf(dir, "min_spiffs"));
    var sizeHa := SizeOf(SpiffsRegionOf(dir, "huge_app"));
    var chosen := ChooseScheme(part, Some(d), sizeMin, sizeHa);
    AutoDelegates(part, Some(d), sizeMin, sizeHa);
    var region := SpiffsRegionOf(dir, chosen);
    assert Roomy(d, SizeOf(region));
    SpiffsGates(cust, region, Some(d), true);
  }
}
