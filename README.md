# ESP32 build-and-flash wrapper: the decision layer

Two Python scripts compile an Arduino sketch for an ESP32 chip and flash it: `facade.py` (the
current script) and `bf4.py` (an earlier one). Every run makes the same decisions
before any external tool starts:

- read configuration directives such as `//PART=HA`, `//PSRAM=on` or `//ESP32S3`
  from the comment lines of the sketch;
- find the partition table of the chosen scheme and read its SPIFFS region;
- resolve the partition scheme, which for `AUTO` depends on how large the `data/`
  payload is;
- decide whether a SPIFFS image fits, and whether it is flashed, and at which offset;
- compose the fully qualified board name (FQBN) for the Arduino command line;
- lay out the images and compose the `esptool merge-bin` command.

This project models those decisions in Dafny and proves properties about them.
Directory listings, file contents, payload sizes and "this path exists" facts are passed
in as plain values.

Modules, in dependency order:

| file | module | models |
|---|---|---|
| `wrappers.dfy` | `Wrappers` | `Option` |
| `seqs.dfy` | `SeqFacts` | generic sequence identities used by the proofs |
| `pystr.dfy` | `PyStr` | the Python `str` methods the scripts use: `strip`, `upper`, `lower`, `replace`, `split`, `join`, `isdigit`, `endswith` |
| `pyint.dfy` | `PyInt` | `int(x, 0)` for hexadecimal and decimal text, and `f"{n:X}"` |
| `filesystem.dfy` | `FileSystem` | the sketch as read lines, `os.path.join`, `os.path.splitext`, the existence-check loop |
| `directives.dfy` | `Directives` | `parse_directives` of `facade.py`, with `norm_flash` and `norm_part_alias` |
| `partitions.dfy` | `PartitionTable` | `find_partition_csv` and `get_spiffs_region` |
| `scheme.dfy` | `SchemeSelector` | `auto_choose_partition`, the fit check of `make_spiffs_image`, the SPIFFS step of `main` |
| `fqbn.dfy` | `BoardDescriptor` | `build_fqbn` |
| `merge.dfy` | `MergeLayout` | `merge_bin` of `facade.py` |
| `legacy.dfy` | `Legacy` | `parse_directives`, the FQBN of `compile_sketch`, and `merge_bin` of `bf4.py` |

## How the model is built

**Loops become methods.** Each `for` statement of the source is a method with loop
invariants: the line loops of both parsers, the row loop of `get_spiffs_region`, the segment
loop of `merge_bin`, and both existence checks. The list comprehensions (the stripped columns
of a row, the candidate filter of `find_partition_csv`) build a value and become recursive
functions (`PartitionTable.Columns`, `PartitionTable.StripAll`, `PartitionTable.Shortest`). Each method is proved equal to a specification
function, and the properties are lemmas about that function.

**The configuration is a value.** Each `cfg` dictionary is a `datatype`. One
assignment `cfg[KEY] = value` is `Apply`. Its contract says the target field changes
and every other field is kept. A parse is the fold of `Apply` over the lines.

**The in-place update returns a new value.** `auto_choose_partition` writes
`cfg["PART"]` in place. The model returns the updated record, and its contract says
only `part` changes.

**`facade.py` has no error recovery.** It opens the sketch with no `try`, so a failed
read is `None` in the model (`Directives.ParseDirectives`). `bf4.py` catches the
exception and returns the configuration read so far, and
`Legacy.ParseDirectives` does the same.

**Behaviour the model keeps exactly as the code has it:**

- `CUST` is stored as text and tested only for being non-empty, so `//CUST=FALSE`
  still enables the SPIFFS step (`Directives.CustDirective`, `SchemeSelector.SpiffsGates`).
- `//PLATFORM=ESP32_S3` gives `esp32s3`. But a bare `//ESP32_S3` matches only the
  `//ESP32` prefix, so it gives `esp32` (`Directives.BareChipDirectives`).
- `bf4.py` prefixes the COM port without removing an existing prefix, so `//COM=COM5` gives
  `COMCOM5` (`Legacy.ComDuplicated`).
- `bf4.py` reads the value between the first and the second `=`, so `//PART=a=b` gives `a`
  (`Legacy.PartCut`).
- The scheme chooser's `min_spiffs` table is narrower than the parser's: it lacks the
  misspellings `MIN_SPIPFS` and `MIN_SPIFS`. The parser turns every one of them into
  `MS` first, so they still reach `min_spiffs` (`SchemeSelector.ParsedMsAlias`).
- The chooser needs strictly more than 4096 bytes to spare. The image builder accepts a
  payload of exactly `size - 4096` (`SchemeSelector.RoomyBoundary`,
  `SchemeSelector.ImageBoundary`).

**A SPIFFS failure does not stop the run.** `make_spiffs_image` prints an error and
returns `False` when the payload does not fit (facade.py:387-390), when there is no `data/`
directory, or when mkspiffs exited normally but wrote no file. `main` then leaves the image
out: it still merges and flashes the firmware, which it compiled before the SPIFFS step
(facade.py:555-607). In the model this is `SchemeSelector.SpiffsFlashOffset` yielding no
offset. A raw scheme name that names no table, such as `//PART=nonsense`, is passed through
unchanged (`SchemeSelector.NamedSchemeKept`).

## Model

| member | source | states |
|---|---|---|
| Directives.NormFlash | facade.py:172-177 | the result is always one of 2MB, 4MB, 8MB, 16MB, 32MB |
| Directives.NormFlashDigits | facade.py:173-177 | digits followed by M, MB (any case) or no unit give `<n>MB` when n is 2, 4, 8, 16 or 32, and 4MB otherwise |
| Directives.NormFlashIdempotent | facade.py:172-177 | normalising a normalised size leaves it unchanged |
| Directives.AliasToken | facade.py:183-190 | an alias token exists exactly when the key is in one of the four tables |
| Directives.NormPartAlias | facade.py:179-192 | the result is MS, HA, DEFAULT, AUTO or the trimmed value; a non-empty value whose key is in no table is returned trimmed |
| Directives.AliasKeyOf | facade.py:182 | the key of a trimmed value is the value upper-cased with every hyphen read as an underscore |
| Directives.AliasKeyCaseless | facade.py:182 | values equal up to case have the same key |
| Directives.NormPartAliasCaseless | facade.py:179-190 | values equal up to case whose key is an alias give the same short token |
| Directives.KeyOfSpelling | facade.py:182 | a value whose upper-cased form is a given spelling has that spelling's key |
| Directives.KeyTablesDisjoint | facade.py:183-190 | no key is in two tables, so the order of the tests does not decide anything |
| Directives.MsTable | facade.py:183-184 | a non-empty value whose key is in the MS table gives MS |
| Directives.HaTable | facade.py:185-186 | a non-empty value whose key is in the HA table gives HA |
| Directives.DefaultTable | facade.py:187-188 | a non-empty value whose key is in the DEFAULT table gives DEFAULT |
| Directives.AutoTable | facade.py:189-190 | a non-empty value whose key is in the AUTO table gives AUTO |
| Directives.MsSpellings | facade.py:182-183 | ms, min-spiffs, minimal-spiffs, min-spifs and MIN_SPIPFS, in any case, have keys in the MS table |
| Directives.HaSpellings | facade.py:182-185 | ha, huge-app, huge_app, hugeapp and huge, in any case, have keys in the HA table |
| Directives.DefaultSpellings | facade.py:182-187 | def and default, in any case, have keys in the DEFAULT table |
| Directives.AutoSpellings | facade.py:182-189 | aut and auto, in any case, have keys in the AUTO table |
| Directives.MsAliases | facade.py:179-184 | every MS spelling, in any case, normalises to MS |
| Directives.HaAliases | facade.py:179-186 | every HA spelling, in any case, normalises to HA |
| Directives.DefaultAliases | facade.py:179-188 | def and default, in any case, normalise to DEFAULT |
| Directives.AutoAliases | facade.py:179-190 | the empty value, aut and auto normalise to AUTO |
| Directives.TokensFixed | facade.py:179-190 | the four short tokens normalise to themselves |
| Directives.NormPartAliasIdempotent | facade.py:179-192 | on trimmed values, normalising twice equals normalising once |
| Directives.PlatformValue | facade.py:224-230 | the platform is always one of esp32, esp32s3, esp32c3 |
| Directives.Classify | facade.py:195-237 | a flash directive carries an accepted size and a platform directive a known chip |
| Directives.Recognize | facade.py:199-237 | on a stripped line: a flash directive carries an accepted size and a platform directive a known chip |
| Directives.Apply | facade.py:202-237 | the field the directive targets gets the written value; every other field is unchanged |
| Directives.ClassifyAll | facade.py:195-196 | one directive per line, in file order |
| Directives.ParseDirectives | facade.py:161-239 | the line loop returns the fold of the directives over the defaults; a failed read gives no configuration |
| Directives.Parse | facade.py:161-237 | the directives of the lines, applied in order to the defaults (LastLineWins, ParseWellFormed) |
| Directives.RunStep | facade.py:195-237 | one more directive is applied to the configuration built so far |
| Directives.UntouchedField | facade.py:195-237 | directives that do not write a field leave it as it was |
| Directives.LastDirectiveWins | facade.py:195-237 | a field holds the value written by the last directive that targets it |
| Directives.ApplyWrites | facade.py:202-237 | a directive writes its value into the field it targets |
| Directives.UnwrittenFieldKeepsDefault | facade.py:162-170 | a field no directive writes keeps its default (AUTO, 4MB, no PSRAM, no erase, no CUST, esp32, no port) |
| Directives.IgnoredChangesNothing | facade.py:198-200 | an ignored directive can be removed from anywhere in the sequence without changing the result |
| Directives.ClassifyAllConcat | facade.py:195-196 | classifying two blocks of lines is classifying their concatenation |
| Directives.IgnoredLineChangesNothing | facade.py:198-200 | a line the parser ignores can be removed from the file without changing the configuration |
| Directives.LastLineWins | facade.py:195-237 | on lines: the last line writing a field decides it |
| Directives.RunWellFormed | facade.py:162-237 | directives that keep the size and chip enumerations produce a configuration inside them |
| Directives.ParseWellFormed | facade.py:161-239 | whatever the lines, the flash size is one of the five and the chip is one of the three |
| Directives.KeyedLine | facade.py:196-203 | after stripping, a `<key>=<v>` line carries the trimmed text after its first `=` |
| Directives.ValueOf | facade.py:203 | the text after the first `=`, trimmed |
| Directives.RecognizePart | facade.py:202-204 | a `//PART=` line sets the part to the normalised alias of its value |
| Directives.RecognizeFlashSize | facade.py:206-208 | a `//FLASH-SIZE=` line sets the normalised flash size |
| Directives.RecognizeFlash | facade.py:206-208 | a `//FLASH=` line sets the normalised flash size |
| Directives.RecognizePsram | facade.py:210-211 | a `//PSRAM=` line stores its value as written |
| Directives.RecognizeErase | facade.py:213-214 | a `//ERASE=` line sets erase exactly when the upper-cased value is TRUE |
| Directives.RecognizeCust | facade.py:216-217 | a `//CUST=` line stores its value as text |
| Directives.RecognizeCom | facade.py:219-221 | a `//COM=` line stores COM plus the upper-cased value with "COM" removed |
| Directives.ComPort | facade.py:221 | COM followed by the upper-cased value with every COM removed (ComPrefixIgnored, ComSpellings) |
| Directives.RecognizePlatform | facade.py:223-230 | a `//PLATFORM=` line sets the mapped chip |
| Directives.RecognizeS3 | facade.py:232-233 | a line starting `//ESP32S3` sets esp32s3 |
| Directives.RecognizeC3 | facade.py:234-235 | a line starting `//ESP32C3` sets esp32c3 |
| Directives.RecognizeUnderscored | facade.py:236-237 | a line starting `//ESP32_S3` falls through to the `//ESP32` prefix and sets esp32 |
| Directives.DisabledIgnored | facade.py:198-200 | every `//-` line is ignored |
| Directives.PartDirective | facade.py:196-204 | a raw `//PART=v` line, surrounding white space included, sets the normalised alias of the trimmed v |
| Directives.FlashSizeDirective | facade.py:196-208 | a raw `//FLASH-SIZE=v` line sets NormFlash of the trimmed v |
| Directives.FlashDirective | facade.py:196-208 | a raw `//FLASH=v` line is the same directive as `//FLASH-SIZE=v` |
| Directives.PsramDirective | facade.py:196-211 | a raw `//PSRAM=v` line stores the trimmed v |
| Directives.EraseDirective | facade.py:196-214 | a raw `//ERASE=v` line sets erase exactly when the upper-cased trimmed v is TRUE |
| Directives.CustDirective | facade.py:196-217 | a raw `//CUST=v` line stores the trimmed v as text, so FALSE is stored too |
| Directives.ComDirective | facade.py:196-221 | a raw `//COM=v` line stores the port built from the trimmed v |
| Directives.PlatformDirective | facade.py:196-230 | a raw `//PLATFORM=v` line sets the chip mapped from the trimmed v |
| Directives.BareChipDirectives | facade.py:232-237 | `//ESP32S3…` gives esp32s3, `//ESP32C3…` gives esp32c3, `//ESP32_S3…` gives esp32 |
| Directives.ComPrefixIgnored | facade.py:221 | writing COM, in any case, in front of the port number changes nothing |
| Directives.ComSpellings | facade.py:221 | 5 and com5 both give COM5 |
| Directives.PlatformSpellings | facade.py:224-230 | ESP32S3/esp32_s3 give esp32s3, esp32c3/ESP32_C3 give esp32c3, unknown or empty values give esp32 |
| FileSystem.Join | facade.py:410-413 | the joined path starts with the directory and ends with the name |
| FileSystem.LastDot | facade.py:409 | the index found is the last dot of the name, or there is no dot |
| FileSystem.Stem | facade.py:409 | the stem is a prefix of the name |
| FileSystem.StemOfIno | facade.py:409 | the stem of `<b>.ino` is b |
| FileSystem.FirstAbsent | facade.py:415-418 | nothing is reported exactly when every path exists; otherwise the first missing path, in check order |
| FileSystem.FirstMissing | facade.py:415-418 | the existence-check loop reports the first missing path in check order |
| PartitionTable.ExactIndex | facade.py:255-257 | the first file with the exact name, or none exactly when no file has that name |
| PartitionTable.Shortest | facade.py:259-266 | a candidate (`.csv`, case-insensitive prefix) no other candidate is shorter than, the first such in listing order; none exactly when there is no candidate |
| PartitionTable.Locate | facade.py:255-266 | the file picked is in the listing |
| PartitionTable.ExactIsCandidate | facade.py:259-261 | the exact file name also passes the prefix filter |
| PartitionTable.ExactWins | facade.py:255-257 | an existing `<part>.csv` is returned as the path joined to the directory |
| PartitionTable.PrefixFallback | facade.py:259-266 | without the exact file, the result is a shortest candidate joined to the directory |
| PartitionTable.NotFound | facade.py:251-264 | there is no table exactly when the directory is missing or no file is a candidate |
| PartitionTable.FindPartitionCsv | facade.py:251-266 | a missing directory gives no table; otherwise the located file joined to the directory, or none when no file qualifies (ExactWins, PrefixFallback, NotFound) |
| PartitionTable.Columns | facade.py:285 | one column per comma-separated field |
| PartitionTable.StripAll | facade.py:285 | every field is kept, trimmed |
| PartitionTable.RowRegion | facade.py:282-299 | a raw line is stripped before the row rule reads it |
| PartitionTable.LineRegion | facade.py:283-299 | blank and `#` lines and rows of fewer than five columns yield nothing; otherwise a data/spiffs row, by subtype or by name in any case, whose offset and size both parse yields (size, offset); every other row yields nothing |
| PartitionTable.Rows | facade.py:281-299 | one row result per line |
| PartitionTable.RowsAt | facade.py:281-299 | the row result at k is that of line k |
| PartitionTable.FirstRegionStep | facade.py:281-299 | the scan either stops at the current row or continues with the rest |
| PartitionTable.FirstRegionFirst | facade.py:281-302 | the result is the first row with a region, or none exactly when no row has one |
| PartitionTable.RegionInFirst | facade.py:280-302 | the region of a table is that of its first line that yields one; none exactly when no line does |
| PartitionTable.GetSpiffsRegion | facade.py:269-302 | the row loop with early return finds the region of the located table; a missing directory or table gives none |
| PartitionTable.SpiffsRegionOf | facade.py:269-302 | a missing directory or table yields nothing; otherwise the region of the first line of the located table that yields one |
| PartitionTable.RowColumns | facade.py:285-289 | five comma-free fields, padded or not, then nothing or further columns: the columns are the five fields trimmed, then the further columns |
| PartitionTable.ColumnsCons | facade.py:285 | a leading field without a comma becomes the first column, trimmed |
| PartitionTable.ColumnsOne | facade.py:285 | text without a comma is one column, trimmed |
| PartitionTable.SkippedLineYieldsNothing | facade.py:282-288 | a line that is blank or a `#` comment after stripping, or has fewer than five columns, yields nothing |
| PartitionTable.RowOfColumns | facade.py:282-299 | a stripped line of five or more columns is decided by its first five: the size and offset of a SPIFFS row when both parse, nothing otherwise |
| PartitionTable.LineOfColumns | facade.py:283-299 | the same row rule, on a non-empty line that does not start with `#` |
| PartitionTable.RowRead | facade.py:282-299 | a row of five fields, each possibly padded, plus any further columns, is read from the five fields trimmed: (size, offset) for a data/spiffs row whose numbers parse, nothing otherwise |
| PartitionTable.RowPadding | facade.py:282 | white space around a whole row does not change what the row yields |
| PartitionTable.SpiffsRowRead | facade.py:289-297 | a data/spiffs row whose trimmed offset and size parse yields (size, offset), in that order, with padded fields and extra columns allowed |
| PartitionTable.NoRegionSkipped | facade.py:283-287 | a line that yields no region does not change the result of the scan |
| PartitionTable.UnparsableSpiffsRowSkipped | facade.py:293-299 | a SPIFFS row, padded or wider, whose offset or size does not parse yields nothing and the scan goes on |
| PartitionTable.OtherRowSkipped | facade.py:291-292 | a row that is not a data/spiffs row is skipped whatever its numbers |
| PartitionTable.PaddedRowExample | facade.py:282-297 | the row `spiffs,   data, spiffs,  0x290000,0x160000,` yields a 0x160000-byte region at 0x290000 |
| PyInt.DigitValue | facade.py:294-295 | a hexadecimal digit is worth less than 16, a decimal digit less than 10 |
| PyInt.ParseInt | facade.py:294-295 | `int(x, 0)` on `0x`/`0X` hexadecimal and on decimal without leading zeros; any other text fails, which skips the row (HexRoundTrip) |
| PyInt.HexDigitUpper | facade.py:449 | each digit value renders as an upper-case hexadecimal digit of that value |
| PyInt.HexUpper | facade.py:449 | `{n:X}` is non-empty upper-case hexadecimal with no leading zero except for 0 |
| PyInt.HexUpperValue | facade.py:449 | the rendered digits have the value n |
| PyInt.HexRoundTrip | facade.py:294-295 | `int("0x" + f"{n:X}", 0)` is n |
| PyStr.TrimLeft | facade.py:196 | drops exactly the leading white space |
| PyStr.TrimRight | facade.py:196 | drops exactly the trailing white space |
| PyStr.StripIdempotent | facade.py:196 | stripping twice equals stripping once |
| PyStr.StripPadded | facade.py:282 | white space on both sides of text that starts and ends with a non-space character is removed exactly |
| PyStr.UpperIdempotent | facade.py:173 | upper-casing twice equals upper-casing once |
| PyStr.UpperStrip | facade.py:182 | upper-casing and stripping commute |
| PyStr.Split | facade.py:203 | at least one part; two or more exactly when the separator occurs; no part holds the separator |
| PyStr.Without | facade.py:476 | the character is removed and every other character is kept |
| PyStr.ReplaceDelete | facade.py:476 | replacing a one-character string by the empty string deletes every occurrence of it |
| PyStr.SplitJoin | facade.py:285 | joining the parts with the separator gives back the text |
| SchemeSelector.SizeOf | facade.py:348-349 | the size of the SPIFFS region, present exactly when the region is |
| SchemeSelector.ChooseScheme | facade.py:310-367 | the result is min_spiffs, huge_app, default or the name as given |
| SchemeSelector.AutoScheme | facade.py:339-367 | the AUTO result is always one of the three schemes |
| SchemeSelector.AutoChoosePartition | facade.py:305-367 | only the part field changes, to the chooser's result for the sizes found in the two tables |
| SchemeSelector.AutoKeysApart | facade.py:319-334 | the empty key and the AUTO keys are in none of the alias tables |
| SchemeSelector.ExplicitAliases | facade.py:318-332 | an MS, HA or DEFAULT key selects min_spiffs, huge_app or default, whatever the sizes |
| SchemeSelector.NamedSchemeKept | facade.py:334-337 | any other non-AUTO name is used unchanged |
| SchemeSelector.SizesIrrelevantUnlessAuto | facade.py:318-337 | outside AUTO, the payload and region sizes do not affect the choice |
| SchemeSelector.AutoDelegates | facade.py:339-367 | with an AUTO key the choice is the size heuristic's |
| SchemeSelector.AutoWithoutData | facade.py:340-343 | AUTO without a data directory gives default |
| SchemeSelector.AutoChoice | facade.py:351-367 | min_spiffs exactly when it has room; huge_app exactly when it has room and min_spiffs does not; default exactly when neither does |
| SchemeSelector.RoomyBoundary | facade.py:354 | room means a known non-zero size with payload + 4096 < size, strictly |
| SchemeSelector.Roomy | facade.py:354-360 | a table has room when its SPIFFS size is known, non-zero and more than 4096 bytes above the payload |
| SchemeSelector.RoomyMonotone | facade.py:354-363 | a region with room for a payload has room for any smaller payload |
| SchemeSelector.AutoExamples | facade.py:348-367 | with 1 MiB and 3 MiB regions, payloads of 900000, 1200000 and 4000000 bytes give min_spiffs, huge_app and default |
| SchemeSelector.SchemeKeys | facade.py:319-332 | the keys of the scheme names min_spiffs, huge_app and default are in their own tables |
| SchemeSelector.SchemeFixed | facade.py:319-332 | a scheme the chooser writes is chosen again unchanged |
| SchemeSelector.ChooseIdempotent | facade.py:305-367 | running the chooser on its own result, with any sizes, changes nothing |
| SchemeSelector.ParsedTokens | facade.py:319-339 | the parser's tokens MS, HA and DEFAULT select their schemes, and AUTO reaches the heuristic |
| SchemeSelector.ParsedMsAlias | facade.py:319-322 | every MS spelling of the parser, misspellings included, ends as min_spiffs |
| SchemeSelector.ImageCapacity | facade.py:387-390 | the image is too large exactly when payload + 4096 > size; it is built exactly when it fits and the tool wrote it; no data directory is reported first |
| SchemeSelector.ImageBoundary | facade.py:387-390 | a payload of exactly size - 4096 is accepted, one byte more is refused |
| SchemeSelector.MakeSpiffsImage | facade.py:370-403 | no data directory, then a payload above `size - 4096`, then a tool that wrote no file are the three failures, in that order; otherwise the image is built |
| SchemeSelector.SpiffsGates | facade.py:575-599 | an image is flashed exactly when CUST is non-empty, the region is non-zero, the data fits and the tool wrote the image; it is flashed at the region's offset |
| SchemeSelector.SpiffsFlashOffset | facade.py:574-599 | the SPIFFS image is flashed, at the region's offset, only when CUST is non-empty, the region is non-zero and the image was built |
| SchemeSelector.NoCustNoSpiffs | facade.py:575-586 | with CUST absent or empty nothing is flashed to SPIFFS |
| SchemeSelector.AutoChoiceIsFlashable | facade.py:351-390 | when AUTO picks min_spiffs or huge_app, the image builder accepts the same payload for that table, and the image is flashed at its offset |
| BoardDescriptor.BoardChip | facade.py:463-471 | the chip of the base is the platform when it is known, esp32 otherwise |
| BoardDescriptor.PsramValue | facade.py:476-494 | the PSRAM value is opi, qspi, disabled, enabled or the value as written |
| BoardDescriptor.BaseFields | facade.py:464-471 | the base is esp32:esp32:`<chip>` |
| BoardDescriptor.PsramOptionFree | facade.py:474-496 | the PSRAM option adds no character other than those of the value, letters, `,` and `=` |
| BoardDescriptor.FqbnFields | facade.py:462-500 | split at colons the name is esp32, esp32, the chip, and the options |
| BoardDescriptor.OptionsFree | facade.py:474-500 | the options hold no separator the values do not hold |
| BoardDescriptor.FqbnJoined | facade.py:500 | the name is the four fields joined by colons |
| BoardDescriptor.FqbnOptions | facade.py:474-500 | split at commas the options are PartitionScheme=`<part>` and, only for non-empty PSRAM, PSRAM=`<value>`; no flash mode, frequency or size |
| BoardDescriptor.PsramKeyOf | facade.py:476 | the key is the value upper-cased with every space deleted |
| BoardDescriptor.PsramCaseless | facade.py:476-494 | values equal up to case map alike when their key is in the chip's tables |
| BoardDescriptor.S3Psram | facade.py:477-485 | on an S3 the tables give opi, qspi and disabled; any other value passes through as written |
| BoardDescriptor.Esp32Psram | facade.py:486-492 | on an esp32 ON/EN/ENABLED give enabled and the off spellings disabled; any other value passes through |
| BoardDescriptor.OtherPsram | facade.py:493-494 | any other platform, the C3 included, passes the value through as written |
| BoardDescriptor.PsramSpellings | facade.py:476-492 | "on" in any case means opi on an S3 and enabled on an esp32 and passes through on a C3; a value that upper-cases to "Q SPI" is qspi on an S3 |
| BoardDescriptor.NoPsramNoOption | facade.py:474-500 | with no or empty PSRAM the name is the base and the scheme alone |
| BoardDescriptor.BuildFqbn | facade.py:462-500 | the board base, `:PartitionScheme=` and the part, then the PSRAM option of the chip (FqbnFields, FqbnOptions) |
| MergeLayout.Rendered | facade.py:447-449 | one rendered segment per layout entry, in order |
| MergeLayout.Layout | facade.py:420-444 | bootloader, partition table, OTA data and application at the chip's offsets (LayoutOrder, BootloaderPlacement) |
| MergeLayout.Render | facade.py:447-449 | a segment is `0x`, its offset in upper-case hexadecimal, a space and the quoted path (SegmentReadBack) |
| MergeLayout.Command | facade.py:452-457 | the quoted esptool, the chip, the flash size, the quoted output and the segments, in that order |
| MergeLayout.MergeBin | facade.py:408-459 | the loops give the first missing file, or the merge command with the rendered segments and the merged path |
| MergeLayout.MergeOf | facade.py:408-459 | the first missing file stops the run; otherwise the merge command for the chip's layout and the merged path (MissingStops, MergedOutput) |
| MergeLayout.LayoutOrder | facade.py:420-444 | four entries (bootloader, partition table, OTA data, application) with offsets strictly increasing, 0x8000, 0xE000, 0x10000 after the bootloader's |
| MergeLayout.BootloaderPlacement | facade.py:421-444 | the bootloader is at 0x0 exactly for esp32s3 and esp32c3, at 0x1000 for every other chip |
| MergeLayout.SegmentReadBack | facade.py:449 | a segment's first word is `0x` and upper-case digits that parse to the offset; after the first space comes the quoted path |
| MergeLayout.WordFacts | facade.py:449 | the offset word has no space and no lower-case letter |
| MergeLayout.SegmentsText | facade.py:450 | the segment list is the four segments separated by single spaces |
| MergeLayout.MissingStops | facade.py:415-418 | the run stops exactly when a required file is absent, naming the first absent one in check order |
| MergeLayout.MergedOutput | facade.py:413 | with every file present the result is `<base>_merged.bin` inside the image directory |
| Legacy.Apply | bf4.py:71-82 | the field the directive targets gets the written value; every other field is unchanged |
| Legacy.ParseDirectives | bf4.py:58-85 | the line loop returns the fold of the lines over the defaults; after a read failure, the lines read so far |
| Legacy.ParseStep | bf4.py:69-82 | one more line applies its directive to the configuration built so far |
| Legacy.Parse | bf4.py:58-82 | the lines' directives, applied in order to the defaults |
| Legacy.Classify | bf4.py:69-82 | a line is stripped before the prefix chain reads it |
| Legacy.Recognize | bf4.py:70-82 | the first of the prefixes PART, COM, ERASE, PSRAM, FLASH-SIZE that the line starts with decides the directive; no prefix, no directive |
| Legacy.FlashSizeOf | bf4.py:79-82 | an all-digit value gives `<v>MB`; any other value is ignored |
| Legacy.UntouchedField | bf4.py:69-82 | lines that do not write a field leave it as it was |
| Legacy.LastLineWins | bf4.py:69-82 | a field holds the value written by the last line that targets it |
| Legacy.UnwrittenFieldKeepsDefault | bf4.py:60-66 | a field no line writes keeps its default (minimal, no port, no erase, no PSRAM, 4MB) |
| Legacy.IgnoredLineChangesNothing | bf4.py:69-82 | a line the parser ignores can be removed from the file without changing the configuration |
| Legacy.KeyedLine | bf4.py:70-72 | a `<key>=<v>` line, stripped, carries the trimmed text of v before its next `=` |
| Legacy.PlainValue | bf4.py:72 | without a second `=` the value is v entirely, trimmed |
| Legacy.CutValue | bf4.py:72 | with a second `=` the value stops there |
| Legacy.RecognizePart | bf4.py:71-72 | a `//PART=` line stores its value as given |
| Legacy.RecognizeCom | bf4.py:73-74 | a `//COM=` line stores COM plus its value |
| Legacy.RecognizeErase | bf4.py:75-76 | a `//ERASE=` line sets erase exactly when the lower-cased value is true |
| Legacy.RecognizePsram | bf4.py:77-78 | a `//PSRAM=` line stores its value upper-cased |
| Legacy.RecognizeFlashSize | bf4.py:79-82 | a `//FLASH-SIZE=` line sets `<v>MB` for an all-digit value and changes nothing otherwise |
| Legacy.PartDirective | bf4.py:70-72 | a raw `//PART=v` line stores the trimmed v |
| Legacy.PartCut | bf4.py:72 | `//PART=a=b` stores a |
| Legacy.ComDirective | bf4.py:73-74 | a raw `//COM=v` line stores COM plus the trimmed v |
| Legacy.ComDuplicated | bf4.py:74 | a value already starting with COM is prefixed again, so COM5 becomes COMCOM5 |
| Legacy.EraseDirective | bf4.py:75-76 | a raw `//ERASE=v` line sets erase exactly when the lower-cased trimmed v is true |
| Legacy.PsramDirective | bf4.py:77-78 | a raw `//PSRAM=v` line stores the trimmed v upper-cased |
| Legacy.FlashSizeDirective | bf4.py:79-82 | a raw `//FLASH-SIZE=v` line sets `<v>MB` when the trimmed v is all digits and is ignored otherwise, with no check of the size |
| Legacy.DisabledIgnored | bf4.py:70-82 | a disabled `//-PART=` line is ignored |
| Legacy.DisabledLine | bf4.py:71-82 | a stripped `//-PART=` line matches no prefix |
| Legacy.ShortFlashIgnored | bf4.py:79-82 | `//FLASH=` is not a directive of this parser |
| Legacy.ShortFlashLine | bf4.py:71-82 | a stripped `//FLASH=` line matches no prefix |
| Legacy.FqbnOptions | bf4.py:116-118 | split at commas the name is `esp32:esp32:esp32:FlashMode=qio`, FlashFreq=80, PartitionScheme=`<part>`, plus PSRAM=`<value>` exactly when PSRAM is non-empty |
| Legacy.FqbnJoined | bf4.py:116-118 | the name is its comma-separated options, joined |
| Legacy.Fqbn | bf4.py:116-118 | the fixed board and flash options, the scheme, and `,PSRAM=<value>` only for a non-empty value (FqbnOptions) |
| Legacy.MergeBin | bf4.py:123-157 | the first missing file stops the run; otherwise the fixed-layout command, and the merged path only when the tool wrote it |
| Legacy.MergeOf | bf4.py:123-157 | the first missing file stops the run; otherwise the fixed-layout command, and the merged path only when the tool wrote it (MissingStops, OffsetsIncrease) |
| Legacy.OffsetsIncrease | bf4.py:145-147 | four offsets parsing to 0x1000, 0x8000, 0xE000, 0x10000, strictly increasing |
| Legacy.MissingStops | bf4.py:139-155 | the run stops exactly when a required file is absent, naming the first absent one in check order; with all present it succeeds exactly when the tool wrote the merged file |

## Left out

- Logging and timing (`log`, `log_to_file`, `print_step_time`) and the colour console output:
  they decide nothing.
- `run` in both scripts: it starts a shell command and ends the whole run with `sys.exit(1)`
  when the command exits non-zero. The model has no process, so every composed command is
  taken to exit 0. What this changes is listed per member below.
- SchemeSelector.MakeSpiffsImage: a mkspiffs that exits non-zero ends the run inside `run`
  (facade.py:395). `written` only covers a tool that exited 0 and wrote no file.
- SchemeSelector.SpiffsFlashOffset: for the same reason a failing mkspiffs ends the run before
  the merge, rather than skipping the SPIFFS image.
- MergeLayout.MergeBin: the merge command ends the run when esptool exits non-zero
  (facade.py:458); the model returns the command and the merged path as if it succeeded.
- Legacy.MergeBin: the merge command ends the run when esptool exits non-zero (bf4.py:149);
  `written` assumes esptool exited 0.
- PartitionTable.ExactIndex: `os.path.exists` on Windows matches names whatever their case.
  The model compares the exact name only; a file whose name differs only in case can still be picked by
  the prefix fallback, which compares case-insensitively.
- PartitionTable.GetSpiffsRegion: the table is opened with no `try` (facade.py:280), so a read
  error ends the run with an exception. The model always has the table's lines.
- `detect_port` in both scripts: it enumerates serial ports through pyserial, a foreign library.
- `find_ino`, `find_ino_file` and `find_build_dir`: they depend on `os.listdir` order,
  modification times and an environment variable.
- `calc_dir_size` and the directory and file counting of `make_spiffs_image`: a recursive
  walk of the file system. The payload size is an input (`Option<nat>`, None when there
  is no `data/` directory).
- The external tools themselves (arduino-cli, esptool, mkspiffs), the `shutil` copies and
  `makedirs`, and `bf4.py`'s `erase_flash`, `flash_device` and `flash_spiffs`. Where a
  command string is composed from decided values (`merge_bin`), it is modelled. The
  success of a tool is a boolean input (`written`).
- `sys.exit(1)` becomes a result constructor: `MissingFile`, and `NotCreated` in `bf4.py`.
- PyInt.ParseInt: models only the part of `int(x, 0)` that partition tables use. It
  accepts `0x`/`0X` hexadecimal and decimal without leading zeros, and rejects everything
  else (signs, octal, binary, underscores, surrounding white space), which skips the row.
- PyStr.Upper: only ASCII letters change case, and `isdigit` is ASCII digits only; the
  scripts' inputs are ASCII directives and file names.
- PartitionTable.Shortest: an equal-length tie goes to the first candidate in the
  listing order given. The real order of `os.listdir` is unspecified, so this order is an
  input of the model.
- SchemeSelector.AutoChoosePartition: `cfg["PART"]` is always text in the model, so the
  `isinstance` fallback to AUTO for a non-string value is not modelled. The in-place
  update is a returned record; there is no aliasing of the dictionary to capture.
- FileSystem.Join: models Windows `os.path.join` only for a relative second part. The
  scripts join only file names.
- The rest of the two `main` functions (copying `data/`, the port fallback, the order of
  the steps) is not modelled. The exception is the SPIFFS gate, modelled as
  `SchemeSelector.SpiffsFlashOffset`.
