/**
 * `merge_bin` of the current script: the four images every chip needs, the flash offset
 * of each, and the `merge-bin` command that places them in one file.
 */
module MergeLayout {
  import opened Wrappers
  import opened PyStr
  import opened PyInt
  import opened FileSystem

  /** The flashing tool and the OTA-data image of the installed core (Windows paths). */
  const Esptool: string := "C:\\Users\\Grzeg\\AppData\\Local\\Arduino15\\packages\\esp32\\tools\\esptool_py\\5.1.0\\esptool.exe"
  const BootApp0: string := "C:\\Users\\Grzeg\\AppData\\Local\\Arduino15\\packages\\esp32\\hardware\\esp32\\3.3.3\\tools\\partitions\\boot_app0.bin"

  /** One `(offset, path)` pair of the layout. */
  datatype Segment = Segment(offset: nat, path: string)

  /** The bootloader sits at 0x0 on the S3 and C3 and at 0x1000 on the classic chip and any other. */
  function BootloaderOffset(chip: string): nat
  {
    if chip == "esp32" then 0x1000
    else if chip in {"esp32s3", "esp32c3"} then 0x0000
    else 0x1000
  }

  /** The per-chip layout: bootloader, partition table, OTA data, application. */
  function Layout(chip: string, boot: string, part: string, app: string): seq<Segment>
  {
    [Segment(BootloaderOffset(chip), boot), Segment(0x8000, part), Segment(0xE000, BootApp0), Segment(0x10000, app)]
  }

  /** `"…"` around a path. */
  function Quote(s: string): string
  {
    "\"" + s + "\""
  }

  /** `f"0x{off:X} \"{path}\""`: upper-case hexadecimal without padding, a space, the quoted path. */
  function Render(s: Segment): string
  {
    "0x" + HexUpper(s.offset) + " " + Quote(s.path)
  }

  /** The rendered segments, in layout order. */
  function Rendered(layout: seq<Segment>): (r: seq<string>)
    ensures |r| == |layout| && forall i :: 0 <= i < |layout| ==> r[i] == Render(layout[i])
  {
    if layout == [] then [] else Rendered(layout[..|layout| - 1]) + [Render(layout[|layout| - 1])]
  }

  /** The command line handed to the shell. */
  function Command(chip: string, flashSize: string, merged: string, segs: string): string
  {
    Quote(Esptool) + " --chip " + chip + " merge-bin --flash-size " + flashSize + " -o " + Quote(merged) + " " + segs
  }

  /** The file names derived from the sketch name `<base>.ino`. */
  function BootPath(binDir: string, inoName: string): string { Join(binDir, Stem(inoName) + ".ino.bootloader.bin") }
  function PartPath(binDir: string, inoName: string): string { Join(binDir, Stem(inoName) + ".ino.partitions.bin") }
  function AppPath(binDir: string, inoName: string): string { Join(binDir, Stem(inoName) + ".ino.bin") }
  function MergedPath(binDir: string, inoName: string): string { Join(binDir, Stem(inoName) + "_merged.bin") }

  /** The four files that must exist, in the order they are checked. */
  function Required(binDir: string, inoName: string): seq<string>
  {
    [BootPath(binDir, inoName), PartPath(binDir, inoName), AppPath(binDir, inoName), BootApp0]
  }

  /** Either the run stops at a missing file, or the command is built and the merged path returned. */
  datatype MergeResult = MissingFile(path: string) | Merged(command: string, output: string)

  /** What `merge_bin` does, given the set of paths that exist. */
  function MergeOf(binDir: string, inoName: string, flashSize: string, chip: string, existing: set<string>): MergeResult
  {
    match FirstAbsent(Required(binDir, inoName), existing)
    case Some(p) => MissingFile(p)
    case None =>
      var layout := Layout(chip, BootPath(binDir, inoName), PartPath(binDir, inoName), AppPath(binDir, inoName));
      Merged(Command(chip, flashSize, MergedPath(binDir, inoName), JoinWith(Rendered(layout), " ")),
             MergedPath(binDir, inoName))
  }

  /** `merge_bin`: the existence check, then the segment strings built in a loop, then the command. */
  method MergeBin(binDir: string, inoName: string, flashSize: string, chip: string, existing: set<string>)
    returns (r: MergeResult)
    ensures r == MergeOf(binDir, inoName, flashSize, chip, existing)
  {
    var base := Stem(inoName);
    var boot := Join(binDir, base + ".ino.bootloader.bin");
    var part := Join(binDir, base + ".ino.partitions.bin");
    var app := Join(binDir, base + ".ino.bin");
    var merged := Join(binDir, base + "_merged.bin");
    var missing := FirstMissing([boot, part, app, BootApp0], existing);
    if missing.Some? {
      return MissingFile(missing.value);
    }
    var layout := Layout(chip, boot, part, app);
    var segs: seq<string> := [];
    var i := 0;
    while i < |layout|
      invariant 0 <= i <= |layout|
      invariant segs == Rendered(layout[..i])
    {
      assert layout[..i + 1][..i] == layout[..i];
      segs := segs + [Render(layout[i])];
      i := i + 1;
    }
    assert layout[..|layout|] == layout;
    var segsText := JoinWith(segs, " ");
    return Merged(Command(chip, flashSize, merged, segsText), merged);
  }

  // ---------------------------------------------------------------------------
  // Properties of the layout
  // ---------------------------------------------------------------------------

  /**
   * The offsets are the bootloader's, then 0x8000, 0xE000 and 0x10000, strictly
   * increasing, and the images are bootloader, partition table, OTA data, application.
   */
  lemma LayoutOrder(chip: string, boot: string, part: string, app: string)
    ensures var l := Layout(chip, boot, part, app);
      |l| == 4 &&
      (forall i, j :: 0 <= i < j < |l| ==> l[i].offset < l[j].offset) &&
      l[1].offset == 0x8000 && l[2].offset == 0xE000 && l[3].offset == 0x10000 &&
      l[0].path == boot && l[1].path == part && l[2].path == BootApp0 && l[3].path == app
  {
  }

  /** The bootloader is at 0x0 exactly for the S3 and C3, at 0x1000 otherwise (unknown chips too). */
  lemma BootloaderPlacement(chip: string)
    ensures BootloaderOffset(chip) == 0 <==> chip in {"esp32s3", "esp32c3"}
    ensures chip !in {"esp32s3", "esp32c3"} ==> BootloaderOffset(chip) == 0x1000
  {
  }

  /**
   * A segment reads back: its first space-separated word is `0x` and upper-case digits
   * that parse to the offset, and what follows the first space is the quoted path.
   */
  lemma SegmentReadBack(s: Segment)
    ensures var text := Render(s); var word := "0x" + HexUpper(s.offset);
      Split(text, ' ')[0] == word && ParseInt(word) == Some(s.offset) &&
      (forall i :: 2 <= i < |word| ==> !('a' <= word[i] <= 'z')) &&
      ' ' in text && AfterFirst(text, ' ') == Quote(s.path)
  {
    var word := "0x" + HexUpper(s.offset);
    var text := Render(s);
    WordFacts(s.offset);
    assert text == word + [' '] + Quote(s.path);
    SplitAt(word, ' ', Quote(s.path));
    HexRoundTrip(s.offset);
    AfterFirstPrefix(word + [' '], Quote(s.path), ' ');
    assert (word + [' '])[..|word + [' ']| - 1] == word;
  }

  /** The offset word holds no space and no lower-case letter after its `0x`. */
  lemma WordFacts(n: nat)
    ensures var word := "0x" + HexUpper(n);
      ' ' !in word && forall i :: 2 <= i < |word| ==> !('a' <= word[i] <= 'z')
  {
    var word := "0x" + HexUpper(n);
    assert forall i :: 2 <= i < |word| ==> word[i] == HexUpper(n)[i - 2];
  }

  /** The segment list is the four rendered segments separated by single spaces. */
  lemma SegmentsText(l: seq<Segment>)
    requires |l| == 4
    ensures JoinWith(Rendered(l), " ") ==
      Render(l[0]) + " " + (Render(l[1]) + " " + (Render(l[2]) + " " + Render(l[3])))
  {
    var r := Rendered(l);
    assert JoinWith(r[1..][1..][1..], " ") == Render(l[3]);
    assert JoinWith(r[1..][1..], " ") == Render(l[2]) + " " + Render(l[3]);
    assert JoinWith(r[1..], " ") == Render(l[1]) + " " + (Render(l[2]) + " " + Render(l[3]));
  }

  /** A missing artifact stops the run before any command exists; it is the first one checked. */
  lemma MissingStops(binDir: string, inoName: string, flashSize: string, chip: string, existing: set<string>)
    ensures MergeOf(binDir, inoName, flashSize, chip, existing).MissingFile? <==>
      exists p :: p in Required(binDir, inoName) && p !in existing
    ensures MergeOf(binDir, inoName, flashSize, chip, existing).MissingFile? ==>
      MergeOf(binDir, inoName, flashSize, chip, existing).path !in existing
    ensures var r, req := MergeOf(binDir, inoName, flashSize, chip, existing), Required(binDir, inoName);
      r.MissingFile? ==> exists k :: 0 <= k < |req| && req[k] == r.path && forall j :: 0 <= j < k ==> req[j] in existing
  {
    var req := Required(binDir, inoName);
    var r := MergeOf(binDir, inoName, flashSize, chip, existing);
    match FirstAbsent(req, existing)
    case Some(p) =>
      assert r.MissingFile? && r.path == p;
      var k :| 0 <= k < |req| && req[k] == p && p !in existing;
      assert req[k] in req;
    case None =>
      assert r.Merged?;
      forall p | p in req
        ensures p in existing
      {
        var i :| 0 <= i < |req| && req[i] == p;
      }
  }

  /** With every artifact in place the merged image goes next to the others as `<base>_merged.bin`. */
  lemma MergedOutput(binDir: string, inoName: string, flashSize: string, chip: string, existing: set<string>)
    requires forall p :: p in Required(binDir, inoName) ==> p in existing
    ensures MergeOf(binDir, inoName, flashSize, chip, existing).Merged?
    ensures var out := MergeOf(binDir, inoName, flashSize, chip, existing).output;
      binDir <= out && EndsWith(out, Stem(inoName) + "_merged.bin")
  {
    var req := Required(binDir, inoName);
    assert forall i :: 0 <= i < |req| ==> req[i] in existing;
  }
}
