/**
 * Partition tables: finding the CSV file of a partition scheme in the
 * partitions directory, and reading the SPIFFS region out of it.
 */
module PartitionTable {

  import opened Wrappers
  import opened PyStr
  import opened PyInt
  import opened FileSystem
  import opened SeqFacts

  /** One file of the partitions directory: its name and its lines. */
  datatype CsvFile = CsvFile(name: string, lines: seq<string>)

  /** The partitions directory: missing, or its path and its listing in `os.listdir` order. */
  datatype PartitionDir = MissingDir | Dir(path: string, files: seq<CsvFile>)

  /** The SPIFFS partition of a scheme, in the order `get_spiffs_region` returns it. */
  datatype Spiffs = Spiffs(size: nat, offset: nat)

  // ---------------- find_partition_csv ----------------

  /** The listing filter: a `.csv` file whose lower-cased name starts with the lower-cased scheme. */
  predicate IsCandidate(part: string, name: string)
  {
    Lower(part) <= Lower(name) && EndsWith(name, ".csv")
  }

  /** The first file named exactly `<part>.csv`. */
  function ExactIndex(files: seq<CsvFile>, name: string): (r: Option<nat>)
    ensures r.None? <==> forall i :: 0 <= i < |files| ==> files[i].name != name
    ensures r.Some? ==> r.value < |files| && files[r.value].name == name
  {
    if files == [] then None
    else if files[0].name == name then Some(0)
    else match ExactIndex(files[1..], name)
      case None => None
      case Some(i) => Some(i + 1)
  }

  /**
   * `candidates.sort(key=len); candidates[0]`: the sort is stable, so the
   * result is the first candidate, in listing order, of the least length.
   */
  function Shortest(files: seq<CsvFile>, part: string): (r: Option<nat>)
    ensures r.None? <==> forall i :: 0 <= i < |files| ==> !IsCandidate(part, files[i].name)
    ensures r.Some? ==> r.value < |files| && IsCandidate(part, files[r.value].name)
    ensures r.Some? ==> forall i :: 0 <= i < |files| && IsCandidate(part, files[i].name) ==>
      |files[r.value].name| <= |files[i].name|
    ensures r.Some? ==> forall i :: 0 <= i < r.value && IsCandidate(part, files[i].name) ==>
      |files[r.value].name| < |files[i].name|
  {
    if files == [] then None
    else
      var last := |files| - 1;
      var rest := Shortest(files[..last], part);
      if !IsCandidate(part, files[last].name) then rest
      else if rest.None? then Some(last)
      else if |files[last].name| < |files[rest.value].name| then Some(last)
      else rest
  }

  /** The listing entry `find_partition_csv` picks: the exact file first, else a shortest candidate. */
  function Locate(files: seq<CsvFile>, part: string): (r: Option<nat>)
    ensures r.Some? ==> r.value < |files|
  {
    match ExactIndex(files, part + ".csv")
    case Some(i) => Some(i)
    case None => Shortest(files, part)
  }

  /** `find_partition_csv`: the path of the scheme's table, or None. */
  function FindPartitionCsv(dir: PartitionDir, part: string): (r: Option<string>)
  {
    match dir
    case MissingDir => None
    case Dir(path, files) =>
      match Locate(files, part)
      case None => None
      case Some(i) => Some(Join(path, files[i].name))
  }

  /** The exact file name passes the listing filter too. */
  lemma ExactIsCandidate(part: string)
    ensures IsCandidate(part, part + ".csv")
  {
    LowerConcat(part, ".csv");
  }

  /** An exact `<part>.csv` is returned whatever else the directory holds. */
  lemma ExactWins(path: string, files: seq<CsvFile>, part: string, i: nat)
    requires i < |files| && files[i].name == part + ".csv"
    requires forall j :: 0 <= j < |files| && j != i ==> files[j].name != files[i].name
    ensures FindPartitionCsv(Dir(path, files), part) == Some(Join(path, part + ".csv"))
  {
  }

  /**
   * Without an exact file, the result is a candidate and no candidate is
   * strictly shorter; among equally short ones it is the first listed.
   */
  lemma PrefixFallback(path: string, files: seq<CsvFile>, part: string)
    requires forall j :: 0 <= j < |files| ==> files[j].name != part + ".csv"
    ensures FindPartitionCsv(Dir(path, files), part).Some? ==>
      exists k :: 0 <= k < |files| && FindPartitionCsv(Dir(path, files), part) == Some(Join(path, files[k].name))
        && IsCandidate(part, files[k].name)
        && (forall j :: 0 <= j < |files| && IsCandidate(part, files[j].name) ==> |files[k].name| <= |files[j].name|)
        && (forall j :: 0 <= j < k && IsCandidate(part, files[j].name) ==> |files[k].name| < |files[j].name|)
  {
    var r := Shortest(files, part);
    if r.Some? {
      assert FindPartitionCsv(Dir(path, files), part) == Some(Join(path, files[r.value].name));
    }
  }

  /** None exactly when the directory is missing or no file passes the filter. */
  lemma NotFound(dir: PartitionDir, part: string)
    ensures FindPartitionCsv(dir, part).None? <==>
      dir.MissingDir? || forall j :: 0 <= j < |dir.files| ==> !IsCandidate(part, dir.files[j].name)
  {
    if dir.Dir? {
      ExactIsCandidate(part);
      var e := ExactIndex(dir.files, part + ".csv");
      if e.Some? {
        assert IsCandidate(part, dir.files[e.value].name);
      }
    }
  }

  // ---------------- get_spiffs_region ----------------

  /** `[c.strip() for c in line.split(",")]` */
  function Columns(line: string): (cols: seq<string>)
    ensures |cols| == |Split(line, ',')|
  {
    StripAll(Split(line, ','))
  }

  /** Each field trimmed, in order. */
  function StripAll(fields: seq<string>): (r: seq<string>)
    ensures |r| == |fields| && forall i :: 0 <= i < |fields| ==> r[i] == Strip(fields[i])
  {
    if fields == [] then [] else [Strip(fields[0])] + StripAll(fields[1..])
  }

  /** The SPIFFS test on the first three columns. */
  predicate IsSpiffsRow(name: string, ptype: string, subtype: string)
  {
    Lower(ptype) == "data" && (Lower(subtype) == "spiffs" || Lower(name) == "spiffs")
  }

  /** A line the row loop skips before looking at its columns. */
  predicate Skipped(line: string)
  {
    line == [] || "#" <= line || |Columns(line)| < 5
  }

  /** What one raw line of the table yields: the region, or nothing and the loop goes on. */
  function RowRegion(raw: string): Option<Spiffs>
  {
    LineRegion(Strip(raw))
  }

  /** The same, on a line already stripped. */
  function LineRegion(line: string): Option<Spiffs>
  {
    if Skipped(line) then None else ColumnsRegion(Columns(line))
  }

  /** The first five columns decide: a data/spiffs row whose offset and size parse. */
  function ColumnsRegion(cols: seq<string>): Option<Spiffs>
    requires |cols| >= 5
  {
    if !IsSpiffsRow(cols[0], cols[1], cols[2]) then None
    else
      match (ParseInt(cols[3]), ParseInt(cols[4]))
      case (Some(off), Some(size)) => Some(Spiffs(size, off))
      case _ => None
  }

  /** What each line of the table yields, in order. */
  function Rows(lines: seq<string>): (rows: seq<Option<Spiffs>>)
    ensures |rows| == |lines|
  {
    if lines == [] then [] else [RowRegion(lines[0])] + Rows(lines[1..])
  }

  lemma {:induction false} RowsAt(lines: seq<string>, k: nat)
    requires k < |lines|
    ensures Rows(lines)[k] == RowRegion(lines[k])
  {
    var rest := Rows(lines[1..]);
    assert Rows(lines) == [RowRegion(lines[0])] + rest;
    if k > 0 {
      RowsAt(lines[1..], k - 1);
      assert lines[1..][k - 1] == lines[k];
      assert Rows(lines)[k] == rest[k - 1];
    }
  }

  /** The first region in a sequence of row results. */
  function FirstRegion(rows: seq<Option<Spiffs>>): Option<Spiffs>
  {
    if rows == [] then None else if rows[0].Some? then rows[0] else FirstRegion(rows[1..])
  }

  /** One step of the scan: the row at `i` if it yields a region, else the scan of the rest. */
  lemma FirstRegionStep(rows: seq<Option<Spiffs>>, i: nat)
    requires i < |rows|
    ensures FirstRegion(rows[i..]) == if rows[i].Some? then rows[i] else FirstRegion(rows[i + 1..])
  {
    assert rows[i..][0] == rows[i];
    assert rows[i..][1..] == rows[i + 1..];
  }

  /** First match wins: the first row that yields a region, or None when no row yields one. */
  lemma {:induction false} FirstRegionFirst(rows: seq<Option<Spiffs>>)
    ensures FirstRegion(rows).None? <==> forall k :: 0 <= k < |rows| ==> rows[k].None?
    ensures FirstRegion(rows).Some? ==>
      exists k :: 0 <= k < |rows| && rows[k] == FirstRegion(rows) && forall j :: 0 <= j < k ==> rows[j].None?
  {
    if rows != [] && rows[0].None? {
      var tail := rows[1..];
      FirstRegionFirst(tail);
      if FirstRegion(tail).Some? {
        var k :| 0 <= k < |tail| && tail[k] == FirstRegion(tail) && forall j :: 0 <= j < k ==> tail[j].None?;
        assert rows[k + 1] == tail[k];
      }
    }
  }

  /** The region the row loop finds in a table. */
  function RegionIn(lines: seq<string>): Option<Spiffs>
  {
    FirstRegion(Rows(lines))
  }

  /** On lines: the region of the first yielding line, or None when no line yields one. */
  lemma RegionInFirst(lines: seq<string>)
    ensures RegionIn(lines).None? <==> forall k :: 0 <= k < |lines| ==> RowRegion(lines[k]).None?
    ensures RegionIn(lines).Some? ==>
      exists k :: 0 <= k < |lines| && RowRegion(lines[k]) == RegionIn(lines)
        && forall j :: 0 <= j < k ==> RowRegion(lines[j]).None?
  {
    FirstRegionFirst(Rows(lines));
    forall k | 0 <= k < |lines|
      ensures Rows(lines)[k] == RowRegion(lines[k])
    {
      RowsAt(lines, k);
    }
  }

  /** The region `get_spiffs_region` reports for a scheme (None for `(None, None)`). */
  function SpiffsRegionOf(dir: PartitionDir, part: string): Option<Spiffs>
  {
    match dir
    case MissingDir => None
    case Dir(_, files) =>
      match Locate(files, part)
      case None => None
      case Some(i) => RegionIn(files[i].lines)
  }

  /** `get_spiffs_region`: locate the table, then scan its rows and stop at the first SPIFFS row. */
  method GetSpiffsRegion(dir: PartitionDir, part: string) returns (r: Option<Spiffs>)
    ensures r == SpiffsRegionOf(dir, part)
  {
    if dir.MissingDir? {
      return None;
    }
    var found := Locate(dir.files, part);
    if found.None? {
      return None;
    }
    var lines := dir.files[found.value].lines;
    ghost var rows := Rows(lines);
    var i := 0;
    while i < |lines|
      invariant 0 <= i <= |lines|
      invariant RegionIn(lines) == FirstRegion(rows[i..])
    {
      var row := RowRegion(lines[i]);
      RowsAt(lines, i);
      FirstRegionStep(rows, i);
      if row.Some? {
        return row;
      }
      i := i + 1;
    }
    assert rows[i..] == [];
    return None;
  }

  /**
   * A row as text: five comma-separated fields, then `tail`, which is empty or starts with
   * the comma of a sixth column (a trailing comma, a flags column).
   */
  function RowText(name: string, ptype: string, subtype: string, offset: string, size: string, tail: string): string
  {
    name + "," + ptype + "," + subtype + "," + offset + "," + size + tail
  }

  /** The five fields hold no comma, white space around them allowed, and `tail` starts a new column. */
  predicate RowFields(name: string, ptype: string, subtype: string, offset: string, size: string, tail: string)
  {
    ',' !in name && ',' !in ptype && ',' !in subtype && ',' !in offset && ',' !in size
    && (tail == [] || tail[0] == ',')
  }

  /** The columns `tail` adds after the fifth field. */
  function MoreColumns(tail: string): seq<string>
  {
    if tail == [] then [] else Columns(tail[1..])
  }

  /** Split into columns a row gives its five fields, each trimmed, then the columns of what follows. */
  lemma RowColumns(name: string, ptype: string, subtype: string, offset: string, size: string, tail: string)
    requires RowFields(name, ptype, subtype, offset, size, tail)
    ensures Columns(RowText(name, ptype, subtype, offset, size, tail)) ==
      [Strip(name), Strip(ptype), Strip(subtype), Strip(offset), Strip(size)] + MoreColumns(tail)
  {
    var m := MoreColumns(tail);
    var t3 := offset + [','] + (size + tail);
    var t2 := subtype + [','] + t3;
    var t1 := ptype + [','] + t2;
    Nest(name, ptype, subtype, offset, size, tail, [',']);
    LastColumns(size, tail);
    ColumnsCons(offset, size + tail);
    ColumnsCons(subtype, t3);
    ColumnsCons(ptype, t2);
    ColumnsCons(name, t1);
    FivePlus(Strip(name), Strip(ptype), Strip(subtype), Strip(offset), Strip(size), m);
  }

  /** The fifth field and what follows it. */
  lemma LastColumns(size: string, tail: string)
    requires ',' !in size && (tail == [] || tail[0] == ',')
    ensures Columns(size + tail) == [Strip(size)] + MoreColumns(tail)
  {
    if tail == [] {
      Unit(size);
      ColumnsOne(size);
      Unit([Strip(size)]);
    } else {
      assert tail == [','] + tail[1..];
      assert size + tail == size + [','] + tail[1..];
      ColumnsCons(size, tail[1..]);
    }
  }

  /** The first column of a line is its text up to the first comma, trimmed. */
  lemma ColumnsCons(a: string, rest: string)
    requires ',' !in a
    ensures Columns(a + [','] + rest) == [Strip(a)] + Columns(rest)
  {
    SplitAt(a, ',', rest);
    TailOfCons(a, Split(rest, ','));
  }

  /** A line without a comma is one column. */
  lemma ColumnsOne(a: string)
    requires ',' !in a
    ensures Columns(a) == [Strip(a)]
  {
    SplitNone(a, ',');
    TailOfCons(a, []);
    Unit([Strip(a)]);
  }

  /** Blank lines, `#` lines and rows of fewer than five columns yield nothing. */
  lemma SkippedLineYieldsNothing(raw: string)
    requires var line := Strip(raw); line == [] || "#" <= line || |Columns(line)| < 5
    ensures RowRegion(raw).None?
  {
  }

  /**
   * A stripped, uncommented line of five columns or more is decided by its first five:
   * extra columns play no part.
   */
  lemma RowOfColumns(row: string, cols: seq<string>)
    requires Strip(row) == row && row != [] && row[0] != '#' && Columns(row) == cols && |cols| >= 5
    ensures RowRegion(row) ==
      if IsSpiffsRow(cols[0], cols[1], cols[2]) && ParseInt(cols[3]).Some? && ParseInt(cols[4]).Some?
      then Some(Spiffs(ParseInt(cols[4]).value, ParseInt(cols[3]).value)) else None
  {
    assert !("#" <= row) by {
      assert row[0] != "#"[0];
    }
    LineOfColumns(row, cols);
  }

  lemma LineOfColumns(line: string, cols: seq<string>)
    requires line != [] && !("#" <= line) && Columns(line) == cols && |cols| >= 5
    ensures LineRegion(line) ==
      if IsSpiffsRow(cols[0], cols[1], cols[2]) && ParseInt(cols[3]).Some? && ParseInt(cols[4]).Some?
      then Some(Spiffs(ParseInt(cols[4]).value, ParseInt(cols[3]).value)) else None
  {
    assert !Skipped(line);
    assert LineRegion(line) == ColumnsRegion(cols);
  }

  /**
   * A row with no white space at its two ends is read from its five fields, each trimmed:
   * (size, offset), in that order, for a SPIFFS row whose two numbers parse, and nothing otherwise.
   */
  lemma RowRead(name: string, ptype: string, subtype: string, offset: string, size: string, tail: string)
    requires RowFields(name, ptype, subtype, offset, size, tail)
    requires name != [] && !IsSpace(name[0]) && name[0] != '#'
    requires var row := RowText(name, ptype, subtype, offset, size, tail); !IsSpace(row[|row| - 1])
    ensures var o, z := ParseInt(Strip(offset)), ParseInt(Strip(size));
      RowRegion(RowText(name, ptype, subtype, offset, size, tail)) ==
        if IsSpiffsRow(Strip(name), Strip(ptype), Strip(subtype)) && o.Some? && z.Some?
        then Some(Spiffs(z.value, o.value)) else None
  {
    var row := RowText(name, ptype, subtype, offset, size, tail);
    RowStart(name, ptype, subtype, offset, size, tail);
    StripClean(row);
    RowColumns(name, ptype, subtype, offset, size, tail);
    FiveAt(Columns(row), Strip(name), Strip(ptype), Strip(subtype), Strip(offset), Strip(size), MoreColumns(tail));
    RowOfColumns(row, Columns(row));
  }

  lemma RowStart(name: string, ptype: string, subtype: string, offset: string, size: string, tail: string)
    requires name != []
    ensures RowText(name, ptype, subtype, offset, size, tail)[0] == name[0]
  {
  }

  /** White space around a whole row is stripped before the row is read. */
  lemma RowPadding(ws1: string, row: string, ws2: string)
    requires forall k :: 0 <= k < |ws1| ==> IsSpace(ws1[k])
    requires forall k :: 0 <= k < |ws2| ==> IsSpace(ws2[k])
    requires row != [] && !IsSpace(row[0]) && !IsSpace(row[|row| - 1])
    ensures RowRegion(ws1 + row + ws2) == RowRegion(row)
  {
    StripPadded(ws1, row, ws2);
    StripClean(row);
  }

  /** A SPIFFS row whose offset and size parse yields them, size first, padded or not, wider or not. */
  lemma SpiffsRowRead(name: string, ptype: string, subtype: string, offset: string, size: string, tail: string,
                      off: nat, sz: nat)
    requires RowFields(name, ptype, subtype, offset, size, tail)
    requires name != [] && !IsSpace(name[0]) && name[0] != '#'
    requires var row := RowText(name, ptype, subtype, offset, size, tail); !IsSpace(row[|row| - 1])
    requires IsSpiffsRow(Strip(name), Strip(ptype), Strip(subtype))
    requires ParseInt(Strip(offset)) == Some(off) && ParseInt(Strip(size)) == Some(sz)
    ensures RowRegion(RowText(name, ptype, subtype, offset, size, tail)) == Some(Spiffs(sz, off))
  {
    RowRead(name, ptype, subtype, offset, size, tail);
  }

  /** A line that yields nothing does not stop the scan: the rows after it decide. */
  lemma NoRegionSkipped(line: string, rest: seq<string>)
    requires RowRegion(line).None?
    ensures RegionIn([line] + rest) == RegionIn(rest)
  {
    var lines := [line] + rest;
    assert lines[0] == line && lines[1..] == rest;
    assert Rows(lines) == [RowRegion(line)] + Rows(rest);
    assert ([RowRegion(line)] + Rows(rest))[1..] == Rows(rest);
  }

  /** A SPIFFS row whose offset or size does not parse is skipped like any other line. */
  lemma UnparsableSpiffsRowSkipped(name: string, ptype: string, subtype: string, offset: string, size: string,
                                   tail: string, rest: seq<string>)
    requires RowFields(name, ptype, subtype, offset, size, tail)
    requires name != [] && !IsSpace(name[0]) && name[0] != '#'
    requires var row := RowText(name, ptype, subtype, offset, size, tail); !IsSpace(row[|row| - 1])
    requires IsSpiffsRow(Strip(name), Strip(ptype), Strip(subtype))
    requires ParseInt(Strip(offset)).None? || ParseInt(Strip(size)).None?
    ensures RegionIn([RowText(name, ptype, subtype, offset, size, tail)] + rest) == RegionIn(rest)
  {
    RowRead(name, ptype, subtype, offset, size, tail);
    NoRegionSkipped(RowText(name, ptype, subtype, offset, size, tail), rest);
  }

  /** A row that is not a data/spiffs row is skipped, whatever its numbers. */
  lemma OtherRowSkipped(name: string, ptype: string, subtype: string, offset: string, size: string,
                        tail: string, rest: seq<string>)
    requires RowFields(name, ptype, subtype, offset, size, tail)
    requires name != [] && !IsSpace(name[0]) && name[0] != '#'
    requires var row := RowText(name, ptype, subtype, offset, size, tail); !IsSpace(row[|row| - 1])
    requires !IsSpiffsRow(Strip(name), Strip(ptype), Strip(subtype))
    ensures RegionIn([RowText(name, ptype, subtype, offset, size, tail)] + rest) == RegionIn(rest)
  {
    RowRead(name, ptype, subtype, offset, size, tail);
    NoRegionSkipped(RowText(name, ptype, subtype, offset, size, tail), rest);
  }

  /**
   * The SPIFFS row `spiffs,   data, spiffs,  0x290000,0x160000,` of a bundled partition
   * table, with padded fields and a trailing comma, reads as a 0x160000-byte region at 0x290000.
   */
  lemma PaddedRowExample(name: string, ptype: string, subtype: string, offset: string, size: string, tail: string)
    requires name == "spiffs" && ptype == "   data" && subtype == " spiffs"
    requires offset == "  0x290000" && size == "0x160000" && tail == ","
    ensures RowRegion(RowText(name, ptype, subtype, offset, size, tail)) == Some(Spiffs(0x160000, 0x290000))
  {
    ExampleShape(name, ptype, subtype, offset, size, tail);
    ExampleKind(name, ptype, subtype);
    ExampleNumbers(offset, size);
    SpiffsRowRead(name, ptype, subtype, offset, size, tail, 0x290000, 0x160000);
  }

  lemma ExampleShape(name: string, ptype: string, subtype: string, offset: string, size: string, tail: string)
    requires name == "spiffs" && ptype == "   data" && subtype == " spiffs"
    requires offset == "  0x290000" && size == "0x160000" && tail == ","
    ensures RowFields(name, ptype, subtype, offset, size, tail)
    ensures name != [] && !IsSpace(name[0]) && name[0] != '#'
    ensures var row := RowText(name, ptype, subtype, offset, size, tail); !IsSpace(row[|row| - 1])
  {
    ExampleFields();
    RowEnd(name, ptype, subtype, offset, size, tail);
  }

  lemma ExampleKind(name: string, ptype: string, subtype: string)
    requires name == "spiffs" && ptype == "   data" && subtype == " spiffs"
    ensures IsSpiffsRow(Strip(name), Strip(ptype), Strip(subtype))
  {
    FieldA();
    FieldB();
    FieldC();
    ExampleIsSpiffs();
  }

  lemma ExampleNumbers(offset: string, size: string)
    requires offset == "  0x290000" && size == "0x160000"
    ensures ParseInt(Strip(offset)) == Some(0x290000) && ParseInt(Strip(size)) == Some(0x160000)
  {
    FieldD();
    FieldE();
    HexLiterals();
  }

  lemma ExampleFields()
    ensures RowFields("spiffs", "   data", " spiffs", "  0x290000", "0x160000", ",")
  {
  }

  lemma RowEnd(name: string, ptype: string, subtype: string, offset: string, size: string, tail: string)
    requires tail != []
    ensures var row := RowText(name, ptype, subtype, offset, size, tail); row[|row| - 1] == tail[|tail| - 1]
  {
  }

  lemma FieldA() ensures Strip("spiffs") == "spiffs" { StripClean("spiffs"); }
  lemma FieldB() ensures Strip("   data") == "data" { Padded("   data", "   ", "data"); }
  lemma FieldC() ensures Strip(" spiffs") == "spiffs" { Padded(" spiffs", " ", "spiffs"); }
  lemma FieldD() ensures Strip("  0x290000") == "0x290000" { Padded("  0x290000", "  ", "0x290000"); }
  lemma FieldE() ensures Strip("0x160000") == "0x160000" { StripClean("0x160000"); }

  /** A field padded on the left only; stated of a variable `field`, which keeps its literal folded. */
  lemma Padded(field: string, ws: string, s: string)
    requires field == ws + s
    requires forall k :: 0 <= k < |ws| ==> ws[k] == ' '
    requires s != [] && !IsSpace(s[0]) && !IsSpace(s[|s| - 1])
    ensures Strip(field) == s
  {
    StripPadded(ws, s, "");
    assert ws + s + "" == field;
  }

  /** The example row's type and subtype mark it as the SPIFFS row. */
  lemma ExampleIsSpiffs()
    ensures IsSpiffsRow("spiffs", "data", "spiffs")
  {
    assert Lower("data") == "data";
    assert Lower("spiffs") == "spiffs";
  }

  lemma HexLiterals()
    ensures ParseInt("0x290000") == Some(0x290000) && ParseInt("0x160000") == Some(0x160000)
  {
    assert "0x290000"[2..] == "290000";
    assert "0x160000"[2..] == "160000";
    OffsetDigits();
    SizeDigits();
  }

  lemma OffsetDigits()
    ensures AllHex("290000") && Value("290000", 16) == 0x290000
  {
    assert "290000"[..5] == "29000" && "29000"[..4] == "2900" && "2900"[..3] == "290";
    assert "290"[..2] == "29" && "29"[..1] == "2" && "2"[..0] == [];
  }

  lemma SizeDigits()
    ensures AllHex("160000") && Value("160000", 16) == 0x160000
  {
    assert "160000"[..5] == "16000" && "16000"[..4] == "1600" && "1600"[..3] == "160";
    assert "160"[..2] == "16" && "16"[..1] == "1" && "1"[..0] == [];
  }
}
