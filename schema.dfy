/**
 * Schema extraction: the file's extension picks the format, the manifest
 * records the file name, the options and (when asked) the file's hash,
 * the format's reader supplies the sheets and the recode registry, the
 * registry supplies the sidekick when some value was recoded, and every
 * column warning is collected, once each, into the manifest's global
 * warnings.
 *
 * The file system does not appear here: the file name, the hash, the
 * reader's outcome and the sidekick's generation time are parameters.
 */
module Schema {
  import opened Strings
  import opened Types
  import opened Sorting
  import Recoding

  /** `ExtractionResult`: the manifest and, when some value was recoded, the sidekick's text. */
  datatype ExtractionResult = ExtractionResult(manifest: ManifestSchema, recodeSidekick: Option<string>)

  /** What the format's reader hands back: the sheets and the registry of recoded columns. */
  datatype Reading = Reading(sheets: seq<SheetSchema>, registry: Recoding.RecodeRegistry)

  // ---------------------------------------------------------------------
  // Global warnings
  // ---------------------------------------------------------------------

  /** A column warning as the manifest lists it: the sheet's name and the column's position, counting from one. */
  function GlobalWarning(sheetName: string, index: nat, warning: string): string {
    "Sheet '" + sheetName + "', Column " + NatToString(index + 1) + ": " + warning
  }

  /** A column's warnings, in order, as global warnings. */
  function ColumnWarnings(sheetName: string, col: ColumnSchema): (r: seq<string>)
    ensures |r| == |col.warnings|
    ensures forall k :: 0 <= k < |r| ==> r[k] == GlobalWarning(sheetName, col.index, col.warnings[k])
  {
    seq(|col.warnings|, k requires 0 <= k < |col.warnings| => GlobalWarning(sheetName, col.index, col.warnings[k]))
  }

  /** The warnings of each column of a sheet. */
  function ColumnBlocks(sheet: SheetSchema): (r: seq<seq<string>>)
    ensures |r| == |sheet.columns|
    ensures forall j :: 0 <= j < |r| ==> r[j] == ColumnWarnings(sheet.name, sheet.columns[j])
  {
    seq(|sheet.columns|, j requires 0 <= j < |sheet.columns| => ColumnWarnings(sheet.name, sheet.columns[j]))
  }

  /** The warnings of each sheet, its columns in order. */
  function SheetBlocks(sheets: seq<SheetSchema>): (r: seq<seq<string>>)
    ensures |r| == |sheets|
    ensures forall i :: 0 <= i < |r| ==> r[i] == Recoding.Flatten(ColumnBlocks(sheets[i]))
  {
    seq(|sheets|, i requires 0 <= i < |sheets| => Recoding.Flatten(ColumnBlocks(sheets[i])))
  }

  /** Every column warning of every sheet, in sheet, column and warning order, repeats included. */
  function AllWarnings(sheets: seq<SheetSchema>): seq<string> {
    Recoding.Flatten(SheetBlocks(sheets))
  }

  /** `acc` with `w` appended unless it is already there. */
  function AddNew(acc: seq<string>, w: string): (r: seq<string>)
    ensures w in r
    ensures w in acc ==> r == acc
    ensures w !in acc ==> r == acc + [w]
  {
    if w in acc then acc else acc + [w]
  }

  /** `acc` with each of `ws`, in order, appended unless already there. */
  function AddAll(acc: seq<string>, ws: seq<string>): seq<string>
    decreases |ws|
  {
    if ws == [] then acc else AddNew(AddAll(acc, ws[..|ws| - 1]), ws[|ws| - 1])
  }

  /** The first occurrence of each element, in order. */
  function Dedup(ws: seq<string>): seq<string> {
    AddAll([], ws)
  }

  /** The manifest's global warnings. */
  function GlobalWarnings(sheets: seq<SheetSchema>): seq<string> {
    Dedup(AllWarnings(sheets))
  }

  lemma AddAllSnoc(acc: seq<string>, ws: seq<string>, w: string)
    ensures AddAll(acc, ws + [w]) == AddNew(AddAll(acc, ws), w)
  {
    assert (ws + [w])[..|ws|] == ws;
  }

  /** Adding two runs one after the other is adding their concatenation. */
  lemma {:induction false} AddAllAppend(acc: seq<string>, a: seq<string>, b: seq<string>)
    ensures AddAll(acc, a + b) == AddAll(AddAll(acc, a), b)
    decreases |b|
  {
    if b == [] {
      assert a + b == a;
    } else {
      var init, last := b[..|b| - 1], b[|b| - 1];
      assert b == init + [last];
      assert a + b == (a + init) + [last];
      AddAllSnoc(acc, a + init, last);
      AddAllAppend(acc, a, init);
      AddAllSnoc(AddAll(acc, a), init, last);
    }
  }

  /** Adding keeps what was there, in place, and only appends. */
  lemma {:induction false} AddAllExtends(acc: seq<string>, ws: seq<string>)
    ensures |acc| <= |AddAll(acc, ws)| <= |acc| + |ws|
    ensures AddAll(acc, ws)[..|acc|] == acc
    decreases |ws|
  {
    if ws != [] {
      AddAllExtends(acc, ws[..|ws| - 1]);
      var prev := AddAll(acc, ws[..|ws| - 1]);
      assert (prev + [ws[|ws| - 1]])[..|acc|] == prev[..|acc|];
    }
  }

  /** An element is in the result exactly when it was there already or is one of those added. */
  lemma {:induction false} AddAllMembers(acc: seq<string>, ws: seq<string>, x: string)
    ensures x in AddAll(acc, ws) <==> x in acc || x in ws
    decreases |ws|
  {
    if ws != [] {
      var init, last := ws[..|ws| - 1], ws[|ws| - 1];
      assert ws == init + [last];
      AddAllMembers(acc, init, x);
    }
  }

  /** Adding to a list without repeats gives a list without repeats. */
  lemma {:induction false} AddAllDistinct(acc: seq<string>, ws: seq<string>)
    requires Distinct(acc)
    ensures Distinct(AddAll(acc, ws))
    decreases |ws|
  {
    if ws != [] {
      var init, last := ws[..|ws| - 1], ws[|ws| - 1];
      AddAllDistinct(acc, init);
      var prev := AddAll(acc, init);
      if last !in prev {
        var r := prev + [last];
        forall i, j | 0 <= i < j < |r| ensures r[i] != r[j] {
          if j == |prev| {
            assert r[i] == prev[i];
          }
        }
      }
    }
  }

  /** Adding elements none of which is there yet, and none twice, appends them all. */
  lemma {:induction false} AddAllFresh(acc: seq<string>, ws: seq<string>)
    requires Distinct(acc + ws)
    ensures AddAll(acc, ws) == acc + ws
    decreases |ws|
  {
    if ws != [] {
      var init, last := ws[..|ws| - 1], ws[|ws| - 1];
      assert acc + ws == (acc + init) + [last];
      assert Distinct(acc + init) by {
        forall i, j | 0 <= i < j < |acc + init| ensures (acc + init)[i] != (acc + init)[j] {
          assert (acc + init)[i] == (acc + ws)[i] && (acc + init)[j] == (acc + ws)[j];
        }
      }
      AddAllFresh(acc, init);
      assert last !in acc + init by {
        forall i | 0 <= i < |acc + init| ensures (acc + init)[i] != last {
          assert (acc + init)[i] == (acc + ws)[i] && last == (acc + ws)[|acc + ws| - 1];
        }
      }
    }
  }

  /**
   * The global warnings hold each warning once, exactly the warnings of
   * the columns, and a list without repeats is kept as it is.
   */
  lemma DedupMeans(ws: seq<string>)
    ensures Distinct(Dedup(ws))
    ensures forall x :: x in Dedup(ws) <==> x in ws
    ensures |Dedup(ws)| <= |ws|
    ensures Distinct(ws) ==> Dedup(ws) == ws
  {
    AddAllDistinct([], ws);
    forall x ensures x in Dedup(ws) <==> x in ws {
      AddAllMembers([], ws, x);
    }
    AddAllExtends([], ws);
    if Distinct(ws) {
      assert [] + ws == ws;
      AddAllFresh([], ws);
    }
  }

  /** First occurrences come first: the warnings of a prefix of the input are a prefix of the output. */
  lemma DedupKeepsOrder(a: seq<string>, b: seq<string>)
    ensures |Dedup(a)| <= |Dedup(a + b)| && Dedup(a + b)[..|Dedup(a)|] == Dedup(a)
  {
    AddAllAppend([], a, b);
    AddAllExtends(Dedup(a), b);
  }

  /** An element of a flattened list of blocks is an element of one of the blocks. */
  lemma {:induction false} FlattenMembers(blocks: seq<seq<string>>, x: string)
    ensures x in Recoding.Flatten(blocks) <==> exists i :: 0 <= i < |blocks| && x in blocks[i]
    decreases |blocks|
  {
    if blocks != [] {
      var init := blocks[..|blocks| - 1];
      FlattenMembers(init, x);
      assert forall i :: 0 <= i < |init| ==> init[i] == blocks[i];
    }
  }

  /** A global warning is the named form of some warning of some column of some sheet, and every such form is one. */
  lemma AllWarningsMembers(sheets: seq<SheetSchema>, w: string)
    ensures w in GlobalWarnings(sheets) <==>
      exists i, j, k :: 0 <= i < |sheets| && 0 <= j < |sheets[i].columns| && 0 <= k < |sheets[i].columns[j].warnings| &&
        w == GlobalWarning(sheets[i].name, sheets[i].columns[j].index, sheets[i].columns[j].warnings[k])
  {
    DedupMeans(AllWarnings(sheets));
    FlattenMembers(SheetBlocks(sheets), w);
    forall i | 0 <= i < |sheets|
      ensures w in SheetBlocks(sheets)[i] <==>
        exists j, k :: 0 <= j < |sheets[i].columns| && 0 <= k < |sheets[i].columns[j].warnings| &&
          w == GlobalWarning(sheets[i].name, sheets[i].columns[j].index, sheets[i].columns[j].warnings[k])
    {
      FlattenMembers(ColumnBlocks(sheets[i]), w);
    }
  }

  // ---------------------------------------------------------------------
  // The collection loops
  // ---------------------------------------------------------------------

  /** The innermost loop: one column's warnings, each added unless already listed. */
  method AddColumnWarnings(acc: seq<string>, sheetName: string, col: ColumnSchema) returns (r: seq<string>)
    ensures r == AddAll(acc, ColumnWarnings(sheetName, col))
  {
    r := acc;
    if col.warnings != [] {
      ghost var ws := ColumnWarnings(sheetName, col);
      var k := 0;
      while k < |col.warnings|
        invariant 0 <= k <= |col.warnings|
        invariant r == AddAll(acc, ws[..k])
      {
        var globalWarning := GlobalWarning(sheetName, col.index, col.warnings[k]);
        assert ws[..k + 1] == ws[..k] + [globalWarning];
        AddAllSnoc(acc, ws[..k], globalWarning);
        if globalWarning !in r {
          r := r + [globalWarning];
        }
        k := k + 1;
      }
      assert ws[..k] == ws;
    }
  }

  /** The middle loop: the columns of one sheet, in order. */
  method AddSheetWarnings(acc: seq<string>, sheet: SheetSchema) returns (r: seq<string>)
    ensures r == AddAll(acc, Recoding.Flatten(ColumnBlocks(sheet)))
  {
    ghost var blocks := ColumnBlocks(sheet);
    r := acc;
    var j := 0;
    while j < |sheet.columns|
      invariant 0 <= j <= |sheet.columns|
      invariant r == AddAll(acc, Recoding.Flatten(blocks[..j]))
    {
      r := AddColumnWarnings(r, sheet.name, sheet.columns[j]);
      assert blocks[..j + 1] == blocks[..j] + [blocks[j]];
      Recoding.FlattenAppend(blocks[..j], blocks[j]);
      AddAllAppend(acc, Recoding.Flatten(blocks[..j]), blocks[j]);
      j := j + 1;
    }
    assert blocks[..j] == blocks;
  }

  /** The outer loop: every sheet's column warnings, each listed once, in first-seen order. */
  method CollectWarnings(sheets: seq<SheetSchema>) returns (warnings: seq<string>)
    ensures warnings == GlobalWarnings(sheets)
  {
    ghost var blocks := SheetBlocks(sheets);
    warnings := [];
    var i := 0;
    while i < |sheets|
      invariant 0 <= i <= |sheets|
      invariant warnings == AddAll([], Recoding.Flatten(blocks[..i]))
    {
      warnings := AddSheetWarnings(warnings, sheets[i]);
      assert blocks[..i + 1] == blocks[..i] + [blocks[i]];
      Recoding.FlattenAppend(blocks[..i], blocks[i]);
      AddAllAppend([], Recoding.Flatten(blocks[..i]), blocks[i]);
      i := i + 1;
    }
    assert blocks[..i] == blocks;
  }

  // ---------------------------------------------------------------------
  // Extraction
  // ---------------------------------------------------------------------

  /** The message of an unknown extension; the extension is shown after a dot. */
  function UnsupportedMessage(ext: string): string {
    "Unsupported file extension: ." + ext
  }

  /** Whether extraction gets past the extension, the hash and the reader. */
  predicate Succeeds(ext: string, options: ProcessingOptions, hash: Result<string>, reading: Result<Reading>) {
    FromExtension(ext).Some? && !(options.hashFile && hash.Err?) && reading.Ok?
  }

  /**
   * The manifest of a successful extraction: the file's name ("unknown"
   * when it has none), the format of its extension, the options given,
   * the hash exactly when one was asked for, the reader's sheets, and
   * their column warnings once each; the sidekick exactly when some
   * recoded column handed out a label, with the registry's content.
   */
  ghost predicate Extracted(e: ExtractionResult, fileName: Option<string>, ext: string, options: ProcessingOptions,
                            hash: Result<string>, reading: Reading, timestamp: string)
    reads reading.registry, reading.registry.Repr
    requires FromExtension(ext).Some? && (options.hashFile ==> hash.Ok?) && reading.registry.Valid()
  {
    var m := e.manifest;
    && m.version == "1.0.0"
    && m.fileName == (if fileName.Some? then fileName.value else "unknown")
    && m.format == FromExtension(ext).value
    && m.options == options
    && (m.fileHash.Some? <==> options.hashFile)
    && (m.fileHash.Some? ==> m.fileHash.value == hash.value)
    && m.sheets == reading.sheets
    && m.warnings == GlobalWarnings(reading.sheets)
    && (e.recodeSidekick.Some? <==> reading.registry.HasRecodings())
    && (e.recodeSidekick.Some? ==> e.recodeSidekick.value == Join(reading.registry.SidekickLines(timestamp), "\n"))
  }

  /**
   * `extract_schema`: an unknown extension fails first; then, when a hash
   * is asked for, a failed hash; then a failed read; otherwise the
   * manifest and sidekick `Extracted` describes.
   */
  method ExtractSchema(fileName: Option<string>, ext: string, options: ProcessingOptions, hash: Result<string>,
                       reading: Result<Reading>, timestamp: string) returns (r: Result<ExtractionResult>)
    requires reading.Ok? ==> reading.value.registry.Valid()
    ensures FromExtension(ext).None? ==> r == Err(UnsupportedFormat(UnsupportedMessage(ext)))
    ensures FromExtension(ext).Some? && options.hashFile && hash.Err? ==> r == Err(hash.error)
    ensures FromExtension(ext).Some? && !(options.hashFile && hash.Err?) && reading.Err? ==> r == Err(reading.error)
    ensures r.Ok? <==> Succeeds(ext, options, hash, reading)
    ensures r.Ok? ==> Extracted(r.value, fileName, ext, options, hash, reading.value, timestamp)
  {
    var format := FromExtension(ext);
    if format.None? {
      return Err(UnsupportedFormat(UnsupportedMessage(ext)));
    }
    var name := if fileName.Some? then fileName.value else "unknown";
    var manifest := NewManifestSchema(name, format.value).(options := options);
    if options.hashFile {
      if hash.Err? {
        return Err(hash.error);
      }
      manifest := manifest.(fileHash := Some(hash.value));
    }
    if reading.Err? {
      return Err(reading.error);
    }
    var e := Complete(manifest, reading.value, timestamp);
    r := Ok(e);
  }

  /** The sidekick: the registry's content when some recoded column handed out a label, otherwise none. */
  method RecodeSidekick(registry: Recoding.RecodeRegistry, timestamp: string) returns (sidekick: Option<string>)
    requires registry.Valid()
    ensures sidekick.Some? <==> registry.HasRecodings()
    ensures sidekick.Some? ==> sidekick.value == Join(registry.SidekickLines(timestamp), "\n")
  {
    sidekick := None;
    if registry.HasRecodings() {
      var content := registry.GenerateSidekickContent(timestamp);
      sidekick := Some(content);
    }
  }

  /** The rest of `extract_schema` once the reader has succeeded: the sheets, the sidekick, the warnings. */
  method Complete(manifest: ManifestSchema, reading: Reading, timestamp: string) returns (e: ExtractionResult)
    requires reading.registry.Valid()
    ensures e.manifest == manifest.(sheets := reading.sheets, warnings := GlobalWarnings(reading.sheets))
    ensures e.recodeSidekick.Some? <==> reading.registry.HasRecodings()
    ensures e.recodeSidekick.Some? ==> e.recodeSidekick.value == Join(reading.registry.SidekickLines(timestamp), "\n")
  {
    var withSheets := manifest.(sheets := reading.sheets);
    var warnings := CollectWarnings(withSheets.sheets);
    var sidekick := RecodeSidekick(reading.registry, timestamp);
    e := ExtractionResult(withSheets.(warnings := warnings), sidekick);
  }

  /** ".xyz" names no format and is refused with its own name in the message; "CSV" names the CSV format. */
  lemma UnsupportedExtension()
    ensures FromExtension("xyz").None?
    ensures FromExtension("CSV") == Some(Csv)
    ensures UnsupportedMessage("xyz") == "Unsupported file extension: .xyz"
  {
    assert ToLower("xyz") == "xyz";
    assert ToLower("CSV") == "csv";
  }

  /** The numbering in a global warning counts columns from one. */
  lemma GlobalWarningExample()
    ensures GlobalWarning("data.csv", 0, "w") == "Sheet 'data.csv', Column 1: w"
  {
    assert NatToString(1) == "1";
  }
}
