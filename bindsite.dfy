/** The pocket pipeline of the BindSite script: locating and parsing the
    fpocket report into `ProteinStructureAnalyzer.pockets`, looking one
    pocket up, and packaging it into a compatibility record. */
module BindSite {
  import opened Wrappers
  import opened PyText
  import opened PyPath
  import opened Report

  /** The files the script can see: each path maps to its lines as
      `readlines()` returns them (line terminators included). A path exists
      exactly when it is a key. */
  type FileSystem = map<string, seq<string>>

  /** The exceptions the pipeline raises. */
  datatype Error =
    | FileNotFound(path: string)  // FileNotFoundError
    | InvalidPocketId(id: int)    // ValueError from the explicit bounds check
    | IndexOutOfRange(id: int)    // IndexError from Python list indexing

  /** What `analyze_pocket` returns. */
  datatype PocketSummary = PocketSummary(volume: Option<real>, score: Option<real>)

  /** What `analyze_ligand_compatibility` returns. */
  datatype Compatibility = Compatibility(
    pocketVolume: Option<real>,
    pocketScore: Option<real>,
    bindingSiteRank: int,
    totalPocketsFound: nat)

  /** The report fpocket writes for a structure file (see `ReportPathShape`). */
  function ReportPath(pdbFile: string): string {
    var base := Splitext(Basename(pdbFile)).0;
    Join(base + "_out", base + "_info.txt")
  }

  /** The report path is `<base>_out/<base>_info.txt`, where `<base>` is the
      structure file's name without directory and without its extension, and
      so a single path component; the report's own name is `<base>_info.txt`. */
  lemma ReportPathShape(pdbFile: string)
    ensures var base := Splitext(Basename(pdbFile)).0;
      && NoSlash(base)
      && ReportPath(pdbFile) == base + "_out/" + base + "_info.txt"
      && Basename(ReportPath(pdbFile)) == base + "_info.txt"
  {
    var name := Basename(pdbFile);
    var base := Splitext(name).0;
    BasenameShape(pdbFile);
    SplitextShape(name);
    assert base == name[..|base|];
    JoinedReportDir(base);
    JoinedReportName(base);
  }

  /** `os.path.join` puts a slash between the report's directory and file
      name when the stem has no slashes. */
  lemma JoinedReportDir(base: string)
    requires NoSlash(base)
    ensures Join(base + "_out", base + "_info.txt") == base + "_out/" + base + "_info.txt"
  {
    var dir, name := base + "_out", base + "_info.txt";
    assert name[0] != '/' by {
      if base != [] { assert name[0] == base[0]; } else { assert name[0] == '_'; }
    }
    assert dir[|dir| - 1] == 't';
    assert Join(dir, name) == dir + "/" + name;
    assert dir + "/" + name == base + ("_out" + "/") + name;
  }

  /** The joined report path's own name is the file name that was joined. */
  lemma JoinedReportName(base: string)
    requires NoSlash(base)
    ensures Basename(Join(base + "_out", base + "_info.txt")) == base + "_info.txt"
  {
    var name := base + "_info.txt";
    NoSlashAppend(base, "_info.txt");
    JoinBasename(base + "_out", name);
    BasenameWithoutSlash(name);
  }

  class ProteinStructureAnalyzer {
    const pdbFile: string
    var pockets: seq<Pocket>

    constructor (pdbFile: string)
      ensures this.pdbFile == pdbFile && pockets == []
    {
      this.pdbFile := pdbFile;
      pockets := [];
    }

    /** `parse_fpocket_results`: a missing report fails before `pockets` is
        touched; otherwise `pockets` is reset and becomes the records parsed
        from the report, in file order. */
    method ParseFpocketResults(fs: FileSystem, parse: NumberParser) returns (outcome: Outcome<Error>)
      modifies this
      ensures ReportPath(pdbFile) !in fs ==>
        outcome == Fail(FileNotFound(ReportPath(pdbFile))) && pockets == old(pockets)
      ensures ReportPath(pdbFile) in fs ==>
        outcome == Pass && pockets == ParseReport(fs[ReportPath(pdbFile)], parse)
    {
      var infoFile := ReportPath(pdbFile);
      if infoFile !in fs {
        return Fail(FileNotFound(infoFile));
      }
      ReadReport(fs[infoFile], parse);
      return Pass;
    }

    /** The scan of the report's lines (the `with open(...)` block): `pockets`
        is reset, then every header line flushes the open record and opens a
        fresh one, other lines update the open record's score or volume, and
        the last open record is flushed at the end. */
    method ReadReport(lines: seq<string>, parse: NumberParser)
      modifies this
      ensures pockets == ParseReport(lines, parse)
    {
      pockets := [];
      var currentPocket: Option<Pocket> := None;
      for i := 0 to |lines|
        invariant ScanState(pockets, currentPocket) == Scan(lines[..i], parse)
      {
        var line := lines[i];
        ghost var before := ScanState(pockets, currentPocket);
        if StartsWith(line, "Pocket") {
          if currentPocket.Some? {
            pockets := pockets + [currentPocket.value];
          }
          currentPocket := Some(Fresh);
          assert ScanState(pockets, currentPocket) == Step(before, line, parse);
        } else if currentPocket.Some? && Strip(line) != [] {
          var parts := Split(Strip(line));
          assert parts == Tokens(line);
          if |parts| >= 2 {
            if Contains(line, "Score") {
              var value := parse(parts[|parts| - 1]);
              if value.Some? {
                currentPocket := Some(currentPocket.value.(score := value));
              }
            } else if Contains(line, "Volume") {
              var value := parse(parts[|parts| - 1]);
              if value.Some? {
                currentPocket := Some(currentPocket.value.(volume := value));
              }
            }
          }
          assert currentPocket == Some(Apply(before.current.value, line, parse));
          assert ScanState(pockets, currentPocket) == Step(before, line, parse);
        } else {
          assert ScanState(pockets, currentPocket) == Step(before, line, parse);
        }
        assert lines[..i + 1][..i] == lines[..i];
      }
      if currentPocket.Some? {
        pockets := pockets + [currentPocket.value];
      }
      assert lines[..|lines|] == lines;
    }

    /** `analyze_pocket`: an empty list or an id at or past the end is an
        invalid id; a negative id counts from the end, as Python indexing
        does, and one before the start raises `IndexError`. Otherwise the
        record's volume and score. */
    function AnalyzePocket(pocketId: int): (r: Result<PocketSummary, Error>)
      reads this
      ensures r == Failure(InvalidPocketId(pocketId)) <==> pockets == [] || pocketId >= |pockets|
      ensures r == Failure(IndexOutOfRange(pocketId)) <==> pockets != [] && pocketId < -|pockets|
      ensures 0 <= pocketId < |pockets| ==>
        r == Success(PocketSummary(pockets[pocketId].volume, pockets[pocketId].score))
      ensures -|pockets| <= pocketId < 0 ==>
        r == Success(PocketSummary(pockets[|pockets| + pocketId].volume, pockets[|pockets| + pocketId].score))
    {
      if pockets == [] || pocketId >= |pockets| then Failure(InvalidPocketId(pocketId))
      else if pocketId < -|pockets| then Failure(IndexOutOfRange(pocketId))
      else
        var pocket := pockets[if pocketId < 0 then |pockets| + pocketId else pocketId];
        Success(PocketSummary(pocket.volume, pocket.score))
    }
  }

  class ChemicalCompatibilityAnalyzer {
    const proteinAnalyzer: ProteinStructureAnalyzer

    constructor (proteinAnalyzer: ProteinStructureAnalyzer)
      ensures this.proteinAnalyzer == proteinAnalyzer
    {
      this.proteinAnalyzer := proteinAnalyzer;
    }

    /** `analyze_ligand_compatibility`: a missing ligand file fails whatever
        the pockets and the id; otherwise the lookup's failure, or its volume
        and score with the 1-based rank and the number of pockets. */
    function AnalyzeLigandCompatibility(fs: FileSystem, ligand: string, pocketId: int): (r: Result<Compatibility, Error>)
      reads proteinAnalyzer
      ensures ligand !in fs ==> r == Failure(FileNotFound(ligand))
      ensures ligand in fs && proteinAnalyzer.AnalyzePocket(pocketId).Failure? ==>
        r == Failure(proteinAnalyzer.AnalyzePocket(pocketId).error)
      ensures r.Success? <==> ligand in fs && proteinAnalyzer.AnalyzePocket(pocketId).Success?
      ensures r.Success? ==>
        && r.value.pocketVolume == proteinAnalyzer.AnalyzePocket(pocketId).value.volume
        && r.value.pocketScore == proteinAnalyzer.AnalyzePocket(pocketId).value.score
        && r.value.bindingSiteRank == pocketId + 1
        && r.value.totalPocketsFound == |proteinAnalyzer.pockets|
    {
      if ligand !in fs then Failure(FileNotFound(ligand))
      else
        match proteinAnalyzer.AnalyzePocket(pocketId)
        case Failure(e) => Failure(e)
        case Success(pocketAnalysis) =>
          Success(Compatibility(
            pocketAnalysis.volume,
            pocketAnalysis.score,
            pocketId + 1,
            |proteinAnalyzer.pockets|))
    }
  }

  /** After a successful parse, the lookup succeeds exactly for the ids
      Python can index the records with, one record per header line, and
      fails with an invalid id for every id from the header count on, and
      for every id at all when the report has no header. */
  lemma LookupAfterParse(a: ProteinStructureAnalyzer, lines: seq<string>, parse: NumberParser, pocketId: int)
    requires a.pockets == ParseReport(lines, parse)
    ensures a.AnalyzePocket(pocketId).Success? <==> 0 <= pocketId + CountHeaders(lines) && pocketId < CountHeaders(lines)
    ensures pocketId >= CountHeaders(lines) ==> a.AnalyzePocket(pocketId) == Failure(InvalidPocketId(pocketId))
    ensures CountHeaders(lines) == 0 ==> a.AnalyzePocket(pocketId) == Failure(InvalidPocketId(pocketId))
  {
    CountMatchesHeaders(lines, parse);
  }

  /** The whole pipeline on a report with two sections, the first scoring 0.8
      with volume 150.0 and the second 0.3 with volume 80.0: asking about
      pocket 0 with a ligand file present gives the first section's readings,
      rank 1 and two pockets in all. */
  method TwoPocketPipeline(pdbFile: string, ligand: string, parse: NumberParser) returns (r: Result<Compatibility, Error>)
    requires parse("0.8") == Some(0.8) && parse("150.0") == Some(150.0)
    requires parse("0.3") == Some(0.3) && parse("80.0") == Some(80.0)
    ensures r == Success(Compatibility(Some(150.0), Some(0.8), 1, 2))
  {
    var first := ["Pocket " + "1 :", "Score: " + "0.8", "Volume: " + "150.0"];
    var second := ["Pocket " + "2 :", "Score: " + "0.3", "Volume: " + "80.0"];
    var fs: FileSystem := map[ligand := [], ReportPath(pdbFile) := first + second];
    var protein := new ProteinStructureAnalyzer(pdbFile);
    var outcome := protein.ParseFpocketResults(fs, parse);
    assert IsWord("0.8") && IsWord("150.0") && IsWord("0.3") && IsWord("80.0");
    TwoSections(first, second, "1 :", "0.8", "150.0", "2 :", "0.3", "80.0", 0.8, 150.0, 0.3, 80.0, parse);
    var compatibility := new ChemicalCompatibilityAnalyzer(protein);
    r := compatibility.AnalyzeLigandCompatibility(fs, ligand, 0);
  }
}
