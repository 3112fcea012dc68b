# BindSite pocket pipeline in Dafny

BindSite is a script for protein–ligand binding-site analysis. It runs the
fpocket pocket detector on a structure file. It reads fpocket's text report
into an ordered list of pocket records, each holding a score and a volume.
It looks one pocket up by index and packages the result as a "compatibility"
record for a ligand file. It can also regroup DSSP's per-residue
secondary-structure codes by chain.

This project models that pipeline and proves properties of the model:

- `wrappers.dfy`: `Option`, `Result` and `Outcome`.
- `pytext.dfy` (module `PyText`): the Python string operations the report
  parser relies on, with their white-space set written out in full. These
  are `str.isspace`, `str.startswith`, `sub in s`, `str.strip()` and
  `str.split()`.
- `pypath.dfy` (module `PyPath`): `str.rfind` and the POSIX
  `os.path.basename`, `os.path.splitext` and `os.path.join`, used to find
  the report file.
- `report.dfy` (module `Report`): the report scan as a state machine over
  the lines (`Step`, `Scan`, `ParseReport`). Beside it is an independent,
  section-by-section description of the result (`Records`, `Latest`,
  `CountHeaders`), plus the lemmas that tie the two together.
- `secondary.dfy` (module `SecondaryStructure`): the loop that groups
  secondary-structure codes by chain, proved against a filter function.
- `bindsite.dfy` (module `BindSite`): the two classes.
  `ProteinStructureAnalyzer` holds a mutable `pockets` field.
  `ParseFpocketResults` and `ReadReport` are imperative methods proved
  against `ParseReport`, and `AnalyzePocket` is the lookup.
  `ChemicalCompatibilityAnalyzer` holds `AnalyzeLigandCompatibility`.
  The module also covers the report path and an end-to-end example
  (`TwoPocketPipeline`).

The file system is a map from path to the file's lines, as `readlines()`
returns them. Python's `float()` is a parameter
`parse: string -> Option<real>`, where `None` stands for its `ValueError`.

## Model

| member | source | states |
|---|---|---|
| BindSite.ProteinStructureAnalyzer.ParseFpocketResults | BindSite.py:55-98 | A missing report raises `FileNotFound` with the derived path and leaves `pockets` as it was. Otherwise `pockets` becomes exactly the records parsed from the report's lines. |
| BindSite.ProteinStructureAnalyzer.ReadReport | BindSite.py:66-96 | The line-by-line loop, with the `current_pocket` state and the final flush, leaves `pockets` equal to `ParseReport` of the lines (loop invariant: the state equals `Scan` of the lines read so far). |
| BindSite.ReportPathShape | BindSite.py:57-59 | The report path is `<base>_out/<base>_info.txt`. `<base>` is the structure file's base name without its extension and holds no slash. The path's own base name is `<base>_info.txt`. |
| BindSite.JoinedReportDir | BindSite.py:58-59 | Joining `<base>_out` and `<base>_info.txt` puts exactly one slash between them. |
| BindSite.JoinedReportName | BindSite.py:59 | The joined report path's base name is `<base>_info.txt`. |
| BindSite.ProteinStructureAnalyzer.AnalyzePocket | BindSite.py:100-109 | An invalid id is reported exactly when `pockets` is empty or `id >= len(pockets)`. `IndexError` is raised exactly when `id < -len(pockets)` on a non-empty list. Otherwise the result is the volume and score of the record Python indexing selects, counting negative ids from the end. |
| BindSite.LookupAfterParse | BindSite.py:100-109 | After a parse, a lookup succeeds exactly when `-n <= id < n`, where `n` is the number of header lines. Every id `>= n` fails as an invalid id, and so does every id, negative ones included, when `n = 0`: the empty-list test comes before any indexing. |
| BindSite.ChemicalCompatibilityAnalyzer.AnalyzeLigandCompatibility | BindSite.py:149-165 | A missing ligand fails with `FileNotFound(ligand)` whatever the pockets and the id, before any lookup. Otherwise a lookup failure is passed on unchanged. Success holds exactly when the ligand exists and the lookup succeeds, with the lookup's volume and score, rank `id + 1` and `len(pockets)`. |
| BindSite.TwoPocketPipeline | BindSite.py:55-165 | Parse a report with two sections (score 0.8 and volume 150.0, then 0.3 and 80.0) and ask about pocket 0 with the ligand present. The result is `{150.0, 0.8, rank 1, 2 pockets}`. |
| Report.ParseReportIsRecords | BindSite.py:70-96 | The scan's result is one record per header line, in file order. Each record is a fresh record updated only by the lines of its own section, and lines before the first header belong to none. |
| Report.ScanShape | BindSite.py:70-94 | Mid-report, before any header nothing is open. After one, the earlier sections' records are flushed and the open record is the current section's. |
| Report.CountMatchesHeaders | BindSite.py:72-79 | The number of records equals the number of lines that start with `Pocket`. |
| Report.ScanCount | BindSite.py:72-79 | A record is open exactly when a header has been seen. The flushed count equals the header count. |
| Report.RecordsAreLatestReadings | BindSite.py:75-96 | Every record has no atoms. A report without headers gives no records. Otherwise the last record's score and volume are the last valid readings of its section (unset when there are none), after the records of everything before it. |
| Report.BodyIsLatest | BindSite.py:80-93 | Within a section, each field holds the last valid reading or keeps its old value, and the atoms are never touched. |
| Report.ApplyByField | BindSite.py:80-93 | On the open record, a line sets each field to its reading when it has one and leaves it alone otherwise. The atoms are unchanged. |
| Report.ScoreLineWins | BindSite.py:84-93 | A line that mentions `Score` never changes the volume, even if it also mentions `Volume`. The volume changes only through a `Volume` line without `Score` that has at least two tokens, taking the parsed last token; the score changes only through a `Score` line, likewise. |
| Report.InertLineIgnored | BindSite.py:80-93 | A non-header line that is blank, has fewer than two tokens, mentions neither keyword, or whose last token does not parse never changes the result, wherever it stands. |
| Report.PreambleIgnored | BindSite.py:72-80 | Lines before the first header never change the result. |
| Report.ScanFromAppend | BindSite.py:71 | Scanning `a + b` is scanning `a`, then `b` from where `a` left off. |
| Report.ScoreLine | BindSite.py:84-88 | A `Score: <number>` line is no header and sets the open record's score to the parsed number. |
| Report.VolumeLine | BindSite.py:89-93 | A `Volume: <number>` line (its number free of `S`) is no header and sets the volume. |
| Report.SectionScan | BindSite.py:72-93 | A header, score, volume section flushes the previous record and leaves one with both readings open. |
| Report.TwoSections | BindSite.py:70-96 | Two such sections parse to two records, in file order, each with its own score and volume. |
| SecondaryStructure.GroupByChain | BindSite.py:125-131 | The dictionary's keys are exactly the chains that occur in the rows. Each key's list holds that chain's codes in input order. The lists, taken in the dictionary's key order, hold `len(rows)` codes in all. |
| SecondaryStructure.ChainsInOrderFacts | BindSite.py:129-130 | The first-seen key order lists each chain once and only chains that occur. A chain that does not occur has no codes. |
| SecondaryStructure.GroupedLengthsSum | BindSite.py:125-131 | The list lengths add up to the number of rows: every code lands in exactly one list. |
| SecondaryStructure.GroupedTotal | BindSite.py:125-131 | Any dictionary from each occurring chain to its codes (the one `GroupByChain` returns) holds one code per row in all. |
| PyText.ContainsIsOccurrence | BindSite.py:84 | `sub in s` holds exactly when `sub` occurs at some index of `s`. |
| PyText.StripBlank | BindSite.py:80 | `line.strip()` is empty exactly for an all-white-space line. Otherwise it starts and ends with a non-space character. |
| PyText.StripSlice | BindSite.py:80 | `line.strip()` is the slice of the line left after a white-space prefix and a white-space suffix. With `StripBlank`, this fixes the result exactly. |
| PyText.SplitShape | BindSite.py:82 | Every token of `split()` is non-empty and free of white space. The tokens together hold exactly the non-space characters in order, and there are none exactly for a blank string. |
| PyText.SplitRuns | BindSite.py:82 | Where `split()` cuts: token `i` is a maximal run of non-space characters, bounded by white space or an end of the line. The runs go from left to right with white space between them, and every non-space character lies in one. |
| PyText.SplitPair | BindSite.py:82 | Two words around one space split into those two words. |
| PyPath.LastIndexOfShape | BindSite.py:57 | `rfind` returns an index holding the character, with none after it, or -1. |
| PyPath.LastIndexOfUnique | BindSite.py:57 | Any index with that property is the one `rfind` returns. |
| PyPath.BasenameShape | BindSite.py:57 | The base name is the longest slash-free suffix of the path. |
| PyPath.BasenameWithoutSlash | BindSite.py:57 | A path without a slash is its own base name. |
| PyPath.HasNonDotIsSearch | BindSite.py:57 | The leading-dots scan of `splitext` finds a non-dot exactly when one exists. |
| PyPath.SplitextShape | BindSite.py:57 | The root plus the extension gives back the path. The extension is empty, or a dot followed by no dot and no slash. It is non-empty exactly when the last component has a dot after some non-dot character. |
| PyPath.JoinShape | BindSite.py:59 | An absolute second part replaces the first. Otherwise the first part is kept as a prefix. The second part always ends the result. |
| PyPath.JoinBasename | BindSite.py:59 | The joined path has the second part's base name. |
| PyPath.BasenameAfterSlash | BindSite.py:59 | A prefix that is empty or ends in a slash does not change the base name. |

## Left out

- `run_fpocket` (BindSite.py:29-53): it runs an external binary through `subprocess` and prints. `ParseFpocketResults` stands for the step it ends with. The report's content is an input.
- `load_structure`, `extract_b_factors` and `analyze_flexibility`: they delegate to Biopython and NumPy with no logic of their own.
- The DSSP call itself (BindSite.py:124) and its exception fallback to `None` (133-135): they are external. `GroupByChain` takes the rows DSSP yields as input, as pairs of the row's first and third fields.
- `main`: argument parsing, printing, and its own bounds check before the compatibility call.
- All `print` output, and the unused imports.
- `float()`: it is the parameter `parse`, and there is no floating point. Readings are `real`, and which strings parse to which values is left open.
- The file system: it is a map from path to lines. There is no path normalisation, no current directory, no permissions, and no distinction between files and directories. `open` on an existing path does not fail.
- `os.path` functions: only the POSIX flavour is modelled, not Windows `ntpath`.
- The order of dictionary keys: `GroupByChain`'s result is a `map`, which has no order. The key order of the Python dict is stated separately by `ChainsInOrder`.
- The `try`/`except` around the compatibility record (BindSite.py:156-168): building that dictionary cannot raise, so the model has no such branch.
- Pocket ids: only integers are modelled, as they are what the command line passes. Other Python index types are out of scope.
- The `atoms` field: always an empty list, as the source never fills it.
- BindSite.TwoPocketPipeline: its report lines are written `Score: 0.8` and `Volume: 150.0`, not in fpocket's exact layout, and the four numbers' conversions are preconditions.

Notes on the source's behaviour that the model keeps:

- A line mentioning `Score` anywhere sets the score, so lines such as a drug-score line also overwrite it. The last valid one in a section wins.
- The DSSP row's first field is what the source calls `chain_id`. The model groups by that field, whatever it holds.
- The truth test `if current_pocket:` only ever sees `None` or a non-empty dictionary. It is modelled as `Some?`.
