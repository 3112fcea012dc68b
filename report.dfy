/** The fpocket report scan, as pure functions: the state machine that
    `ProteinStructureAnalyzer.parse_fpocket_results` runs over the report's
    lines, an independent description of its result section by section, and
    the properties that connect the two. */
module Report {
  import opened Wrappers
  import opened PyText

  /** Python's `float()` on a token: a partial function, left uninterpreted.
      `None` stands for the `ValueError` it raises on malformed text. */
  type NumberParser = string -> Option<real>

  /** One pocket record. `atoms` is never filled by the parser. */
  datatype Pocket = Pocket(atoms: seq<nat>, score: Option<real>, volume: Option<real>)

  /** The record a header line opens: no atoms, score and volume unset. */
  const Fresh: Pocket := Pocket([], None, None)

  /** `line.startswith("Pocket")`, applied to the raw, unstripped line. */
  predicate IsHeader(line: string) {
    StartsWith(line, "Pocket")
  }

  /** `line.strip().split()` */
  function Tokens(line: string): seq<string> {
    Split(Strip(line))
  }

  /** `parts[-1]` */
  function LastToken(line: string): string
    requires |Tokens(line)| >= 1
  {
    Tokens(line)[|Tokens(line)| - 1]
  }

  /** The two fields a report line can set. */
  datatype Field = ScoreField | VolumeField

  function Get(p: Pocket, f: Field): Option<real> {
    match f
    case ScoreField => p.score
    case VolumeField => p.volume
  }

  /** The value a non-header line offers for field `f`, if any: the line must
      be non-blank with at least two tokens; a line mentioning "Score" offers
      only a score, one mentioning "Volume" but not "Score" only a volume; and
      the last token must parse as a number. */
  function Reading(line: string, f: Field, parse: NumberParser): Option<real> {
    if Strip(line) == [] || |Tokens(line)| < 2 then None
    else match f
      case ScoreField =>
        if Contains(line, "Score") then parse(LastToken(line)) else None
      case VolumeField =>
        if !Contains(line, "Score") && Contains(line, "Volume") then parse(LastToken(line)) else None
  }

  /** A reading, when there is one, replaces the field's previous value. */
  function Override(old_: Option<real>, reading: Option<real>): Option<real> {
    if reading.Some? then reading else old_
  }

  /** What a non-header line does to the open record: the `elif` branch of the
      scan. A line mentioning "Score" may set only the score, even when it
      also mentions "Volume"; a failed conversion leaves the field alone. */
  function Apply(p: Pocket, line: string, parse: NumberParser): Pocket {
    if Strip(line) == [] then p
    else
      var parts := Tokens(line);
      if |parts| < 2 then p
      else if Contains(line, "Score") then
        match parse(parts[|parts| - 1])
        case Some(v) => p.(score := Some(v))
        case None => p
      else if Contains(line, "Volume") then
        match parse(parts[|parts| - 1])
        case Some(v) => p.(volume := Some(v))
        case None => p
      else p
  }

  /** Field by field, a line's reading, when it has one, replaces the open
      record's value; the atoms are left alone. */
  lemma ApplyByField(p: Pocket, line: string, f: Field, parse: NumberParser)
    ensures Get(Apply(p, line, parse), f) == Override(Get(p, f), Reading(line, f, parse))
    ensures Apply(p, line, parse).atoms == p.atoms
  {
  }

  /** The scan's state: the records already flushed and the open one, if any
      (Python's `current_pocket`, where `None` is the only falsy value it takes). */
  datatype ScanState = ScanState(done: seq<Pocket>, current: Option<Pocket>)

  const Start: ScanState := ScanState([], None)

  /** The records of a state once the open one is flushed. */
  function Flush(st: ScanState): seq<Pocket> {
    st.done + if st.current.Some? then [st.current.value] else []
  }

  /** One iteration of the scan. */
  function Step(st: ScanState, line: string, parse: NumberParser): ScanState {
    if IsHeader(line) then ScanState(Flush(st), Some(Fresh))
    else if st.current.Some? then ScanState(st.done, Some(Apply(st.current.value, line, parse)))
    else st
  }

  /** The state after scanning `lines` from `st`. */
  function ScanFrom(st: ScanState, lines: seq<string>, parse: NumberParser): ScanState
    decreases |lines|
  {
    if lines == [] then st
    else Step(ScanFrom(st, lines[..|lines| - 1], parse), lines[|lines| - 1], parse)
  }

  function Scan(lines: seq<string>, parse: NumberParser): ScanState {
    ScanFrom(Start, lines, parse)
  }

  /** The pocket records parsed from a report's lines. */
  function ParseReport(lines: seq<string>, parse: NumberParser): seq<Pocket> {
    Flush(Scan(lines, parse))
  }

  // ---------------------------------------------------------------------
  // A second description of the result, by sections: every header line
  // opens a section that runs to the next header line, and the section's
  // record is a fresh record updated by the section's other lines.

  /** Index of the last header line, if there is one. */
  function LastHeader(lines: seq<string>): (r: Option<nat>)
    ensures r.Some? ==> r.value < |lines| && IsHeader(lines[r.value])
    ensures r.Some? ==> forall k :: r.value < k < |lines| ==> !IsHeader(lines[k])
    ensures r.None? ==> forall k :: 0 <= k < |lines| ==> !IsHeader(lines[k])
  {
    if lines == [] then None
    else if IsHeader(lines[|lines| - 1]) then Some(|lines| - 1)
    else LastHeader(lines[..|lines| - 1])
  }

  /** The record that the lines of one section build from `p`. */
  function Body(p: Pocket, body: seq<string>, parse: NumberParser): Pocket
    decreases |body|
  {
    if body == [] then p
    else Apply(Body(p, body[..|body| - 1], parse), body[|body| - 1], parse)
  }

  /** The records section by section, in file order; lines before the first
      header belong to no section. */
  function Records(lines: seq<string>, parse: NumberParser): seq<Pocket>
    decreases |lines|
  {
    match LastHeader(lines)
    case None => []
    case Some(j) => Records(lines[..j], parse) + [Body(Fresh, lines[j + 1..], parse)]
  }

  /** The last reading for field `f` among `body`'s lines, if any. */
  function Latest(body: seq<string>, f: Field, parse: NumberParser): Option<real>
    decreases |body|
  {
    if body == [] then None
    else Override(Latest(body[..|body| - 1], f, parse), Reading(body[|body| - 1], f, parse))
  }

  /** The number of header lines. */
  function CountHeaders(lines: seq<string>): nat
    decreases |lines|
  {
    if lines == [] then 0
    else CountHeaders(lines[..|lines| - 1]) + if IsHeader(lines[|lines| - 1]) then 1 else 0
  }

  // ---------------------------------------------------------------------
  // Properties

  /** The scan's state mid-report: before any header nothing is open; after
      one, the records of the earlier sections are flushed and the open record
      is the current section's. */
  lemma {:induction false} ScanShape(lines: seq<string>, parse: NumberParser)
    ensures LastHeader(lines).None? ==> Scan(lines, parse) == Start
    ensures LastHeader(lines).Some? ==>
      var j := LastHeader(lines).value;
      Scan(lines, parse) == ScanState(ParseReport(lines[..j], parse), Some(Body(Fresh, lines[j + 1..], parse)))
    decreases |lines|
  {
    if lines != [] {
      var n := |lines| - 1;
      ScanShape(lines[..n], parse);
      if IsHeader(lines[n]) {
        ScanShapeAtHeader(lines, parse);
      } else {
        ScanShapeInSection(lines, parse);
      }
    }
  }

  /** `ScanShape`'s step for a header line: the scan so far is flushed and a
      fresh record opens. */
  lemma ScanShapeAtHeader(lines: seq<string>, parse: NumberParser)
    requires lines != [] && IsHeader(lines[|lines| - 1])
    ensures Scan(lines, parse) ==
      ScanState(ParseReport(lines[..|lines| - 1], parse), Some(Body(Fresh, lines[|lines|..], parse)))
    ensures LastHeader(lines) == Some(|lines| - 1)
  {
    var n := |lines| - 1;
    assert Scan(lines, parse) == Step(Scan(lines[..n], parse), lines[n], parse);
    assert lines[n + 1..] == [];
  }

  /** `ScanShape`'s step for any other line: it goes to the open record, if
      there is one. */
  lemma ScanShapeInSection(lines: seq<string>, parse: NumberParser)
    requires lines != [] && !IsHeader(lines[|lines| - 1])
    requires var init := lines[..|lines| - 1];
      && (LastHeader(init).None? ==> Scan(init, parse) == Start)
      && (LastHeader(init).Some? ==>
            var j := LastHeader(init).value;
            Scan(init, parse) == ScanState(ParseReport(init[..j], parse), Some(Body(Fresh, init[j + 1..], parse))))
    ensures LastHeader(lines) == LastHeader(lines[..|lines| - 1])
    ensures LastHeader(lines).None? ==> Scan(lines, parse) == Start
    ensures LastHeader(lines).Some? ==>
      var j := LastHeader(lines).value;
      Scan(lines, parse) == ScanState(ParseReport(lines[..j], parse), Some(Body(Fresh, lines[j + 1..], parse)))
  {
    var n := |lines| - 1;
    var init := lines[..n];
    assert Scan(lines, parse) == Step(Scan(init, parse), lines[n], parse);
    if LastHeader(init).Some? {
      var j := LastHeader(init).value;
      var body := lines[j + 1..];
      assert lines[..j] == init[..j];
      assert body[..|body| - 1] == init[j + 1..] && body[|body| - 1] == lines[n];
    }
  }

  /** The parser's result is the section-by-section description: one record
      per header line, in file order, each a fresh record updated by the lines
      of its own section only. */
  lemma {:induction false} ParseReportIsRecords(lines: seq<string>, parse: NumberParser)
    ensures ParseReport(lines, parse) == Records(lines, parse)
    decreases |lines|
  {
    ScanShape(lines, parse);
    if LastHeader(lines).Some? {
      ParseReportIsRecords(lines[..LastHeader(lines).value], parse);
    }
  }

  /** A record's field holds the last valid reading of its section, or the
      value it started with when the section offers none; the atoms are never
      touched. */
  lemma {:induction false} BodyIsLatest(p: Pocket, body: seq<string>, f: Field, parse: NumberParser)
    ensures Get(Body(p, body, parse), f) == Override(Get(p, f), Latest(body, f, parse))
    ensures Body(p, body, parse).atoms == p.atoms
    decreases |body|
  {
    if body != [] {
      BodyIsLatest(p, body[..|body| - 1], f, parse);
      ApplyByField(Body(p, body[..|body| - 1], parse), body[|body| - 1], f, parse);
    }
  }

  /** There are exactly as many records as header lines. */
  lemma {:induction false} CountMatchesHeaders(lines: seq<string>, parse: NumberParser)
    ensures |ParseReport(lines, parse)| == CountHeaders(lines)
  {
    ScanCount(lines, parse);
  }

  lemma {:induction false} ScanCount(lines: seq<string>, parse: NumberParser)
    ensures Scan(lines, parse).current.Some? <==> CountHeaders(lines) > 0
    ensures |Flush(Scan(lines, parse))| == CountHeaders(lines)
    decreases |lines|
  {
    if lines != [] {
      ScanCount(lines[..|lines| - 1], parse);
    }
  }

  /** Every record starts with no atoms and gains none. A report without
      header lines has no records; otherwise the last record comes from the
      last section, with its score and volume the last valid readings of that
      section (unset when there are none), after the records of everything
      before it. */
  lemma {:induction false} RecordsAreLatestReadings(lines: seq<string>, parse: NumberParser)
    ensures forall p :: p in ParseReport(lines, parse) ==> p.atoms == []
    ensures LastHeader(lines).None? ==> ParseReport(lines, parse) == []
    ensures LastHeader(lines).Some? ==>
      var j := LastHeader(lines).value;
      ParseReport(lines, parse) == ParseReport(lines[..j], parse) +
        [Pocket([], Latest(lines[j + 1..], ScoreField, parse), Latest(lines[j + 1..], VolumeField, parse))]
    decreases |lines|
  {
    ParseReportIsRecords(lines, parse);
    if LastHeader(lines).Some? {
      var j := LastHeader(lines).value;
      var body := lines[j + 1..];
      var last := Body(Fresh, body, parse);
      BodyIsLatest(Fresh, body, ScoreField, parse);
      BodyIsLatest(Fresh, body, VolumeField, parse);
      assert last == Pocket([], Latest(body, ScoreField, parse), Latest(body, VolumeField, parse));
      ParseReportIsRecords(lines[..j], parse);
      assert ParseReport(lines, parse) == ParseReport(lines[..j], parse) + [last];
      RecordsAreLatestReadings(lines[..j], parse);
    }
  }

  /** Scanning `a + b` is scanning `a`, then `b`. */
  lemma {:induction false} ScanFromAppend(st: ScanState, a: seq<string>, b: seq<string>, parse: NumberParser)
    ensures ScanFrom(st, a + b, parse) == ScanFrom(ScanFrom(st, a, parse), b, parse)
    decreases |b|
  {
    if b == [] {
      assert a + b == a;
    } else {
      ScanFromAppend(st, a, b[..|b| - 1], parse);
      assert (a + b)[..|a + b| - 1] == a + b[..|b| - 1];
    }
  }

  /** Lines before the first header never change the result. */
  lemma {:induction false} PreambleIgnored(pre: seq<string>, lines: seq<string>, parse: NumberParser)
    requires forall k :: 0 <= k < |pre| ==> !IsHeader(pre[k])
    ensures ParseReport(pre + lines, parse) == ParseReport(lines, parse)
  {
    ScanShape(pre, parse);
    ScanFromAppend(Start, pre, lines, parse);
  }

  /** A non-header line that is blank, has fewer than two tokens, mentions
      neither "Score" nor "Volume", or whose last token does not parse,
      never changes the result, wherever it stands. */
  lemma {:induction false} InertLineIgnored(a: seq<string>, line: string, b: seq<string>, parse: NumberParser)
    requires !IsHeader(line)
    requires Strip(line) == [] || |Tokens(line)| < 2
          || (!Contains(line, "Score") && !Contains(line, "Volume"))
          || parse(LastToken(line)).None?
    ensures ParseReport(a + [line] + b, parse) == ParseReport(a + b, parse)
  {
    var st := Scan(a, parse);
    ScanFromAppend(Start, a + [line], b, parse);
    ScanFromAppend(Start, a, [line], parse);
    ScanFromAppend(Start, a, b, parse);
    assert ScanFrom(st, [line], parse) == Step(st, line, parse) by {
      assert [line][..0] == [];
    }
    if st.current.Some? {
      var p := st.current.value;
      ApplyByField(p, line, ScoreField, parse);
      ApplyByField(p, line, VolumeField, parse);
      assert Apply(p, line, parse) == p;
    }
  }

  /** A line mentioning "Score" never changes the volume, even if it also
      mentions "Volume"; only a line mentioning "Volume" and not "Score" can. */
  lemma ScoreLineWins(p: Pocket, line: string, parse: NumberParser)
    ensures Contains(line, "Score") ==> Apply(p, line, parse).volume == p.volume
    ensures Apply(p, line, parse).volume != p.volume ==>
      !Contains(line, "Score") && Contains(line, "Volume") && |Tokens(line)| >= 2 &&
      Apply(p, line, parse).volume == parse(LastToken(line))
    ensures Apply(p, line, parse).score != p.score ==>
      Contains(line, "Score") && |Tokens(line)| >= 2 && Apply(p, line, parse).score == parse(LastToken(line))
  {
  }

  // ---------------------------------------------------------------------
  // A concrete report shape

  /** A line made of two words around the space at index `n` has those two
      tokens. */
  lemma TokensPair(line: string, n: nat)
    requires n < |line| && IsWord(line[..n]) && line[n] == ' ' && IsWord(line[n + 1..])
    ensures Tokens(line) == [line[..n], line[n + 1..]]
  {
    assert line[0] == line[..n][0];
    assert line[|line| - 1] == line[n + 1..][|line| - n - 2];
    StripUnpadded(line);
    SplitPair(line, n);
  }

  /** A line that does not start with `P` is no header. */
  lemma NotHeader(line: string)
    requires line != [] && line[0] != 'P'
    ensures !IsHeader(line)
  {
  }

  /** A `Score: <number>` line is no header and sets the score. */
  lemma ScoreLine(p: Pocket, num: string, v: real, parse: NumberParser)
    requires IsWord(num) && parse(num) == Some(v)
    ensures !IsHeader("Score: " + num)
    ensures Apply(p, "Score: " + num, parse) == p.(score := Some(v))
  {
    var line := "Score: " + num;
    NotHeader(line);
    assert line[..6] == "Score:" && line[7..] == num;
    TokensPair(line, 6);
    assert Contains(line, "Score") by { assert line[..5] == "Score"; }
  }

  /** A `Volume: <number>` line, its number free of `S`, is no header and
      sets the volume. */
  lemma VolumeLine(p: Pocket, num: string, v: real, parse: NumberParser)
    requires IsWord(num) && 'S' !in num && parse(num) == Some(v)
    ensures !IsHeader("Volume: " + num)
    ensures Apply(p, "Volume: " + num, parse) == p.(volume := Some(v))
  {
    var line := "Volume: " + num;
    NotHeader(line);
    assert line[..7] == "Volume:" && line[8..] == num;
    TokensPair(line, 7);
    assert Contains(line, "Volume") by { assert line[..6] == "Volume"; }
    VolumeLacksScore(num);
  }

  /** A `Volume: <number>` line whose number has no `S` does not mention `Score`. */
  lemma VolumeLacksScore(num: string)
    requires 'S' !in num
    ensures !Contains("Volume: " + num, "Score")
  {
    var line := "Volume: " + num;
    forall k | 0 <= k < |line| ensures line[k] != 'S' {
      if k >= 8 { assert line[k] == num[k - 8]; }
    }
    if Contains(line, "Score") {
      ContainsFirst(line, "Score");
    }
  }

  /** In the scan, a score line sets the open record's score. */
  lemma ScoreStep(st: ScanState, num: string, v: real, parse: NumberParser)
    requires st.current.Some?
    requires IsWord(num) && parse(num) == Some(v)
    ensures Step(st, "Score: " + num, parse) == ScanState(st.done, Some(st.current.value.(score := Some(v))))
  {
    ScoreLine(st.current.value, num, v, parse);
  }

  /** In the scan, a volume line sets the open record's volume. */
  lemma VolumeStep(st: ScanState, num: string, v: real, parse: NumberParser)
    requires st.current.Some?
    requires IsWord(num) && 'S' !in num && parse(num) == Some(v)
    ensures Step(st, "Volume: " + num, parse) == ScanState(st.done, Some(st.current.value.(volume := Some(v))))
  {
    VolumeLine(st.current.value, num, v, parse);
  }

  /** A `Pocket <id>` line flushes the open record and opens a fresh one. */
  lemma HeaderStep(st: ScanState, id: string, parse: NumberParser)
    ensures Step(st, "Pocket " + id, parse) == ScanState(Flush(st), Some(Fresh))
  {
  }

  /** Scanning three lines is three steps. */
  lemma ScanThree(st: ScanState, h: string, x: string, y: string, parse: NumberParser)
    ensures ScanFrom(st, [h, x, y], parse) == Step(Step(Step(st, h, parse), x, parse), y, parse)
  {
    assert [h][..0] == [];
    assert ScanFrom(st, [h], parse) == Step(st, h, parse);
    assert [h, x][..1] == [h];
    assert ScanFrom(st, [h, x], parse) == Step(Step(st, h, parse), x, parse);
    assert [h, x, y][..2] == [h, x];
  }

  /** A three-line section (header, score, volume) flushes the previous
      record and leaves a record with both readings open. */
  lemma SectionScan(st: ScanState, id: string, sNum: string, vNum: string, a: real, b: real, parse: NumberParser)
    requires IsWord(sNum) && parse(sNum) == Some(a)
    requires IsWord(vNum) && 'S' !in vNum && parse(vNum) == Some(b)
    ensures ScanFrom(st, ["Pocket " + id, "Score: " + sNum, "Volume: " + vNum], parse) ==
      ScanState(Flush(st), Some(Pocket([], Some(a), Some(b))))
  {
    var begun := ScanState(Flush(st), Some(Fresh));
    var scored := ScanState(Flush(st), Some(Pocket([], Some(a), None)));
    ScanThree(st, "Pocket " + id, "Score: " + sNum, "Volume: " + vNum, parse);
    HeaderStep(st, id, parse);
    ScoreStep(begun, sNum, a, parse);
    VolumeStep(scored, vNum, b, parse);
  }

  /** A report of two such sections parses to two records, in file order,
      each with its own score and volume. */
  lemma TwoSections(first: seq<string>, second: seq<string>, id1: string, s1: string, v1: string,
                    id2: string, s2: string, v2: string, a1: real, b1: real, a2: real, b2: real, parse: NumberParser)
    requires first == ["Pocket " + id1, "Score: " + s1, "Volume: " + v1]
    requires second == ["Pocket " + id2, "Score: " + s2, "Volume: " + v2]
    requires IsWord(s1) && parse(s1) == Some(a1) && IsWord(v1) && 'S' !in v1 && parse(v1) == Some(b1)
    requires IsWord(s2) && parse(s2) == Some(a2) && IsWord(v2) && 'S' !in v2 && parse(v2) == Some(b2)
    ensures ParseReport(first + second, parse) == [Pocket([], Some(a1), Some(b1)), Pocket([], Some(a2), Some(b2))]
  {
    SectionScan(Start, id1, s1, v1, a1, b1, parse);
    SectionScan(Scan(first, parse), id2, s2, v2, a2, b2, parse);
    ScanFromAppend(Start, first, second, parse);
  }
}
