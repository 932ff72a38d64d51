/**
 * Sequencing-run discovery (`loc/flow_cell_util.py`).
 *
 * A sequencing directory holds one directory per flow-cell run. A run is
 * complete once the instrument has written `RTAComplete.txt` next to
 * `RunInfo.xml`; the run id, date, instrument and flow cell are read from
 * `RunInfo.xml`. Runs are listed, filtered by age, and registered as Jira
 * issues when no issue mentions their run id yet.
 *
 * The file system, the XML parser, the clock and Jira are inputs: a
 * directory is given as its listing, each entry with what `os.path.isdir`
 * and `os.path.isfile` report and with the parsed `RunInfo.xml`.
 */
module FlowCells {
  import opened Text
  import opened Calendar
  import opened JiraFields

  datatype Result<T, E> = Ok(value: T) | Err(error: E)

  // ---------------------------------------------------------------------
  // Inputs: directory listings and parsed run descriptors

  /** A child element of `Run`: absent (`find` returns None), or present with its text, which may be None. */
  datatype Element = Missing | Present(text: Option<string>)

  /** The `Run` element of `RunInfo.xml`: its `Id` attribute and the child elements read. */
  datatype RunElement = RunElement(id: Option<string>, date: Element, instrument: Element, flowcell: Element)

  /** `ET.parse(...)` then `tree.find('Run')`: the file does not parse, or it has a `Run` element or none. */
  datatype RunInfo = Unparsable | Parsed(run: Option<RunElement>)

  /**
   * One name of `os.listdir(sequencing_dir)`: whether it is a directory,
   * the names of the regular files inside it, and its `RunInfo.xml`.
   */
  datatype Entry = Entry(name: string, isDir: bool, files: set<string>, runInfo: RunInfo)

  /** A sequencing directory and its listing; `None` when `os.listdir` raises. */
  datatype SequencingDir = SequencingDir(path: string, listing: Option<seq<Entry>>)

  /** What stops the scan, in the order the code meets them. */
  datatype ScanError =
    | Unlistable(dir: string)        // os.listdir raises OSError
    | UnparsableRunInfo              // ET.parse raises ParseError
    | NoRunElement                   // tree.find('Run') is None: AttributeError
    | NoRunId                        // run.attrib['Id']: KeyError
    | NoDateElement                  // run.find('Date') is None: AttributeError
    | NoDateText                     // slicing None: TypeError
    | NotAnInteger(text: string)     // int(...): ValueError
    | InvalidDate(year: int, month: int, day: int)  // datetime(...): ValueError
    | NoInstrumentElement            // run.find('Instrument') is None: AttributeError
    | NoFlowcellElement              // run.find('Flowcell') is None: AttributeError

  /** The record `list_flow_cells` yields for a run. */
  datatype FlowCellRun = FlowCellRun(
    flowcell: Option<string>, runDate: CalendarDate, instrument: Option<string>, runId: string, path: string)

  const RtaComplete := "RTAComplete.txt"
  const RunInfoFile := "RunInfo.xml"
  const RunParametersFile := "RunParameters.xml"

  // ---------------------------------------------------------------------
  // One entry: qualification and decoding

  /** A listed entry is a run only if it is a directory holding both `RTAComplete.txt` and `RunInfo.xml`. */
  predicate Qualifies(e: Entry)
  {
    e.isDir && RtaComplete in e.files && RunInfoFile in e.files
  }

  /** `'%0*d' % (width, n)` on a decimal string: zeros on the left up to `width`. */
  function ZeroPad(s: string, width: nat): string
  {
    if |s| >= width then s else seq(width - |s|, _ => '0') + s
  }

  /**
   * `str(datetime.now())[0:2]`: the text of a `datetime` opens with its year
   * zero-padded to four digits, so this is the first two digits of that.
   */
  function YearStart(clockYear: int): string
    requires MinYear <= clockYear <= MaxYear
  {
    Slice(ZeroPad(NatToString(clockYear), 4), 0, 2)
  }

  /**
   * The `Date` text as a date: `int(year_start + text[0:2])`,
   * `int(text[2:4])`, `int(text[4:6])`, evaluated in that order, then
   * `datetime(year, month, day)`.
   */
  function DecodeRunDate(yearStart: string, text: string): Result<CalendarDate, ScanError>
  {
    var yearText, monthText, dayText := yearStart + Slice(text, 0, 2), Slice(text, 2, 4), Slice(text, 4, 6);
    match ParseInt(yearText)
    case None => Err(NotAnInteger(yearText))
    case Some(year) =>
      match ParseInt(monthText)
      case None => Err(NotAnInteger(monthText))
      case Some(month) =>
        match ParseInt(dayText)
        case None => Err(NotAnInteger(dayText))
        case Some(day) => MakeDate(year, month, day)
  }

  /** `datetime(year, month, day)`: the date, or the ValueError it raises for one that does not exist. */
  function MakeDate(year: int, month: int, day: int): Result<CalendarDate, ScanError>
  {
    if ValidDate(Date(year, month, day)) then
      var d: CalendarDate := Date(year, month, day);
      Ok(d)
    else Err(InvalidDate(year, month, day))
  }

  /** The record for a qualifying run at `path`, or the error reading its descriptor raises. */
  function DecodeRun(yearStart: string, path: string, info: RunInfo): Result<FlowCellRun, ScanError>
  {
    match info
    case Unparsable => Err(UnparsableRunInfo)
    case Parsed(None) => Err(NoRunElement)
    case Parsed(Some(run)) =>
      if run.id.None? then Err(NoRunId)
      else if run.date.Missing? then Err(NoDateElement)
      else if run.date.text.None? then Err(NoDateText)
      else
        match DecodeRunDate(yearStart, run.date.text.value)
        case Err(e) => Err(e)
        case Ok(date) =>
          if run.instrument.Missing? then Err(NoInstrumentElement)
          else if run.flowcell.Missing? then Err(NoFlowcellElement)
          else Ok(FlowCellRun(run.flowcell.text, date, run.instrument.text, run.id.value, path))
  }

  /**
   * A descriptor decodes exactly when it parses, has a `Run` element with an
   * `Id`, a `Date` whose text decodes, an `Instrument` and a `Flowcell`; the
   * record then carries that id, date, instrument and flow cell, and the path.
   */
  lemma DecodeRunMeaning(yearStart: string, path: string, info: RunInfo)
    ensures DecodeRun(yearStart, path, info).Ok? <==>
      && info.Parsed? && info.run.Some?
      && var run := info.run.value;
        && run.id.Some? && run.date.Present? && run.date.text.Some?
        && DecodeRunDate(yearStart, run.date.text.value).Ok?
        && run.instrument.Present? && run.flowcell.Present?
    ensures DecodeRun(yearStart, path, info).Ok? ==>
      var run, r := info.run.value, DecodeRun(yearStart, path, info).value;
      && r.runId == run.id.value && r.path == path
      && r.flowcell == run.flowcell.text && r.instrument == run.instrument.text
      && r.runDate == DecodeRunDate(yearStart, run.date.text.value).value
  {
  }

  // ---------------------------------------------------------------------
  // The scan: every directory in order, every entry in listing order

  /** The records yielded so far, and the error that ended the scan, if any. */
  datatype Scanned = Scanned(runs: seq<FlowCellRun>, error: Option<ScanError>)

  function ScanEntry(acc: Scanned, yearStart: string, root: string, e: Entry, abspath: string -> string): Scanned
  {
    if acc.error.Some? || !Qualifies(e) then acc
    else
      match DecodeRun(yearStart, abspath(Join(root, e.name)), e.runInfo)
      case Ok(run) => Scanned(acc.runs + [run], None)
      case Err(err) => Scanned(acc.runs, Some(err))
  }

  function ScanEntries(acc: Scanned, yearStart: string, root: string, entries: seq<Entry>, abspath: string -> string): Scanned
    decreases |entries|
  {
    if entries == [] then acc
    else ScanEntry(ScanEntries(acc, yearStart, root, entries[..|entries| - 1], abspath), yearStart, root, entries[|entries| - 1], abspath)
  }

  function ScanDir(acc: Scanned, yearStart: string, dir: SequencingDir, abspath: string -> string): Scanned
  {
    if acc.error.Some? then acc
    else if dir.listing.None? then Scanned(acc.runs, Some(Unlistable(dir.path)))
    else ScanEntries(acc, yearStart, dir.path, dir.listing.value, abspath)
  }

  function ScanDirs(yearStart: string, dirs: seq<SequencingDir>, abspath: string -> string): Scanned
    decreases |dirs|
  {
    if dirs == [] then Scanned([], None)
    else ScanDir(ScanDirs(yearStart, dirs[..|dirs| - 1], abspath), yearStart, dirs[|dirs| - 1], abspath)
  }

  /** Everything `list_flow_cells(sequencing_dirs)` yields, and how it ends. */
  function Scan(dirs: seq<SequencingDir>, clockYear: int, abspath: string -> string): Scanned
    requires MinYear <= clockYear <= MaxYear
  {
    ScanDirs(YearStart(clockYear), dirs, abspath)
  }

  /** `list_flow_cells`: the generator run to its end, its records collected in order. */
  method ListFlowCells(dirs: seq<SequencingDir>, clockYear: int, abspath: string -> string)
    returns (runs: seq<FlowCellRun>, error: Option<ScanError>)
    requires MinYear <= clockYear <= MaxYear
    ensures Scanned(runs, error) == Scan(dirs, clockYear, abspath)
  {
    var yearStart := Slice(ZeroPad(NatToString(clockYear), 4), 0, 2);
    runs, error := [], None;
    var i := 0;
    while i < |dirs|
      invariant 0 <= i <= |dirs|
      invariant ScanDirs(yearStart, dirs[..i], abspath) == Scanned(runs, None)
    {
      var dir := dirs[i];
      DirsStep(yearStart, dirs, i, abspath);
      if dir.listing.None? {
        error := Some(Unlistable(dir.path));
        DirsStop(yearStart, dirs, i + 1, abspath);
        return;
      }
      var entries := dir.listing.value;
      ghost var before := runs;
      var j := 0;
      while j < |entries|
        invariant 0 <= j <= |entries|
        invariant ScanEntries(Scanned(before, None), yearStart, dir.path, entries[..j], abspath) == Scanned(runs, None)
      {
        var e := entries[j];
        assert entries[..j + 1][..j] == entries[..j];
        if e.isDir && RtaComplete in e.files && RunInfoFile in e.files {
          var decoded := DecodeRun(yearStart, abspath(Join(dir.path, e.name)), e.runInfo);
          if decoded.Err? {
            error := Some(decoded.error);
            EntriesStop(Scanned(before, None), yearStart, dir.path, entries, j + 1, abspath);
            DirsStop(yearStart, dirs, i + 1, abspath);
            return;
          }
          runs := runs + [decoded.value];
        }
        j := j + 1;
      }
      assert entries[..j] == entries;
      i := i + 1;
    }
    assert dirs[..i] == dirs;
  }

  lemma DirsStep(yearStart: string, dirs: seq<SequencingDir>, i: nat, abspath: string -> string)
    requires i < |dirs|
    ensures ScanDirs(yearStart, dirs[..i + 1], abspath) == ScanDir(ScanDirs(yearStart, dirs[..i], abspath), yearStart, dirs[i], abspath)
  {
    assert dirs[..i + 1][..i] == dirs[..i];
  }

  /** Once an error is raised, the later entries of the directory change nothing. */
  lemma {:induction false} EntriesStop(acc: Scanned, yearStart: string, root: string, entries: seq<Entry>, n: nat, abspath: string -> string)
    requires n <= |entries| && ScanEntries(acc, yearStart, root, entries[..n], abspath).error.Some?
    ensures ScanEntries(acc, yearStart, root, entries, abspath) == ScanEntries(acc, yearStart, root, entries[..n], abspath)
    decreases |entries|
  {
    if n < |entries| {
      var init := entries[..|entries| - 1];
      assert init[..n] == entries[..n];
      EntriesStop(acc, yearStart, root, init, n, abspath);
    } else {
      assert entries[..n] == entries;
    }
  }

  /** Once an error is raised, the later directories change nothing. */
  lemma {:induction false} DirsStop(yearStart: string, dirs: seq<SequencingDir>, n: nat, abspath: string -> string)
    requires n <= |dirs| && ScanDirs(yearStart, dirs[..n], abspath).error.Some?
    ensures ScanDirs(yearStart, dirs, abspath) == ScanDirs(yearStart, dirs[..n], abspath)
    decreases |dirs|
  {
    if n < |dirs| {
      var init := dirs[..|dirs| - 1];
      assert init[..n] == dirs[..n];
      DirsStop(yearStart, init, n, abspath);
    } else {
      assert dirs[..n] == dirs;
    }
  }

  // ---------------------------------------------------------------------
  // What the scan yields

  /** A qualifying entry: the absolute path of its directory and its descriptor. */
  datatype Candidate = Candidate(path: string, info: RunInfo)

  /** The qualifying entries of one listing, in listing order. */
  function DirCandidates(root: string, entries: seq<Entry>, abspath: string -> string): seq<Candidate>
    decreases |entries|
  {
    if entries == [] then []
    else
      var e := entries[|entries| - 1];
      DirCandidates(root, entries[..|entries| - 1], abspath)
        + (if Qualifies(e) then [Candidate(abspath(Join(root, e.name)), e.runInfo)] else [])
  }

  ghost predicate Listable(dirs: seq<SequencingDir>)
  {
    forall i :: 0 <= i < |dirs| ==> dirs[i].listing.Some?
  }

  /** The qualifying entries of all directories, directory by directory. */
  function Candidates(dirs: seq<SequencingDir>, abspath: string -> string): seq<Candidate>
    requires Listable(dirs)
    decreases |dirs|
  {
    if dirs == [] then []
    else
      var d := dirs[|dirs| - 1];
      Candidates(dirs[..|dirs| - 1], abspath) + DirCandidates(d.path, d.listing.value, abspath)
  }

  /** Every candidate decodes under `decode`. */
  ghost predicate AllOk(decode: Candidate -> Result<FlowCellRun, ScanError>, cs: seq<Candidate>)
  {
    forall i :: 0 <= i < |cs| ==> decode(cs[i]).Ok?
  }

  /** The records of candidates that all decode, in order. */
  function OkValues(decode: Candidate -> Result<FlowCellRun, ScanError>, cs: seq<Candidate>): (r: seq<FlowCellRun>)
    requires AllOk(decode, cs)
    ensures |r| == |cs| && forall i :: 0 <= i < |cs| ==> r[i] == decode(cs[i]).value
  {
    seq(|cs|, i requires 0 <= i < |cs| => decode(cs[i]).value)
  }

  /** One more candidate: all decode exactly when the earlier ones do and it does, and its record comes last. */
  lemma OkSnoc(decode: Candidate -> Result<FlowCellRun, ScanError>, cs: seq<Candidate>, c: Candidate)
    ensures AllOk(decode, cs + [c]) <==> AllOk(decode, cs) && decode(c).Ok?
    ensures AllOk(decode, cs + [c]) ==> OkValues(decode, cs + [c]) == OkValues(decode, cs) + [decode(c).value]
  {
    assert [c][0] == c;
    assert AllOk(decode, [c]) <==> decode(c).Ok?;
    OkAppend(decode, cs, [c]);
  }

  /** Two runs of candidates: all decode exactly when both runs do, and the records are concatenated. */
  lemma OkAppend(decode: Candidate -> Result<FlowCellRun, ScanError>, a: seq<Candidate>, b: seq<Candidate>)
    ensures AllOk(decode, a + b) <==> AllOk(decode, a) && AllOk(decode, b)
    ensures AllOk(decode, a + b) ==> OkValues(decode, a + b) == OkValues(decode, a) + OkValues(decode, b)
  {
    var ab := a + b;
    assert forall i :: 0 <= i < |a| ==> ab[i] == a[i];
    assert forall i :: 0 <= i < |b| ==> ab[|a| + i] == b[i];
    if AllOk(decode, a) && AllOk(decode, b) {
      assert forall i :: 0 <= i < |ab| ==> ab[i] == if i < |a| then a[i] else b[i - |a|];
    }
  }

  /** A failing candidate anywhere in the sequence means not every candidate decodes. */
  lemma NotAllOk(decode: Candidate -> Result<FlowCellRun, ScanError>, a: seq<Candidate>, b: seq<Candidate>)
    requires !AllOk(decode, a) || !AllOk(decode, b)
    ensures !AllOk(decode, a + b)
  {
    if !AllOk(decode, a) {
      var k :| 0 <= k < |a| && !decode(a[k]).Ok?;
      assert (a + b)[k] == a[k];
    } else {
      var k :| 0 <= k < |b| && !decode(b[k]).Ok?;
      assert (a + b)[|a| + k] == b[k];
    }
  }

  /** Decoding a candidate's descriptor with the year prefix of the scan. */
  function Decoder(yearStart: string): Candidate -> Result<FlowCellRun, ScanError>
  {
    (c: Candidate) => DecodeRun(yearStart, c.path, c.info)
  }

  ghost predicate AllDecode(yearStart: string, cs: seq<Candidate>)
  {
    AllOk(Decoder(yearStart), cs)
  }

  function DecodeAll(yearStart: string, cs: seq<Candidate>): (r: seq<FlowCellRun>)
    requires AllDecode(yearStart, cs)
  {
    OkValues(Decoder(yearStart), cs)
  }

  /** Within one listing: no error exactly when every qualifying entry decodes, and then their records are appended in order. */
  lemma {:induction false} EntriesOutcome(runs0: seq<FlowCellRun>, yearStart: string, root: string, entries: seq<Entry>, abspath: string -> string)
    ensures var r := ScanEntries(Scanned(runs0, None), yearStart, root, entries, abspath);
      var cs := DirCandidates(root, entries, abspath);
      && (r.error.None? <==> AllDecode(yearStart, cs))
      && (r.error.None? ==> r.runs == runs0 + DecodeAll(yearStart, cs))
    decreases |entries|
  {
    if entries != [] {
      var init := entries[..|entries| - 1];
      var e := entries[|entries| - 1];
      EntriesOutcome(runs0, yearStart, root, init, abspath);
      var csInit := DirCandidates(root, init, abspath);
      var prev := ScanEntries(Scanned(runs0, None), yearStart, root, init, abspath);
      assert ScanEntries(Scanned(runs0, None), yearStart, root, entries, abspath) == ScanEntry(prev, yearStart, root, e, abspath);
      if Qualifies(e) {
        var c := Candidate(abspath(Join(root, e.name)), e.runInfo);
        assert DirCandidates(root, entries, abspath) == csInit + [c];
        assert Decoder(yearStart)(c) == DecodeRun(yearStart, c.path, c.info);
        OkSnoc(Decoder(yearStart), csInit, c);
      } else {
        assert DirCandidates(root, entries, abspath) == csInit;
      }
    }
  }

  lemma ListableStep(dirs: seq<SequencingDir>)
    requires dirs != []
    ensures Listable(dirs) <==> Listable(dirs[..|dirs| - 1]) && dirs[|dirs| - 1].listing.Some?
  {
    var init := dirs[..|dirs| - 1];
    if Listable(init) && dirs[|dirs| - 1].listing.Some? {
      forall i | 0 <= i < |dirs| ensures dirs[i].listing.Some? {
        if i < |init| {
          assert dirs[i] == init[i];
        }
      }
    }
    if Listable(dirs) {
      forall i | 0 <= i < |init| ensures init[i].listing.Some? {
        assert init[i] == dirs[i];
      }
    }
  }

  /** One more directory: the scan outcome of `dirs` from that of all but its last directory. */
  lemma DirOutcomeStep(yearStart: string, dirs: seq<SequencingDir>, abspath: string -> string)
    requires dirs != []
    requires var init := dirs[..|dirs| - 1]; var r := ScanDirs(yearStart, init, abspath);
      && (r.error.None? <==> Listable(init) && AllDecode(yearStart, Candidates(init, abspath)))
      && (r.error.None? ==> r.runs == DecodeAll(yearStart, Candidates(init, abspath)))
    ensures var r := ScanDirs(yearStart, dirs, abspath);
      && (r.error.None? <==> Listable(dirs) && AllDecode(yearStart, Candidates(dirs, abspath)))
      && (r.error.None? ==> r.runs == DecodeAll(yearStart, Candidates(dirs, abspath)))
  {
    var init := dirs[..|dirs| - 1];
    var d := dirs[|dirs| - 1];
    var prev := ScanDirs(yearStart, init, abspath);
    ListableStep(dirs);
    if Listable(dirs) {
      var csInit := Candidates(init, abspath);
      var csDir := DirCandidates(d.path, d.listing.value, abspath);
      assert Candidates(dirs, abspath) == csInit + csDir;
      if prev.error.Some? {
        NotAllOk(Decoder(yearStart), csInit, csDir);
      } else {
        EntriesOutcome(prev.runs, yearStart, d.path, d.listing.value, abspath);
        if AllDecode(yearStart, csDir) {
          OkAppend(Decoder(yearStart), csInit, csDir);
        } else {
          NotAllOk(Decoder(yearStart), csInit, csDir);
        }
      }
    }
  }

  /**
   * `list_flow_cells` ends without error exactly when every directory can be
   * listed and every qualifying entry decodes; it then yields one record per
   * qualifying entry and for no other, directory by directory in the order
   * given and in listing order within a directory.
   */
  lemma {:induction false} ScanOutcome(yearStart: string, dirs: seq<SequencingDir>, abspath: string -> string)
    ensures var r := ScanDirs(yearStart, dirs, abspath);
      && (r.error.None? <==> Listable(dirs) && AllDecode(yearStart, Candidates(dirs, abspath)))
      && (r.error.None? ==> r.runs == DecodeAll(yearStart, Candidates(dirs, abspath)))
    decreases |dirs|
  {
    if dirs != [] {
      ScanOutcome(yearStart, dirs[..|dirs| - 1], abspath);
      DirOutcomeStep(yearStart, dirs, abspath);
    }
  }

  // ---------------------------------------------------------------------
  // How the scan ends when it raises

  /**
   * A listing whose scan raises: the qualifying entries before the `k`-th
   * decoded and their records were yielded, and the `k`-th raised the error.
   */
  lemma {:induction false} EntriesFailure(runs0: seq<FlowCellRun>, yearStart: string, root: string, entries: seq<Entry>, abspath: string -> string)
    returns (k: nat)
    requires ScanEntries(Scanned(runs0, None), yearStart, root, entries, abspath).error.Some?
    ensures EntriesFailAt(runs0, yearStart, root, entries, abspath, k)
    decreases |entries|
  {
    var init := entries[..|entries| - 1];
    if ScanEntries(Scanned(runs0, None), yearStart, root, init, abspath).error.Some? {
      k := EntriesFailure(runs0, yearStart, root, init, abspath);
      EntryFailKept(runs0, yearStart, root, entries, abspath, k);
    } else {
      k := |DirCandidates(root, init, abspath)|;
      EntryFailLast(runs0, yearStart, root, entries, abspath);
    }
  }

  /** The `k`-th qualifying entry of the listing is the first whose descriptor fails to decode. */
  ghost predicate EntriesFailAt(runs0: seq<FlowCellRun>, yearStart: string, root: string, entries: seq<Entry>, abspath: string -> string, k: nat)
  {
    var cs := DirCandidates(root, entries, abspath);
    && k < |cs| && AllDecode(yearStart, cs[..k]) && Decoder(yearStart)(cs[k]).Err?
    && ScanEntries(Scanned(runs0, None), yearStart, root, entries, abspath)
       == Scanned(runs0 + DecodeAll(yearStart, cs[..k]), Some(Decoder(yearStart)(cs[k]).error))
  }

  lemma EntryFailKept(runs0: seq<FlowCellRun>, yearStart: string, root: string, entries: seq<Entry>, abspath: string -> string, k: nat)
    requires entries != []
    requires var init := entries[..|entries| - 1];
      ScanEntries(Scanned(runs0, None), yearStart, root, init, abspath).error.Some? &&
      EntriesFailAt(runs0, yearStart, root, init, abspath, k)
    ensures EntriesFailAt(runs0, yearStart, root, entries, abspath, k)
  {
    var init := entries[..|entries| - 1];
    var e := entries[|entries| - 1];
    var prev := ScanEntries(Scanned(runs0, None), yearStart, root, init, abspath);
    assert ScanEntries(Scanned(runs0, None), yearStart, root, entries, abspath) == ScanEntry(prev, yearStart, root, e, abspath);
    var csInit := DirCandidates(root, init, abspath);
    var cs := DirCandidates(root, entries, abspath);
    assert cs == csInit + (if Qualifies(e) then [Candidate(abspath(Join(root, e.name)), e.runInfo)] else []);
    assert cs[..k] == csInit[..k] && cs[k] == csInit[k];
  }

  lemma EntryFailLast(runs0: seq<FlowCellRun>, yearStart: string, root: string, entries: seq<Entry>, abspath: string -> string)
    requires entries != []
    requires ScanEntries(Scanned(runs0, None), yearStart, root, entries[..|entries| - 1], abspath).error.None?
    requires ScanEntries(Scanned(runs0, None), yearStart, root, entries, abspath).error.Some?
    ensures EntriesFailAt(runs0, yearStart, root, entries, abspath, |DirCandidates(root, entries[..|entries| - 1], abspath)|)
  {
    var init := entries[..|entries| - 1];
    var e := entries[|entries| - 1];
    var prev := ScanEntries(Scanned(runs0, None), yearStart, root, init, abspath);
    assert ScanEntries(Scanned(runs0, None), yearStart, root, entries, abspath) == ScanEntry(prev, yearStart, root, e, abspath);
    EntriesOutcome(runs0, yearStart, root, init, abspath);
    var csInit := DirCandidates(root, init, abspath);
    var c := Candidate(abspath(Join(root, e.name)), e.runInfo);
    assert Qualifies(e);
    var cs := DirCandidates(root, entries, abspath);
    assert cs == csInit + [c];
    assert cs[..|csInit|] == csInit && cs[|csInit|] == c;
    assert Decoder(yearStart)(c) == DecodeRun(yearStart, c.path, c.info);
  }

  /**
   * The scan raises at directory `d`: the directories before it were listed
   * and every run in them decoded and was yielded. Either `d` cannot be
   * listed, or its `k`-th qualifying entry is the first that fails to decode,
   * after the records of the entries before it were yielded.
   */
  ghost predicate ScanFailsAt(yearStart: string, dirs: seq<SequencingDir>, abspath: string -> string, d: nat, k: nat)
  {
    && d < |dirs| && Listable(dirs[..d])
    && var before := Candidates(dirs[..d], abspath);
    var r := ScanDirs(yearStart, dirs, abspath);
    var dir := dirs[d];
    && AllDecode(yearStart, before)
    && (dir.listing.None? ==> r == Scanned(DecodeAll(yearStart, before), Some(Unlistable(dir.path))))
    && (dir.listing.Some? ==>
          var cs := DirCandidates(dir.path, dir.listing.value, abspath);
          && k < |cs| && AllDecode(yearStart, cs[..k]) && Decoder(yearStart)(cs[k]).Err?
          && r == Scanned(DecodeAll(yearStart, before) + DecodeAll(yearStart, cs[..k]), Some(Decoder(yearStart)(cs[k]).error)))
  }

  /** Whenever the scan raises, `ScanFailsAt` names the directory and the entry at which it does. */
  lemma {:induction false} ScanFailure(yearStart: string, dirs: seq<SequencingDir>, abspath: string -> string) returns (d: nat, k: nat)
    requires ScanDirs(yearStart, dirs, abspath).error.Some?
    ensures ScanFailsAt(yearStart, dirs, abspath, d, k)
    decreases |dirs|
  {
    var init := dirs[..|dirs| - 1];
    if ScanDirs(yearStart, init, abspath).error.Some? {
      d, k := ScanFailure(yearStart, init, abspath);
      ScanFailKept(yearStart, dirs, abspath, d, k);
    } else {
      d := |dirs| - 1;
      k := ScanFailLast(yearStart, dirs, abspath);
    }
  }

  lemma ScanFailKept(yearStart: string, dirs: seq<SequencingDir>, abspath: string -> string, d: nat, k: nat)
    requires dirs != []
    requires var init := dirs[..|dirs| - 1];
      ScanDirs(yearStart, init, abspath).error.Some? && ScanFailsAt(yearStart, init, abspath, d, k)
    ensures ScanFailsAt(yearStart, dirs, abspath, d, k)
  {
    var init := dirs[..|dirs| - 1];
    assert ScanDirs(yearStart, dirs, abspath) == ScanDirs(yearStart, init, abspath);
    assert init[..d] == dirs[..d] && init[d] == dirs[d];
  }

  lemma ScanFailLast(yearStart: string, dirs: seq<SequencingDir>, abspath: string -> string) returns (k: nat)
    requires dirs != [] && ScanDirs(yearStart, dirs[..|dirs| - 1], abspath).error.None?
    requires ScanDirs(yearStart, dirs, abspath).error.Some?
    ensures ScanFailsAt(yearStart, dirs, abspath, |dirs| - 1, k)
  {
    var init := dirs[..|dirs| - 1];
    var dir := dirs[|dirs| - 1];
    var prev := ScanDirs(yearStart, init, abspath);
    ScanOutcome(yearStart, init, abspath);
    assert ScanDirs(yearStart, dirs, abspath) == ScanDir(prev, yearStart, dir, abspath);
    k := 0;
    if dir.listing.Some? {
      k := EntriesFailure(prev.runs, yearStart, dir.path, dir.listing.value, abspath);
    }
  }

  // ---------------------------------------------------------------------
  // Reading the run date

  /** `str(n)` of a number below 10000, digit by digit. */
  lemma DecimalDigits(n: nat)
    requires n < 10000
    ensures n < 10 ==> NatToString(n) == [DigitChar(n)]
    ensures 10 <= n < 100 ==> NatToString(n) == [DigitChar(n / 10), DigitChar(n % 10)]
    ensures 100 <= n < 1000 ==> NatToString(n) == [DigitChar(n / 100), DigitChar(n / 10 % 10), DigitChar(n % 10)]
    ensures 1000 <= n ==> NatToString(n) == [DigitChar(n / 1000), DigitChar(n / 100 % 10), DigitChar(n / 10 % 10), DigitChar(n % 10)]
  {
    if n >= 10 {
      DecimalDigits(n / 10);
      assert n / 10 / 10 == n / 100;
      assert n / 100 / 10 == n / 1000;
      assert n / 10 % 10 == n / 10 % 10;
    }
  }

  /** `'%04d' % year`: the four decimal digits of the year, zeros first. */
  lemma PaddedYear(year: int)
    requires MinYear <= year <= MaxYear
    ensures ZeroPad(NatToString(year), 4) ==
      [DigitChar(year / 1000), DigitChar(year / 100 % 10), DigitChar(year / 10 % 10), DigitChar(year % 10)]
  {
    var s := NatToString(year);
    DecimalDigits(year);
    if year < 10 {
      assert ZeroPad(s, 4) == ['0', '0', '0'] + s;
      assert year / 1000 == 0 && year / 100 % 10 == 0 && year / 10 % 10 == 0;
    } else if year < 100 {
      assert ZeroPad(s, 4) == ['0', '0'] + s;
      assert year / 1000 == 0 && year / 100 % 10 == 0 && year / 10 % 10 == year / 10;
    } else if year < 1000 {
      assert ZeroPad(s, 4) == ['0'] + s;
      assert year / 1000 == 0 && year / 100 % 10 == year / 100;
    }
  }

  /** The century comes from the clock: the first two of the four year digits. */
  lemma CenturyDigits(clockYear: int)
    requires MinYear <= clockYear <= MaxYear
    ensures YearStart(clockYear) == [DigitChar(clockYear / 1000), DigitChar(clockYear / 100 % 10)]
    ensures 1000 * DigitValue(YearStart(clockYear)[0]) + 100 * DigitValue(YearStart(clockYear)[1]) == 100 * (clockYear / 100)
  {
    var p := ZeroPad(NatToString(clockYear), 4);
    PaddedYear(clockYear);
    assert Slice(p, 0, 2) == p[0..2] == [DigitChar(clockYear / 1000), DigitChar(clockYear / 100 % 10)];
    HundredsSplit(clockYear);
  }

  /** The hundreds of a year are ten thousands plus the hundreds digit. */
  lemma HundredsSplit(year: int)
    requires 0 <= year
    ensures year / 100 == 10 * (year / 1000) + year / 100 % 10
  {
    assert year / 1000 == year / 100 / 10;
  }

  /** Two digits read as a decimal number. */
  lemma TwoDigitValue(t: string)
    requires |t| == 2 && IsDigit(t[0]) && IsDigit(t[1])
    ensures GroupsValue(t) == 10 * DigitValue(t[0]) + DigitValue(t[1])
  {
    var head := t[..1];
    assert head[..0] == [] && head[0] == t[0];
    assert GroupsValue(head) == DigitValue(t[0]);
  }

  /** Four digits read as a decimal number: the first two are the hundreds. */
  lemma FourDigitValue(t: string)
    requires |t| == 4 && forall i :: 0 <= i < 4 ==> IsDigit(t[i])
    ensures GroupsValue(t) == 100 * GroupsValue(t[..2]) + 10 * DigitValue(t[2]) + DigitValue(t[3])
  {
    assert t[..3][..2] == t[..2];
  }

  /** The year text: the two century digits followed by the first two characters of the Date text. */
  lemma YearText(yearStart: string, text: string)
    requires |yearStart| == 2 && IsDigit(yearStart[0]) && IsDigit(yearStart[1])
    requires |text| >= 2 && IsDigit(text[0]) && IsDigit(text[1])
    ensures ParseInt(yearStart + Slice(text, 0, 2))
         == Some(1000 * DigitValue(yearStart[0]) + 100 * DigitValue(yearStart[1]) + 10 * DigitValue(text[0]) + DigitValue(text[1]))
  {
    var yy := Slice(text, 0, 2);
    assert yy == [text[0], text[1]];
    var s := yearStart + yy;
    assert s[..2] == yearStart;
    assert forall i :: 0 <= i < 4 ==> IsDigit(s[i]);
    ParseDigits(s);
    FourDigitValue(s);
    TwoDigitValue(yearStart);
  }

  /** The two digits of the text from `i` on, as `int(text[i:i+2])` reads them. */
  lemma FieldText(text: string, i: nat)
    requires i + 2 <= |text| && IsDigit(text[i]) && IsDigit(text[i + 1])
    ensures ParseInt(Slice(text, i, i + 2)) == Some(10 * DigitValue(text[i]) + DigitValue(text[i + 1]))
  {
    var s := Slice(text, i, i + 2);
    assert s == [text[i], text[i + 1]];
    ParseDigits(s);
    TwoDigitValue(s);
  }

  /**
   * A six-digit `YYMMDD` text reads as year `YY` of the century the clock's
   * year starts with, month `MM` and day `DD`, and is accepted exactly when
   * that is a real date.
   */
  lemma DecodeSixDigits(clockYear: int, text: string)
    requires MinYear <= clockYear <= MaxYear
    requires |text| >= 6 && IsDigit(text[0]) && IsDigit(text[1]) && IsDigit(text[2]) && IsDigit(text[3]) && IsDigit(text[4]) && IsDigit(text[5])
    ensures DecodeRunDate(YearStart(clockYear), text) ==
      MakeDate(100 * (clockYear / 100) + 10 * DigitValue(text[0]) + DigitValue(text[1]),
               10 * DigitValue(text[2]) + DigitValue(text[3]),
               10 * DigitValue(text[4]) + DigitValue(text[5]))
  {
    var ys := YearStart(clockYear);
    CenturyDigits(clockYear);
    DecodeWithCentury(ys, text);
    assert 1000 * DigitValue(ys[0]) + 100 * DigitValue(ys[1]) + 10 * DigitValue(text[0]) + DigitValue(text[1])
        == 100 * (clockYear / 100) + 10 * DigitValue(text[0]) + DigitValue(text[1]);
  }

  /** The same for any two century digits in place of the clock's. */
  lemma DecodeWithCentury(yearStart: string, text: string)
    requires |yearStart| == 2 && IsDigit(yearStart[0]) && IsDigit(yearStart[1])
    requires |text| >= 6 && IsDigit(text[0]) && IsDigit(text[1]) && IsDigit(text[2]) && IsDigit(text[3]) && IsDigit(text[4]) && IsDigit(text[5])
    ensures DecodeRunDate(yearStart, text) ==
      MakeDate(1000 * DigitValue(yearStart[0]) + 100 * DigitValue(yearStart[1]) + 10 * DigitValue(text[0]) + DigitValue(text[1]),
               10 * DigitValue(text[2]) + DigitValue(text[3]),
               10 * DigitValue(text[4]) + DigitValue(text[5]))
  {
    var year := 1000 * DigitValue(yearStart[0]) + 100 * DigitValue(yearStart[1]) + 10 * DigitValue(text[0]) + DigitValue(text[1]);
    var month := 10 * DigitValue(text[2]) + DigitValue(text[3]);
    var day := 10 * DigitValue(text[4]) + DigitValue(text[5]);
    YearText(yearStart, text);
    FieldText(text, 2);
    FieldText(text, 4);
    DecodeParsed(yearStart, text, year, month, day);
  }

  /** Once the three numbers are read, the date is accepted exactly when `datetime` accepts it. */
  lemma DecodeParsed(yearStart: string, text: string, year: int, month: int, day: int)
    requires ParseInt(yearStart + Slice(text, 0, 2)) == Some(year)
    requires ParseInt(Slice(text, 2, 4)) == Some(month)
    requires ParseInt(Slice(text, 4, 6)) == Some(day)
    ensures DecodeRunDate(yearStart, text) == MakeDate(year, month, day)
  {
  }

  /** The documented example: `180521` read in 2018 is 21 May 2018. */
  lemma ExampleRunDate(text: string)
    requires text == "180521"
    ensures var r := DecodeRunDate(YearStart(2018), text); r.Ok? && r.value == Date(2018, 5, 21)
  {
    DecodeSixDigits(2018, text);
  }

  /** The century is the clock's, not the run's: `991231` read in 2000 is the last day of 2099. */
  lemma ExampleCenturyFromClock(text: string)
    requires text == "991231"
    ensures var r := DecodeRunDate(YearStart(2000), text); r.Ok? && r.value == Date(2099, 12, 31)
  {
    DecodeSixDigits(2000, text);
  }

  /** An impossible day is the error `datetime` raises: `180230` read in 2018. */
  lemma ExampleInvalidDate(text: string)
    requires text == "180230"
    ensures DecodeRunDate(YearStart(2018), text) == Err(InvalidDate(2018, 2, 30))
  {
    DecodeSixDigits(2018, text);
  }

  /** A five-character text leaves a one-digit day: `18052` is 2 May 2018. */
  lemma ExampleShortDate()
    ensures var r := DecodeRunDate(YearStart(2018), "18052"); r.Ok? && r.value == Date(2018, 5, 2)
  {
    CenturyDigits(2018);
    YearText(YearStart(2018), "18052");
    FieldText("18052", 2);
    var day := Slice("18052", 4, 6);
    assert day == "2";
    ParseDigits(day);
    assert day[..0] == [];
    DecodeParsed(YearStart(2018), "18052", 2018, 5, 2);
  }

  /** A four-character text has no day, and `int('')` raises. */
  lemma ExampleNoDay()
    ensures DecodeRunDate(YearStart(2018), "1805") == Err(NotAnInteger(""))
  {
    CenturyDigits(2018);
    YearText(YearStart(2018), "1805");
    FieldText("1805", 2);
    assert Slice("1805", 4, 6) == "";
  }

  // ---------------------------------------------------------------------
  // The age filter

  /** A naive `datetime`: its date and the microseconds since midnight (below 86400 * 10^6). */
  datatype Moment = Moment(date: CalendarDate, micros: nat)

  /** A `datetime` as the pair it is compared by: day number, then time of day. */
  datatype Instant = Instant(day: int, micros: int)

  /** `timedelta(days=...)` accepts at most this many days either way. */
  const MaxDeltaDays := 999999999

  /** What `filter_flow_cells_by_run_date` and `create_flowcells` raise. */
  datatype Failure =
    | Overflow                      // timedelta or the subtraction out of range: OverflowError
    | ScanFailed(reason: ScanError) // raised while listing the runs
    | MissingField(name: string)    // field_map[name]: KeyError

  /**
   * `now - timedelta(days=days_old)`: None where Python raises
   * OverflowError, for a day count `timedelta` refuses or a result before
   * 0001-01-01 or after 9999-12-31.
   */
  function Threshold(now: Moment, daysOld: int): Option<Instant>
  {
    if daysOld < -MaxDeltaDays || daysOld > MaxDeltaDays then None
    else
      var day := Ordinal(now.date) - daysOld;
      if 1 <= day <= MaxOrdinal then Some(Instant(day, now.micros)) else None
  }

  /** `a <= b` on `datetime`s. */
  predicate NotAfter(a: Instant, b: Instant)
  {
    a.day < b.day || (a.day == b.day && a.micros <= b.micros)
  }

  /** A run date is a `datetime` at midnight. */
  function Midnight(d: CalendarDate): Instant
  {
    Instant(Ordinal(d), 0)
  }

  /** The paths the loop appends: those of the runs dated no later than `limit`, in order. */
  function KeepPaths(runs: seq<FlowCellRun>, limit: Instant): seq<string>
    decreases |runs|
  {
    if runs == [] then []
    else
      var run := runs[|runs| - 1];
      KeepPaths(runs[..|runs| - 1], limit) + (if NotAfter(Midnight(run.runDate), limit) then [run.path] else [])
  }

  /** `filter_flow_cells_by_run_date(sequencing_dirs, days_old, now)`: the paths, or what it raises. */
  function RunDateFilter(dirs: seq<SequencingDir>, clockYear: int, abspath: string -> string, daysOld: int, now: Moment): Result<seq<string>, Failure>
    requires MinYear <= clockYear <= MaxYear
  {
    match Threshold(now, daysOld)
    case None => Err(Overflow)
    case Some(limit) =>
      var scan := Scan(dirs, clockYear, abspath);
      if scan.error.Some? then Err(ScanFailed(scan.error.value)) else Ok(KeepPaths(scan.runs, limit))
  }

  /** `filter_flow_cells_by_run_date`: the threshold first, then one append per old-enough run. */
  method FilterFlowCellsByRunDate(dirs: seq<SequencingDir>, clockYear: int, abspath: string -> string, daysOld: int, now: Moment)
    returns (results: seq<string>, failure: Option<Failure>)
    requires MinYear <= clockYear <= MaxYear
    ensures var r := RunDateFilter(dirs, clockYear, abspath, daysOld, now);
      && (r.Ok? <==> failure.None?)
      && (r.Ok? ==> results == r.value)
      && (r.Err? ==> failure == Some(r.error))
  {
    results := [];
    var threshold := Threshold(now, daysOld);
    if threshold.None? {
      return [], Some(Overflow);
    }
    var limit := threshold.value;
    var runs, error := ListFlowCells(dirs, clockYear, abspath);
    if error.Some? {
      assert RunDateFilter(dirs, clockYear, abspath, daysOld, now) == Err(ScanFailed(error.value));
      return [], Some(ScanFailed(error.value));
    }
    assert RunDateFilter(dirs, clockYear, abspath, daysOld, now) == Ok(KeepPaths(runs, limit));
    results := CollectPaths(runs, limit);
    failure := None;
  }

  /** The loop of the filter: the path of every run dated no later than `limit`, appended in order. */
  method CollectPaths(runs: seq<FlowCellRun>, limit: Instant) returns (results: seq<string>)
    ensures results == KeepPaths(runs, limit)
  {
    results := [];
    var i := 0;
    while i < |runs|
      invariant 0 <= i <= |runs|
      invariant results == KeepPaths(runs[..i], limit)
    {
      var run := runs[i];
      assert runs[..i + 1][..i] == runs[..i];
      if NotAfter(Midnight(run.runDate), limit) {
        results := results + [run.path];
      }
      i := i + 1;
    }
    assert runs[..i] == runs;
  }

  /** A run is old enough when its date lies at least `daysOld` days before `today`. */
  predicate OldEnough(d: CalendarDate, today: CalendarDate, daysOld: int)
  {
    Ordinal(d) + daysOld <= Ordinal(today)
  }

  /** The runs that are old enough, in order. */
  function OldRuns(runs: seq<FlowCellRun>, today: CalendarDate, daysOld: int): (r: seq<FlowCellRun>)
    ensures |r| <= |runs|
    ensures forall i :: 0 <= i < |r| ==> OldEnough(r[i].runDate, today, daysOld)
    decreases |runs|
  {
    if runs == [] then []
    else
      var run := runs[|runs| - 1];
      OldRuns(runs[..|runs| - 1], today, daysOld) + (if OldEnough(run.runDate, today, daysOld) then [run] else [])
  }

  function PathsOf(runs: seq<FlowCellRun>): (r: seq<string>)
    ensures |r| == |runs|
  {
    seq(|runs|, i requires 0 <= i < |runs| => runs[i].path)
  }

  /**
   * Comparing the midnight run date with `now - days_old` keeps exactly
   * the runs at least `days_old` calendar days before today: the time of
   * day of `now` never matters, and the boundary day is kept.
   */
  lemma {:induction false} KeepPathsMeaning(runs: seq<FlowCellRun>, now: Moment, daysOld: int, limit: Instant)
    requires Threshold(now, daysOld) == Some(limit)
    ensures KeepPaths(runs, limit) == PathsOf(OldRuns(runs, now.date, daysOld))
    decreases |runs|
  {
    if runs != [] {
      var init := runs[..|runs| - 1];
      var run := runs[|runs| - 1];
      KeepPathsMeaning(init, now, daysOld, limit);
      var kept := OldRuns(init, now.date, daysOld);
      if OldEnough(run.runDate, now.date, daysOld) {
        assert PathsOf(kept + [run]) == PathsOf(kept) + [run.path];
      } else {
        assert !NotAfter(Midnight(run.runDate), limit);
      }
    }
  }

  /**
   * What the filter returns: with a representable threshold and a scan
   * that ends without error, the paths of the scanned runs that are at
   * least `days_old` days old, in scan order, never more than were scanned.
   */
  lemma FilterOutcome(dirs: seq<SequencingDir>, clockYear: int, abspath: string -> string, daysOld: int, now: Moment)
    requires MinYear <= clockYear <= MaxYear
    ensures var r := RunDateFilter(dirs, clockYear, abspath, daysOld, now);
      var scan := Scan(dirs, clockYear, abspath);
      && (Threshold(now, daysOld).None? ==> r == Err(Overflow))
      && (Threshold(now, daysOld).Some? && scan.error.Some? ==> r == Err(ScanFailed(scan.error.value)))
      && (r.Ok? ==> r.value == PathsOf(OldRuns(scan.runs, now.date, daysOld)) && |r.value| <= |scan.runs|)
  {
    if Threshold(now, daysOld).Some? {
      KeepPathsMeaning(Scan(dirs, clockYear, abspath).runs, now, daysOld, Threshold(now, daysOld).value);
    }
  }

  /** Any age that does not reach back before 0001-01-01 gives a threshold. */
  lemma ThresholdExists(now: Moment, daysOld: int)
    requires 0 <= daysOld < Ordinal(now.date)
    ensures Threshold(now, daysOld).Some?
  {
    OrdinalRange(now.date);
  }

  /** With `days_old == 0`, a run passes exactly when it is not dated after today. */
  lemma ZeroDaysOld(d: CalendarDate, today: CalendarDate)
    ensures OldEnough(d, today, 0) <==> !Before(today, d)
  {
    OrdinalOrder(today, d);
  }

  /**
   * Raising `days_old` only removes runs: filtering with the larger age is
   * filtering again what the smaller age kept.
   */
  lemma {:induction false} OlderIsNarrower(runs: seq<FlowCellRun>, today: CalendarDate, d1: int, d2: int)
    requires d1 <= d2
    ensures OldRuns(OldRuns(runs, today, d1), today, d2) == OldRuns(runs, today, d2)
    decreases |runs|
  {
    if runs != [] {
      var init := runs[..|runs| - 1];
      var run := runs[|runs| - 1];
      OlderIsNarrower(init, today, d1, d2);
      var kept := OldRuns(init, today, d1);
      if OldEnough(run.runDate, today, d1) {
        assert (kept + [run])[..|kept|] == kept;
        assert OldRuns(kept + [run], today, d2)
            == OldRuns(kept, today, d2) + (if OldEnough(run.runDate, today, d2) then [run] else []);
      } else {
        assert OldRuns(runs, today, d1) == kept;
      }
    }
  }

  /** The boundary is inclusive: on 2018-05-21 with `days_old = 6`, a run of 2018-05-15 passes and one of 2018-05-16 does not. */
  lemma ExampleBoundary(micros: nat)
    ensures var limit := Threshold(Moment(Date(2018, 5, 21), micros), 6);
      && limit.Some?
      && NotAfter(Midnight(Date(2018, 5, 15)), limit.value)
      && !NotAfter(Midnight(Date(2018, 5, 16)), limit.value)
  {
    var today: CalendarDate := Date(2018, 5, 21);
    var d15: CalendarDate := Date(2018, 5, 15);
    var d16: CalendarDate := Date(2018, 5, 16);
    assert Ordinal(today) == DaysBeforeYear(2018) + DaysBeforeMonth(2018, 5) + 21;
    assert Ordinal(d15) + 6 == Ordinal(today);
    assert Ordinal(d16) + 5 == Ordinal(today);
    ThresholdExists(Moment(today, micros), 6);
  }

  // ---------------------------------------------------------------------
  // Creating the Jira issues

  /** A value of the issue's `fields` dictionary. */
  datatype FieldValue = Str(s: string) | Null | IssueType(name: string)

  /** A Python dictionary of issue fields: keys in insertion order, and their values. */
  datatype Fields = Fields(keys: seq<string>, values: map<string, FieldValue>)

  /** `d[k] = v`: a new key goes last, an existing key keeps its place and takes the new value. */
  function Store(f: Fields, k: string, v: FieldValue): Fields
  {
    if k in f.values then Fields(f.keys, f.values[k := v]) else Fields(f.keys + [k], f.values[k := v])
  }

  function TextValue(t: Option<string>): FieldValue
  {
    if t.Some? then Str(t.value) else Null
  }

  /** `str(year) + '-' + str(month) + '-' + str(day)`: no zero padding. */
  function DateField(d: CalendarDate): string
  {
    NatToString(d.year) + "-" + NatToString(d.month) + "-" + NatToString(d.day)
  }

  /**
   * The JQL search for an issue of the run. Jira answers it from its text,
   * so an answer is a function of the project and the run id it is built from.
   */
  datatype Jql = RunSearch(projectId: string, runId: string)

  /** The text sent to Jira for a search. */
  function JqlText(q: Jql): string
  {
    "project=" + q.projectId + " AND issuetype = sequencing_run AND \"Sequencing Run ID\" ~ " + q.runId
  }

  /** The custom fields looked up by name, in the order the dictionary display evaluates them. */
  predicate HasFields(fieldMap: map<string, string>)
  {
    "flowcell" in fieldMap && "instrument" in fieldMap && "run_date" in fieldMap && "Sequencing Run ID" in fieldMap
  }

  function FirstMissing(fieldMap: map<string, string>): string
    requires !HasFields(fieldMap)
  {
    if "flowcell" !in fieldMap then "flowcell"
    else if "instrument" !in fieldMap then "instrument"
    else if "run_date" !in fieldMap then "run_date"
    else "Sequencing Run ID"
  }

  /** A dictionary display `{k0: v0, k1: v1, ...}` added to `f`: the pairs stored from left to right. */
  function Display(f: Fields, pairs: seq<(string, FieldValue)>): Fields
    decreases |pairs|
  {
    if pairs == [] then f
    else
      var last := pairs[|pairs| - 1];
      Store(Display(f, pairs[..|pairs| - 1]), last.0, last.1)
  }

  /** The keys of a display's pairs, in order. */
  function KeysOf(pairs: seq<(string, FieldValue)>): (r: seq<string>)
    ensures |r| == |pairs| && forall i :: 0 <= i < |pairs| ==> r[i] == pairs[i].0
  {
    seq(|pairs|, i requires 0 <= i < |pairs| => pairs[i].0)
  }

  /** The pairs written into a map one after the other, a later value replacing an earlier one. */
  function UpdateAll(m: map<string, FieldValue>, pairs: seq<(string, FieldValue)>): map<string, FieldValue>
    decreases |pairs|
  {
    if pairs == [] then m
    else
      var last := pairs[|pairs| - 1];
      UpdateAll(m, pairs[..|pairs| - 1])[last.0 := last.1]
  }

  lemma {:induction false} UpdateAllMisses(m: map<string, FieldValue>, pairs: seq<(string, FieldValue)>, k: string)
    requires k !in m && forall i :: 0 <= i < |pairs| ==> pairs[i].0 != k
    ensures k !in UpdateAll(m, pairs)
    decreases |pairs|
  {
    if pairs != [] {
      UpdateAllMisses(m, pairs[..|pairs| - 1], k);
    }
  }

  /**
   * A display whose keys are distinct and new appends its keys in order and
   * writes its values into the map.
   */
  lemma {:induction false} DisplayDistinct(f: Fields, pairs: seq<(string, FieldValue)>)
    requires forall i, j :: 0 <= i < j < |pairs| ==> pairs[i].0 != pairs[j].0
    requires forall i :: 0 <= i < |pairs| ==> pairs[i].0 !in f.values
    ensures Display(f, pairs) == Fields(f.keys + KeysOf(pairs), UpdateAll(f.values, pairs))
    decreases |pairs|
  {
    if pairs != [] {
      var init := pairs[..|pairs| - 1];
      var last := pairs[|pairs| - 1];
      DisplayDistinct(f, init);
      UpdateAllMisses(f.values, init, last.0);
      assert KeysOf(pairs) == KeysOf(init) + [last.0];
    }
  }

  /** The pairs of the `fields` display of `create_issue`; the custom field ids are looked up as they are met. */
  function IssuePairs(fieldMap: map<string, string>, projectId: string, run: FlowCellRun): seq<(string, FieldValue)>
    requires HasFields(fieldMap)
  {
    [("project", Str(projectId)),
     (fieldMap["flowcell"], TextValue(run.flowcell)),
     (fieldMap["instrument"], TextValue(run.instrument)),
     (fieldMap["run_date"], Str(DateField(run.runDate))),
     (fieldMap["Sequencing Run ID"], Str(run.runId)),
     ("issuetype", IssueType("sequencing_run"))]
  }

  /**
   * The `fields` display of `create_issue` evaluated pair by pair, or the
   * KeyError of the first name not in the field map. The dictionary Jira
   * receives is `Display(Fields([], map[]), pairs)`.
   */
  function IssueFields(fieldMap: map<string, string>, projectId: string, run: FlowCellRun): Result<seq<(string, FieldValue)>, Failure>
  {
    if !HasFields(fieldMap) then Err(MissingField(FirstMissing(fieldMap)))
    else Ok(IssuePairs(fieldMap, projectId, run))
  }

  /**
   * A Jira call that changes an issue: issues are numbered in the order they
   * are created. The field listing and the searches change nothing and are
   * not recorded.
   */
  datatype Action =
    | CreateIssue(fields: seq<(string, FieldValue)>)
    | AddAttachment(issue: nat, attachment: string)
    | TransitionIssue(issue: nat, transition: string)

  /** What registering one run does: create, attach its two descriptors, move it to SEQUENCED. */
  function IssueActions(fields: seq<(string, FieldValue)>, issue: nat, path: string): seq<Action>
  {
    [CreateIssue(fields), AddAttachment(issue, Join(path, RunInfoFile)), AddAttachment(issue, Join(path, RunParametersFile)),
     TransitionIssue(issue, "SEQUENCED")]
  }

  /**
   * A registration attaches `RunInfo.xml` and then `RunParameters.xml` to the
   * issue it has just created, and moves that issue to `SEQUENCED`.
   */
  lemma AttachmentNames(fields: seq<(string, FieldValue)>, issue: nat, path: string)
    ensures var calls := IssueActions(fields, issue, path);
      && |calls| == 4 && calls[0] == CreateIssue(fields)
      && calls[1].AddAttachment? && calls[1].issue == issue && EndsWith(calls[1].attachment, RunInfoFile)
      && calls[2].AddAttachment? && calls[2].issue == issue && EndsWith(calls[2].attachment, RunParametersFile)
      && calls[3] == TransitionIssue(issue, "SEQUENCED")
  {
    JoinEndsWith(path, RunInfoFile);
    JoinEndsWith(path, RunParametersFile);
  }

  /** The Jira calls made so far, the number of issues created, and what was raised. */
  datatype Log = Log(actions: seq<Action>, issues: nat, failure: Option<Failure>)

  function CreateStep(log: Log, fieldMap: map<string, string>, search: Jql -> nat, projectId: string, run: FlowCellRun): Log
  {
    if log.failure.Some? || search(RunSearch(projectId, run.runId)) != 0 then log
    else
      match IssueFields(fieldMap, projectId, run)
      case Err(f) => Log(log.actions, log.issues, Some(f))
      case Ok(fields) => Log(log.actions + IssueActions(fields, log.issues, run.path), log.issues + 1, None)
  }

  function CreateRuns(runs: seq<FlowCellRun>, fieldMap: map<string, string>, search: Jql -> nat, projectId: string): Log
    decreases |runs|
  {
    if runs == [] then Log([], 0, None)
    else CreateStep(CreateRuns(runs[..|runs| - 1], fieldMap, search, projectId), fieldMap, search, projectId, runs[|runs| - 1])
  }

  /**
   * `create_flowcells(sequencing_dirs, jira, project_id)`: the Jira calls in
   * order and what it raises. Runs are handled as the generator yields
   * them, so a scan error surfaces only after every run before it was handled.
   */
  function CreateOutcome(fieldList: seq<Field>, search: Jql -> nat, dirs: seq<SequencingDir>, projectId: string,
                         clockYear: int, abspath: string -> string): Log
    requires MinYear <= clockYear <= MaxYear
  {
    var scan := Scan(dirs, clockYear, abspath);
    var log := CreateRuns(scan.runs, NameToId(fieldList), search, projectId);
    if log.failure.None? && scan.error.Some? then Log(log.actions, log.issues, Some(ScanFailed(scan.error.value))) else log
  }

  /** `create_flowcells`: the field map first, then one search per listed run and the issue calls where it finds nothing. */
  method CreateFlowcells(fieldList: seq<Field>, search: Jql -> nat, dirs: seq<SequencingDir>, projectId: string,
                         clockYear: int, abspath: string -> string)
    returns (actions: seq<Action>, failure: Option<Failure>)
    requires MinYear <= clockYear <= MaxYear
    ensures var log := CreateOutcome(fieldList, search, dirs, projectId, clockYear, abspath);
      actions == log.actions && failure == log.failure
  {
    var fieldMap := GetFieldNameToId(fieldList);
    var runs, error := ListFlowCells(dirs, clockYear, abspath);
    actions, failure := HandleRuns(runs, fieldMap, search, projectId);
    if failure.None? && error.Some? {
      failure := Some(ScanFailed(error.value));
    }
  }

  /** The loop of `create_flowcells`: one search per run, and the issue calls where it finds nothing. */
  method HandleRuns(runs: seq<FlowCellRun>, fieldMap: map<string, string>, search: Jql -> nat, projectId: string)
    returns (actions: seq<Action>, failure: Option<Failure>)
    ensures var log := CreateRuns(runs, fieldMap, search, projectId);
      actions == log.actions && failure == log.failure
  {
    actions, failure := [], None;
    var issues := 0;
    var i := 0;
    while i < |runs|
      invariant 0 <= i <= |runs|
      invariant CreateRuns(runs[..i], fieldMap, search, projectId) == Log(actions, issues, None)
    {
      var run := runs[i];
      CreateRunsStep(runs, fieldMap, search, projectId, i);
      if search(RunSearch(projectId, run.runId)) == 0 {
        var fields := IssueFields(fieldMap, projectId, run);
        if fields.Err? {
          failure := Some(fields.error);
          CreateStops(runs, fieldMap, search, projectId, i + 1);
          return;
        }
        actions := RegisterRun(actions, fields.value, issues, run.path);
        issues := issues + 1;
      }
      i := i + 1;
    }
    assert runs[..i] == runs;
  }

  /** The calls for one new issue: create it, attach both descriptors one by one, then the transition. */
  method RegisterRun(actions0: seq<Action>, fields: seq<(string, FieldValue)>, issue: nat, path: string) returns (actions: seq<Action>)
    ensures actions == actions0 + IssueActions(fields, issue, path)
  {
    actions := actions0 + [CreateIssue(fields)];
    var attachments := [Join(path, RunInfoFile), Join(path, RunParametersFile)];
    ghost var attached := [AddAttachment(issue, attachments[0]), AddAttachment(issue, attachments[1])];
    var k := 0;
    while k < |attachments|
      invariant 0 <= k <= |attachments|
      invariant actions == actions0 + [CreateIssue(fields)] + attached[..k]
    {
      assert attached[..k + 1] == attached[..k] + [AddAttachment(issue, attachments[k])];
      actions := actions + [AddAttachment(issue, attachments[k])];
      k := k + 1;
    }
    assert attached[..k] == attached;
    ghost var prefix := actions;
    actions := actions + [TransitionIssue(issue, "SEQUENCED")];
    ghost var calls := IssueActions(fields, issue, path);
    assert calls == [CreateIssue(fields)] + attached + [TransitionIssue(issue, "SEQUENCED")];
    assert prefix == actions0 + [CreateIssue(fields)] + attached;
  }

  lemma CreateRunsStep(runs: seq<FlowCellRun>, fieldMap: map<string, string>, search: Jql -> nat, projectId: string, i: nat)
    requires i < |runs|
    ensures CreateRuns(runs[..i + 1], fieldMap, search, projectId)
         == CreateStep(CreateRuns(runs[..i], fieldMap, search, projectId), fieldMap, search, projectId, runs[i])
  {
    assert runs[..i + 1][..i] == runs[..i];
  }

  lemma {:induction false} CreateStops(runs: seq<FlowCellRun>, fieldMap: map<string, string>, search: Jql -> nat, projectId: string, n: nat)
    requires n <= |runs| && CreateRuns(runs[..n], fieldMap, search, projectId).failure.Some?
    ensures CreateRuns(runs, fieldMap, search, projectId) == CreateRuns(runs[..n], fieldMap, search, projectId)
    decreases |runs|
  {
    if n < |runs| {
      var init := runs[..|runs| - 1];
      assert init[..n] == runs[..n];
      CreateStops(init, fieldMap, search, projectId, n);
    } else {
      assert runs[..n] == runs;
    }
  }

  /** The runs no existing issue mentions: those whose search finds nothing, in order. */
  function Unmatched(runs: seq<FlowCellRun>, search: Jql -> nat, projectId: string): (r: seq<FlowCellRun>)
    ensures |r| <= |runs|
    decreases |runs|
  {
    if runs == [] then []
    else
      var run := runs[|runs| - 1];
      Unmatched(runs[..|runs| - 1], search, projectId) + (if search(RunSearch(projectId, run.runId)) == 0 then [run] else [])
  }

  /** The calls for registering `runs`, the k-th of them as issue k. */
  function Registrations(runs: seq<FlowCellRun>, fieldMap: map<string, string>, projectId: string): (r: seq<Action>)
    requires runs == [] || HasFields(fieldMap)
    ensures |r| == 4 * |runs|
    decreases |runs|
  {
    if runs == [] then []
    else
      var run := runs[|runs| - 1];
      Registrations(runs[..|runs| - 1], fieldMap, projectId)
        + IssueActions(IssueFields(fieldMap, projectId, run).value, |runs| - 1, run.path)
  }

  lemma RegistrationsLast(runs: seq<FlowCellRun>, fieldMap: map<string, string>, projectId: string)
    requires runs != [] && HasFields(fieldMap)
    ensures var run := runs[|runs| - 1];
      Registrations(runs, fieldMap, projectId)
      == Registrations(runs[..|runs| - 1], fieldMap, projectId) + IssueActions(IssueFields(fieldMap, projectId, run).value, |runs| - 1, run.path)
  {
  }

  /**
   * An issue is created for a run exactly when the search for its run id
   * finds none; the handling fails exactly when there is such a run and a
   * looked-up field name is missing, with KeyError on the first missing name.
   */
  lemma {:induction false} CreateRunsOutcome(runs: seq<FlowCellRun>, fieldMap: map<string, string>, search: Jql -> nat, projectId: string)
    ensures CreateOutcomeHolds(runs, fieldMap, search, projectId)
    decreases |runs|
  {
    if runs != [] {
      CreateRunsOutcome(runs[..|runs| - 1], fieldMap, search, projectId);
      CreateOutcomeStep(runs, fieldMap, search, projectId);
    }
  }

  /** What `CreateRunsOutcome` states about the handling of `runs`. */
  ghost predicate CreateOutcomeHolds(runs: seq<FlowCellRun>, fieldMap: map<string, string>, search: Jql -> nat, projectId: string)
  {
    var log := CreateRuns(runs, fieldMap, search, projectId);
    var todo := Unmatched(runs, search, projectId);
    && (log.failure.None? <==> todo == [] || HasFields(fieldMap))
    && (log.failure.Some? ==> log.failure == Some(MissingField(FirstMissing(fieldMap))) && log.actions == [] && log.issues == 0)
    && (log.failure.None? ==> log.issues == |todo| && log.actions == Registrations(todo, fieldMap, projectId))
  }

  lemma CreateOutcomeStep(runs: seq<FlowCellRun>, fieldMap: map<string, string>, search: Jql -> nat, projectId: string)
    requires runs != [] && CreateOutcomeHolds(runs[..|runs| - 1], fieldMap, search, projectId)
    ensures CreateOutcomeHolds(runs, fieldMap, search, projectId)
  {
    var init := runs[..|runs| - 1];
    var run := runs[|runs| - 1];
    var prev := CreateRuns(init, fieldMap, search, projectId);
    if search(RunSearch(projectId, run.runId)) != 0 {
      assert CreateRuns(runs, fieldMap, search, projectId) == prev;
      assert Unmatched(runs, search, projectId) == Unmatched(init, search, projectId);
    } else if prev.failure.Some? || !HasFields(fieldMap) {
      FailedStep(runs, fieldMap, search, projectId);
    } else {
      RegisteredStep(runs, fieldMap, search, projectId);
    }
  }

  /** A run no issue mentions, after a failure or with a field name missing: the handling has failed. */
  lemma FailedStep(runs: seq<FlowCellRun>, fieldMap: map<string, string>, search: Jql -> nat, projectId: string)
    requires runs != [] && CreateOutcomeHolds(runs[..|runs| - 1], fieldMap, search, projectId)
    requires search(RunSearch(projectId, runs[|runs| - 1].runId)) == 0
    requires CreateRuns(runs[..|runs| - 1], fieldMap, search, projectId).failure.Some? || !HasFields(fieldMap)
    ensures CreateOutcomeHolds(runs, fieldMap, search, projectId)
  {
    var todo := Unmatched(runs, search, projectId);
    assert todo == Unmatched(runs[..|runs| - 1], search, projectId) + [runs[|runs| - 1]];
  }

  /** A run no issue mentions, with every field name present: its four calls follow, as the next issue. */
  lemma RegisteredStep(runs: seq<FlowCellRun>, fieldMap: map<string, string>, search: Jql -> nat, projectId: string)
    requires runs != [] && CreateOutcomeHolds(runs[..|runs| - 1], fieldMap, search, projectId)
    requires search(RunSearch(projectId, runs[|runs| - 1].runId)) == 0
    requires CreateRuns(runs[..|runs| - 1], fieldMap, search, projectId).failure.None? && HasFields(fieldMap)
    ensures CreateOutcomeHolds(runs, fieldMap, search, projectId)
  {
    var init := runs[..|runs| - 1];
    var run := runs[|runs| - 1];
    var prev := CreateRuns(init, fieldMap, search, projectId);
    var todoInit := Unmatched(init, search, projectId);
    var todo := Unmatched(runs, search, projectId);
    var calls := IssueActions(IssueFields(fieldMap, projectId, run).value, prev.issues, run.path);
    assert CreateRuns(runs, fieldMap, search, projectId) == Log(prev.actions + calls, prev.issues + 1, None);
    assert todo == todoInit + [run];
    assert todo[..|todo| - 1] == todoInit && todo[|todo| - 1] == run;
    assert |todo| - 1 == prev.issues;
    RegistrationsLast(todo, fieldMap, projectId);
  }

  /**
   * With the four names present and mapped to distinct ids other than
   * `project` and `issuetype`, the issue holds six fields: the project, the
   * flow cell, the instrument, the unpadded run date, the run id and the
   * issue type, in that order.
   */
  lemma IssueFieldsContent(fieldMap: map<string, string>, projectId: string, run: FlowCellRun)
    requires HasFields(fieldMap)
    requires var ids := [fieldMap["flowcell"], fieldMap["instrument"], fieldMap["run_date"], fieldMap["Sequencing Run ID"]];
      forall i, j :: 0 <= i < j < 4 ==> ids[i] != ids[j]
    requires var ids := [fieldMap["flowcell"], fieldMap["instrument"], fieldMap["run_date"], fieldMap["Sequencing Run ID"]];
      forall i :: 0 <= i < 4 ==> ids[i] != "project" && ids[i] != "issuetype"
    ensures var r := IssueFields(fieldMap, projectId, run);
      && r.Ok?
      && var dict := Display(Fields([], map[]), r.value);
      && dict.keys == ["project", fieldMap["flowcell"], fieldMap["instrument"], fieldMap["run_date"], fieldMap["Sequencing Run ID"], "issuetype"]
      && dict.values == map["project" := Str(projectId), fieldMap["flowcell"] := TextValue(run.flowcell),
                              fieldMap["instrument"] := TextValue(run.instrument), fieldMap["run_date"] := Str(DateField(run.runDate)),
                              fieldMap["Sequencing Run ID"] := Str(run.runId), "issuetype" := IssueType("sequencing_run")]
  {
    var ids := [fieldMap["flowcell"], fieldMap["instrument"], fieldMap["run_date"], fieldMap["Sequencing Run ID"]];
    var k1, k2, k3, k4 := ids[0], ids[1], ids[2], ids[3];
    assert k1 != k2 && k1 != k3 && k1 != k4 && k2 != k3 && k2 != k4 && k3 != k4;
    assert k1 != "project" && k2 != "project" && k3 != "project" && k4 != "project";
    assert k1 != "issuetype" && k2 != "issuetype" && k3 != "issuetype" && k4 != "issuetype";
    SixPairs("project", k1, k2, k3, k4, "issuetype",
             Str(projectId), TextValue(run.flowcell), TextValue(run.instrument), Str(DateField(run.runDate)), Str(run.runId),
             IssueType("sequencing_run"));
  }

  /** A display of six distinct keys into an empty dictionary. */
  lemma SixPairs(k0: string, k1: string, k2: string, k3: string, k4: string, k5: string,
                 v0: FieldValue, v1: FieldValue, v2: FieldValue, v3: FieldValue, v4: FieldValue, v5: FieldValue)
    requires var ks := [k0, k1, k2, k3, k4, k5]; forall i, j :: 0 <= i < j < 6 ==> ks[i] != ks[j]
    ensures Display(Fields([], map[]), [(k0, v0), (k1, v1), (k2, v2), (k3, v3), (k4, v4), (k5, v5)])
         == Fields([k0, k1, k2, k3, k4, k5], map[k0 := v0, k1 := v1, k2 := v2, k3 := v3, k4 := v4, k5 := v5])
  {
    var p := [(k0, v0), (k1, v1), (k2, v2), (k3, v3), (k4, v4), (k5, v5)];
    var ks := [k0, k1, k2, k3, k4, k5];
    assert forall i :: 0 <= i < 6 ==> p[i].0 == ks[i];
    DisplayDistinct(Fields([], map[]), p);
    assert KeysOf(p) == ks;
    SixUpdates(k0, k1, k2, k3, k4, k5, v0, v1, v2, v3, v4, v5);
    assert [] + ks == ks;
  }

  /** Six pairs written one after the other into an empty map. */
  lemma SixUpdates(k0: string, k1: string, k2: string, k3: string, k4: string, k5: string,
                   v0: FieldValue, v1: FieldValue, v2: FieldValue, v3: FieldValue, v4: FieldValue, v5: FieldValue)
    ensures UpdateAll(map[], [(k0, v0), (k1, v1), (k2, v2), (k3, v3), (k4, v4), (k5, v5)])
         == map[k0 := v0, k1 := v1, k2 := v2, k3 := v3, k4 := v4, k5 := v5]
  {
    var p := [(k0, v0), (k1, v1), (k2, v2), (k3, v3), (k4, v4), (k5, v5)];
    assert p[..1][..0] == [] && p[..2][..1] == p[..1] && p[..3][..2] == p[..2];
    assert p[..4][..3] == p[..3] && p[..5][..4] == p[..4] && p[..6][..5] == p[..5] && p[..6] == p;
    assert UpdateAll(map[], p[..1]) == map[k0 := v0];
    assert UpdateAll(map[], p[..3]) == map[k0 := v0, k1 := v1, k2 := v2];
    assert UpdateAll(map[], p[..5]) == map[k0 := v0, k1 := v1, k2 := v2, k3 := v3, k4 := v4];
  }

  /**
   * The run-date field reads back: split at `-` it gives three unpadded
   * decimals whose `int()` values are the year, month and day.
   */
  lemma DateFieldReadsBack(d: CalendarDate)
    ensures var parts := SplitOn(DateField(d), '-');
      && parts == [NatToString(d.year), NatToString(d.month), NatToString(d.day)]
      && ParseInt(parts[0]) == Some(d.year) && ParseInt(parts[1]) == Some(d.month) && ParseInt(parts[2]) == Some(d.day)
      && (d.month < 10 ==> |parts[1]| == 1) && (d.day < 10 ==> |parts[2]| == 1)
  {
    var y, m, dd := NatToString(d.year), NatToString(d.month), NatToString(d.day);
    var parts := [y, m, dd];
    forall i | 0 <= i < 3 ensures '-' !in parts[i] {
      assert forall k :: 0 <= k < |parts[i]| ==> parts[i][k] != '-';
    }
    assert JoinWith(parts[2..], '-') == dd;
    assert JoinWith(parts[1..], '-') == m + "-" + dd;
    assert JoinWith(parts, '-') == DateField(d);
    SplitJoin(parts, '-');
    ParseDecimal(d.year);
    ParseDecimal(d.month);
    ParseDecimal(d.day);
  }
}
