/**
 * The sample-sheet builder of the ingest scripts.
 *
 * The script walks a directory tree; in each directory it classifies every
 * file name, groups the FASTQ files of one sample by read role, and then
 * writes one tab-separated row per sample, refusing a sample id that an
 * earlier directory already produced and a sample that lacks a mandatory
 * read.  The walk itself is an input: one `(root, file names)` pair per
 * directory, in the order the walk visits them.
 *
 * The specification is a fold over the walk (`RunWalk`); the script itself
 * is `BuildSampleSheet`, proved to write exactly what the fold says.
 */
module SampleSheet {
  import opened Text

  // ---------------------------------------------------------------------
  // Options

  /** The read role a file plays for its sample. */
  datatype Role = R1 | R2 | I1

  /** The switches that shape the sheet: `--index` and the parsed `--replace`. */
  datatype Options = Options(index: bool, rewrite: Option<(string, string)>)

  /** `--replace` split at its first ':' into the text to find and its replacement. */
  function SplitReplace(arg: string): (string, string)
  {
    var k := Find(arg, ":");
    (Slice(arg, 0, k), Slice(arg, k + 1, |arg|))
  }

  /**
   * With a ':' the search text is everything before the first ':' and the
   * replacement everything after it; without one `find` gives -1, so the
   * search text is the argument minus its last character and the
   * replacement the whole argument.
   */
  lemma SplitReplaceMeaning(arg: string)
    ensures var r := SplitReplace(arg);
      && (':' in arg ==>
        |r.0| < |arg| && arg[|r.0|] == ':' && ':' !in r.0 &&
        r.0 == arg[..|r.0|] && r.1 == arg[|r.0| + 1..])
      && (':' !in arg ==>
        r.1 == arg && r.0 == (if arg == [] then [] else arg[..|arg| - 1]))
  {
    var k := Find(arg, ":");
    if k >= 0 {
      assert arg[k..k + 1] == ":";
      assert arg[k] == ':';
      NoColonBefore(arg, k);
      assert Slice(arg, 0, k) == arg[..k] && Slice(arg, k + 1, |arg|) == arg[k + 1..];
    } else {
      assert Slice(arg, k + 1, |arg|) == arg[0..|arg|] == arg;
      NoColonBefore(arg, |arg|);
      assert arg[..|arg|] == arg;
      assert Slice(arg, 0, k) == if arg == [] then [] else arg[..|arg| - 1];
    }
  }

  lemma NoColonBefore(arg: string, n: nat)
    requires n <= |arg| && forall i :: 0 <= i < n ==> !OccursAt(arg, ":", i)
    ensures ':' !in arg[..n]
  {
    forall i | 0 <= i < n ensures arg[..n][i] != ':' {
      assert !OccursAt(arg, ":", i);
      assert arg[i..i + 1] == [arg[i]];
    }
  }

  function Configure(index: bool, replaceArg: Option<string>): Options
  {
    Options(index, if replaceArg.Some? then Some(SplitReplace(replaceArg.value)) else None)
  }

  // ---------------------------------------------------------------------
  // Classifying one file name

  const Ext := ".fastq.gz"
  const Marker := "undetermined"

  function SuffixOf(role: Role): string
  {
    match role
    case R1 => "_R1"
    case R2 => "_R2"
    case I1 => "_I1"
  }

  /** The roles in the order their suffixes are tried; `_I1` only with `--index`. */
  function Roles(index: bool): seq<Role>
  {
    if index then [R1, R2, I1] else [R1, R2]
  }

  /** The position of a role in the search order. */
  function Rank(role: Role): (n: nat)
    ensures n < 3 && Roles(true)[n] == role
  {
    match role
    case R1 => 0
    case R2 => 1
    case I1 => 2
  }

  /** The suffix search, from the `k`-th role on: the first role whose suffix occurs wins. */
  function MatchRole(stem: string, index: bool, k: nat): Option<(string, Role)>
    requires k <= |Roles(index)|
    decreases |Roles(index)| - k
  {
    if k == |Roles(index)| then None
    else
      var at := RFind(stem, SuffixOf(Roles(index)[k]));
      if at != -1 then Some((stem[..at], Roles(index)[k]))
      else MatchRole(stem, index, k + 1)
  }

  /**
   * The search finds the first role, from the `k`-th on, whose suffix occurs
   * in the stem, and cuts the stem at the last occurrence of that suffix.
   */
  lemma {:induction false} FirstSuffixWins(stem: string, index: bool, k: nat)
    requires k <= |Roles(index)|
    ensures var r := MatchRole(stem, index, k);
      && (r.None? ==> forall j :: k <= j < |Roles(index)| ==> !Contains(stem, SuffixOf(Roles(index)[j])))
      && (r.Some? ==>
        && k <= Rank(r.value.1) < |Roles(index)|
        && CutAtLast(stem, SuffixOf(r.value.1), r.value.0)
        && forall j :: k <= j < Rank(r.value.1) ==> !Contains(stem, SuffixOf(Roles(index)[j])))
    decreases |Roles(index)| - k
  {
    if k < |Roles(index)| && RFind(stem, SuffixOf(Roles(index)[k])) == -1 {
      FirstSuffixWins(stem, index, k + 1);
    }
  }

  /** What the script makes of one file name. */
  datatype FileKind =
    | Undetermined          // reported and skipped
    | NotFastq              // no ".fastq.gz" in the name
    | NoRole                // a FASTQ file without a recognised suffix
    | Read(id: string, role: Role)

  /** `id` is `stem` cut at the last occurrence of `suffix`. */
  ghost predicate CutAtLast(stem: string, suffix: string, id: string)
  {
    && OccursAt(stem, suffix, |id|)
    && stem[..|id|] == id
    && forall k :: |id| < k ==> !OccursAt(stem, suffix, k)
  }

  /** The text before the last ".fastq.gz" of a name that has one. */
  function StemOf(name: string): string
  {
    var e := RFind(name, Ext);
    if e >= 0 then name[..e] else name
  }

  function Classify(name: string, index: bool): FileKind
  {
    if StartsWith(Lower(name), Marker) then Undetermined
    else
      var e := RFind(name, Ext);
      if e == -1 then NotFastq
      else
        match MatchRole(name[..e], index, 0)
        case None => NoRole
        case Some((id, role)) => Read(id, role)
  }

  /**
   * What the classification means: names starting with "undetermined" in any
   * case are skipped; a name is a FASTQ file when ".fastq.gz" occurs anywhere
   * in it; its role is the first of `_R1`, `_R2`, `_I1` (the last only with
   * `--index`) occurring in the text before the last ".fastq.gz", and its id
   * is that text cut at the last occurrence of the suffix.
   */
  lemma ClassifyMeaning(name: string, index: bool)
    ensures var r := Classify(name, index);
      && (r.Undetermined? <==> StartsWith(Lower(name), Marker))
      && (r.NotFastq? <==> !StartsWith(Lower(name), Marker) && !Contains(name, Ext))
      && (r.Read? || r.NoRole? ==> Contains(name, Ext))
      && (r.Read? ==> CutAtLast(StemOf(name), SuffixOf(r.role), r.id))
      && (r.Read? && r.role == R2 ==> !Contains(StemOf(name), "_R1"))
      && (r.Read? && r.role == I1 ==>
            index && !Contains(StemOf(name), "_R1") && !Contains(StemOf(name), "_R2"))
      && (r.NoRole? ==>
            !Contains(StemOf(name), "_R1") && !Contains(StemOf(name), "_R2") &&
            (index ==> !Contains(StemOf(name), "_I1")))
  {
    if !StartsWith(Lower(name), Marker) && RFind(name, Ext) != -1 {
      FirstSuffixWins(name[..RFind(name, Ext)], index, 0);
    }
  }

  /** The name opens with "undetermined" in any mix of ASCII upper and lower case. */
  predicate MarkerAnyCase(name: string)
  {
    |Marker| <= |name| && forall i :: 0 <= i < |Marker| ==> name[i] == Marker[i] || name[i] == UpperChar(Marker[i])
  }

  /** `name.lower().startswith('undetermined')` ignores case: each letter may be written either way. */
  lemma UndeterminedAnyCase(name: string, index: bool)
    ensures Classify(name, index).Undetermined? <==> MarkerAnyCase(name)
  {
    var low := Lower(name);
    if |Marker| <= |name| {
      forall i | 0 <= i < |Marker| ensures low[i] == Marker[i] <==> name[i] == Marker[i] || name[i] == UpperChar(Marker[i]) {
        LowerCharIs(name[i], Marker[i]);
      }
      assert StartsWith(low, Marker) <==> forall i :: 0 <= i < |Marker| ==> low[i] == Marker[i];
    }
  }

  /** A name such as `UnDetermined_R1.fastq.gz` is skipped like `Undetermined_R1.fastq.gz`, whatever follows the marker. */
  lemma ExampleMixedCase(name: string, index: bool)
    requires |name| >= 12 && name[..12] == "UnDetermined"
    ensures Classify(name, index).Undetermined?
  {
    assert forall i :: 0 <= i < 12 ==> name[i] == name[..12][i];
    assert MarkerAnyCase(name);
    UndeterminedAnyCase(name, index);
  }

  // ---------------------------------------------------------------------
  // Grouping the files of one directory

  /** The `{'R1': …, 'R2': …, 'I1': …}` record of one sample; `None` is Python's None. */
  datatype Reads = Reads(r1: Option<string>, r2: Option<string>, i1: Option<string>)

  const NoReads := Reads(None, None, None)

  function Get(val: Reads, role: Role): Option<string>
  {
    match role
    case R1 => val.r1
    case R2 => val.r2
    case I1 => val.i1
  }

  /** `val[key] = path`. */
  function Put(val: Reads, role: Role, path: string): (r: Reads)
    ensures Get(r, role) == Some(path)
    ensures forall other :: other != role ==> Get(r, other) == Get(val, other)
  {
    match role
    case R1 => val.(r1 := Some(path))
    case R2 => val.(r2 := Some(path))
    case I1 => val.(i1 := Some(path))
  }

  /**
   * The per-directory `name_to_files` dictionary: `order` is its key
   * insertion order, which is the order Python iterates it in.
   */
  datatype Group = Group(order: seq<string>, byId: map<string, Reads>)

  predicate Distinct(ids: seq<string>)
  {
    forall i, j :: 0 <= i < j < |ids| ==> ids[i] != ids[j]
  }

  /** The path written for a file: joined to its directory, then rewritten by `--replace`. */
  function FilePath(root: string, name: string, opts: Options): string
  {
    var path := Join(root, name);
    match opts.rewrite
    case None => path
    case Some((find, rep)) => Replace(path, find, rep)
  }

  function AddFile(g: Group, root: string, name: string, opts: Options): Group
  {
    match Classify(name, opts.index)
    case Read(id, role) =>
      var val := if id in g.byId then g.byId[id] else NoReads;
      Group(if id in g.byId then g.order else g.order + [id],
            g.byId[id := Put(val, role, FilePath(root, name, opts))])
    case _ => g
  }

  /** `name_to_files` after the script has seen `names`, in listing order. */
  function GroupFiles(root: string, names: seq<string>, opts: Options): (g: Group)
    ensures Distinct(g.order)
    ensures forall id :: id in g.order <==> id in g.byId
    decreases |names|
  {
    if names == [] then Group([], map[])
    else AddFile(GroupFiles(root, names[..|names| - 1], opts), root, names[|names| - 1], opts)
  }

  // ---------------------------------------------------------------------
  // Emitting rows

  /** One line of the sheet; `i1` is present exactly when `--index` is set. */
  datatype Row = Row(id: string, r1: string, r2: string, i1: Option<string>)

  /** The reasons the script raises `ValueError`. */
  datatype Failure =
    | DuplicateName(id: string)
    | MissingR1(id: string)
    | MissingR2(id: string)
    | MissingI1(id: string)

  /**
   * The script's global state: the rows written so far, `all_names`,
   * `counter`, and the error that stopped it, if one did.
   */
  datatype Sheet = Sheet(rows: seq<Row>, seen: set<string>, counter: nat, failure: Option<Failure>)

  const Start := Sheet([], {}, 0, None)

  /** The checks and the write for one sample, in the script's order. */
  function EmitSample(s: Sheet, id: string, val: Reads, index: bool): Sheet
  {
    if id in s.seen then s.(failure := Some(DuplicateName(id)))
    else
      var s' := s.(seen := s.seen + {id}, counter := s.counter + 1);
      if val.r1.None? then s'.(failure := Some(MissingR1(id)))
      else if val.r2.None? then s'.(failure := Some(MissingR2(id)))
      else if index && val.i1.None? then s'.(failure := Some(MissingI1(id)))
      else s'.(rows := s'.rows + [Row(id, val.r1.value, val.r2.value, if index then val.i1 else None)])
  }

  /** The samples `ids` of group `g` emitted in turn; the first failure stops the rest. */
  function EmitGroup(s: Sheet, g: Group, ids: seq<string>, index: bool): Sheet
    requires forall k :: 0 <= k < |ids| ==> ids[k] in g.byId
    decreases |ids|
  {
    if ids == [] then s
    else
      var p := EmitGroup(s, g, ids[..|ids| - 1], index);
      if p.failure.Some? then p
      else EmitSample(p, ids[|ids| - 1], g.byId[ids[|ids| - 1]], index)
  }

  /** One directory of the walk: group its files, then emit its samples. */
  function ScanDirectory(s: Sheet, dir: (string, seq<string>), opts: Options): Sheet
  {
    if s.failure.Some? then s
    else
      var g := GroupFiles(dir.0, dir.1, opts);
      EmitGroup(s, g, g.order, opts.index)
  }

  /** The state of the script after it has walked the directories `walk`. */
  function RunWalk(walk: seq<(string, seq<string>)>, opts: Options): Sheet
    decreases |walk|
  {
    if walk == [] then Start
    else ScanDirectory(RunWalk(walk[..|walk| - 1], opts), walk[|walk| - 1], opts)
  }

  // ---------------------------------------------------------------------
  // Rendering

  /** `key + '\t' + r1 + '\t' + r2 + i1 + '\n'`, where `i1` is `'\t' + path` or empty. */
  function RenderRow(row: Row): string
  {
    row.id + "\t" + row.r1 + "\t" + row.r2 + (if row.i1.Some? then "\t" + row.i1.value else "") + "\n"
  }

  /** `writer.write` once per row: line `k` is row `k`. */
  function Render(rows: seq<Row>): (lines: seq<string>)
    ensures |lines| == |rows|
    ensures forall k :: 0 <= k < |rows| ==> lines[k] == RenderRow(rows[k])
    decreases |rows|
  {
    if rows == [] then [] else Render(rows[..|rows| - 1]) + [RenderRow(rows[|rows| - 1])]
  }

  function Fields(row: Row): seq<string>
  {
    [row.id, row.r1, row.r2] + (if row.i1.Some? then [row.i1.value] else [])
  }

  /**
   * A row is its fields joined by tabs, then a newline; when no field holds a
   * tab, splitting the line gives them back.
   */
  lemma RowFormat(row: Row)
    ensures RenderRow(row) == JoinWith(Fields(row), '\t') + "\n"
    ensures (forall i :: 0 <= i < |Fields(row)| ==> '\t' !in Fields(row)[i]) ==>
      var line := RenderRow(row); SplitOn(line[..|line| - 1], '\t') == Fields(row)
  {
    var line := RenderRow(row);
    var fs := Fields(row);
    if row.i1.Some? {
      assert fs[3..] == [row.i1.value];
      assert JoinWith(fs[2..], '\t') == row.r2 + "\t" + row.i1.value;
      assert JoinWith(fs[1..], '\t') == row.r1 + "\t" + row.r2 + "\t" + row.i1.value;
    } else {
      assert fs[2..] == [row.r2];
      assert JoinWith(fs[1..], '\t') == row.r1 + "\t" + row.r2;
    }
    assert line == JoinWith(fs, '\t') + "\n";
    assert line[..|line| - 1] == JoinWith(fs, '\t');
    if forall i :: 0 <= i < |fs| ==> '\t' !in fs[i] {
      SplitJoin(fs, '\t');
    }
  }

  // ---------------------------------------------------------------------
  // The script

  /** The suffix loop with its `break`: the role of a FASTQ stem and the id it leaves. */
  method FindRole(stem: string, index: bool, suffixes: seq<string>, keys: seq<Role>)
    returns (basename: string, key: Option<Role>)
    requires keys == Roles(index) && |suffixes| == |keys|
    requires forall k :: 0 <= k < |keys| ==> suffixes[k] == SuffixOf(keys[k])
    ensures MatchRole(stem, index, 0) == if key.Some? then Some((basename, key.value)) else None
  {
    basename, key := stem, None;
    var k := 0;
    while k < |suffixes|
      invariant 0 <= k <= |suffixes|
      invariant key.None? ==> basename == stem && MatchRole(stem, index, k) == MatchRole(stem, index, 0)
      invariant key.Some? ==> MatchRole(stem, index, 0) == Some((basename, key.value))
    {
      var at := RFind(basename, suffixes[k]);
      if at != -1 {
        basename := basename[..at];
        key := Some(keys[k]);
        break;
      }
      k := k + 1;
    }
  }

  /** The loop over the files of one directory, filling `name_to_files`. */
  method GroupDirectory(root: string, files: seq<string>, opts: Options, suffixes: seq<string>, keys: seq<Role>)
    returns (order: seq<string>, nameToFiles: map<string, Reads>)
    requires keys == Roles(opts.index) && |suffixes| == |keys|
    requires forall k :: 0 <= k < |keys| ==> suffixes[k] == SuffixOf(keys[k])
    ensures Group(order, nameToFiles) == GroupFiles(root, files, opts)
  {
    order, nameToFiles := [], map[];
    var f := 0;
    while f < |files|
      invariant 0 <= f <= |files|
      invariant GroupFiles(root, files[..f], opts) == Group(order, nameToFiles)
    {
      var name := files[f];
      GroupStep(root, files, f, opts);
      if !StartsWith(Lower(name), Marker) {
        var extIndex := RFind(name, Ext);
        if extIndex != -1 {
          var path := Join(root, name);
          if opts.rewrite.Some? {
            path := Replace(path, opts.rewrite.value.0, opts.rewrite.value.1);
          }
          var basename, key := FindRole(name[..extIndex], opts.index, suffixes, keys);
          if key.Some? {
            var val := if basename in nameToFiles then nameToFiles[basename] else NoReads;
            if basename !in nameToFiles {
              order := order + [basename];
            }
            nameToFiles := nameToFiles[basename := Put(val, key.value, path)];
          }
        }
      }
      f := f + 1;
    }
    assert files[..f] == files;
  }

  /**
   * The loop over `name_to_files.items()` of one directory: the duplicate
   * check, `counter`, `all_names`, the read checks and the writes.
   */
  method EmitDirectory(order: seq<string>, nameToFiles: map<string, Reads>, index: bool,
                       allNames0: set<string>, counter0: nat, written0: seq<string>, ghost rows0: seq<Row>)
    returns (allNames: set<string>, counter: nat, written: seq<string>, failure: Option<Failure>, ghost rows: seq<Row>)
    requires forall id :: id in order ==> id in nameToFiles
    requires written0 == Render(rows0)
    ensures Sheet(rows, allNames, counter, failure) ==
      EmitGroup(Sheet(rows0, allNames0, counter0, None), Group(order, nameToFiles), order, index)
    ensures written == Render(rows)
  {
    allNames, counter, written, failure, rows := allNames0, counter0, written0, None, rows0;
    ghost var before := Sheet(rows0, allNames0, counter0, None);
    ghost var g := Group(order, nameToFiles);
    var e := 0;
    while e < |order|
      invariant 0 <= e <= |order|
      invariant EmitGroup(before, g, order[..e], index) == Sheet(rows, allNames, counter, None)
      invariant written == Render(rows) && failure.None?
    {
      var key := order[e];
      EmitStep(before, g, order, e, index);
      allNames, counter, written, failure, rows := EmitEntry(key, nameToFiles[key], index, allNames, counter, written, rows);
      if failure.Some? {
        EmitStops(before, g, order, index, e + 1);
        return;
      }
      e := e + 1;
    }
    assert order[..e] == order;
  }

  /** One item of `name_to_files`: the duplicate check, `counter`, `all_names`, the read checks and the write. */
  method EmitEntry(key: string, val: Reads, index: bool,
                   allNames0: set<string>, counter0: nat, written0: seq<string>, ghost rows0: seq<Row>)
    returns (allNames: set<string>, counter: nat, written: seq<string>, failure: Option<Failure>, ghost rows: seq<Row>)
    requires written0 == Render(rows0)
    ensures Sheet(rows, allNames, counter, failure) == EmitSample(Sheet(rows0, allNames0, counter0, None), key, val, index)
    ensures written == Render(rows)
  {
    allNames, counter, written, failure, rows := allNames0, counter0, written0, None, rows0;
    if key in allNames {
      failure := Some(DuplicateName(key));
      return;
    }
    counter := counter + 1;
    allNames := allNames + {key};
    if val.r1.None? {
      failure := Some(MissingR1(key));
      return;
    }
    if val.r2.None? {
      failure := Some(MissingR2(key));
      return;
    }
    var i1: Option<string> := None;
    if index {
      if val.i1.None? {
        failure := Some(MissingI1(key));
        return;
      }
      i1 := val.i1;
    }
    var row := Row(key, val.r1.value, val.r2.value, i1);
    RenderStep(rows, row);
    written := written + [RenderRow(row)];
    rows := rows + [row];
  }

  /**
   * The module-level script: the walk, `--index` and `--replace` in; the
   * lines written, the final `counter` and the error raised (if any) out.
   * Lines written before an error stay written.
   */
  method BuildSampleSheet(walk: seq<(string, seq<string>)>, index: bool, replaceArg: Option<string>)
    returns (written: seq<string>, counter: nat, failure: Option<Failure>)
    ensures var sheet := RunWalk(walk, Configure(index, replaceArg));
      written == Render(sheet.rows) && counter == sheet.counter && failure == sheet.failure
  {
    var allNames: set<string> := {};
    var opts, suffixes, keys := ReadArguments(index, replaceArg);

    counter, written, failure := 0, [], None;
    ghost var rows: seq<Row> := [];
    var d := 0;
    while d < |walk|
      invariant 0 <= d <= |walk|
      invariant RunWalk(walk[..d], opts) == Sheet(rows, allNames, counter, None)
      invariant written == Render(rows) && failure.None?
    {
      var order, nameToFiles := GroupDirectory(walk[d].0, walk[d].1, opts, suffixes, keys);
      WalkStep(walk, d, opts);
      allNames, counter, written, failure, rows :=
        EmitDirectory(order, nameToFiles, index, allNames, counter, written, rows);
      if failure.Some? {
        WalkStops(walk, opts, d + 1);
        return;
      }
      d := d + 1;
    }
    assert walk[..d] == walk;
  }

  /** The set-up before the walk: the suffix and key lists, and `--replace` split into find and replace. */
  method ReadArguments(index: bool, replaceArg: Option<string>)
    returns (opts: Options, suffixes: seq<string>, keys: seq<Role>)
    ensures opts == Configure(index, replaceArg)
    ensures keys == Roles(index) && |suffixes| == |keys|
    ensures forall k :: 0 <= k < |keys| ==> suffixes[k] == SuffixOf(keys[k])
  {
    suffixes := ["_R1", "_R2"];
    keys := [R1, R2];
    if index {
      suffixes := suffixes + ["_I1"];
      keys := keys + [I1];
    }
    var rewrite: Option<(string, string)> := None;
    if replaceArg.Some? {
      var arg := replaceArg.value;
      var colon := Find(arg, ":");
      rewrite := Some((Slice(arg, 0, colon), Slice(arg, colon + 1, |arg|)));
    }
    opts := Options(index, rewrite);
  }

  lemma WalkStep(walk: seq<(string, seq<string>)>, d: nat, opts: Options)
    requires d < |walk|
    ensures RunWalk(walk[..d + 1], opts) == ScanDirectory(RunWalk(walk[..d], opts), walk[d], opts)
  {
    assert walk[..d + 1][..d] == walk[..d];
  }

  lemma RenderStep(rows: seq<Row>, row: Row)
    ensures Render(rows + [row]) == Render(rows) + [RenderRow(row)]
  {
    assert (rows + [row])[..|rows|] == rows;
  }

  lemma GroupStep(root: string, files: seq<string>, f: nat, opts: Options)
    requires f < |files|
    ensures GroupFiles(root, files[..f + 1], opts) == AddFile(GroupFiles(root, files[..f], opts), root, files[f], opts)
  {
    assert files[..f + 1][..f] == files[..f];
  }

  lemma EmitStep(s: Sheet, g: Group, ids: seq<string>, e: nat, index: bool)
    requires forall k :: 0 <= k < |ids| ==> ids[k] in g.byId
    requires e < |ids| && EmitGroup(s, g, ids[..e], index).failure.None?
    ensures EmitGroup(s, g, ids[..e + 1], index) == EmitSample(EmitGroup(s, g, ids[..e], index), ids[e], g.byId[ids[e]], index)
  {
    assert ids[..e + 1][..e] == ids[..e];
  }

  /** Once a sample fails, the samples after it change nothing. */
  lemma {:induction false} EmitStops(s: Sheet, g: Group, ids: seq<string>, index: bool, n: nat)
    requires forall k :: 0 <= k < |ids| ==> ids[k] in g.byId
    requires n <= |ids| && EmitGroup(s, g, ids[..n], index).failure.Some?
    ensures EmitGroup(s, g, ids, index) == EmitGroup(s, g, ids[..n], index)
    decreases |ids|
  {
    if n < |ids| {
      var init := ids[..|ids| - 1];
      assert init[..n] == ids[..n];
      EmitStops(s, g, init, index, n);
    } else {
      assert ids[..n] == ids;
    }
  }

  /** Once a directory fails, the directories after it change nothing. */
  lemma {:induction false} WalkStops(walk: seq<(string, seq<string>)>, opts: Options, n: nat)
    requires n <= |walk| && RunWalk(walk[..n], opts).failure.Some?
    ensures RunWalk(walk, opts) == RunWalk(walk[..n], opts)
    decreases |walk|
  {
    if n < |walk| {
      var init := walk[..|walk| - 1];
      assert init[..n] == walk[..n];
      WalkStops(init, opts, n);
    } else {
      assert walk[..n] == walk;
    }
  }

  // ---------------------------------------------------------------------
  // Grouping: one record per id, the last file of a role wins

  /** File `name` is read `role` of sample `id`. */
  predicate IsRead(name: string, opts: Options, id: string, role: Role)
  {
    Classify(name, opts.index) == Read(id, role)
  }

  /** `name_to_files[id][role]`, or None. */
  function Lookup(g: Group, id: string, role: Role): Option<string>
  {
    if id in g.byId then Get(g.byId[id], role) else None
  }

  lemma AddFileLookup(g: Group, root: string, name: string, opts: Options, id: string, role: Role)
    ensures Lookup(AddFile(g, root, name, opts), id, role) ==
      if IsRead(name, opts, id, role) then Some(FilePath(root, name, opts)) else Lookup(g, id, role)
  {
  }

  lemma AddFileMember(g: Group, root: string, name: string, opts: Options, id: string)
    ensures id in AddFile(g, root, name, opts).byId <==> id in g.byId || NamesId(name, opts, id)
  {
  }

  /**
   * Within one directory the files of a sample merge into one record, and
   * the path stored for a role is that of the LAST file of that id and role.
   */
  lemma {:induction false} LastFileWins(root: string, names: seq<string>, opts: Options, id: string, role: Role, j: nat)
    requires j < |names| && IsRead(names[j], opts, id, role)
    requires forall j' :: j < j' < |names| ==> !IsRead(names[j'], opts, id, role)
    ensures Lookup(GroupFiles(root, names, opts), id, role) == Some(FilePath(root, names[j], opts))
    decreases |names|
  {
    var n := |names| - 1;
    var prefix := names[..n];
    AddFileLookup(GroupFiles(root, prefix, opts), root, names[n], opts, id, role);
    if j < n {
      assert !IsRead(names[n], opts, id, role);
      assert prefix[j] == names[j];
      LastFileWins(root, prefix, opts, id, role, j);
    }
  }

  /** A role that no file of the directory supplies for an id stays None. */
  lemma {:induction false} MissingRoleStaysNone(root: string, names: seq<string>, opts: Options, id: string, role: Role)
    requires forall j :: 0 <= j < |names| ==> !IsRead(names[j], opts, id, role)
    ensures Lookup(GroupFiles(root, names, opts), id, role) == None
    decreases |names|
  {
    if names != [] {
      var n := |names| - 1;
      var prefix := names[..n];
      assert !IsRead(names[n], opts, id, role);
      AddFileLookup(GroupFiles(root, prefix, opts), root, names[n], opts, id, role);
      MissingRoleStaysNone(root, prefix, opts, id, role);
    }
  }

  /** File `name` is a read, of any role, of sample `id`. */
  predicate NamesId(name: string, opts: Options, id: string)
  {
    Classify(name, opts.index).Read? && Classify(name, opts.index).id == id
  }

  /** A directory has a record for an id exactly when one of its files is a read of that id. */
  lemma RecordPerId(root: string, names: seq<string>, opts: Options, id: string)
    ensures id in GroupFiles(root, names, opts).byId <==> exists j :: 0 <= j < |names| && NamesId(names[j], opts, id)
  {
    if id in GroupFiles(root, names, opts).byId {
      var j := RecordHasFile(root, names, opts, id);
    }
    if exists j :: 0 <= j < |names| && NamesId(names[j], opts, id) {
      var j :| 0 <= j < |names| && NamesId(names[j], opts, id);
      FileHasRecord(root, names, opts, id, j);
    }
  }

  lemma {:induction false} RecordHasFile(root: string, names: seq<string>, opts: Options, id: string) returns (j: nat)
    requires id in GroupFiles(root, names, opts).byId
    ensures j < |names| && NamesId(names[j], opts, id)
    decreases |names|
  {
    var n := |names| - 1;
    var prefix := names[..n];
    AddFileMember(GroupFiles(root, prefix, opts), root, names[n], opts, id);
    if id in GroupFiles(root, prefix, opts).byId {
      j := RecordHasFile(root, prefix, opts, id);
      assert prefix[j] == names[j];
    } else {
      j := n;
    }
  }

  lemma {:induction false} FileHasRecord(root: string, names: seq<string>, opts: Options, id: string, j: nat)
    requires j < |names| && NamesId(names[j], opts, id)
    ensures id in GroupFiles(root, names, opts).byId
    decreases |names|
  {
    var n := |names| - 1;
    var prefix := names[..n];
    AddFileMember(GroupFiles(root, prefix, opts), root, names[n], opts, id);
    if j < n {
      assert prefix[j] == names[j];
      FileHasRecord(root, prefix, opts, id, j);
    }
  }

  // ---------------------------------------------------------------------
  // Emitted rows: distinct ids, consistent counter

  /** What holds of the script's state at every step. */
  ghost predicate Consistent(s: Sheet, index: bool)
  {
    && (forall i, j :: 0 <= i < j < |s.rows| ==> s.rows[i].id != s.rows[j].id)
    && (forall i :: 0 <= i < |s.rows| ==> s.rows[i].id in s.seen && s.rows[i].i1.Some? == index)
    && (s.failure.None? ==> s.counter == |s.rows|)
  }

  lemma {:induction false} EmitConsistent(s: Sheet, g: Group, ids: seq<string>, index: bool)
    requires forall k :: 0 <= k < |ids| ==> ids[k] in g.byId
    requires Consistent(s, index) && s.failure.None?
    ensures Consistent(EmitGroup(s, g, ids, index), index)
    decreases |ids|
  {
    if ids != [] {
      EmitConsistent(s, g, ids[..|ids| - 1], index);
    }
  }

  /**
   * Whether the script finishes or raises: the ids of the rows written are
   * pairwise distinct, each row has an I1 column exactly when `--index` is
   * set, and on success `counter` is the number of rows written.
   */
  lemma {:induction false} RowsDistinct(walk: seq<(string, seq<string>)>, opts: Options)
    ensures Consistent(RunWalk(walk, opts), opts.index)
    decreases |walk|
  {
    if walk != [] {
      var s := RunWalk(walk[..|walk| - 1], opts);
      RowsDistinct(walk[..|walk| - 1], opts);
      if s.failure.None? {
        var g := GroupFiles(walk[|walk| - 1].0, walk[|walk| - 1].1, opts);
        EmitConsistent(s, g, g.order, opts.index);
      }
    }
  }

  // ---------------------------------------------------------------------
  // When the script succeeds, and what it writes then

  /** The record of directory `i` of the walk. */
  function DirGroup(walk: seq<(string, seq<string>)>, i: nat, opts: Options): Group
    requires i < |walk|
  {
    GroupFiles(walk[i].0, walk[i].1, opts)
  }

  /** R1 and R2 present, and I1 when `--index` is set. */
  predicate Complete(val: Reads, index: bool)
  {
    val.r1.Some? && val.r2.Some? && (index ==> val.i1.Some?)
  }

  /** Every sample complete, and no id in two directories. */
  ghost predicate WalkValid(walk: seq<(string, seq<string>)>, opts: Options)
  {
    && (forall i, id :: 0 <= i < |walk| && id in DirGroup(walk, i, opts).byId ==>
          Complete(DirGroup(walk, i, opts).byId[id], opts.index))
    && (forall i, j, id :: 0 <= i < j < |walk| && id in DirGroup(walk, i, opts).byId ==>
          id !in DirGroup(walk, j, opts).byId)
  }

  /** The row of a complete sample. */
  function RowOf(id: string, val: Reads, index: bool): Row
  {
    Row(id, if val.r1.Some? then val.r1.value else [], if val.r2.Some? then val.r2.value else [],
        if index then val.i1 else None)
  }

  function RowsOf(g: Group, ids: seq<string>, index: bool): (rows: seq<Row>)
    requires forall k :: 0 <= k < |ids| ==> ids[k] in g.byId
    decreases |ids|
  {
    if ids == [] then []
    else RowsOf(g, ids[..|ids| - 1], index) + [RowOf(ids[|ids| - 1], g.byId[ids[|ids| - 1]], index)]
  }

  /** One row per sample, directory by directory, each in first-seen order. */
  function ExpectedRows(walk: seq<(string, seq<string>)>, opts: Options): seq<Row>
    decreases |walk|
  {
    if walk == [] then []
    else
      var g := DirGroup(walk, |walk| - 1, opts);
      ExpectedRows(walk[..|walk| - 1], opts) + RowsOf(g, g.order, opts.index)
  }

  /** The ids of all directories of the walk. */
  function AllIds(walk: seq<(string, seq<string>)>, opts: Options): set<string>
    decreases |walk|
  {
    if walk == [] then {}
    else AllIds(walk[..|walk| - 1], opts) + DirGroup(walk, |walk| - 1, opts).byId.Keys
  }

  /** An id is in `AllIds` exactly when some directory of the walk has a record for it. */
  lemma {:induction false} AllIdsMeaning(walk: seq<(string, seq<string>)>, opts: Options)
    ensures forall id :: id in AllIds(walk, opts) <==> exists i :: 0 <= i < |walk| && id in DirGroup(walk, i, opts).byId
    decreases |walk|
  {
    if walk != [] {
      var prefix := walk[..|walk| - 1];
      AllIdsMeaning(prefix, opts);
      assert forall i :: 0 <= i < |prefix| ==> DirGroup(prefix, i, opts) == DirGroup(walk, i, opts);
    }
  }

  /** The ids of `ids` as a set: what `all_names` gains when all of them are emitted. */
  function IdSet(ids: seq<string>): (r: set<string>)
    ensures forall id :: id in r <==> id in ids
  {
    set k | 0 <= k < |ids| :: ids[k]
  }

  /** Every id of `ids` is new and its record complete. */
  predicate AllAccepted(s: Sheet, g: Group, ids: seq<string>, index: bool)
    requires forall k :: 0 <= k < |ids| ==> ids[k] in g.byId
  {
    forall k :: 0 <= k < |ids| ==> ids[k] !in s.seen && Complete(g.byId[ids[k]], index)
  }

  /**
   * Emitting the samples of a directory succeeds exactly when every one is
   * new and complete; it then appends their rows in order, adds their ids
   * to `all_names` and counts them.
   */
  lemma {:induction false} EmitOutcome(s: Sheet, g: Group, ids: seq<string>, index: bool)
    requires forall k :: 0 <= k < |ids| ==> ids[k] in g.byId
    requires s.failure.None? && Distinct(ids)
    ensures EmitGroup(s, g, ids, index).failure.None? <==> AllAccepted(s, g, ids, index)
    ensures EmitGroup(s, g, ids, index).failure.None? ==>
      EmitGroup(s, g, ids, index) == Sheet(s.rows + RowsOf(g, ids, index), s.seen + IdSet(ids), s.counter + |ids|, None)
    decreases |ids|
  {
    if ids != [] {
      EmitOutcome(s, g, ids[..|ids| - 1], index);
      EmitOutcomeStep(s, g, ids, index);
    }
  }

  lemma EmitOutcomeStep(s: Sheet, g: Group, ids: seq<string>, index: bool)
    requires ids != [] && forall k :: 0 <= k < |ids| ==> ids[k] in g.byId
    requires s.failure.None? && Distinct(ids)
    requires var prefix := ids[..|ids| - 1];
      && (EmitGroup(s, g, prefix, index).failure.None? <==> AllAccepted(s, g, prefix, index))
      && (EmitGroup(s, g, prefix, index).failure.None? ==>
        EmitGroup(s, g, prefix, index) == Sheet(s.rows + RowsOf(g, prefix, index), s.seen + IdSet(prefix), s.counter + |prefix|, None))
    ensures EmitGroup(s, g, ids, index).failure.None? <==> AllAccepted(s, g, ids, index)
    ensures EmitGroup(s, g, ids, index).failure.None? ==>
      EmitGroup(s, g, ids, index) == Sheet(s.rows + RowsOf(g, ids, index), s.seen + IdSet(ids), s.counter + |ids|, None)
  {
    var prefix := ids[..|ids| - 1];
    AcceptedSnoc(s, g, ids, index);
    if EmitGroup(s, g, prefix, index).failure.None? {
      AcceptLast(s, g, ids, index);
    } else {
      assert EmitGroup(s, g, ids, index) == EmitGroup(s, g, prefix, index);
    }
  }

  /** The last sample, once the ones before it have all been written. */
  lemma AcceptLast(s: Sheet, g: Group, ids: seq<string>, index: bool)
    requires ids != [] && forall k :: 0 <= k < |ids| ==> ids[k] in g.byId
    requires Distinct(ids)
    requires var prefix := ids[..|ids| - 1];
      EmitGroup(s, g, prefix, index) == Sheet(s.rows + RowsOf(g, prefix, index), s.seen + IdSet(prefix), s.counter + |prefix|, None)
    ensures var n := |ids| - 1;
      EmitGroup(s, g, ids, index).failure.None? <==> ids[n] !in s.seen && Complete(g.byId[ids[n]], index)
    ensures EmitGroup(s, g, ids, index).failure.None? ==>
      EmitGroup(s, g, ids, index) == Sheet(s.rows + RowsOf(g, ids, index), s.seen + IdSet(ids), s.counter + |ids|, None)
  {
    var n := |ids| - 1;
    var prefix := ids[..n];
    assert IdSet(ids) == IdSet(prefix) + {ids[n]};
    assert ids[n] !in IdSet(prefix) by { assert forall k :: 0 <= k < n ==> prefix[k] != ids[n]; }
    var val := g.byId[ids[n]];
    var p := EmitGroup(s, g, prefix, index);
    assert EmitGroup(s, g, ids, index) == EmitSample(p, ids[n], val, index);
    if ids[n] !in s.seen && Complete(val, index) {
      var row := RowOf(ids[n], val, index);
      assert row == Row(ids[n], val.r1.value, val.r2.value, if index then val.i1 else None);
      assert RowsOf(g, ids, index) == RowsOf(g, prefix, index) + [row];
      assert (s.rows + RowsOf(g, prefix, index)) + [row] == s.rows + (RowsOf(g, prefix, index) + [row]);
    }
  }

  lemma AcceptedSnoc(s: Sheet, g: Group, ids: seq<string>, index: bool)
    requires ids != [] && forall k :: 0 <= k < |ids| ==> ids[k] in g.byId
    ensures var n := |ids| - 1;
      AllAccepted(s, g, ids, index) <==>
        AllAccepted(s, g, ids[..n], index) && ids[n] !in s.seen && Complete(g.byId[ids[n]], index)
  {
    var n := |ids| - 1;
    assert forall k :: 0 <= k < n ==> ids[..n][k] == ids[k];
  }

  /** A walk is valid exactly when its prefix is and the last directory's samples are new and complete. */
  lemma ValidPrefix(walk: seq<(string, seq<string>)>, opts: Options)
    requires walk != []
    ensures var n := |walk| - 1;
      WalkValid(walk, opts) <==> WalkValid(walk[..n], opts) && LastValid(walk, opts)
  {
    if WalkValid(walk, opts) {
      ValidShrinks(walk, opts);
    }
    if WalkValid(walk[..|walk| - 1], opts) && LastValid(walk, opts) {
      ValidGrows(walk, opts);
    }
  }

  /** The samples of the last directory are complete and absent from the directories before it. */
  ghost predicate LastValid(walk: seq<(string, seq<string>)>, opts: Options)
    requires walk != []
  {
    var n := |walk| - 1;
    var g := DirGroup(walk, n, opts);
    forall id :: id in g.byId ==> id !in AllIds(walk[..n], opts) && Complete(g.byId[id], opts.index)
  }

  lemma ValidShrinks(walk: seq<(string, seq<string>)>, opts: Options)
    requires walk != [] && WalkValid(walk, opts)
    ensures WalkValid(walk[..|walk| - 1], opts) && LastValid(walk, opts)
  {
    var n := |walk| - 1;
    var prefix := walk[..n];
    AllIdsMeaning(prefix, opts);
    assert forall i :: 0 <= i < n ==> DirGroup(prefix, i, opts) == DirGroup(walk, i, opts);
  }

  lemma ValidGrows(walk: seq<(string, seq<string>)>, opts: Options)
    requires walk != [] && WalkValid(walk[..|walk| - 1], opts) && LastValid(walk, opts)
    ensures WalkValid(walk, opts)
  {
    var n := |walk| - 1;
    var prefix := walk[..n];
    AllIdsMeaning(prefix, opts);
    forall i, id | 0 <= i < |walk| && id in DirGroup(walk, i, opts).byId
      ensures Complete(DirGroup(walk, i, opts).byId[id], opts.index)
    {
      if i < n {
        assert DirGroup(prefix, i, opts) == DirGroup(walk, i, opts);
      }
    }
    forall i, j, id | 0 <= i < j < |walk| && id in DirGroup(walk, i, opts).byId
      ensures id !in DirGroup(walk, j, opts).byId
    {
      assert DirGroup(prefix, i, opts) == DirGroup(walk, i, opts);
      if j == n {
        assert id in AllIds(prefix, opts);
      } else {
        assert DirGroup(prefix, j, opts) == DirGroup(walk, j, opts);
      }
    }
  }

  lemma OrderCondition(g: Group, seen: set<string>, index: bool)
    requires forall id :: id in g.order <==> id in g.byId
    ensures (forall k :: 0 <= k < |g.order| ==> g.order[k] !in seen && Complete(g.byId[g.order[k]], index)) <==>
      (forall id :: id in g.byId ==> id !in seen && Complete(g.byId[id], index))
  {
    if forall k :: 0 <= k < |g.order| ==> g.order[k] !in seen && Complete(g.byId[g.order[k]], index) {
      forall id | id in g.byId ensures id !in seen && Complete(g.byId[id], index) {
        var k :| 0 <= k < |g.order| && g.order[k] == id;
      }
    }
  }

  /**
   * The script succeeds exactly when every sample of every directory is
   * complete and no id occurs in two directories; it then writes one row
   * per sample, directory by directory in walk order and, within a
   * directory, in the order the ids were first seen.
   */
  lemma {:induction false} WalkOutcome(walk: seq<(string, seq<string>)>, opts: Options)
    ensures RunWalk(walk, opts).failure.None? <==> WalkValid(walk, opts)
    ensures WalkValid(walk, opts) ==>
      RunWalk(walk, opts).rows == ExpectedRows(walk, opts) &&
      RunWalk(walk, opts).seen == AllIds(walk, opts)
    decreases |walk|
  {
    if walk != [] {
      var n := |walk| - 1;
      var prefix := walk[..n];
      WalkOutcome(prefix, opts);
      ValidPrefix(walk, opts);
      var s := RunWalk(prefix, opts);
      var g := DirGroup(walk, n, opts);
      if s.failure.None? {
        EmitOutcome(s, g, g.order, opts.index);
        OrderCondition(g, s.seen, opts.index);
        assert IdSet(g.order) == g.byId.Keys;
      }
    }
  }

  // ---------------------------------------------------------------------
  // When the script raises, and what it has written by then

  /**
   * Why sample `id` with record `val` is refused: the error names the sample;
   * it is `Duplicate name` exactly when the id was seen before, and otherwise
   * it reports the first of R1, R2 and, with `--index`, I1 that is missing.
   */
  predicate Rejects(f: Failure, id: string, val: Reads, dup: bool, index: bool)
  {
    match f
    case DuplicateName(x) => x == id && dup
    case MissingR1(x) => x == id && !dup && val.r1.None?
    case MissingR2(x) => x == id && !dup && val.r1.Some? && val.r2.None?
    case MissingI1(x) => x == id && !dup && index && val.r1.Some? && val.r2.Some? && val.i1.None?
  }

  /** A refused sample writes no line, and the error says why it was refused. */
  lemma SampleFails(p: Sheet, id: string, val: Reads, index: bool)
    requires p.failure.None? && EmitSample(p, id, val, index).failure.Some?
    ensures var s := EmitSample(p, id, val, index);
      s.rows == p.rows && Rejects(s.failure.value, id, val, id in p.seen, index)
  {
  }

  /**
   * A directory whose emission raises: the samples before the offending one
   * were all new and complete and were written, then that one was refused.
   */
  lemma {:induction false} EmitFailure(s: Sheet, g: Group, ids: seq<string>, index: bool) returns (m: nat)
    requires forall k :: 0 <= k < |ids| ==> ids[k] in g.byId
    requires s.failure.None? && Distinct(ids)
    requires EmitGroup(s, g, ids, index).failure.Some?
    ensures EmitFailsAt(s, g, ids, index, m)
    decreases |ids|
  {
    var prefix := ids[..|ids| - 1];
    if EmitGroup(s, g, prefix, index).failure.Some? {
      m := EmitFailure(s, g, prefix, index);
      FailStaysEarlier(s, g, ids, index, m);
    } else {
      m := |ids| - 1;
      FailAtLast(s, g, ids, index);
    }
  }

  /** The samples before the `m`-th were written and the `m`-th produced the error. */
  predicate EmitFailsAt(s: Sheet, g: Group, ids: seq<string>, index: bool, m: nat)
    requires forall k :: 0 <= k < |ids| ==> ids[k] in g.byId
  {
    && m < |ids| && AllAccepted(s, g, ids[..m], index)
    && EmitGroup(s, g, ids, index) ==
      EmitSample(Sheet(s.rows + RowsOf(g, ids[..m], index), s.seen + IdSet(ids[..m]), s.counter + m, None),
                 ids[m], g.byId[ids[m]], index)
  }

  lemma FailStaysEarlier(s: Sheet, g: Group, ids: seq<string>, index: bool, m: nat)
    requires ids != [] && forall k :: 0 <= k < |ids| ==> ids[k] in g.byId
    requires EmitGroup(s, g, ids[..|ids| - 1], index).failure.Some?
    requires EmitFailsAt(s, g, ids[..|ids| - 1], index, m)
    ensures EmitFailsAt(s, g, ids, index, m)
  {
    var prefix := ids[..|ids| - 1];
    assert EmitGroup(s, g, ids, index) == EmitGroup(s, g, prefix, index);
    assert prefix[..m] == ids[..m] && prefix[m] == ids[m];
  }

  lemma FailAtLast(s: Sheet, g: Group, ids: seq<string>, index: bool)
    requires ids != [] && forall k :: 0 <= k < |ids| ==> ids[k] in g.byId
    requires s.failure.None? && Distinct(ids)
    requires EmitGroup(s, g, ids[..|ids| - 1], index).failure.None?
    ensures EmitFailsAt(s, g, ids, index, |ids| - 1)
  {
    var n := |ids| - 1;
    var prefix := ids[..n];
    var p := EmitGroup(s, g, prefix, index);
    assert EmitGroup(s, g, ids, index) == EmitSample(p, ids[n], g.byId[ids[n]], index);
    EmitOutcome(s, g, prefix, index);
  }

  /** Some directory before the `d`-th has a record for `id`. */
  ghost predicate EarlierDir(walk: seq<(string, seq<string>)>, d: nat, id: string, opts: Options)
    requires d <= |walk|
  {
    exists i :: 0 <= i < d && id in DirGroup(walk, i, opts).byId
  }

  /**
   * The script raises at sample `m` of directory `d`: every directory before
   * it passed, the samples before `m` in it are new and complete, and the
   * error is the reason that sample is refused. The rows written are those of
   * the earlier directories and of the samples before `m`.
   */
  ghost predicate FailsAt(walk: seq<(string, seq<string>)>, opts: Options, d: nat, m: nat)
  {
    && d < |walk|
    && var g := DirGroup(walk, d, opts);
    var before := walk[..d];
    var s := RunWalk(walk, opts);
    && m < |g.order|
    && WalkValid(before, opts)
    && (forall k :: 0 <= k < m ==> !EarlierDir(walk, d, g.order[k], opts) && Complete(g.byId[g.order[k]], opts.index))
    && s.failure.Some?
    && Rejects(s.failure.value, g.order[m], g.byId[g.order[m]], EarlierDir(walk, d, g.order[m], opts), opts.index)
    && s.rows == ExpectedRows(before, opts) + RowsOf(g, g.order[..m], opts.index)
  }

  /** The ids of the directories before the `d`-th are those some earlier directory has a record for. */
  lemma EarlierIds(walk: seq<(string, seq<string>)>, d: nat, opts: Options)
    requires d <= |walk|
    ensures forall id :: id in AllIds(walk[..d], opts) <==> EarlierDir(walk, d, id, opts)
  {
    var before := walk[..d];
    AllIdsMeaning(before, opts);
    assert forall i :: 0 <= i < d ==> DirGroup(before, i, opts) == DirGroup(walk, i, opts);
  }

  /**
   * Whenever the script raises, there is a first directory and a first
   * sample in it at which it does, and `FailsAt` says what it raises and
   * what it has written by then.
   */
  lemma {:induction false} WalkFailure(walk: seq<(string, seq<string>)>, opts: Options) returns (d: nat, m: nat)
    requires RunWalk(walk, opts).failure.Some?
    ensures FailsAt(walk, opts, d, m)
    decreases |walk|
  {
    var n := |walk| - 1;
    var prefix := walk[..n];
    var s := RunWalk(prefix, opts);
    if s.failure.Some? {
      d, m := WalkFailure(prefix, opts);
      FailureKept(walk, opts, d, m);
    } else {
      d := n;
      m := FailureInLast(walk, opts);
    }
  }

  /** A failure in the directories before the last one is the failure of the whole walk. */
  lemma FailureKept(walk: seq<(string, seq<string>)>, opts: Options, d: nat, m: nat)
    requires walk != [] && FailsAt(walk[..|walk| - 1], opts, d, m)
    ensures FailsAt(walk, opts, d, m)
  {
    var prefix := walk[..|walk| - 1];
    assert RunWalk(walk, opts) == RunWalk(prefix, opts);
    assert prefix[..d] == walk[..d];
    assert forall i :: 0 <= i <= d ==> DirGroup(prefix, i, opts) == DirGroup(walk, i, opts);
    assert forall id :: EarlierDir(prefix, d, id, opts) <==> EarlierDir(walk, d, id, opts);
  }

  /** A walk whose earlier directories all passed and whose last directory raises. */
  lemma FailureInLast(walk: seq<(string, seq<string>)>, opts: Options) returns (m: nat)
    requires walk != [] && RunWalk(walk[..|walk| - 1], opts).failure.None?
    requires RunWalk(walk, opts).failure.Some?
    ensures FailsAt(walk, opts, |walk| - 1, m)
  {
    var n := |walk| - 1;
    var prefix := walk[..n];
    var s := RunWalk(prefix, opts);
    var g := DirGroup(walk, n, opts);
    assert RunWalk(walk, opts) == EmitGroup(s, g, g.order, opts.index);
    PrefixPassed(walk, opts);
    m := EmitFailure(s, g, g.order, opts.index);
    RefusedSample(walk, opts, m);
    AcceptedBefore(walk, opts, m);
  }

  /** The directories before the last one passed: what `WalkOutcome` says of them. */
  lemma PrefixPassed(walk: seq<(string, seq<string>)>, opts: Options)
    requires walk != [] && RunWalk(walk[..|walk| - 1], opts).failure.None?
    ensures var prefix := walk[..|walk| - 1]; var s := RunWalk(prefix, opts);
      WalkValid(prefix, opts) && s.rows == ExpectedRows(prefix, opts) && s.seen == AllIds(prefix, opts)
  {
    WalkOutcome(walk[..|walk| - 1], opts);
  }

  /** The error of the offending sample, and the rows written before it. */
  lemma RefusedSample(walk: seq<(string, seq<string>)>, opts: Options, m: nat)
    requires walk != []
    requires var n := |walk| - 1; var s := RunWalk(walk[..n], opts); var g := DirGroup(walk, n, opts);
      && s.failure.None? && s.seen == AllIds(walk[..n], opts) && s.rows == ExpectedRows(walk[..n], opts)
      && EmitFailsAt(s, g, g.order, opts.index, m)
      && RunWalk(walk, opts) == EmitGroup(s, g, g.order, opts.index)
    requires RunWalk(walk, opts).failure.Some?
    ensures var n := |walk| - 1; var g := DirGroup(walk, n, opts); var id := g.order[m]; var f := RunWalk(walk, opts);
      && Rejects(f.failure.value, id, g.byId[id], EarlierDir(walk, n, id, opts), opts.index)
      && f.rows == ExpectedRows(walk[..n], opts) + RowsOf(g, g.order[..m], opts.index)
  {
    var n := |walk| - 1;
    var g := DirGroup(walk, n, opts);
    var s := RunWalk(walk[..n], opts);
    var id := g.order[m];
    var done := g.order[..m];
    var p := Sheet(s.rows + RowsOf(g, done, opts.index), s.seen + IdSet(done), s.counter + m, None);
    SampleFails(p, id, g.byId[id], opts.index);
    EarlierIds(walk, n, opts);
    assert id !in IdSet(done) by { assert forall k :: 0 <= k < m ==> done[k] != id; }
  }

  /** The samples of the last directory before the offending one were new and complete. */
  lemma AcceptedBefore(walk: seq<(string, seq<string>)>, opts: Options, m: nat)
    requires walk != []
    requires var n := |walk| - 1; var s := RunWalk(walk[..n], opts); var g := DirGroup(walk, n, opts);
      s.seen == AllIds(walk[..n], opts) && m < |g.order| && AllAccepted(s, g, g.order[..m], opts.index)
    ensures var n := |walk| - 1; var g := DirGroup(walk, n, opts);
      forall k :: 0 <= k < m ==> !EarlierDir(walk, n, g.order[k], opts) && Complete(g.byId[g.order[k]], opts.index)
  {
    var n := |walk| - 1;
    var g := DirGroup(walk, n, opts);
    EarlierIds(walk, n, opts);
    assert forall k :: 0 <= k < m ==> g.order[..m][k] == g.order[k];
  }

  // ---------------------------------------------------------------------
  // Undetermined files never contribute

  /** The listing without the names that start with "undetermined" in any case. */
  function DropUndetermined(names: seq<string>): (r: seq<string>)
    ensures forall k :: 0 <= k < |r| ==> !StartsWith(Lower(r[k]), Marker)
    decreases |names|
  {
    if names == [] then []
    else
      var last := names[|names| - 1];
      DropUndetermined(names[..|names| - 1]) + if StartsWith(Lower(last), Marker) then [] else [last]
  }

  lemma {:induction false} UndeterminedIgnoredInDirectory(root: string, names: seq<string>, opts: Options)
    ensures GroupFiles(root, DropUndetermined(names), opts) == GroupFiles(root, names, opts)
    decreases |names|
  {
    if names != [] {
      var n := |names| - 1;
      var kept := DropUndetermined(names[..n]);
      UndeterminedIgnoredInDirectory(root, names[..n], opts);
      assert GroupFiles(root, names, opts) == AddFile(GroupFiles(root, names[..n], opts), root, names[n], opts);
      if StartsWith(Lower(names[n]), Marker) {
        assert DropUndetermined(names) == kept;
        UndeterminedSkipped(GroupFiles(root, names[..n], opts), root, names[n], opts);
      } else {
        assert DropUndetermined(names) == kept + [names[n]];
        GroupAppend(root, kept, names[n], opts);
      }
    }
  }

  lemma UndeterminedSkipped(g: Group, root: string, name: string, opts: Options)
    requires StartsWith(Lower(name), Marker)
    ensures AddFile(g, root, name, opts) == g
  {
  }

  lemma GroupAppend(root: string, names: seq<string>, name: string, opts: Options)
    ensures GroupFiles(root, names + [name], opts) == AddFile(GroupFiles(root, names, opts), root, name, opts)
  {
    assert (names + [name])[..|names|] == names;
  }

  /** The walk with every undetermined file removed from every directory. */
  function DropUndeterminedWalk(walk: seq<(string, seq<string>)>): (r: seq<(string, seq<string>)>)
    ensures |r| == |walk|
    ensures forall i :: 0 <= i < |walk| ==> r[i] == (walk[i].0, DropUndetermined(walk[i].1))
  {
    seq(|walk|, i requires 0 <= i < |walk| => (walk[i].0, DropUndetermined(walk[i].1)))
  }

  /**
   * A file whose lower-cased name starts with "undetermined" never affects
   * the outcome: the sheet, the counter and the error are those of the walk
   * without such files.
   */
  lemma {:induction false} UndeterminedNeverContributes(walk: seq<(string, seq<string>)>, opts: Options)
    ensures RunWalk(DropUndeterminedWalk(walk), opts) == RunWalk(walk, opts)
    decreases |walk|
  {
    if walk != [] {
      var n := |walk| - 1;
      var clean := DropUndeterminedWalk(walk);
      assert clean[..n] == DropUndeterminedWalk(walk[..n]);
      UndeterminedNeverContributes(walk[..n], opts);
      UndeterminedIgnoredInDirectory(walk[n].0, walk[n].1, opts);
    }
  }

  // ---------------------------------------------------------------------
  // Rewriting paths never changes ids or the outcome

  function Ids(rows: seq<Row>): (ids: seq<string>)
    ensures |ids| == |rows| && forall k :: 0 <= k < |rows| ==> ids[k] == rows[k].id
  {
    seq(|rows|, k requires 0 <= k < |rows| => rows[k].id)
  }

  /** Which roles a record holds, whatever their paths. */
  function Presence(val: Reads): (bool, bool, bool)
  {
    (val.r1.Some?, val.r2.Some?, val.i1.Some?)
  }

  ghost predicate SameGroupShape(a: Group, b: Group)
  {
    && a.order == b.order
    && a.byId.Keys == b.byId.Keys
    && forall id :: id in a.byId ==> Presence(a.byId[id]) == Presence(b.byId[id])
  }

  ghost predicate SameSheetShape(a: Sheet, b: Sheet)
  {
    a.seen == b.seen && a.counter == b.counter && a.failure == b.failure && Ids(a.rows) == Ids(b.rows)
  }

  lemma {:induction false} GroupShapeIgnoresRewrite(root: string, names: seq<string>, a: Options, b: Options)
    requires a.index == b.index
    ensures SameGroupShape(GroupFiles(root, names, a), GroupFiles(root, names, b))
    decreases |names|
  {
    if names != [] {
      var n := |names| - 1;
      GroupShapeIgnoresRewrite(root, names[..n], a, b);
      AddFileShape(GroupFiles(root, names[..n], a), GroupFiles(root, names[..n], b), root, names[n], a, b);
    }
  }

  lemma AddFileShape(g: Group, h: Group, root: string, name: string, a: Options, b: Options)
    requires a.index == b.index && SameGroupShape(g, h)
    ensures SameGroupShape(AddFile(g, root, name, a), AddFile(h, root, name, b))
  {
    var g', h' := AddFile(g, root, name, a), AddFile(h, root, name, b);
    match Classify(name, a.index)
    case Read(id, role) =>
      var v := if id in g.byId then g.byId[id] else NoReads;
      var w := if id in h.byId then h.byId[id] else NoReads;
      PutPresence(v, w, role, FilePath(root, name, a), FilePath(root, name, b));
      assert g'.byId == g.byId[id := Put(v, role, FilePath(root, name, a))];
      assert h'.byId == h.byId[id := Put(w, role, FilePath(root, name, b))];
    case _ =>
  }

  lemma PutPresence(v: Reads, w: Reads, role: Role, p: string, q: string)
    requires Presence(v) == Presence(w)
    ensures Presence(Put(v, role, p)) == Presence(Put(w, role, q))
  {
  }

  lemma {:induction false} EmitShapeIgnoresPaths(s: Sheet, t: Sheet, g: Group, h: Group, ids: seq<string>, index: bool)
    requires forall k :: 0 <= k < |ids| ==> ids[k] in g.byId
    requires SameGroupShape(g, h) && SameSheetShape(s, t)
    ensures SameSheetShape(EmitGroup(s, g, ids, index), EmitGroup(t, h, ids, index))
    decreases |ids|
  {
    if ids != [] {
      var n := |ids| - 1;
      EmitShapeIgnoresPaths(s, t, g, h, ids[..n], index);
      var p, q := EmitGroup(s, g, ids[..n], index), EmitGroup(t, h, ids[..n], index);
      if p.failure.None? {
        assert Presence(g.byId[ids[n]]) == Presence(h.byId[ids[n]]);
        assert Ids(p.rows) == Ids(q.rows);
      }
    }
  }

  /**
   * `--replace` rewrites paths only: the ids written, their order, the
   * counter and the error raised are the same whatever the rewrite.
   */
  lemma {:induction false} RewriteKeepsIds(walk: seq<(string, seq<string>)>, a: Options, b: Options)
    requires a.index == b.index
    ensures SameSheetShape(RunWalk(walk, a), RunWalk(walk, b))
    decreases |walk|
  {
    if walk != [] {
      var n := |walk| - 1;
      RewriteKeepsIds(walk[..n], a, b);
      var s, t := RunWalk(walk[..n], a), RunWalk(walk[..n], b);
      if s.failure.None? {
        GroupShapeIgnoresRewrite(walk[n].0, walk[n].1, a, b);
        var g := GroupFiles(walk[n].0, walk[n].1, a);
        var h := GroupFiles(walk[n].0, walk[n].1, b);
        EmitShapeIgnoresPaths(s, t, g, h, g.order, a.index);
      }
    }
  }
}
