/** The loading of submitted files into the current database: file ordering,
    per-file status, placeholder projects, array columns and the clip-project
    link rows. Reading parquet, the bulk COPY and the watch-dog file are not
    part of this model; a file's load either succeeds or raises the message
    given for it in `failures`. */
module Ingest {
  import opened Base
  import opened Strings
  import opened Models

  // ------------------------------------------------------------ file status

  /** `update_file_status`: the file gets the new status and error and is
      stamped with the current time; nothing else about it changes. */
  method UpdateFileStatus(file: File, status: FileStatus, error: Option<string>, now: nat)
    modifies file
    ensures file.status == status && file.error == error && file.recordedAt == now
    ensures file.id == old(file.id) && file.url == old(file.url) && file.category == old(file.category)
    ensures file.contentHash == old(file.contentHash)
  {
    file.status := status;
    file.error := error;
    file.recordedAt := now;
  }

  // ------------------------------------------------------------ file order

  function Reverse<T>(s: seq<T>): (r: seq<T>)
    ensures |r| == |s|
    ensures forall k :: 0 <= k < |s| ==> r[k] == s[|s| - 1 - k]
  {
    if s == [] then [] else [s[|s| - 1]] + Reverse(s[..|s| - 1])
  }

  /** The files of one category, in the given order. */
  function WithCategory(files: seq<File>, c: FileCategory): (r: seq<File>)
    reads files`category
    ensures forall k :: 0 <= k < |r| ==> r[k].category == c && r[k] in files
  {
    if files == [] then []
    else
      var init := WithCategory(files[..|files| - 1], c);
      if files[|files| - 1].category == c then init + [files[|files| - 1]] else init
  }

  /** The files of every other category, in the given order. */
  function WithoutCategory(files: seq<File>, c: FileCategory): (r: seq<File>)
    reads files`category
    ensures forall k :: 0 <= k < |r| ==> r[k].category != c && r[k] in files
  {
    if files == [] then []
    else
      var init := WithoutCategory(files[..|files| - 1], c);
      if files[|files| - 1].category != c then init + [files[|files| - 1]] else init
  }

  /** The order the loop of `process_files` builds: each project file is put
      in front, every other file at the back. */
  function Ordered(files: seq<File>): seq<File>
    reads files`category
  {
    if files == [] then []
    else
      var rest := Ordered(files[..|files| - 1]);
      var f := files[|files| - 1];
      if f.category == Projects then [f] + rest else rest + [f]
  }

  method OrderFiles(files: seq<File>) returns (ordered: seq<File>)
    ensures ordered == Ordered(files)
  {
    ordered := [];
    for i := 0 to |files|
      invariant ordered == Ordered(files[..i])
    {
      assert files[..i + 1][..i] == files[..i];
      if files[i].category == Projects {
        ordered := [files[i]] + ordered;
      } else {
        ordered := ordered + [files[i]];
      }
    }
    assert files[..|files|] == files;
  }

  /** The ordered list is the project files, last submitted first, followed by
      the other files in submission order. */
  lemma {:induction false} OrderedShape(files: seq<File>)
    ensures Ordered(files) == Reverse(WithCategory(files, Projects)) + WithoutCategory(files, Projects)
  {
    if files != [] {
      var init, f := files[..|files| - 1], files[|files| - 1];
      OrderedShape(init);
      var p := WithCategory(init, Projects);
      if f.category == Projects {
        assert (p + [f])[..|p|] == p;
      }
    }
  }

  /** Every project file comes before every other file. */
  lemma ProjectsFirst(files: seq<File>)
    ensures forall i, j :: 0 <= i < j < |Ordered(files)| && Ordered(files)[j].category == Projects ==>
      Ordered(files)[i].category == Projects
  {
    OrderedShape(files);
  }

  lemma {:induction false} FilterMultiset(files: seq<File>, c: FileCategory)
    ensures multiset(WithCategory(files, c)) + multiset(WithoutCategory(files, c)) == multiset(files)
  {
    if files != [] {
      var init := files[..|files| - 1];
      FilterMultiset(init, c);
      assert files == init + [files[|files| - 1]];
    }
  }

  lemma {:induction false} ReverseMultiset<T>(s: seq<T>)
    ensures multiset(Reverse(s)) == multiset(s)
  {
    if s != [] {
      ReverseMultiset(s[..|s| - 1]);
      assert s == s[..|s| - 1] + [s[|s| - 1]];
    }
  }

  /** Ordering only moves files: the ordered list is a permutation of the input. */
  lemma OrderedPermutation(files: seq<File>)
    ensures multiset(Ordered(files)) == multiset(files)
  {
    OrderedShape(files);
    ReverseMultiset(WithCategory(files, Projects));
    FilterMultiset(files, Projects);
  }

  /** Clip files and the others split the ordered list between them; the
      other files are the ones the first loop loads. */
  lemma ClipPartition(files: seq<File>)
    ensures multiset(WithCategory(Ordered(files), Clips)) + multiset(WithoutCategory(Ordered(files), Clips)) ==
      multiset(files)
  {
    FilterMultiset(Ordered(files), Clips);
    OrderedPermutation(files);
  }

  // ------------------------------------------------------------ process_files

  /** Whether the first loop writes a status for a file: only credit and
      project files are loaded there; any other category is only logged. */
  predicate LoadedFirst(c: FileCategory)
  {
    c == Credits || c == Projects
  }

  /** The status a loaded file ends with, given which loads raise. */
  function StatusAfter(f: File, failures: map<File, string>): (r: (FileStatus, Option<string>))
    ensures r.0 == Failure <==> f in failures
    ensures r.0 == Failure ==> r.1 == Some(failures[f])
    ensures r.0 != Failure ==> r == (Success, None)
  {
    if f in failures then (Failure, Some(failures[f])) else (Success, None)
  }

  datatype ClipLoad =
    | NoClipFiles                      // returned before the clip tables are touched
    | ClipsLoaded(loaded: seq<File>)   // clip tables truncated and reloaded from these files
    | NothingToConcat                  // clip tables truncated, then concatenation raised

  /** The first loop of `process_files`: each credit or project file gets the
      status its load ends with; a file of any other category is only logged,
      and clip files are left for later. */
  method LoadOtherFiles(files: seq<File>, others: seq<File>, failures: map<File, string>, now: nat)
    requires forall f :: f in files && f.category != Clips <==> f in others
    modifies others
    ensures forall f :: f in files ==> f.category == old(f.category)
    ensures forall f :: f in files && LoadedFirst(f.category) ==>
      (f.status, f.error) == StatusAfter(f, failures) && f.recordedAt == now
    ensures forall f :: f in files && !LoadedFirst(f.category) ==>
      f.status == old(f.status) && f.error == old(f.error) && f.recordedAt == old(f.recordedAt)
  {
    for i := 0 to |others|
      invariant forall f :: f in files ==> f.category == old(f.category)
      invariant forall f :: f in others[..i] && LoadedFirst(f.category) ==>
        (f.status, f.error) == StatusAfter(f, failures) && f.recordedAt == now
      invariant forall f :: f in files && f !in others[..i] ==>
        f.status == old(f.status) && f.error == old(f.error) && f.recordedAt == old(f.recordedAt)
      invariant forall f :: f in files && !LoadedFirst(f.category) ==>
        f.status == old(f.status) && f.error == old(f.error) && f.recordedAt == old(f.recordedAt)
    {
      var f := others[i];
      assert others[..i + 1] == others[..i] + [f];
      if LoadedFirst(f.category) {
        var st := StatusAfter(f, failures);
        UpdateFileStatus(f, st.0, st.1, now);
      }
    }
    assert others[..|others|] == others;
  }

  /** The clip loop of `process_files`: every clip file gets the status its
      load ends with, and the frames of those that load are kept, in order. */
  method LoadClipFiles(files: seq<File>, clips: seq<File>, failures: map<File, string>, now: nat)
    returns (loaded: seq<File>)
    requires forall f :: f in files && f.category == Clips <==> f in clips
    modifies clips
    ensures forall f :: f in files ==> f.category == old(f.category)
    ensures forall f :: f in files && f.category == Clips ==>
      (f.status, f.error) == StatusAfter(f, failures) && f.recordedAt == now
    ensures forall f :: f in files && f.category != Clips ==>
      f.status == old(f.status) && f.error == old(f.error) && f.recordedAt == old(f.recordedAt)
    ensures loaded == NotIn(clips, failures)
    ensures loaded == [] <==> forall f :: f in files && f.category == Clips ==> f in failures
  {
    loaded := [];
    for i := 0 to |clips|
      invariant forall f :: f in files ==> f.category == old(f.category)
      invariant loaded == NotIn(clips[..i], failures)
      invariant forall f :: f in clips[..i] ==> (f.status, f.error) == StatusAfter(f, failures) && f.recordedAt == now
      invariant forall f :: f in files && f !in clips[..i] ==>
        f.status == old(f.status) && f.error == old(f.error) && f.recordedAt == old(f.recordedAt)
    {
      var f := clips[i];
      assert clips[..i + 1] == clips[..i] + [f];
      assert clips[..i + 1][..i] == clips[..i];
      var st := StatusAfter(f, failures);
      UpdateFileStatus(f, st.0, st.1, now);
      if f !in failures {
        loaded := loaded + [f];
      }
    }
    assert clips[..|clips|] == clips;
    if loaded == [] {
      forall f | f in clips ensures f in failures {
        var k :| 0 <= k < |clips| && clips[k] == f;
      }
    } else {
      assert loaded[0] in clips && loaded[0] !in failures;
    }
  }

  /** `process_files` over the statuses it writes: a credit, project or clip
      file ends `success`, or `failure` with its message when its load raises;
      files of other categories keep their status. With no clip file it
      returns before the clip tables are touched; when every clip file fails,
      the tables are truncated and the concatenation of no frames raises. */
  method ProcessFiles(files: seq<File>, failures: map<File, string>, now: nat) returns (r: ClipLoad)
    modifies files
    ensures forall f :: f in files ==> f.category == old(f.category)
    ensures forall f :: f in files && (LoadedFirst(f.category) || f.category == Clips) ==>
      (f.status, f.error) == StatusAfter(f, failures) && f.recordedAt == now
    ensures forall f :: f in files && !LoadedFirst(f.category) && f.category != Clips ==>
      f.status == old(f.status) && f.error == old(f.error) && f.recordedAt == old(f.recordedAt)
    ensures r == NoClipFiles <==> forall f :: f in files ==> f.category != Clips
    ensures r == NothingToConcat <==> !r.NoClipFiles? && forall f :: f in files && f.category == Clips ==> f in failures
    ensures r.ClipsLoaded? ==> r.loaded == old(NotIn(WithCategory(Ordered(files), Clips), failures))
  {
    ghost var expected := NotIn(WithCategory(Ordered(files), Clips), failures);
    var clipFiles, otherFiles := OrderAndSplit(files);
    assert NotIn(clipFiles, failures) == expected;
    LoadOtherFiles(files, otherFiles, failures, now);
    if clipFiles == [] {
      return NoClipFiles;
    }
    var loaded := LoadClipFiles(files, clipFiles, failures, now);
    if loaded == [] {
      return NothingToConcat;
    }
    return ClipsLoaded(loaded);
  }

  /** The ordering loop of `process_files` and the split of its result into
      clip files and the rest. */
  method OrderAndSplit(files: seq<File>) returns (clipFiles: seq<File>, otherFiles: seq<File>)
    ensures clipFiles == WithCategory(Ordered(files), Clips)
    ensures otherFiles == WithoutCategory(Ordered(files), Clips)
    ensures forall f :: f in files && f.category == Clips <==> f in clipFiles
    ensures forall f :: f in files && f.category != Clips <==> f in otherFiles
  {
    var ordered := OrderFiles(files);
    OrderedPermutation(files);
    ProcessedCover(files, ordered);
    SameElements(ordered, files);
    clipFiles := WithCategory(ordered, Clips);
    otherFiles := WithoutCategory(ordered, Clips);
  }

  /** The files whose load does not raise, in order. */
  function NotIn(files: seq<File>, failures: map<File, string>): (r: seq<File>)
    ensures forall k :: 0 <= k < |r| ==> r[k] in files && r[k] !in failures
    ensures forall k :: 0 <= k < |files| && files[k] !in failures ==> files[k] in r
  {
    if files == [] then []
    else
      var init := NotIn(files[..|files| - 1], failures);
      var f := files[|files| - 1];
      if f in failures then init else init + [f]
  }

  lemma ProcessedCover(files: seq<File>, ordered: seq<File>)
    requires multiset(ordered) == multiset(files)
    ensures forall f :: f in files && f.category == Clips ==> f in WithCategory(ordered, Clips)
    ensures forall f :: f in files && f.category != Clips ==> f in WithoutCategory(ordered, Clips)
  {
    FilterMultiset(ordered, Clips);
    forall f | f in files ensures f.category == Clips ==> f in WithCategory(ordered, Clips)
      ensures f.category != Clips ==> f in WithoutCategory(ordered, Clips)
    {
      assert f in multiset(ordered);
    }
  }

  // ------------------------------------------------------------ placeholder projects

  /** The project-page prefix of the five registries that have one. */
  function UrlPrefix(registry: string): Option<string>
  {
    if registry == "verra" then Some("https://registry.verra.org/app/projectDetail/VCS/")
    else if registry == "gold-standard" then Some("https://registry.goldstandard.org/projects?q=gs")
    else if registry == "american-carbon-registry" then Some("https://acr2.apx.com/mymodule/reg/prjView.asp?id1=")
    else if registry == "climate-action-reserve" then Some("https://thereserve2.apx.com/mymodule/reg/prjView.asp?id1=")
    else if registry == "art-trees" then Some("https://art.apx.com/mymodule/reg/prjView.asp?id1=")
    else None
  }

  /** `project_id[3:]`: empty when the id is shorter than three characters. */
  function DropPrefix(id: string): (r: string)
    ensures |id| >= 3 ==> id == id[..3] + r
    ensures |id| < 3 ==> r == ""
  {
    if |id| >= 3 then id[3..] else ""
  }

  /** The URL of a placeholder project. */
  function PlaceholderUrl(id: string, registry: string): (r: Option<string>)
    ensures r.Some? <==> UrlPrefix(registry).Some?
    ensures r.Some? ==> r.value == UrlPrefix(registry).value + DropPrefix(id)
  {
    match UrlPrefix(registry)
    case Some(prefix) => Some(prefix + DropPrefix(id))
    case None => None
  }

  /** The stand-in row created for a project that credits or clips refer to
      before its project file is loaded. */
  function Placeholder(id: string, registry: string): (p: Project)
    ensures p.projectId == id && p.registry == registry
    ensures p.category == Some(["unknown"]) && p.protocol == Some(["unknown"])
    ensures p.projectType == Some("unknown") && p.typeSource == Some("carbonplan")
    ensures p.projectUrl == PlaceholderUrl(id, registry)
  {
    Project(id, None, registry, Some(["unknown"]), Some(["unknown"]), Some("unknown"), Some("carbonplan"),
            PlaceholderUrl(id, registry), Some(0), Some(0))
  }

  /** The referenced ids that have no project row yet. */
  function MissingIds(ids: seq<string>, existing: set<string>): (r: set<string>)
    ensures forall id :: id in r <==> id in ids && id !in existing
  {
    set id | id in ids && id !in existing
  }

  /** The project table, keyed by project id. */
  class ProjectTable {
    var rows: map<string, Project>

    constructor ()
      ensures rows == map[]
    {
      rows := map[];
    }

    /** `ensure_projects_exist`: one placeholder for each referenced id the
        table lacks; the rows already there are untouched, and nothing is
        written when no id is missing. `registryOf` stands for the registry
        lookup of the data package. */
    method EnsureProjectsExist(ids: seq<string>, registryOf: string -> string) returns (values: seq<Project>)
      modifies this
      ensures multiset(IdsOf(values)) == multiset(MissingIds(ids, old(rows).Keys))
      ensures forall k :: 0 <= k < |values| ==> values[k] == Placeholder(values[k].projectId, registryOf(values[k].projectId))
      ensures rows == old(rows) + map id | id in MissingIds(ids, old(rows).Keys) :: Placeholder(id, registryOf(id))
      ensures values == [] ==> rows == old(rows)
    {
      var missing := MissingIds(ids, rows.Keys);
      values := Placeholders(missing, registryOf);
      if values != [] {
        rows := rows + map id | id in missing :: Placeholder(id, registryOf(id));
      } else {
        assert multiset(missing) == multiset{};
        assert missing == {};
        assert rows + (map id | id in missing :: Placeholder(id, registryOf(id))) == rows;
      }
    }
  }

  /** The loop of `ensure_projects_exist` that builds one placeholder per
      missing id, in no particular order. */
  method Placeholders(missing: set<string>, registryOf: string -> string) returns (values: seq<Project>)
    ensures multiset(IdsOf(values)) == multiset(missing)
    ensures forall k :: 0 <= k < |values| ==> values[k] == Placeholder(values[k].projectId, registryOf(values[k].projectId))
  {
    values := [];
    var todo := missing;
    while todo != {}
      invariant todo <= missing
      invariant multiset(IdsOf(values)) + multiset(todo) == multiset(missing)
      invariant forall k :: 0 <= k < |values| ==>
        values[k] == Placeholder(values[k].projectId, registryOf(values[k].projectId))
      decreases todo
    {
      var id :| id in todo;
      values := values + [Placeholder(id, registryOf(id))];
      assert IdsOf(values) == IdsOf(values[..|values| - 1]) + [id];
      todo := todo - {id};
    }
  }

  function IdsOf(ps: seq<Project>): (r: seq<string>)
    ensures |r| == |ps|
    ensures forall k :: 0 <= k < |ps| ==> r[k] == ps[k].projectId
  {
    seq(|ps|, k requires 0 <= k < |ps| => ps[k].projectId)
  }

  /** After the call every referenced id has a row, and the rows that were
      there keep their contents. */
  lemma {:induction false} EnsuredCovers(before: map<string, Project>, ids: seq<string>, registryOf: string -> string)
    ensures var after := before + map id | id in MissingIds(ids, before.Keys) :: Placeholder(id, registryOf(id));
      (forall id :: id in ids ==> id in after) &&
      (forall id :: id in before ==> after[id] == before[id]) &&
      (forall id :: id in after && id !in before ==> id in ids && after[id] == Placeholder(id, registryOf(id)))
  {
    var missing := MissingIds(ids, before.Keys);
    var added := map id | id in missing :: Placeholder(id, registryOf(id));
    var after := before + added;
    forall id | id in ids ensures id in after {
      if id !in before {
        assert id in missing;
      }
    }
    forall id | id in before ensures after[id] == before[id] {
      assert id !in missing;
    }
  }

  /** A second call with the same ids adds nothing. */
  lemma EnsureIdempotent(before: map<string, Project>, ids: seq<string>, registryOf: string -> string)
    ensures var after := before + map id | id in MissingIds(ids, before.Keys) :: Placeholder(id, registryOf(id));
      MissingIds(ids, after.Keys) == {}
  {
    EnsuredCovers(before, ids, registryOf);
  }

  // ------------------------------------------------------------ array columns

  /** One cell of a data frame. */
  datatype Cell = ListCell(items: seq<string>) | TextCell(text: string) | NullCell

  /** The declared SQL type of a column; only the array type matters here. */
  datatype ColumnType = TextColumn | IntegerColumn | BooleanColumn | DateColumn | DateTimeColumn | ArrayColumn

  /** The PostgreSQL array literal of a list: `{a,b,c}`. */
  function ArrayLiteral(items: seq<string>): (r: string)
    ensures |r| >= 2 && r[0] == '{' && r[|r| - 1] == '}'
  {
    "{" + Join(items, ",") + "}"
  }

  /** Reading an array literal back: the text between the braces, split at
      commas. */
  function ParseArrayLiteral(s: string): Option<seq<string>>
  {
    if |s| >= 2 && s[0] == '{' && s[|s| - 1] == '}' then Some(Split(s[1..|s| - 1], ',')) else None
  }

  /** A non-empty list whose items hold no comma reads back as itself. */
  lemma ArrayLiteralRoundTrip(items: seq<string>)
    requires items != []
    requires forall i :: 0 <= i < |items| ==> ',' !in items[i]
    ensures ParseArrayLiteral(ArrayLiteral(items)) == Some(items)
  {
    var s := ArrayLiteral(items);
    assert s[1..|s| - 1] == Join(items, [',']);
    SplitJoin(items, ',');
  }

  /** The empty list becomes `{}`, which reads back as one empty item. */
  lemma EmptyArrayLiteral()
    ensures ArrayLiteral([]) == "{}"
    ensures ParseArrayLiteral("{}") == Some([""])
  {
    assert "{}"[1..1] == "";
  }

  function ConvertCell(c: Cell): (r: Cell)
    ensures c.ListCell? ==> r == TextCell(ArrayLiteral(c.items))
    ensures !c.ListCell? ==> r == c
  {
    match c
    case ListCell(items) => TextCell(ArrayLiteral(items))
    case _ => c
  }

  /** The frame `process_dataframe` writes, column by column. */
  class Frame {
    var columns: map<string, seq<Cell>>

    constructor (columns: map<string, seq<Cell>>)
      ensures this.columns == columns
    {
      this.columns := columns;
    }

    /** The conversion loop of `process_dataframe`: every array-typed column
        the frame has is rewritten cell by cell; list cells become array
        literals. */
    method ConvertArrays(dtypes: seq<(string, ColumnType)>)
      modifies this
      ensures columns == Converted(old(columns), dtypes)
    {
      for i := 0 to |dtypes|
        invariant columns == Converted(old(columns), dtypes[..i])
      {
        assert dtypes[..i + 1] == dtypes[..i] + [dtypes[i]];
        ConvertedStep(old(columns), dtypes[..i], dtypes[i]);
        var (name, dtype) := dtypes[i];
        if dtype == ArrayColumn && name in columns {
          columns := columns[name := ConvertColumn(columns[name])];
        }
      }
      assert dtypes[..|dtypes|] == dtypes;
    }
  }

  function ConvertColumn(cells: seq<Cell>): (r: seq<Cell>)
    ensures |r| == |cells|
    ensures forall k :: 0 <= k < |cells| ==> r[k] == ConvertCell(cells[k])
  {
    seq(|cells|, k requires 0 <= k < |cells| => ConvertCell(cells[k]))
  }

  /** Whether a column is one the loop converts. */
  predicate IsArrayColumn(dtypes: seq<(string, ColumnType)>, name: string)
  {
    exists i :: 0 <= i < |dtypes| && dtypes[i] == (name, ArrayColumn)
  }

  /** The frame after the loop: array columns converted, the rest as they were. */
  function Converted(frame: map<string, seq<Cell>>, dtypes: seq<(string, ColumnType)>): (r: map<string, seq<Cell>>)
    ensures r.Keys == frame.Keys
    ensures forall name :: name in frame && IsArrayColumn(dtypes, name) ==> r[name] == ConvertColumn(frame[name])
    ensures forall name :: name in frame && !IsArrayColumn(dtypes, name) ==> r[name] == frame[name]
  {
    map name | name in frame :: if IsArrayColumn(dtypes, name) then ConvertColumn(frame[name]) else frame[name]
  }

  lemma ConvertCellIdempotent(c: Cell)
    ensures ConvertCell(ConvertCell(c)) == ConvertCell(c)
  {
  }

  /** Converting a column a second time changes nothing: a literal is text. */
  lemma ConvertColumnIdempotent(cells: seq<Cell>)
    ensures ConvertColumn(ConvertColumn(cells)) == ConvertColumn(cells)
  {
  }

  lemma ConvertedStep(frame: map<string, seq<Cell>>, done: seq<(string, ColumnType)>, next: (string, ColumnType))
    ensures var before := Converted(frame, done);
      Converted(frame, done + [next]) ==
        if next.1 == ArrayColumn && next.0 in before then before[next.0 := ConvertColumn(before[next.0])] else before
  {
    var before := Converted(frame, done);
    var after := Converted(frame, done + [next]);
    forall name | name in frame
      ensures IsArrayColumn(done + [next], name) <==> IsArrayColumn(done, name) || next == (name, ArrayColumn)
    {
      if IsArrayColumn(done, name) {
        var i :| 0 <= i < |done| && done[i] == (name, ArrayColumn);
        assert (done + [next])[i] == (name, ArrayColumn);
      }
      if next == (name, ArrayColumn) {
        assert (done + [next])[|done|] == (name, ArrayColumn);
      }
    }
    if next.1 == ArrayColumn && next.0 in before {
      ConvertColumnIdempotent(frame[next.0]);
    }
  }

  // ------------------------------------------------------------ clip-project rows

  /** The total number of project ids over the clips. */
  function TotalLinks(pids: seq<seq<string>>): nat
  {
    if pids == [] then 0 else TotalLinks(pids[..|pids| - 1]) + |pids[|pids| - 1]|
  }

  /** The link rows of one clip, numbered from `first`. */
  function Links(clip: nat, projectIds: seq<string>, first: nat): (r: seq<ClipProject>)
    ensures |r| == |projectIds|
    ensures forall k :: 0 <= k < |r| ==> r[k] == ClipProject(first + k, clip, projectIds[k])
  {
    seq(|projectIds|, k requires 0 <= k < |projectIds| => ClipProject(first + k, clip, projectIds[k]))
  }

  /** The rows the nested loop builds: clip by clip, each clip's project ids in
      order. A clip's id is its row position in the concatenated frame. */
  function Expansion(pids: seq<seq<string>>): seq<ClipProject>
  {
    if pids == [] then []
    else Expansion(pids[..|pids| - 1]) + Links(|pids| - 1, pids[|pids| - 1], TotalLinks(pids[..|pids| - 1]))
  }

  method ExpandClipProjects(pids: seq<seq<string>>) returns (rows: seq<ClipProject>)
    ensures rows == Expansion(pids)
  {
    rows := [];
    var index := 0;
    for i := 0 to |pids|
      invariant rows == Expansion(pids[..i])
      invariant index == TotalLinks(pids[..i])
    {
      assert pids[..i + 1][..i] == pids[..i];
      var projectIds := pids[i];
      for k := 0 to |projectIds|
        invariant rows == Expansion(pids[..i]) + Links(i, projectIds[..k], TotalLinks(pids[..i]))
        invariant index == TotalLinks(pids[..i]) + k
      {
        assert Links(i, projectIds[..k + 1], TotalLinks(pids[..i])) ==
          Links(i, projectIds[..k], TotalLinks(pids[..i])) + [ClipProject(index, i, projectIds[k])];
        rows := rows + [ClipProject(index, i, projectIds[k])];
        index := index + 1;
      }
      assert projectIds[..|projectIds|] == projectIds;
    }
    assert pids[..|pids|] == pids;
  }

  /** There is one row per project id, the rows are numbered 0, 1, 2, … and
      they come clip by clip. */
  lemma {:induction false} ExpansionShape(pids: seq<seq<string>>)
    ensures |Expansion(pids)| == TotalLinks(pids)
    ensures forall k :: 0 <= k < |Expansion(pids)| ==> Expansion(pids)[k].id == k
    ensures forall k :: 0 <= k < |Expansion(pids)| ==> Expansion(pids)[k].clipId < |pids|
    ensures forall j, k :: 0 <= j < k < |Expansion(pids)| ==> Expansion(pids)[j].clipId <= Expansion(pids)[k].clipId
  {
    if pids != [] {
      ExpansionShape(pids[..|pids| - 1]);
    }
  }

  /** Some row links the clip to the project. */
  predicate Linked(rows: seq<ClipProject>, clip: nat, project: string)
  {
    exists k :: 0 <= k < |rows| && rows[k].clipId == clip && rows[k].projectId == project
  }

  lemma LinkedAppend(a: seq<ClipProject>, b: seq<ClipProject>, clip: nat, project: string)
    ensures Linked(a + b, clip, project) <==> Linked(a, clip, project) || Linked(b, clip, project)
  {
    if Linked(a + b, clip, project) {
      var k :| 0 <= k < |a + b| && (a + b)[k].clipId == clip && (a + b)[k].projectId == project;
      if k >= |a| {
        assert b[k - |a|] == (a + b)[k];
      }
    }
    if Linked(a, clip, project) {
      var k :| 0 <= k < |a| && a[k].clipId == clip && a[k].projectId == project;
      assert (a + b)[k] == a[k];
    }
    if Linked(b, clip, project) {
      var k :| 0 <= k < |b| && b[k].clipId == clip && b[k].projectId == project;
      assert (a + b)[|a| + k] == b[k];
    }
  }

  lemma LinkedLinks(c: nat, ps: seq<string>, first: nat, clip: nat, project: string)
    ensures Linked(Links(c, ps, first), clip, project) <==> clip == c && project in ps
  {
    var ls := Links(c, ps, first);
    if clip == c && project in ps {
      var j :| 0 <= j < |ps| && ps[j] == project;
      assert ls[j].clipId == clip && ls[j].projectId == project;
    }
  }

  /** A row links a clip to a project exactly when that project is among the
      clip's project ids. */
  lemma {:induction false} ExpansionMembers(pids: seq<seq<string>>, clip: nat, project: string)
    ensures Linked(Expansion(pids), clip, project) <==> clip < |pids| && project in pids[clip]
  {
    if pids != [] {
      var init := pids[..|pids| - 1];
      ExpansionMembers(init, clip, project);
      LinkedAppend(Expansion(init), Links(|pids| - 1, pids[|pids| - 1], TotalLinks(init)), clip, project);
      LinkedLinks(|pids| - 1, pids[|pids| - 1], TotalLinks(init), clip, project);
      if clip < |init| {
        assert pids[clip] == init[clip];
      }
    }
  }
}
