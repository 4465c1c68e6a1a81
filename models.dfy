/** The records of the current package and the row checks its frame schemas
    declare. */
module Models {
  import opened Base

  datatype FileStatus = Pending | Success | Failure

  datatype FileCategory = Projects | Credits | Clips | ProjectTypes | Unknown

  /** A submitted data file and what became of it. Instants are whole
      microseconds since 0001-01-01 00:00. */
  class File {
    var id: int
    var url: string
    var contentHash: Option<string>
    var status: FileStatus
    var error: Option<string>
    var recordedAt: nat
    var category: FileCategory

    /** `File(url=…, category=…)`: a new file is pending, has no error and no
        hash, is stamped with the time of creation and is of unknown category
        unless one is given. */
    constructor (id: int, url: string, given: Option<FileCategory>, now: nat)
      ensures this.id == id && this.url == url
      ensures status == Pending && error.None? && contentHash.None?
      ensures recordedAt == now
      ensures category == if given.Some? then given.value else Unknown
    {
      this.id := id;
      this.url := url;
      contentHash := None;
      status := Pending;
      error := None;
      recordedAt := now;
      category := if given.Some? then given.value else Unknown;
    }
  }

  /** A row of the project table. */
  datatype Project = Project(
    projectId: string,
    name: Option<string>,
    registry: string,
    protocol: Option<seq<string>>,
    category: Option<seq<string>>,
    projectType: Option<string>,
    typeSource: Option<string>,
    projectUrl: Option<string>,
    retired: Option<int>,
    issued: Option<int>)

  /** A row of the credit table. */
  datatype Credit = Credit(id: int, projectId: Option<string>, quantity: int, vintage: Option<int>,
                           transactionType: Option<string>)

  /** A row of the clip table. */
  datatype Clip = Clip(id: int, title: Option<string>, url: Option<string>, tags: Option<seq<string>>,
                       clipType: string)

  /** A row of the clip-to-project link table. */
  datatype ClipProject = ClipProject(id: int, clipId: int, projectId: string)

  // ------------------------------------------------------------ row checks

  /** The checked columns of a project frame row; a missing value is `None`. */
  datatype ProjectRow = ProjectRow(projectId: Option<string>, registry: Option<string>,
                                   retired: Option<int>, issued: Option<int>)

  datatype CreditRow = CreditRow(id: Option<int>, projectId: Option<string>, quantity: Option<int>)

  datatype ClipRow = ClipRow(id: Option<int>, projectId: Option<string>)

  /** A nullable column with the check `greater_than_or_equal_to(0)`. */
  predicate NoneOrNonNegative(v: Option<int>)
  {
    v.None? || v.value >= 0
  }

  /** `project_schema`, row by row. */
  predicate ProjectRowValid(r: ProjectRow)
  {
    r.projectId.Some? && r.registry.Some? && NoneOrNonNegative(r.retired) && NoneOrNonNegative(r.issued)
  }

  /** `credit_schema`, row by row. */
  predicate CreditRowValid(r: CreditRow)
  {
    r.id.Some? && r.projectId.Some? && NoneOrNonNegative(r.quantity)
  }

  /** `clip_schema`, row by row. */
  predicate ClipRowValid(r: ClipRow)
  {
    r.id.Some? && r.projectId.Some?
  }

  /** The columns a frame must carry: every declared one except those marked
      `required=False`. */
  const ProjectColumns: set<string> := {"protocol", "category", "retired", "issued", "project_id", "name",
    "registry", "proponent", "status", "country", "is_compliance", "project_url"}
  const CreditColumns: set<string> := {"quantity", "id", "project_id", "vintage", "transaction_date", "transaction_type"}
  const ClipColumns: set<string> := {"id", "project_id", "published_at", "title", "url", "tags", "notes",
    "is_waybacked", "article_type"}

  datatype SchemaError = MissingColumn | FailedCheck(row: nat)

  /** The index of the first row that fails, if any. */
  function FirstFailing<R>(rows: seq<R>, valid: R -> bool): (r: Option<nat>)
    ensures r.None? <==> forall i :: 0 <= i < |rows| ==> valid(rows[i])
    ensures r.Some? ==> r.value < |rows| && !valid(rows[r.value])
    ensures r.Some? ==> forall i :: 0 <= i < r.value ==> valid(rows[i])
  {
    if rows == [] then None
    else if !valid(rows[0]) then Some(0)
    else
      var rest := FirstFailing(rows[1..], valid);
      assert forall i :: 1 <= i < |rows| ==> rows[i] == rows[1..][i - 1];
      if rest.None? then None else Some(rest.value + 1)
  }

  /** `schema.validate(df)`: the frame itself when it has the required columns
      and every row passes, the first failure otherwise. */
  function Validate<R>(columns: set<string>, required: set<string>, rows: seq<R>, valid: R -> bool): (r: Result<seq<R>, SchemaError>)
    ensures r.Ok? <==> required <= columns && forall i :: 0 <= i < |rows| ==> valid(rows[i])
    ensures r.Ok? ==> r.value == rows
    ensures r.Err? && r.error.FailedCheck? ==> r.error.row < |rows| && !valid(rows[r.error.row])
  {
    if !(required <= columns) then Err(MissingColumn)
    else match FirstFailing(rows, valid)
      case None => Ok(rows)
      case Some(i) => Err(FailedCheck(i))
  }

  function ValidateProjects(columns: set<string>, rows: seq<ProjectRow>): Result<seq<ProjectRow>, SchemaError>
  {
    Validate(columns, ProjectColumns, rows, ProjectRowValid)
  }

  function ValidateCredits(columns: set<string>, rows: seq<CreditRow>): Result<seq<CreditRow>, SchemaError>
  {
    Validate(columns, CreditColumns, rows, CreditRowValid)
  }

  function ValidateClips(columns: set<string>, rows: seq<ClipRow>): Result<seq<ClipRow>, SchemaError>
  {
    Validate(columns, ClipColumns, rows, ClipRowValid)
  }

  /** A project frame passes exactly when it has the required columns, every
      row has a project id and a registry, and no total is negative; the
      `listed_at` column may be absent. */
  lemma ValidateProjectsIff(columns: set<string>, rows: seq<ProjectRow>)
    ensures ValidateProjects(columns, rows).Ok? <==>
      ProjectColumns <= columns &&
      forall i :: 0 <= i < |rows| ==>
        rows[i].projectId.Some? && rows[i].registry.Some? &&
        (rows[i].retired.None? || rows[i].retired.value >= 0) &&
        (rows[i].issued.None? || rows[i].issued.value >= 0)
    ensures "listed_at" !in ProjectColumns
  {
  }

  /** A credit frame passes exactly when every row has an id and a project id
      and no quantity is negative. */
  lemma ValidateCreditsIff(columns: set<string>, rows: seq<CreditRow>)
    ensures ValidateCredits(columns, rows).Ok? <==>
      CreditColumns <= columns &&
      forall i :: 0 <= i < |rows| ==>
        rows[i].id.Some? && rows[i].projectId.Some? && (rows[i].quantity.None? || rows[i].quantity.value >= 0)
  {
  }

  /** A clip frame passes exactly when every row has an id and a project id. */
  lemma ValidateClipsIff(columns: set<string>, rows: seq<ClipRow>)
    ensures ValidateClips(columns, rows).Ok? <==>
      ClipColumns <= columns && forall i :: 0 <= i < |rows| ==> rows[i].id.Some? && rows[i].projectId.Some?
  {
  }

  /** Validation changes nothing: a frame that passes passes again, unchanged. */
  lemma ValidateIdempotent<R>(columns: set<string>, required: set<string>, rows: seq<R>, valid: R -> bool)
    requires Validate(columns, required, rows, valid).Ok?
    ensures Validate(columns, required, Validate(columns, required, rows, valid).value, valid) ==
      Validate(columns, required, rows, valid)
  {
  }
}
