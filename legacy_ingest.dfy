/** The loading tasks of the earlier package: project and credit files are
    merged into their tables record by record, stale rows are removed,
    project totals and daily statistics are recomputed. Reading CSV files,
    hashing and the database session are not part of this model: what they
    return is given as parameters. */
module LegacyIngest {
  import opened Base
  import opened Strings
  import Models

  /** A column value; `Null` is SQL's NULL and pandas' missing value. */
  datatype Value = Null | Text(text: string) | Number(n: int)

  /** One record of a file chunk, or one row of a table: column to value. */
  type Record = map<string, Value>

  /** A row's value in a column; a column the row lacks is NULL. */
  function KeyOf(r: Record, attr: string): (v: Value)
    ensures attr !in r ==> v == Null
  {
    if attr in r then r[attr] else Null
  }

  datatype LegacyCategory = ProjectsFile | CreditsFile | UnknownFile

  /** The column that identifies a record of each kind of file. */
  function KeyAttribute(c: LegacyCategory): string
    requires c != UnknownFile
  {
    if c == ProjectsFile then "project_id" else "transaction_serial_number"
  }

  /** The columns an update never copies: the row id and the record key. */
  function ProtectedKeys(c: LegacyCategory): (keys: seq<string>)
    requires c != UnknownFile
    ensures keys == ["id", KeyAttribute(c)]
  {
    ["id", KeyAttribute(c)]
  }

  // ------------------------------------------------------------ chunks and batches

  /** The chunk size of a file: its own when positive, 10 000 otherwise. */
  function ChunkSize(chunksize: Option<int>): (b: nat)
    ensures b > 0
    ensures chunksize.Some? && chunksize.value > 0 ==> b == chunksize.value
    ensures chunksize.None? || chunksize.value <= 0 ==> b == 10_000
  {
    if chunksize.Some? && chunksize.value > 0 then chunksize.value else 10_000
  }

  /** `[xs[i : i + b] for i in range(0, len(xs), b)]`. */
  function Batches<T>(xs: seq<T>, b: nat): seq<seq<T>>
    requires b > 0
    decreases |xs|
  {
    if xs == [] then [] else if |xs| <= b then [xs] else [xs[..b]] + Batches(xs[b..], b)
  }

  function Flatten<T>(xss: seq<seq<T>>): seq<T>
  {
    if xss == [] then [] else xss[0] + Flatten(xss[1..])
  }

  /** The batches cover the list exactly once and in order; every batch is
      non-empty and at most `b` long, and only the last may be shorter. */
  lemma {:induction false} BatchesCover<T>(xs: seq<T>, b: nat)
    requires b > 0
    ensures Flatten(Batches(xs, b)) == xs
    ensures forall k :: 0 <= k < |Batches(xs, b)| ==> 0 < |Batches(xs, b)[k]| <= b
    ensures forall k :: 0 <= k < |Batches(xs, b)| - 1 ==> |Batches(xs, b)[k]| == b
    ensures |Batches(xs, b)| * b >= |xs| && (|Batches(xs, b)| - 1) * b < |xs| + (if xs == [] then b else 0)
    decreases |xs|
  {
    if xs != [] && |xs| > b {
      BatchesCover(xs[b..], b);
      assert xs[..b] + xs[b..] == xs;
      var rest := Batches(xs[b..], b);
      assert Batches(xs, b) == [xs[..b]] + rest;
      assert (|rest| + 1) * b == |rest| * b + b;
    } else if xs != [] {
      assert Batches(xs, b) == [xs];
      assert Flatten([xs]) == xs + Flatten([xs][1..]);
    }
  }

  /** `insert_new_records` on a table of rows: each batch is appended in turn. */
  class Table {
    var rows: seq<Record>

    constructor (rows: seq<Record>)
      ensures this.rows == rows
    {
      this.rows := rows;
    }

    method InsertNewRecords(newRecords: seq<Record>, batchSize: nat) returns (batches: seq<seq<Record>>)
      requires batchSize > 0
      modifies this
      ensures rows == old(rows) + newRecords
      ensures batches == Batches(newRecords, batchSize)
    {
      batches := [];
      var i := 0;
      while i < |newRecords|
        invariant 0 <= i <= |newRecords|
        invariant rows == old(rows) + newRecords[..i]
        invariant batches + Batches(newRecords[i..], batchSize) == Batches(newRecords, batchSize)
        decreases |newRecords| - i
      {
        var end := if i + batchSize <= |newRecords| then i + batchSize else |newRecords|;
        var batch := newRecords[i..end];
        BatchStep(newRecords, i, batchSize);
        rows := rows + batch;
        assert newRecords[..end] == newRecords[..i] + batch;
        batches := batches + [batch];
        i := end;
      }
      assert newRecords[..|newRecords|] == newRecords;
      assert newRecords[|newRecords|..] == [];
    }

    /** `remove_stale_records`: rows whose key is not among the valid ids are
        deleted, by SQL's `NOT IN`; a database error is rolled back and
        swallowed. */
    method RemoveStaleRecords(attr: string, validIds: seq<Value>, dbFails: bool)
      modifies this
      ensures dbFails ==> rows == old(rows)
      ensures !dbFails ==> rows == Kept(old(rows), attr, validIds)
    {
      if !dbFails {
        rows := Kept(rows, attr, validIds);
      }
    }

    /** One chunk of `process_project_records`: the rows that match a record
        are updated, then the records no row matches are inserted. */
    method LoadChunk(records: seq<Record>, attr: string, keys: seq<string>, batchSize: nat)
      requires batchSize > 0
      modifies this
      ensures rows == MergeChunk(old(rows), records, attr, keys)
    {
      var existing := FindExistingRecords(rows, records, attr);
      var newRecords := FindNewRecords(KeysOf(existing, attr), records, attr);
      rows := MergedRows(rows, records, attr, keys);
      var _ := InsertNewRecords(newRecords, batchSize);
    }

    /** `process_project_records` on a file read in chunks: every chunk is
        merged in turn, with batches of the file's chunk size. */
    method LoadFile(chunks: seq<seq<Record>>, category: LegacyCategory, chunksize: Option<int>)
      requires category != UnknownFile
      modifies this
      ensures rows == LoadAll(old(rows), chunks, KeyAttribute(category), ProtectedKeys(category))
    {
      var batchSize := ChunkSize(chunksize);
      for i := 0 to |chunks|
        invariant rows == LoadAll(old(rows), chunks[..i], KeyAttribute(category), ProtectedKeys(category))
      {
        LoadAllNext(old(rows), chunks, i, KeyAttribute(category), ProtectedKeys(category));
        LoadChunk(chunks[i], KeyAttribute(category), ProtectedKeys(category), batchSize);
      }
      assert chunks[..|chunks|] == chunks;
    }
  }

  lemma BatchStep<T>(xs: seq<T>, i: nat, b: nat)
    requires b > 0 && i < |xs|
    ensures var end := if i + b <= |xs| then i + b else |xs|;
      Batches(xs[i..], b) == [xs[i..end]] + Batches(xs[end..], b)
  {
    var end := if i + b <= |xs| then i + b else |xs|;
    if |xs[i..]| <= b {
      assert xs[i..end] == xs[i..];
      assert xs[end..] == [];
    } else {
      assert xs[i..][..b] == xs[i..end];
      assert xs[i..][b..] == xs[end..];
    }
  }

  // ------------------------------------------------------------ stale rows

  /** Whether `key NOT IN (validIds)` leaves the row. With ids to compare
      against, a NULL key, or a NULL among the ids, makes the test unknown,
      and an unknown test deletes nothing; against an empty list (an empty
      subquery) `NOT IN` is true for every row, NULL keys included. */
  predicate Stays(key: Value, validIds: seq<Value>)
  {
    validIds != [] && (key == Null || Null in validIds || key in validIds)
  }

  function Kept(rows: seq<Record>, attr: string, validIds: seq<Value>): (r: seq<Record>)
    ensures |r| <= |rows|
  {
    if rows == [] then []
    else
      var init := Kept(rows[..|rows| - 1], attr, validIds);
      if Stays(KeyOf(rows[|rows| - 1], attr), validIds) then init + [rows[|rows| - 1]] else init
  }

  /** After the deletion no row has a non-NULL key outside the valid ids, and
      every row whose key is valid is still there. */
  lemma {:induction false} KeptRows(rows: seq<Record>, attr: string, validIds: seq<Value>)
    ensures forall r :: r in Kept(rows, attr, validIds) <==> r in rows && Stays(KeyOf(r, attr), validIds)
  {
    if rows != [] {
      KeptRows(rows[..|rows| - 1], attr, validIds);
      assert rows == rows[..|rows| - 1] + [rows[|rows| - 1]];
    }
  }

  /** Removing stale rows twice removes nothing more. */
  lemma {:induction false} KeptIdempotent(rows: seq<Record>, attr: string, validIds: seq<Value>)
    ensures Kept(Kept(rows, attr, validIds), attr, validIds) == Kept(rows, attr, validIds)
  {
    if rows != [] {
      var init := rows[..|rows| - 1];
      KeptIdempotent(init, attr, validIds);
      var k := Kept(init, attr, validIds);
      var last := rows[|rows| - 1];
      if Stays(KeyOf(last, attr), validIds) {
        assert (k + [last])[..|k + [last]| - 1] == k;
      }
    }
  }

  /** A NULL among the valid ids keeps every row. */
  lemma NullValidIdKeepsAll(rows: seq<Record>, attr: string, validIds: seq<Value>)
    requires Null in validIds
    ensures Kept(rows, attr, validIds) == rows
  {
    if rows != [] {
      NullValidIdKeepsAll(rows[..|rows| - 1], attr, validIds);
      assert rows == rows[..|rows| - 1] + [rows[|rows| - 1]];
    }
  }

  /** An empty list of valid ids deletes every row. */
  lemma {:induction false} EmptyValidIdsDeletesAll(rows: seq<Record>, attr: string)
    ensures Kept(rows, attr, []) == []
  {
    if rows != [] {
      EmptyValidIdsDeletesAll(rows[..|rows| - 1], attr);
    }
  }

  // ------------------------------------------------------------ merging records

  /** The first record of the chunk with the given key: the `next(…)` of
      `update_existing_records`. */
  function FirstMatch(records: seq<Record>, attr: string, key: Value): (m: Option<Record>)
    ensures m.Some? ==> m.value in records && KeyOf(m.value, attr) == key
    ensures m.Some? ==> exists k :: (0 <= k < |records| && records[k] == m.value &&
      forall j :: 0 <= j < k ==> KeyOf(records[j], attr) != key)
    ensures m.None? <==> forall j :: 0 <= j < |records| ==> KeyOf(records[j], attr) != key
  {
    if records == [] then None
    else if KeyOf(records[0], attr) == key then Some(records[0])
    else
      var m := FirstMatch(records[1..], attr, key);
      assert forall j :: 1 <= j < |records| ==> records[j] == records[1..][j - 1];
      if m.Some? then
        var k :| 0 <= k < |records[1..]| && records[1..][k] == m.value &&
          forall j :: 0 <= j < k ==> KeyOf(records[1..][j], attr) != key;
        assert records[k + 1] == m.value;
        m
      else m
  }

  /** A row's fields after `update_record`: every column of the matching
      record that the row has and that is not protected is copied. */
  function Updated(fields: Record, matching: Record, keys: seq<string>): (r: Record)
    ensures r.Keys == fields.Keys
    ensures forall k :: k in fields && k in matching && k !in keys ==> r[k] == matching[k]
    ensures forall k :: k in fields && (k !in matching || k in keys) ==> r[k] == fields[k]
  {
    map k | k in fields :: if k in matching && k !in keys then matching[k] else fields[k]
  }

  /** Updating again from the same record changes nothing. */
  lemma UpdatedIdempotent(fields: Record, matching: Record, keys: seq<string>)
    ensures Updated(Updated(fields, matching, keys), matching, keys) == Updated(fields, matching, keys)
  {
  }

  /** An existing ORM row; `update_record` sets its attributes in place. */
  class Row {
    var fields: Record

    constructor (fields: Record)
      ensures this.fields == fields
    {
      this.fields := fields;
    }

    /** `update_record`: the loop over the matching record's items. */
    method UpdateRecord(matching: Record, keys: seq<string>)
      modifies this
      ensures fields == Updated(old(fields), matching, keys)
    {
      var todo := matching.Keys;
      while todo != {}
        invariant todo <= matching.Keys
        invariant fields.Keys == old(fields).Keys
        invariant forall k :: k in fields ==>
          fields[k] == if k in matching && k !in todo && k !in keys then matching[k] else old(fields)[k]
        decreases todo
      {
        var key :| key in todo;
        if key !in keys && key in fields {
          fields := fields[key := matching[key]];
        }
        todo := todo - {key};
      }
    }
  }

  function FieldsOf(rows: seq<Row>): (r: seq<Record>)
    reads rows
    ensures |r| == |rows| && forall k :: 0 <= k < |rows| ==> r[k] == rows[k].fields
  {
    seq(|rows|, k reads rows requires 0 <= k < |rows| => rows[k].fields)
  }

  /** The dict sent for a row: its updated fields when a non-empty record
      matches it (an empty dict is false for the `:=` test). */
  function SentFor(f: Record, records: seq<Record>, attr: string, keys: seq<string>): Option<Record>
  {
    match FirstMatch(records, attr, KeyOf(f, attr))
    case Some(m) => if m != map[] then Some(Updated(f, m, keys)) else None
    case None => None
  }

  /** The dicts `update_existing_records` sends, given the rows' fields
      before the update: one per row that has a matching record. */
  function UpdatedList(before: seq<Record>, records: seq<Record>, attr: string, keys: seq<string>): seq<Record>
  {
    if before == [] then []
    else
      var init := UpdatedList(before[..|before| - 1], records, attr, keys);
      match SentFor(before[|before| - 1], records, attr, keys)
      case Some(sent) => init + [sent]
      case None => init
  }

  /** What a row becomes: updated from the first matching record, or left as
      it was. */
  function Merged(f: Record, records: seq<Record>, attr: string, keys: seq<string>): Record
  {
    match FirstMatch(records, attr, KeyOf(f, attr))
    case Some(m) => Updated(f, m, keys)
    case None => f
  }

  lemma MergedIdempotent(f: Record, records: seq<Record>, attr: string, keys: seq<string>)
    requires attr in keys
    ensures Merged(Merged(f, records, attr, keys), records, attr, keys) == Merged(f, records, attr, keys)
  {
    match FirstMatch(records, attr, KeyOf(f, attr))
    case Some(m) =>
      assert KeyOf(Updated(f, m, keys), attr) == KeyOf(f, attr);
      UpdatedIdempotent(f, m, keys);
    case None =>
  }

  /** `update_existing_records`: each existing row with a matching record is
      updated from the first one and sent, in batches; a row without a match
      is neither changed nor sent. The key is protected, so a row keeps the
      key it is matched by. */
  method UpdateExistingRecords(existing: seq<Row>, records: seq<Record>, attr: string, keys: seq<string>,
                               batchSize: nat)
    returns (toUpdate: seq<Record>, batches: seq<seq<Record>>)
    requires batchSize > 0 && attr in keys
    modifies existing
    ensures forall row :: row in existing ==> row.fields == Merged(old(row.fields), records, attr, keys)
    ensures toUpdate == UpdatedList(old(FieldsOf(existing)), records, attr, keys)
    ensures batches == Batches(toUpdate, batchSize)
  {
    toUpdate := MergeAll(existing, records, attr, keys);
    batches := Batches(toUpdate, batchSize);
  }

  /** The loop of `update_existing_records`: every row is merged once, in
      order; a row listed twice is merged again, to no effect. */
  method MergeAll(existing: seq<Row>, records: seq<Record>, attr: string, keys: seq<string>)
    returns (toUpdate: seq<Record>)
    requires attr in keys
    modifies existing
    ensures forall row :: row in existing ==> row.fields == Merged(old(row.fields), records, attr, keys)
    ensures toUpdate == UpdatedList(old(FieldsOf(existing)), records, attr, keys)
  {
    ghost var before := FieldsOf(existing);
    toUpdate := [];
    for i := 0 to |existing|
      invariant toUpdate == UpdatedList(before[..i], records, attr, keys)
      invariant forall row :: row in existing[..i] ==> row.fields == Merged(old(row.fields), records, attr, keys)
      invariant forall row :: row in existing && row !in existing[..i] ==> row.fields == old(row.fields)
    {
      var row := existing[i];
      InTakeSnoc(existing, i + 1);
      UpdatedListNext(before, i, records, attr, keys);
      ghost var original := old(row.fields);
      assert before[i] == original;
      if row in existing[..i] {
        MergedIdempotent(original, records, attr, keys);
      }
      var sent := MergeRow(row, records, attr, keys);
      if sent.Some? {
        toUpdate := toUpdate + [sent.value];
      }
    }
    assert before[..|existing|] == before;
  }

  /** One more row adds what is sent for it, if anything. */
  lemma UpdatedListNext(before: seq<Record>, i: nat, records: seq<Record>, attr: string, keys: seq<string>)
    requires i < |before|
    ensures UpdatedList(before[..i + 1], records, attr, keys) ==
      UpdatedList(before[..i], records, attr, keys) +
      (if SentFor(before[i], records, attr, keys).Some? then [SentFor(before[i], records, attr, keys).value] else [])
  {
    assert before[..i + 1][..i] == before[..i];
  }

  /** One turn of the loop of `update_existing_records`: the row is updated
      from its first matching record, whose result is sent when that record
      is not empty. */
  method MergeRow(row: Row, records: seq<Record>, attr: string, keys: seq<string>) returns (sent: Option<Record>)
    requires attr in keys
    modifies row
    ensures row.fields == Merged(old(row.fields), records, attr, keys)
    ensures sent == SentFor(old(row.fields), records, attr, keys)
  {
    var m := FirstMatch(records, attr, KeyOf(row.fields, attr));
    sent := None;
    if m.Some? {
      row.UpdateRecord(m.value, keys);
      if m.value != map[] {
        sent := Some(row.fields);
      }
    }
  }

  lemma SentAfterMerge(f: Record, records: seq<Record>, attr: string, keys: seq<string>)
    requires attr in keys
    ensures SentFor(Merged(f, records, attr, keys), records, attr, keys) == SentFor(f, records, attr, keys)
  {
    match FirstMatch(records, attr, KeyOf(f, attr))
    case Some(m) =>
      assert KeyOf(Updated(f, m, keys), attr) == KeyOf(f, attr);
      UpdatedIdempotent(f, m, keys);
    case None =>
  }

  /** `find_new_records`: the chunk's records whose key no existing row has,
      in chunk order. */
  function FindNewRecords(existingKeys: set<Value>, records: seq<Record>, attr: string): (r: seq<Record>)
    ensures forall x :: x in r <==> x in records && KeyOf(x, attr) !in existingKeys
    ensures |r| <= |records|
  {
    if records == [] then []
    else
      var init := FindNewRecords(existingKeys, records[..|records| - 1], attr);
      var x := records[|records| - 1];
      assert records == records[..|records| - 1] + [x];
      if KeyOf(x, attr) !in existingKeys then init + [x] else init
  }

  /** `find_existing_records`: the table rows whose key is `IN` the keys of
      the chunk; a NULL key matches nothing. */
  function FindExistingRecords(table: seq<Record>, records: seq<Record>, attr: string): (r: seq<Record>)
    ensures forall x :: x in r <==>
      (x in table && KeyOf(x, attr) != Null && exists j :: 0 <= j < |records| && KeyOf(records[j], attr) == KeyOf(x, attr))
  {
    if table == [] then []
    else
      var init := FindExistingRecords(table[..|table| - 1], records, attr);
      var x := table[|table| - 1];
      assert table == table[..|table| - 1] + [x];
      if KeyOf(x, attr) != Null && exists j :: 0 <= j < |records| && KeyOf(records[j], attr) == KeyOf(x, attr)
      then init + [x] else init
  }

  function KeysOf(rows: seq<Record>, attr: string): (keys: set<Value>)
    ensures forall v :: v in keys <==> exists x :: x in rows && KeyOf(x, attr) == v
  {
    set x | x in rows :: KeyOf(x, attr)
  }

  /** A record of the chunk is inserted exactly when its key is NULL or no
      row of the table has it; every other record updates the rows that
      have its key. */
  lemma NewOrExisting(table: seq<Record>, records: seq<Record>, attr: string, r: Record)
    requires r in records
    ensures r in FindNewRecords(KeysOf(FindExistingRecords(table, records, attr), attr), records, attr) <==>
      KeyOf(r, attr) == Null || forall x :: x in table ==> KeyOf(x, attr) != KeyOf(r, attr)
  {
    var existing := FindExistingRecords(table, records, attr);
    var j :| 0 <= j < |records| && records[j] == r;
    if KeyOf(r, attr) != Null && exists x :: x in table && KeyOf(x, attr) == KeyOf(r, attr) {
      var x :| x in table && KeyOf(x, attr) == KeyOf(r, attr);
      assert x in existing;
    }
  }

  /** The table's rows after the update step of a chunk: a row with a
      non-NULL key takes the first matching record's values. */
  function MergedRows(table: seq<Record>, records: seq<Record>, attr: string, keys: seq<string>): (r: seq<Record>)
    ensures |r| == |table|
  {
    seq(|table|, i requires 0 <= i < |table| =>
      if KeyOf(table[i], attr) != Null then Merged(table[i], records, attr, keys) else table[i])
  }

  /** The table after a chunk: the updated rows, then the inserted records. */
  function MergeChunk(table: seq<Record>, records: seq<Record>, attr: string, keys: seq<string>): seq<Record>
  {
    MergedRows(table, records, attr, keys) +
      FindNewRecords(KeysOf(FindExistingRecords(table, records, attr), attr), records, attr)
  }

  function LoadAll(table: seq<Record>, chunks: seq<seq<Record>>, attr: string, keys: seq<string>): seq<Record>
  {
    if chunks == [] then table
    else MergeChunk(LoadAll(table, chunks[..|chunks| - 1], attr, keys), chunks[|chunks| - 1], attr, keys)
  }

  /** Loading one more chunk merges it into the table loaded so far. */
  lemma LoadAllNext(table: seq<Record>, chunks: seq<seq<Record>>, i: nat, attr: string, keys: seq<string>)
    requires i < |chunks|
    ensures LoadAll(table, chunks[..i + 1], attr, keys) == MergeChunk(LoadAll(table, chunks[..i], attr, keys), chunks[i], attr, keys)
  {
    assert chunks[..i + 1][..i] == chunks[..i];
  }

  /** An update never changes a row's key, since the key is protected. */
  lemma MergedKeepsKeys(table: seq<Record>, records: seq<Record>, attr: string, keys: seq<string>)
    requires attr in keys
    ensures forall i :: 0 <= i < |table| ==> KeyOf(MergedRows(table, records, attr, keys)[i], attr) == KeyOf(table[i], attr)
  {
    forall i | 0 <= i < |table|
      ensures KeyOf(MergedRows(table, records, attr, keys)[i], attr) == KeyOf(table[i], attr)
    {
      match FirstMatch(records, attr, KeyOf(table[i], attr))
      case Some(m) =>
      case None =>
    }
  }

  /** After a chunk is loaded every key it carries has a row. */
  lemma MergeCovers(table: seq<Record>, records: seq<Record>, attr: string, keys: seq<string>)
    requires attr in keys
    ensures forall r :: r in records && KeyOf(r, attr) != Null ==>
      exists x :: x in MergeChunk(table, records, attr, keys) && KeyOf(x, attr) == KeyOf(r, attr)
  {
    forall r | r in records && KeyOf(r, attr) != Null
      ensures exists x :: x in MergeChunk(table, records, attr, keys) && KeyOf(x, attr) == KeyOf(r, attr)
    {
      MergeCoversOne(table, records, attr, keys, r);
    }
  }

  lemma MergeCoversOne(table: seq<Record>, records: seq<Record>, attr: string, keys: seq<string>, r: Record)
    requires attr in keys && r in records
    ensures exists x :: x in MergeChunk(table, records, attr, keys) && KeyOf(x, attr) == KeyOf(r, attr)
  {
    var result := MergeChunk(table, records, attr, keys);
    NewOrExisting(table, records, attr, r);
    if i :| 0 <= i < |table| && KeyOf(table[i], attr) == KeyOf(r, attr) && KeyOf(r, attr) != Null {
      MergedKeepsKeys(table, records, attr, keys);
      assert result[i] == MergedRows(table, records, attr, keys)[i];
    } else {
      assert r in result;
    }
  }

  /** Loading a chunk keeps every row the table had, in place and with its key. */
  lemma MergeKeepsRows(table: seq<Record>, records: seq<Record>, attr: string, keys: seq<string>)
    requires attr in keys
    ensures |MergeChunk(table, records, attr, keys)| >= |table|
    ensures forall i :: 0 <= i < |table| ==> KeyOf(MergeChunk(table, records, attr, keys)[i], attr) == KeyOf(table[i], attr)
  {
    var merged := MergedRows(table, records, attr, keys);
    MergedKeepsKeys(table, records, attr, keys);
    forall i | 0 <= i < |table|
      ensures KeyOf(MergeChunk(table, records, attr, keys)[i], attr) == KeyOf(table[i], attr)
    {
      assert MergeChunk(table, records, attr, keys)[i] == merged[i];
    }
  }

  // ------------------------------------------------------------ project totals

  /** A credit as `calculate_totals` reads it; the quantity column is nullable. */
  datatype CreditRow = CreditRow(projectId: string, quantity: Option<int>, transactionType: Option<string>)

  /** A project row with the two totals the task rewrites. */
  class ProjectRow {
    const projectId: string
    var issued: Option<int>
    var retired: Option<int>

    constructor (projectId: string, issued: Option<int>, retired: Option<int>)
      ensures this.projectId == projectId && this.issued == issued && this.retired == retired
    {
      this.projectId := projectId;
      this.issued := issued;
      this.retired := retired;
    }
  }

  predicate IsIssuance(c: CreditRow)
  {
    c.transactionType == Some("issuance")
  }

  /** The `elif` branch: a type other than issuance that mentions retirement. */
  predicate IsRetirement(c: CreditRow)
  {
    c.transactionType.Some? && c.transactionType.value != "issuance" && Contains(c.transactionType.value, "retirement")
  }

  /** A credit the loop cannot add: a NULL type makes `'retirement' in None`
      raise, and a NULL quantity makes the `+=` of an issuance or a
      retirement raise. Other credits are skipped whatever their quantity. */
  predicate Unaddable(c: CreditRow)
  {
    c.transactionType.None? || ((IsIssuance(c) || IsRetirement(c)) && c.quantity.None?)
  }

  /** Some credit of the project raises `TypeError` in the loop. */
  predicate Raises(credits: seq<CreditRow>, id: string)
  {
    exists k :: 0 <= k < |credits| && credits[k].projectId == id && Unaddable(credits[k])
  }

  /** The quantity a credit adds; only read where the credit is addable, so
      where it is present. */
  function Added(c: CreditRow): int
  {
    if c.quantity.Some? then c.quantity.value else 0
  }

  function IssuedTotal(credits: seq<CreditRow>, id: string): int
  {
    if credits == [] then 0
    else
      var c := credits[|credits| - 1];
      IssuedTotal(credits[..|credits| - 1], id) + (if c.projectId == id && IsIssuance(c) then Added(c) else 0)
  }

  function RetiredTotal(credits: seq<CreditRow>, id: string): int
  {
    if credits == [] then 0
    else
      var c := credits[|credits| - 1];
      RetiredTotal(credits[..|credits| - 1], id) + (if c.projectId == id && IsRetirement(c) then Added(c) else 0)
  }

  datatype TotalsError = TypeError

  /** The inner loop of `calculate_totals`: the two accumulators over the
      project's credits. */
  method ProjectTotals(id: string, credits: seq<CreditRow>) returns (r: Result<(int, int), TotalsError>)
    ensures r.Ok? <==> !Raises(credits, id)
    ensures r.Ok? ==> r.value == (IssuedTotal(credits, id), RetiredTotal(credits, id))
  {
    var issuedTotal, retiredTotal := 0, 0;
    for i := 0 to |credits|
      invariant !Raises(credits[..i], id)
      invariant issuedTotal == IssuedTotal(credits[..i], id) && retiredTotal == RetiredTotal(credits[..i], id)
    {
      assert credits[..i + 1][..i] == credits[..i];
      var credit := credits[i];
      assert credits[..i + 1][i] == credit;
      if credit.projectId == id {
        if credit.transactionType == Some("issuance") {
          if credit.quantity.None? {
            RaisesPrefix(credits, i + 1, id);
            return Err(TypeError);
          }
          issuedTotal := issuedTotal + credit.quantity.value;
        } else if credit.transactionType.None? {
          RaisesPrefix(credits, i + 1, id);
          return Err(TypeError);
        } else if Contains(credit.transactionType.value, "retirement") {
          if credit.quantity.None? {
            RaisesPrefix(credits, i + 1, id);
            return Err(TypeError);
          }
          retiredTotal := retiredTotal + credit.quantity.value;
        }
      }
    }
    assert credits[..|credits|] == credits;
    return Ok((issuedTotal, retiredTotal));
  }

  lemma RaisesPrefix(credits: seq<CreditRow>, n: nat, id: string)
    requires n <= |credits| && Raises(credits[..n], id)
    ensures Raises(credits, id)
  {
    var k :| 0 <= k < n && credits[..n][k].projectId == id && Unaddable(credits[..n][k]);
    assert credits[k] == credits[..n][k];
  }

  /** `calculate_totals`: every project's issued and retired totals are
      recomputed from its credits; when a credit of any project has no type,
      or is an issuance or a retirement with no quantity, the session is
      rolled back and every project keeps its totals. */
  method CalculateTotals(projects: seq<ProjectRow>, credits: seq<CreditRow>) returns (r: Result<(), TotalsError>)
    modifies projects
    ensures r.Ok? <==> forall p :: p in projects ==> !Raises(credits, p.projectId)
    ensures r.Ok? ==> forall p :: p in projects ==>
      p.issued == Some(IssuedTotal(credits, p.projectId)) && p.retired == Some(RetiredTotal(credits, p.projectId))
    ensures r.Err? ==> forall p :: p in projects ==> p.issued == old(p.issued) && p.retired == old(p.retired)
  {
    var saved := seq(|projects|, k requires 0 <= k < |projects| reads projects => (projects[k].issued, projects[k].retired));
    for i := 0 to |projects|
      invariant forall k :: 0 <= k < |projects| ==> saved[k] == old((projects[k].issued, projects[k].retired))
      invariant forall p :: p in projects[..i] ==>
        p.issued == Some(IssuedTotal(credits, p.projectId)) && p.retired == Some(RetiredTotal(credits, p.projectId))
      invariant forall p :: p in projects[..i] ==> !Raises(credits, p.projectId)
      invariant forall p :: p in projects && p !in projects[..i] ==> p.issued == old(p.issued) && p.retired == old(p.retired)
    {
      var project := projects[i];
      assert projects[..i + 1] == projects[..i] + [project];
      var totals := ProjectTotals(project.projectId, credits);
      if totals.Err? {
        Restore(projects, saved);
        return Err(TypeError);
      }
      project.issued := Some(totals.value.0);
      project.retired := Some(totals.value.1);
    }
    assert projects[..|projects|] == projects;
    return Ok(());
  }

  /** `session.rollback()`: every project gets back the totals it had. */
  method Restore(projects: seq<ProjectRow>, saved: seq<(Option<int>, Option<int>)>)
    requires |saved| == |projects|
    requires forall i, j :: 0 <= i < |projects| && 0 <= j < |projects| && projects[i] == projects[j] ==> saved[i] == saved[j]
    modifies projects
    ensures forall k :: 0 <= k < |projects| ==> (projects[k].issued, projects[k].retired) == saved[k]
  {
    for i := 0 to |projects|
      invariant forall k :: 0 <= k < i ==> (projects[k].issued, projects[k].retired) == saved[k]
    {
      projects[i].issued, projects[i].retired := saved[i].0, saved[i].1;
    }
  }

  /** Credits from two files add up. */
  lemma {:induction false} TotalsAppend(a: seq<CreditRow>, b: seq<CreditRow>, id: string)
    ensures IssuedTotal(a + b, id) == IssuedTotal(a, id) + IssuedTotal(b, id)
    ensures RetiredTotal(a + b, id) == RetiredTotal(a, id) + RetiredTotal(b, id)
  {
    if b == [] {
      assert a + b == a;
    } else {
      TotalsAppend(a, b[..|b| - 1], id);
      assert (a + b)[..|a + b| - 1] == a + b[..|b| - 1];
    }
  }

  /** With non-negative quantities both totals are non-negative. */
  lemma {:induction false} TotalsNonNegative(credits: seq<CreditRow>, id: string)
    requires forall k :: 0 <= k < |credits| ==> credits[k].quantity.None? || credits[k].quantity.value >= 0
    ensures IssuedTotal(credits, id) >= 0 && RetiredTotal(credits, id) >= 0
  {
    if credits != [] {
      TotalsNonNegative(credits[..|credits| - 1], id);
    }
  }

  // ------------------------------------------------------------ daily statistics

  /** The number of projects of each registry: the `group_by(registry)` query. */
  function RegistryCounts(registries: seq<string>): (counts: map<string, nat>)
    ensures forall r :: r in counts <==> r in registries
    ensures forall r :: r in counts ==> counts[r] == multiset(registries)[r]
  {
    if registries == [] then map[]
    else
      var init := registries[..|registries| - 1];
      var last := registries[|registries| - 1];
      assert registries == init + [last];
      var m := RegistryCounts(init);
      m[last := (if last in m then m[last] else 0) + 1]
  }

  /** The join of credits with their project: registry, transaction type and
      quantity of every credit whose project exists. */
  function Joined(credits: seq<CreditRow>, registryOf: map<string, string>): (r: seq<(string, Option<string>, Option<int>)>)
    ensures |r| <= |credits|
  {
    if credits == [] then []
    else
      var init := Joined(credits[..|credits| - 1], registryOf);
      var c := credits[|credits| - 1];
      if c.projectId in registryOf then init + [(registryOf[c.projectId], c.transactionType, c.quantity)] else init
  }

  /** A group of the credit query: a registry and a transaction type. */
  type Group = (string, Option<string>)

  function GroupOf(x: (string, Option<string>, Option<int>)): Group
  {
    (x.0, x.1)
  }

  /** SQL `SUM` over one more row: a NULL quantity is skipped, and the sum
      stays NULL until some quantity is present. */
  function AddSum(sum: Option<int>, q: Option<int>): Option<int>
  {
    match q
    case None => sum
    case Some(x) => Some((if sum.Some? then sum.value else 0) + x)
  }

  /** `sum(quantity)` and `count(id)` of one (registry, transaction type)
      group: the count takes every credit, the sum only present quantities. */
  function GroupTotal(joined: seq<(string, Option<string>, Option<int>)>, g: Group): (t: (Option<int>, nat))
  {
    if joined == [] then (None, 0)
    else
      var t := GroupTotal(joined[..|joined| - 1], g);
      var x := joined[|joined| - 1];
      if GroupOf(x) == g then (AddSum(t.0, x.2), t.1 + 1) else t
  }

  /** The grouped credit query: one entry per group that has a transaction,
      holding the group's total quantity and number of transactions. */
  function CreditGroups(joined: seq<(string, Option<string>, Option<int>)>): (groups: map<Group, (Option<int>, nat)>)
    ensures forall g :: g in groups <==> GroupTotal(joined, g).1 > 0
    ensures forall g :: g in groups ==> groups[g] == GroupTotal(joined, g)
  {
    if joined == [] then map[]
    else
      var init := joined[..|joined| - 1];
      var x := joined[|joined| - 1];
      var m := CreditGroups(init);
      var before := GroupTotal(init, GroupOf(x));
      GroupTotalEmpty(init, GroupOf(x));
      m[GroupOf(x) := (AddSum(before.0, x.2), before.1 + 1)]
  }

  /** A group without transactions has a NULL sum. */
  lemma {:induction false} GroupTotalEmpty(joined: seq<(string, Option<string>, Option<int>)>, g: Group)
    ensures GroupTotal(joined, g).1 == 0 ==> GroupTotal(joined, g).0.None?
  {
    if joined != [] {
      GroupTotalEmpty(joined[..|joined| - 1], g);
    }
  }

  /** A group's sum is NULL exactly when none of its credits has a quantity,
      although its count still includes them. */
  lemma {:induction false} GroupSumNull(joined: seq<(string, Option<string>, Option<int>)>, g: Group)
    ensures GroupTotal(joined, g).0.None? <==>
      forall i :: 0 <= i < |joined| && GroupOf(joined[i]) == g ==> joined[i].2.None?
  {
    if joined != [] {
      var init := joined[..|joined| - 1];
      GroupSumNull(init, g);
      assert forall i :: 0 <= i < |init| ==> init[i] == joined[i];
    }
  }

  /** A group has a row exactly when some credit of a listed project is of
      that registry and transaction type. */
  lemma {:induction false} GroupTotalPositive(joined: seq<(string, Option<string>, Option<int>)>, g: Group)
    ensures GroupTotal(joined, g).1 > 0 <==>
      exists i :: 0 <= i < |joined| && joined[i].0 == g.0 && joined[i].1 == g.1
  {
    if joined != [] {
      var init := joined[..|joined| - 1];
      GroupTotalPositive(init, g);
      assert forall i :: 0 <= i < |init| ==> init[i] == joined[i];
    }
  }

  /** A day's statistics row for a registry. */
  datatype StatKey = StatKey(date: nat, registry: string)

  /** A day's statistics row for a registry and a transaction type; a NULL
      type is a group of its own, looked up with `IS NULL`. */
  datatype CreditStatKey = CreditStatKey(date: nat, registry: string, transactionType: Option<string>)

  /** The two statistics tables. */
  class StatsTable {
    var projectStats: map<StatKey, nat>
    var creditStats: map<CreditStatKey, (Option<int>, nat)>

    constructor ()
      ensures projectStats == map[] && creditStats == map[]
    {
      projectStats := map[];
      creditStats := map[];
    }

    /** `update_project_stats`: today's row of every registry that has
        projects is found or created and set to its project count; no other
        row changes. */
    method UpdateProjectStats(today: nat, registries: seq<string>)
      modifies this
      ensures creditStats == old(creditStats)
      ensures forall k :: k in projectStats <==> k in old(projectStats) || (k.date == today && k.registry in registries)
      ensures forall k :: k in projectStats ==>
        projectStats[k] == if k.date == today && k.registry in registries then multiset(registries)[k.registry]
                           else old(projectStats)[k]
    {
      var counts := RegistryCounts(registries);
      var todo := counts.Keys;
      while todo != {}
        invariant todo <= counts.Keys
        invariant creditStats == old(creditStats)
        invariant forall k :: k in projectStats <==>
          k in old(projectStats) || (k.date == today && k.registry in counts && k.registry !in todo)
        invariant forall k :: k in projectStats ==>
          projectStats[k] == if k.date == today && k.registry in counts && k.registry !in todo then counts[k.registry]
                             else old(projectStats)[k]
        decreases todo
      {
        var registry :| registry in todo;
        projectStats := projectStats[StatKey(today, registry) := counts[registry]];
        todo := todo - {registry};
      }
    }

    /** `update_credit_stats`: today's row of every (registry, transaction
        type) group of joined credits is found or created and set to the
        group's total quantity and number of transactions; no other row
        changes. */
    method UpdateCreditStats(today: nat, credits: seq<CreditRow>, registryOf: map<string, string>)
      modifies this
      ensures projectStats == old(projectStats)
      ensures forall k :: k in creditStats <==>
        (k in old(creditStats) || (k.date == today && (k.registry, k.transactionType) in CreditGroups(Joined(credits, registryOf))))
      ensures forall k :: k in creditStats ==>
        creditStats[k] == if k.date == today && (k.registry, k.transactionType) in CreditGroups(Joined(credits, registryOf))
                          then CreditGroups(Joined(credits, registryOf))[(k.registry, k.transactionType)]
                          else old(creditStats)[k]
    {
      var groups := CreditGroups(Joined(credits, registryOf));
      var todo := groups.Keys;
      while todo != {}
        invariant todo <= groups.Keys
        invariant projectStats == old(projectStats)
        invariant forall k :: k in creditStats <==>
          (k in old(creditStats) || (k.date == today && (k.registry, k.transactionType) in groups && (k.registry, k.transactionType) !in todo))
        invariant forall k :: k in creditStats ==>
          creditStats[k] == if k.date == today && (k.registry, k.transactionType) in groups && (k.registry, k.transactionType) !in todo
                            then groups[(k.registry, k.transactionType)] else old(creditStats)[k]
        decreases todo
      {
        var group :| group in todo;
        creditStats := creditStats[CreditStatKey(today, group.0, group.1) := groups[group]];
        todo := todo - {group};
      }
    }
  }

  // ------------------------------------------------------------ processing files

  /** A submitted file of the earlier package. */
  class LegacyFile {
    const url: string
    const category: LegacyCategory
    const chunksize: Option<int>
    const validRecordsUrl: Option<string>
    var contentHash: Option<string>
    var status: Models.FileStatus
    var error: Option<string>

    constructor (url: string, category: LegacyCategory, chunksize: Option<int>, validRecordsUrl: Option<string>)
      ensures this.url == url && this.category == category
      ensures this.chunksize == chunksize && this.validRecordsUrl == validRecordsUrl
      ensures contentHash.None? && status == Models.Pending && error.None?
    {
      this.url := url;
      this.category := category;
      this.chunksize := chunksize;
      this.validRecordsUrl := validRecordsUrl;
      contentHash := None;
      status := Models.Pending;
      error := None;
    }
  }

  /** How loading a file's records ends: with the hash of its chunks' hashes,
      or with an exception whose traceback ends with the given line. */
  datatype LoadOutcome = Loaded(hash: string) | Raised(lastLine: string)

  /** How reading the file of valid ids ends. */
  datatype ReadOutcome = ReadIds(ids: seq<Value>) | ReadRaised(lastLine: string)

  /** A file's (status, error, content hash) after `process_files`. */
  function Settled(category: LegacyCategory, validRecordsUrl: Option<string>,
                   before: (Models.FileStatus, Option<string>, Option<string>),
                   load: LoadOutcome, read: ReadOutcome): (r: (Models.FileStatus, Option<string>, Option<string>))
    ensures category == UnknownFile ==> r == before
    ensures category != UnknownFile && load.Raised? ==> r == (Models.Failure, Some(load.lastLine), before.2)
    ensures category != UnknownFile && load.Loaded? ==> r.2 == Some(load.hash)
    ensures r.0 == Models.Success && category != UnknownFile <==>
      category != UnknownFile && load.Loaded? && (validRecordsUrl.None? || read.ReadIds?)
    ensures r.0 == Models.Success && category != UnknownFile ==> r.1 == before.1
  {
    if category == UnknownFile then before
    else match load
      case Raised(line) => (Models.Failure, Some(line), before.2)
      case Loaded(hash) =>
        if validRecordsUrl.None? then (Models.Success, before.1, Some(hash))
        else match read
          case ReadIds(_) => (Models.Success, before.1, Some(hash))
          case ReadRaised(line) => (Models.Failure, Some(line), Some(hash))
  }

  /** Processing a file again with the same outcomes changes nothing more. */
  lemma SettledIdempotent(category: LegacyCategory, validRecordsUrl: Option<string>,
                          before: (Models.FileStatus, Option<string>, Option<string>),
                          load: LoadOutcome, read: ReadOutcome)
    ensures Settled(category, validRecordsUrl, Settled(category, validRecordsUrl, before, load, read), load, read) ==
      Settled(category, validRecordsUrl, before, load, read)
  {
  }

  /** Whether `remove_stale_records` runs for a file. */
  predicate RemovesStale(f: LegacyFile, load: LegacyFile -> LoadOutcome, read: LegacyFile -> ReadOutcome)
  {
    f.category != UnknownFile && load(f).Loaded? && f.validRecordsUrl.Some? && read(f).ReadIds?
  }

  /** The `remove_stale_records` calls, in file order: the table and the
      valid ids. */
  function Removals(files: seq<LegacyFile>, load: LegacyFile -> LoadOutcome, read: LegacyFile -> ReadOutcome)
    : (r: seq<(LegacyCategory, seq<Value>)>)
    ensures |r| <= |files|
    ensures forall x :: x in r ==> exists f :: f in files && RemovesStale(f, load, read) && x == (f.category, read(f).ids)
  {
    if files == [] then []
    else
      var init := Removals(files[..|files| - 1], load, read);
      var f := files[|files| - 1];
      assert forall g :: g in files[..|files| - 1] ==> g in files;
      if RemovesStale(f, load, read) then init + [(f.category, read(f).ids)] else init
  }

  /** One turn of the loop of `process_files`. */
  method ProcessFile(f: LegacyFile, load: LoadOutcome, read: ReadOutcome) returns (removal: Option<seq<Value>>)
    modifies f
    ensures (f.status, f.error, f.contentHash) == Settled(f.category, f.validRecordsUrl, old((f.status, f.error, f.contentHash)), load, read)
    ensures removal.Some? <==> f.category != UnknownFile && load.Loaded? && f.validRecordsUrl.Some? && read.ReadIds?
    ensures removal.Some? ==> removal.value == read.ids
  {
    removal := None;
    if f.category == UnknownFile {
      return;
    }
    match load {
      case Raised(line) =>
        f.status, f.error := Models.Failure, Some(line);
      case Loaded(hash) =>
        f.contentHash, f.status := Some(hash), Models.Success;
        if f.validRecordsUrl.Some? {
          match read {
            case ReadIds(ids) =>
              removal := Some(ids);
            case ReadRaised(line) =>
              f.status, f.error := Models.Failure, Some(line);
          }
        }
    }
  }

  /** `process_files`: each file of a known category is loaded and marked
      success or failure, the failure carrying the last line of the
      traceback; a file of unknown category is skipped. Stale rows are
      removed only after a successful load. */
  method ProcessFiles(files: seq<LegacyFile>, load: LegacyFile -> LoadOutcome, read: LegacyFile -> ReadOutcome)
    returns (removals: seq<(LegacyCategory, seq<Value>)>)
    modifies files
    ensures forall f :: f in files ==>
      (f.status, f.error, f.contentHash) == Settled(f.category, f.validRecordsUrl, old((f.status, f.error, f.contentHash)), load(f), read(f))
    ensures removals == Removals(files, load, read)
  {
    removals := [];
    for i := 0 to |files|
      invariant removals == Removals(files[..i], load, read)
      invariant forall f :: f in files[..i] ==>
        (f.status, f.error, f.contentHash) == Settled(f.category, f.validRecordsUrl, old((f.status, f.error, f.contentHash)), load(f), read(f))
      invariant forall f :: f in files && f !in files[..i] ==> (f.status, f.error, f.contentHash) == old((f.status, f.error, f.contentHash))
    {
      var f := files[i];
      assert files[..i + 1] == files[..i] + [f];
      assert files[..i + 1][..i] == files[..i];
      if f in files[..i] {
        SettledIdempotent(f.category, f.validRecordsUrl, old((f.status, f.error, f.contentHash)), load(f), read(f));
      }
      var removal := ProcessFile(f, load(f), read(f));
      if removal.Some? {
        removals := removals + [(f.category, removal.value)];
      }
    }
    assert files[..|files|] == files;
  }
}
