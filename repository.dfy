/** `MySqlJobRepository`: the `job` table, held in memory. */
module Repository {
  import opened Wrappers
  import opened Errors
  import opened Strings
  import opened JobEntity

  /** One row of the `job` table; `id` is the auto-increment primary key. */
  datatype Row = Row(
    id: int,
    reference: string,
    title: string,
    description: string,
    url: string,
    companyName: string,
    publication: string)

  /** The row an `INSERT` of `job` creates under the key `id`; the job's own `id` is not written. */
  function RowFor(id: int, job: Job): (r: Row)
    ensures r.id == id
    ensures Record(r) == job.(id := None)
  {
    Row(id, job.reference, job.title, job.description, job.url, job.companyName, job.publishedDate)
  }

  /** The `Job` that `findAll` rebuilds from a fetched row, carrying the row's key. */
  function JobFromRow(row: Row): (j: Job)
    ensures j.id == Some(row.id)
    ensures RowFor(row.id, j) == row
  {
    Job(row.reference, row.title, row.description, row.url, row.companyName, row.publication, Some(row.id))
  }

  /** `findAll`'s reconstruction of each row, in the given order. */
  function JobsOf(rows: seq<Row>): (jobs: seq<Job>)
    ensures |jobs| == |rows|
    ensures forall i :: 0 <= i < |rows| ==> jobs[i] == JobFromRow(rows[i])
  {
    seq(|rows|, i requires 0 <= i < |rows| => JobFromRow(rows[i]))
  }

  lemma JobsOfCons(row: Row, rows: seq<Row>)
    ensures JobsOf([row] + rows) == [JobFromRow(row)] + JobsOf(rows)
  {
    assert JobsOf([row] + rows)[1..] == JobsOf(rows);
  }

  /** The stored fields of a row, as the unsaved record they were inserted from. */
  function Record(row: Row): (j: Job)
    ensures j.id == None
  {
    Job(row.reference, row.title, row.description, row.url, row.companyName, row.publication, None)
  }

  /** The table's contents as records, in insertion order. */
  function Records(rows: seq<Row>): (jobs: seq<Job>)
    ensures |jobs| == |rows|
    ensures forall i :: 0 <= i < |rows| ==> jobs[i] == Record(rows[i])
  {
    seq(|rows|, i requires 0 <= i < |rows| => Record(rows[i]))
  }

  lemma RecordsAppend(a: seq<Row>, b: seq<Row>)
    ensures Records(a + b) == Records(a) + Records(b)
  {
    assert forall i :: 0 <= i < |a + b| ==> Records(a + b)[i] == (Records(a) + Records(b))[i];
  }

  /** The rows a batch of inserts creates, keyed `firstId`, `firstId + 1`, ... in order. */
  function NewRows(firstId: int, jobs: seq<Job>): (rows: seq<Row>)
    ensures |rows| == |jobs|
    ensures forall i :: 0 <= i < |jobs| ==> rows[i] == RowFor(firstId + i, jobs[i])
  {
    seq(|jobs|, i requires 0 <= i < |jobs| => RowFor(firstId + i, jobs[i]))
  }

  lemma NewRowsSnoc(firstId: int, jobs: seq<Job>, i: nat)
    requires i < |jobs|
    ensures NewRows(firstId, jobs[..i]) + [RowFor(firstId + i, jobs[i])] == NewRows(firstId, jobs[..i + 1])
  {
  }

  /** Inserting unsaved records stores exactly those records, in order. */
  lemma {:induction false} RecordsOfNewRows(firstId: int, jobs: seq<Job>)
    requires forall i :: 0 <= i < |jobs| ==> jobs[i].id == None
    ensures Records(NewRows(firstId, jobs)) == jobs
  {
    var stored := Records(NewRows(firstId, jobs));
    forall i | 0 <= i < |jobs| ensures stored[i] == jobs[i] {
      assert stored[i] == Record(RowFor(firstId + i, jobs[i]));
    }
  }

  /** The injected storage fault: the insert at index `failAt` throws, if the batch gets that far. */
  predicate Faults(jobs: seq<Job>, failAt: Option<nat>) {
    failAt.Some? && failAt.value < |jobs|
  }

  /** `ORDER BY publication DESC` holds of a sequence of rows. */
  predicate SortedByPublicationDesc(rows: seq<Row>) {
    forall i, j :: 0 <= i < j < |rows| ==> LexLe(rows[j].publication, rows[i].publication)
  }

  /** `ORDER BY publication DESC` holds of a sequence of fetched jobs. */
  predicate JobsByPublicationDesc(jobs: seq<Job>) {
    forall i, j :: 0 <= i < j < |jobs| ==> LexLe(jobs[j].publishedDate, jobs[i].publishedDate)
  }

  /** Places `row` before the first row whose publication does not exceed its own. */
  function InsertByPublication(row: Row, rows: seq<Row>): (r: seq<Row>)
    ensures |r| == |rows| + 1
  {
    if |rows| == 0 then [row]
    else if LexLe(rows[0].publication, row.publication) then [row] + rows
    else [rows[0]] + InsertByPublication(row, rows[1..])
  }

  /** The database's `ORDER BY publication DESC`; rows with equal publications keep table order. */
  function SortByPublicationDesc(rows: seq<Row>): (r: seq<Row>)
    ensures |r| == |rows|
  {
    if |rows| == 0 then []
    else InsertByPublication(rows[0], SortByPublicationDesc(rows[1..]))
  }

  /** Every row's publication sorts at or before `p`. */
  predicate PublishedAtMost(rows: seq<Row>, p: string) {
    forall k :: 0 <= k < |rows| ==> LexLe(rows[k].publication, p)
  }

  lemma {:induction false} InsertByPublicationPermutes(row: Row, rows: seq<Row>)
    ensures multiset(InsertByPublication(row, rows)) == multiset(rows) + multiset{row}
  {
    if |rows| > 0 && !LexLe(rows[0].publication, row.publication) {
      InsertByPublicationPermutes(row, rows[1..]);
      assert rows == [rows[0]] + rows[1..];
    }
  }

  lemma {:induction false} InsertByPublicationAtMost(row: Row, rows: seq<Row>, p: string)
    requires LexLe(row.publication, p) && PublishedAtMost(rows, p)
    ensures PublishedAtMost(InsertByPublication(row, rows), p)
  {
    if |rows| > 0 && !LexLe(rows[0].publication, row.publication) {
      InsertByPublicationAtMost(row, rows[1..], p);
    }
  }

  lemma {:induction false} InsertByPublicationSorted(row: Row, rows: seq<Row>)
    requires SortedByPublicationDesc(rows)
    ensures SortedByPublicationDesc(InsertByPublication(row, rows))
  {
    if |rows| == 0 {
    } else if LexLe(rows[0].publication, row.publication) {
      var r := [row] + rows;
      forall i, j | 0 <= i < j < |r| ensures LexLe(r[j].publication, r[i].publication) {
        if i == 0 && j > 1 {
          LexLeTransitive(rows[j - 1].publication, rows[0].publication, row.publication);
        }
      }
    } else {
      var rest := InsertByPublication(row, rows[1..]);
      InsertByPublicationSorted(row, rows[1..]);
      LexLeTotal(rows[0].publication, row.publication);
      InsertByPublicationAtMost(row, rows[1..], rows[0].publication);
      var r := [rows[0]] + rest;
      forall i, j | 0 <= i < j < |r| ensures LexLe(r[j].publication, r[i].publication) {
        assert r[j] == rest[j - 1];
        if i > 0 {
          assert r[i] == rest[i - 1];
        }
      }
    }
  }

  lemma {:induction false} SortByPublicationDescSorted(rows: seq<Row>)
    ensures multiset(SortByPublicationDesc(rows)) == multiset(rows)
    ensures SortedByPublicationDesc(SortByPublicationDesc(rows))
  {
    if |rows| > 0 {
      SortByPublicationDescSorted(rows[1..]);
      InsertByPublicationPermutes(rows[0], SortByPublicationDesc(rows[1..]));
      InsertByPublicationSorted(rows[0], SortByPublicationDesc(rows[1..]));
      assert rows == [rows[0]] + rows[1..];
    }
  }

  lemma {:induction false} InsertByPublicationJobs(row: Row, rows: seq<Row>)
    ensures multiset(JobsOf(InsertByPublication(row, rows))) == multiset(JobsOf(rows)) + multiset{JobFromRow(row)}
  {
    if |rows| == 0 {
      assert JobsOf([row]) == [JobFromRow(row)];
    } else if LexLe(rows[0].publication, row.publication) {
      JobsOfCons(row, rows);
    } else {
      InsertByPublicationJobs(row, rows[1..]);
      JobsOfCons(rows[0], InsertByPublication(row, rows[1..]));
      JobsOfCons(rows[0], rows[1..]);
      assert rows == [rows[0]] + rows[1..];
    }
  }

  lemma {:induction false} SortByPublicationDescJobs(rows: seq<Row>)
    ensures multiset(JobsOf(SortByPublicationDesc(rows))) == multiset(JobsOf(rows))
  {
    if |rows| == 0 {
    } else {
      SortByPublicationDescJobs(rows[1..]);
      InsertByPublicationJobs(rows[0], SortByPublicationDesc(rows[1..]));
      JobsOfCons(rows[0], rows[1..]);
      assert rows == [rows[0]] + rows[1..];
    }
  }

  /**
   * What `ORDER BY publication DESC` promises of `findAll`'s result for a
   * table holding `rows`: every stored row once, rebuilt as a job, in
   * non-increasing publication order. Rows with equal publications may come
   * back in any order.
   */
  predicate IsListing(rows: seq<Row>, jobs: seq<Job>) {
    |jobs| == |rows| && multiset(jobs) == multiset(JobsOf(rows)) && JobsByPublicationDesc(jobs)
  }

  /** One result `findAll` may return: the stable sort, which keeps ties in table order. */
  function Listing(rows: seq<Row>): (r: seq<Job>)
    ensures |r| == |rows|
  {
    JobsOf(SortByPublicationDesc(rows))
  }

  /**
   * `findAll` returns every stored row exactly once, as a job carrying the
   * row's key, ordered by publication from the greatest string down.
   */
  lemma ListingIsOrdered(rows: seq<Row>)
    ensures IsListing(rows, Listing(rows))
  {
    SortByPublicationDescSorted(rows);
    SortByPublicationDescJobs(rows);
    var sorted := SortByPublicationDesc(rows);
    assert |multiset(sorted)| == |multiset(rows)|;
  }

  class MySqlJobRepository {
    /** The table's rows in insertion order. */
    var rows: seq<Row>
    /** The next auto-increment value. */
    var nextId: int

    /** Keys are positive, below the counter, and increase in insertion order. */
    ghost predicate Valid()
      reads this
    {
      && 1 <= nextId
      && (forall i :: 0 <= i < |rows| ==> 1 <= rows[i].id < nextId)
      && (forall i, j :: 0 <= i < j < |rows| ==> rows[i].id < rows[j].id)
    }

    /** An empty `job` table. */
    constructor ()
      ensures Valid() && rows == [] && nextId == 1
    {
      rows := [];
      nextId := 1;
    }

    /** `save`: one `INSERT`, under a fresh key above every key in use. */
    method Save(job: Job)
      requires Valid()
      modifies this
      ensures Valid()
      ensures rows == old(rows) + [RowFor(old(nextId), job)]
      ensures nextId == old(nextId) + 1
      ensures forall i :: 0 <= i < |old(rows)| ==> rows[i].id < rows[|rows| - 1].id
    {
      rows := rows + [RowFor(nextId, job)];
      nextId := nextId + 1;
    }

    /**
     * The loop of pending `INSERT`s: stops at the faulting index, having
     * inserted the jobs before it.
     */
    method InsertEach(jobs: seq<Job>, failAt: Option<nat>) returns (ok: bool)
      requires Valid()
      modifies this
      ensures Valid()
      ensures ok == !Faults(jobs, failAt)
      ensures var done := if ok then |jobs| else failAt.value;
              done <= |jobs| && rows == old(rows) + NewRows(old(nextId), jobs[..done]) &&
              nextId == old(nextId) + done
    {
      var i := 0;
      while i < |jobs|
        invariant 0 <= i <= |jobs|
        invariant Valid()
        invariant rows == old(rows) + NewRows(old(nextId), jobs[..i])
        invariant nextId == old(nextId) + i
        invariant failAt.Some? ==> i <= failAt.value
      {
        if failAt == Some(i) {
          return false;
        }
        NewRowsSnoc(old(nextId), jobs, i);
        Save(jobs[i]);
        i := i + 1;
      }
      assert jobs[..i] == jobs;
      ok := true;
    }

    /**
     * `saveAll`: all the inserts in one transaction. On a fault the table is
     * rolled back to its state before the call (the keys the rolled-back
     * inserts used are not reused) and the error is rethrown.
     */
    method SaveAll(jobs: seq<Job>, failAt: Option<nat>) returns (r: Outcome<Error>)
      requires Valid()
      modifies this
      ensures Valid()
      ensures Faults(jobs, failAt) ==>
                r == Fail(StorageFailure) && rows == old(rows) && nextId == old(nextId) + failAt.value
      ensures !Faults(jobs, failAt) ==>
                r == Pass && rows == old(rows) + NewRows(old(nextId), jobs) && nextId == old(nextId) + |jobs|
    {
      var committed := rows;  // beginTransaction
      var ok := InsertEach(jobs, failAt);
      if !ok {
        rows := committed;  // rollBack
        return Fail(StorageFailure);
      }
      assert jobs[..|jobs|] == jobs;
      r := Pass;  // commit
    }

    /**
     * The replacement `import` evidently intends: `DELETE` and the inserts in
     * one transaction, so that a fault leaves the previous rows in place.
     */
    method ReplaceAll(jobs: seq<Job>, failAt: Option<nat>) returns (r: Outcome<Error>)
      requires Valid()
      modifies this
      ensures Valid()
      ensures Faults(jobs, failAt) ==>
                r == Fail(StorageFailure) && rows == old(rows) && nextId == old(nextId) + failAt.value
      ensures !Faults(jobs, failAt) ==>
                r == Pass && rows == NewRows(old(nextId), jobs) && nextId == old(nextId) + |jobs|
    {
      var committed := rows;  // beginTransaction
      Clear();
      var ok := InsertEach(jobs, failAt);
      if !ok {
        rows := committed;  // rollBack
        return Fail(StorageFailure);
      }
      assert jobs[..|jobs|] == jobs;
      r := Pass;  // commit
    }

    /** `findAll`: the rows fetched in `ORDER BY publication DESC` order, each rebuilt as a `Job`. */
    method FindAll() returns (jobs: seq<Job>)
      requires Valid()
      ensures IsListing(rows, jobs)
      ensures forall k :: 0 <= k < |jobs| ==> jobs[k].id.Some? && jobs[k].id.value >= 1
    {
      var fetched := SortByPublicationDesc(rows);  // the query's result set
      SortByPublicationDescSorted(rows);
      ListingIsOrdered(rows);
      jobs := [];
      var i := 0;
      while i < |fetched|
        invariant 0 <= i <= |fetched|
        invariant jobs == JobsOf(fetched[..i])
      {
        jobs := jobs + [JobFromRow(fetched[i])];
        i := i + 1;
      }
      assert fetched[..i] == fetched;
      forall k | 0 <= k < |jobs| ensures jobs[k].id.Some? && jobs[k].id.value >= 1 {
        assert fetched[k] in multiset(rows);
      }
    }

    /** `clear`: `DELETE FROM job`; the auto-increment counter is not reset. */
    method Clear()
      requires Valid()
      modifies this
      ensures Valid()
      ensures rows == [] && nextId == old(nextId)
    {
      rows := [];
    }

    /** `count`: `SELECT COUNT(*)`. */
    method Count() returns (n: nat)
      requires Valid()
      ensures n == |rows|
      ensures n == |Listing(rows)|
    {
      ListingIsOrdered(rows);
      n := |rows|;
    }
  }
}
