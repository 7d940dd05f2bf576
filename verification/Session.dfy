/**
 What an executor works on: the connected databases, the execution record and its logs.
 BulkInsert and Truncate are the connector contract; the rest is the bookkeeping both executors do.
 */
module Session {
  import opened Paging
  import opened TableRun
  import opened TableNames
  import opened Execution

  class SyncSession {
    var sources: map<QualifiedName, seq<Row>>
    var targets: map<QualifiedName, seq<Row>>
    var logs: seq<Log>
    var status: ExecutionStatus
    var completedTables: nat
    var totalRows: nat

    constructor (sources: map<QualifiedName, seq<Row>>, targets: map<QualifiedName, seq<Row>>)
      ensures this.sources == sources && this.targets == targets
      ensures logs == [] && status == Pending && completedTables == 0 && totalRows == 0
    {
      this.sources, this.targets := sources, targets;
      logs, status, completedTables, totalRows := [], Pending, 0, 0;
    }

    /** New rows are committed to a source table. */
    method Receive(table: QualifiedName, rows: seq<Row>)
      modifies this`sources
      ensures sources == old(sources)[table := Rows(old(sources), table) + rows]
    {
      sources := sources[table := Rows(sources, table) + rows];
    }

    /** bulk_insert: the whole batch is committed, or rolled back. */
    method BulkInsert(table: QualifiedName, rows: seq<Row>, works: bool) returns (ok: bool)
      modifies this`targets
      ensures ok == works
      ensures targets == if works then old(targets)[table := Rows(old(targets), table) + rows] else old(targets)
    {
      if works {
        targets := targets[table := Rows(targets, table) + rows];
      }
      ok := works;
    }

    /** create_table: a table that is not there comes into being, empty. */
    method CreateTable(table: QualifiedName)
      modifies this`targets
      ensures targets == old(targets)[table := Rows(old(targets), table)]
    {
      targets := targets[table := Rows(targets, table)];
    }

    /** truncate_table */
    method Truncate(table: QualifiedName)
      modifies this`targets
      ensures targets == old(targets)[table := []]
    {
      targets := targets[table := []];
    }

    method OpenLog(table: QualifiedName)
      modifies this`logs
      ensures logs == old(logs) + [Log(table.schemaName, table.tableName, Running, 0, 0, 0)]
    {
      logs := logs + [Log(table.schemaName, table.tableName, Running, 0, 0, 0)];
    }

    /** The log and the execution's counters after a batch. */
    method UpdateLog(batchNumber: nat, fetched: nat, inserted: nat)
      requires |logs| > 0 && logs[|logs| - 1].status == Running
      modifies this`logs, this`completedTables, this`totalRows
      ensures var last := |old(logs)| - 1;
              logs == old(logs)[..last] +
                      [old(logs)[last].(rowsFetched := fetched, rowsInserted := inserted,
                                       batchNumber := batchNumber)] &&
              completedTables == Count(old(logs)[..last], Completed) &&
              totalRows == Inserted(old(logs)[..last]) + inserted
    {
      var last := |logs| - 1;
      ghost var before := logs[..last];
      logs := logs[last := logs[last].(batchNumber := batchNumber, rowsFetched := fetched, rowsInserted := inserted)];
      assert logs == before + [logs[last]];
      LastLog(before, logs[last], Completed);
      completedTables := Count(logs, Completed);
      totalRows := Inserted(logs);
    }

    /** The log of the table under way gets its final status. */
    method FinishLog(s: LogStatus)
      requires |logs| > 0
      modifies this`logs
      ensures logs == old(logs)[..|old(logs)| - 1] + [old(logs)[|old(logs)| - 1].(status := s)]
    {
      logs := logs[|logs| - 1 := logs[|logs| - 1].(status := s)];
    }
  }
}
