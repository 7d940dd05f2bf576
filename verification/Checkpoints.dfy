/** checkpoint_manager.py: the stored checkpoints of all jobs, one row for a job, schema and table. */
module Checkpoints {
  import opened Wrappers

  datatype EntryKey = EntryKey(job: string, schemaName: string, tableName: string)

  datatype Error = ValueError | CheckpointError

  type Entries = map<EntryKey, Option<string>>

  /** What a run reads: an absent row, NULL and the empty text all count as no checkpoint. */
  function Stored(entries: Entries, key: EntryKey): (r: Option<string>)
    ensures r.Some? <==> key in entries && entries[key].Some? && entries[key].value != ""
    ensures r.Some? ==> entries[key] == r
  {
    if key in entries && entries[key] != Some("") then entries[key] else None
  }

  /** The sync_checkpoints table. */
  class CheckpointTable {
    var entries: Entries

    constructor ()
      ensures entries == map[]
    {
      entries := map[];
    }
  }

  class CheckpointManager {
    const job: string
    const db: CheckpointTable

    constructor (job: string, db: CheckpointTable)
      ensures this.job == job && this.db == db
    {
      this.job := job;
      this.db := db;
    }

    function KeyOf(schemaName: string, tableName: string): EntryKey { EntryKey(job, schemaName, tableName) }

    /** get_checkpoint_value */
    method GetValue(schemaName: string, tableName: string, dbOk: bool) returns (r: Result<Option<string>, Error>)
      ensures schemaName == "" || tableName == "" ==> r == Err(ValueError)
      ensures schemaName != "" && tableName != "" ==>
                r == if dbOk then Ok(Stored(db.entries, EntryKey(job, schemaName, tableName))) else Err(CheckpointError)
    {
      if schemaName == "" || tableName == "" {
        return Err(ValueError);
      }
      if !dbOk {
        return Err(CheckpointError);
      }
      var key := KeyOf(schemaName, tableName);
      if key in db.entries {
        var lastValue := db.entries[key];
        if lastValue.Some? && lastValue.value != "" {
          return Ok(lastValue);
        }
      }
      return Ok(None);
    }

    /** create_or_update_checkpoint, with the text of the value or NULL */
    method CreateOrUpdate(schemaName: string, tableName: string, value: Option<string>, dbOk: bool)
      returns (r: Result<(), Error>)
      modifies db
      ensures r == if schemaName == "" || tableName == "" then Err(ValueError)
                   else if dbOk then Ok(()) else Err(CheckpointError)
      ensures db.entries
              == if r.Ok? then old(db.entries)[EntryKey(job, schemaName, tableName) := value] else old(db.entries)
    {
      if schemaName == "" || tableName == "" {
        return Err(ValueError);
      }
      if !dbOk {
        return Err(CheckpointError);
      }
      db.entries := db.entries[KeyOf(schemaName, tableName) := value];
      return Ok(());
    }

    /** delete_checkpoint: an error reads as nothing deleted */
    method Delete(schemaName: string, tableName: string, dbOk: bool) returns (deleted: bool)
      modifies db
      ensures deleted <==> dbOk && EntryKey(job, schemaName, tableName) in old(db.entries)
      ensures db.entries == if dbOk then old(db.entries) - {EntryKey(job, schemaName, tableName)} else old(db.entries)
    {
      if !dbOk {
        return false;
      }
      deleted := KeyOf(schemaName, tableName) in db.entries;
      db.entries := db.entries - {KeyOf(schemaName, tableName)};
    }

    /** reset_all_checkpoints: this job's rows go, every other job's stay, and the count is the rows that went */
    method ResetAll(dbOk: bool) returns (r: Result<nat, Error>)
      modifies db
      ensures !dbOk ==> r == Err(CheckpointError) && db.entries == old(db.entries)
      ensures dbOk ==>
                db.entries == (map k | k in old(db.entries) && k.job != job :: old(db.entries)[k]) &&
                r == Ok(|old(db.entries)| - |db.entries|)
    {
      if !dbOk {
        return Err(CheckpointError);
      }
      var mine := set k | k in db.entries && k.job == job;
      var all := db.entries;
      db.entries := db.entries - mine;
      assert db.entries.Keys == all.Keys - mine;
      assert |db.entries.Keys| == |all.Keys| - |mine|;
      return Ok(|mine|);
    }
  }
}
