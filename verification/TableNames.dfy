/** The target name of a source table (table_handler.py:87-97, repeated in both executors). */
module TableNames {
  import opened Text
  import opened SqlText

  datatype QualifiedName = QualifiedName(schemaName: string, tableName: string)

  /** Neither part of a table's name is empty. */
  type TableName = n: QualifiedName | n.schemaName != "" && n.tableName != "" witness QualifiedName("public", "t")

  datatype Servers = Servers(source: Dialect, target: Dialect, targetDatabase: string)

  function TargetName(s: Servers, n: QualifiedName): QualifiedName {
    if s.target.MySql? && !s.source.MySql? then QualifiedName(s.targetDatabase, n.tableName)
    else if s.target.Postgres? && s.source.SqlServer? && Lower(n.schemaName) == "dbo"
    then QualifiedName("public", n.tableName)
    else n
  }

  /** Where a table goes: into the target database, from dbo to public, or to its own name. */
  lemma TargetCases(s: Servers, n: QualifiedName)
    ensures TargetName(s, n).tableName == n.tableName
    ensures TargetName(s, n).schemaName
            == (if s.target == MySql && s.source != MySql then s.targetDatabase
                else if s.target == Postgres && s.source == SqlServer && IsDbo(n.schemaName) then "public"
                else n.schemaName)
    ensures IsDbo("dbo") && IsDbo("DBO") && IsDbo("Dbo") && !IsDbo("db")
  {
    assert Lower("dbo") == Lower("DBO") == Lower("Dbo") == "dbo";
    assert |Lower("db")| == 2;
  }

  predicate IsDbo(schemaName: string) { Lower(schemaName) == "dbo" }

  /**
   Two source tables land in one target table exactly when they share a table name and the mapping merges their schemas.
   */
  lemma TargetsCollide(s: Servers, a: QualifiedName, b: QualifiedName)
    requires a != b
    ensures TargetName(s, a) == TargetName(s, b) <==>
            a.tableName == b.tableName &&
            ((s.target.MySql? && !s.source.MySql?) ||
             (s.target.Postgres? && s.source.SqlServer? &&
              (IsDbo(a.schemaName) || a.schemaName == "public") && (IsDbo(b.schemaName) || b.schemaName == "public")))
  {
  }
}
