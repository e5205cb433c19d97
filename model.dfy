/**
 * Startup of the plugin's storage (src/model.ts): the table declarations it registers
 * with the store, the meta row it reads, and the version step of `upgradeDatabase`.
 */
module Model {
  import opened Wrappers

  const MetaTable := "wall6.meta"
  const RecordsTable := "wall6.records_1_0_0"
  const IdolsTable := "wall6.idols_1_0_0"
  const LatestVersion := "1_0_0"

  /** The id of the one meta row `apply` reads. */
  const MetaRowId: nat := 1

  // ---------------------------------------------------------------------------
  // Table declarations
  // ---------------------------------------------------------------------------

  datatype FieldType = Unsigned | Str | Text | Boolean | Timestamp

  /**
   * One field declaration; `nullable` and `initial` are None where the declaration
   * leaves them to the store's defaults (the `id: 'unsigned'` shorthand).
   */
  datatype Field = Field(kind: FieldType, nullable: Option<bool>, initial: Option<bool>)

  /** A declared table: its fields, whether ids auto-increment, and foreign keys field -> (table, field). */
  datatype TableDef = TableDef(fields: map<string, Field>, autoInc: bool, foreign: map<string, (string, string)>)

  function Shorthand(kind: FieldType): Field {
    Field(kind, None, None)
  }

  function NonNull(kind: FieldType): Field {
    Field(kind, Some(false), None)
  }

  function MetaDef(): TableDef {
    TableDef(map["id" := Shorthand(Unsigned), "database_version" := Field(Str, Some(true), None)], true, map[])
  }

  function IdolsDef(): TableDef {
    TableDef(
      map["id" := Shorthand(Unsigned),
          "nickname" := NonNull(Str),
          "guild_id" := NonNull(Str),
          "isRecording" := Field(Boolean, Some(false), Some(false))],
      true, map[])
  }

  function RecordsDef(): TableDef {
    TableDef(
      map["id" := Shorthand(Unsigned),
          "idol_id" := NonNull(Unsigned),
          "desription" := NonNull(Text),
          "time" := Field(Timestamp, Some(true), None),
          "guild_id" := NonNull(Str),
          "version" := NonNull(Str)],
      true, map["idol_id" := (IdolsTable, "id")])
  }

  /** Declaring a table again merges the new declaration over the old one. */
  function Merge(prior: TableDef, added: TableDef): TableDef {
    TableDef(prior.fields + added.fields, added.autoInc, prior.foreign + added.foreign)
  }

  /** `ctx.model.extend(name, def)`. */
  function Extend(tables: map<string, TableDef>, name: string, def: TableDef): map<string, TableDef> {
    tables[name := if name in tables then Merge(tables[name], def) else def]
  }

  /** Declaring the same table the same way twice is declaring it once. */
  lemma ExtendIdempotent(tables: map<string, TableDef>, name: string, def: TableDef)
    ensures Extend(Extend(tables, name, def), name, def) == Extend(tables, name, def)
  {
    var t := Extend(tables, name, def);
    if name in tables {
      var m := Merge(tables[name], def);
      assert m.fields + def.fields == m.fields;
      assert m.foreign + def.foreign == m.foreign;
      assert Merge(m, def) == m;
    } else {
      assert def.fields + def.fields == def.fields;
      assert def.foreign + def.foreign == def.foreign;
      assert Merge(def, def) == def;
    }
  }

  /** Every foreign key of `def` names one of its own fields and a declared field of a declared table. */
  predicate ForeignKeysResolve(def: TableDef, tables: map<string, TableDef>) {
    forall f :: f in def.foreign ==>
      f in def.fields && def.foreign[f].0 in tables && def.foreign[f].1 in tables[def.foreign[f].0].fields
  }

  /** Exactly the field `f` is declared nullable. */
  predicate NullableExactly(def: TableDef, f: string) {
    forall g :: g in def.fields ==> (def.fields[g].nullable == Some(true) <==> g == f)
  }

  // ---------------------------------------------------------------------------
  // upgradeDatabase
  // ---------------------------------------------------------------------------

  /** The `switch` of `upgradeDatabase`: its one case maps '1_0_0' to '1_0_1', every other version falls through. */
  function Switch(v: Option<string>): Option<string> {
    if v == Some("1_0_0") then Some("1_0_1") else v
  }

  /**
   * The switch is reached only with a version other than `latestVersion`, and since
   * its one case is `latestVersion` itself, it never changes the version it is reached with.
   */
  lemma SwitchUnreachableCase(v: Option<string>)
    requires v != Some(LatestVersion)
    ensures Switch(v) == v
  {
  }

  /** The version after `n` steps of the switch. */
  function Iterate(v: Option<string>, n: nat): Option<string> {
    if n == 0 then v else Switch(Iterate(v, n - 1))
  }

  /** From any version other than `latestVersion`, stepping never moves, so it never reaches `latestVersion`. */
  lemma {:induction false} IterateFixed(v: Option<string>, n: nat)
    requires v != Some(LatestVersion)
    ensures Iterate(v, n) == v && Iterate(v, n) != Some(LatestVersion)
  {
    if n > 0 {
      IterateFixed(v, n - 1);
    }
  }

  datatype Upgrade = Returned | StillRecursing

  /** `upgradeDatabase(ctx, v)` followed for at most `depth` recursive calls. */
  function UpgradeWithin(v: Option<string>, depth: nat): Upgrade {
    if v == Some(LatestVersion) then Returned
    else if depth == 0 then StillRecursing
    else UpgradeWithin(Switch(v), depth - 1)
  }

  /**
   * `upgradeDatabase` returns, at any recursion depth, exactly when it is called with
   * `latestVersion`; from any other stored version (null included) no depth suffices.
   */
  lemma {:induction false} UpgradeReturnsOnlyAtLatest(v: Option<string>, depth: nat)
    ensures UpgradeWithin(v, depth) == Returned <==> v == Some(LatestVersion)
  {
    if v != Some(LatestVersion) && depth > 0 {
      UpgradeReturnsOnlyAtLatest(Switch(v), depth - 1);
    }
  }

  // ---------------------------------------------------------------------------
  // apply
  // ---------------------------------------------------------------------------

  /** How `apply` ends: the create path, the upgrade path returning at once, or the upgrade recursing without end. */
  datatype Startup = Created | UpToDate | NeverReturns(stored: Option<string>)

  function StartupOf(metaRows: map<nat, Option<string>>): Startup {
    if MetaRowId !in metaRows then Created
    else if metaRows[MetaRowId] == Some(LatestVersion) then UpToDate
    else NeverReturns(metaRows[MetaRowId])
  }

  /** The declarations after `createDatabase`. */
  function CreateTables(tables: map<string, TableDef>): map<string, TableDef> {
    Extend(Extend(tables, IdolsTable, IdolsDef()), RecordsTable, RecordsDef())
  }

  /** The declarations after `apply`: meta always, then the two tables only when meta row 1 is absent. */
  function AfterApply(tables: map<string, TableDef>, metaRows: map<nat, Option<string>>): map<string, TableDef> {
    var t := Extend(tables, MetaTable, MetaDef());
    if MetaRowId in metaRows then t else CreateTables(t)
  }

  /** An outcome of NeverReturns is one from which `upgradeDatabase` returns at no depth. */
  lemma NeverReturnsMeansNoDepth(metaRows: map<nat, Option<string>>, depth: nat)
    requires StartupOf(metaRows).NeverReturns?
    ensures UpgradeWithin(StartupOf(metaRows).stored, depth) == StillRecursing
  {
    UpgradeReturnsOnlyAtLatest(StartupOf(metaRows).stored, depth);
  }

  /**
   * `apply` always declares the meta table; with meta row 1 absent it also declares the
   * idols and records tables, the records' `idol_id` referring to the idols' `id`;
   * with the row present, nothing else is declared.
   */
  lemma ApplyDeclarations(tables: map<string, TableDef>, metaRows: map<nat, Option<string>>)
    ensures var r := AfterApply(tables, metaRows);
      MetaTable in r && "database_version" in r[MetaTable].fields &&
      (MetaRowId in metaRows ==> r == Extend(tables, MetaTable, MetaDef())) &&
      (MetaRowId !in metaRows ==>
        IdolsTable in r && RecordsTable in r &&
        "idol_id" in r[RecordsTable].fields && r[RecordsTable].foreign["idol_id"] == (IdolsTable, "id") &&
        "id" in r[IdolsTable].fields)
  {
    var t := Extend(tables, MetaTable, MetaDef());
    assert "database_version" in t[MetaTable].fields;
    if MetaRowId !in metaRows {
      var r := CreateTables(t);
      var rec := r[RecordsTable];
      assert rec.foreign == (if RecordsTable in Extend(t, IdolsTable, IdolsDef())
                             then Extend(t, IdolsTable, IdolsDef())[RecordsTable].foreign else map[]) + RecordsDef().foreign;
      assert "id" in r[IdolsTable].fields;
      assert "idol_id" in rec.fields;
    }
  }

  /**
   * On a store where the records table was not declared before, the create path
   * declares it with `time` as its only nullable field and every foreign key resolving.
   */
  lemma CreatedRecordsTable(tables: map<string, TableDef>, metaRows: map<nat, Option<string>>)
    requires MetaRowId !in metaRows && RecordsTable !in tables
    ensures var r := AfterApply(tables, metaRows);
      NullableExactly(r[RecordsTable], "time") && ForeignKeysResolve(r[RecordsTable], r)
  {
    var r := AfterApply(tables, metaRows);
    assert r[RecordsTable] == RecordsDef();
    assert "id" in r[IdolsTable].fields;
  }

  /** The idols table declares `nickname` and `guild_id` non-null and `isRecording` a non-null boolean starting false. */
  lemma IdolsDeclaration()
    ensures var d := IdolsDef();
      d.fields["nickname"].nullable == Some(false) && d.fields["guild_id"].nullable == Some(false) &&
      d.fields["isRecording"] == Field(Boolean, Some(false), Some(false))
  {
  }

  /** Running `apply` twice against the same meta rows declares nothing new the second time. */
  lemma ApplyIdempotent(tables: map<string, TableDef>, metaRows: map<nat, Option<string>>)
    ensures AfterApply(AfterApply(tables, metaRows), metaRows) == AfterApply(tables, metaRows)
  {
    var t := Extend(tables, MetaTable, MetaDef());
    ExtendIdempotent(tables, MetaTable, MetaDef());
    if MetaRowId !in metaRows {
      var t1 := Extend(t, IdolsTable, IdolsDef());
      var r := Extend(t1, RecordsTable, RecordsDef());
      assert Extend(t, MetaTable, MetaDef())[MetaTable] == Merge(t[MetaTable], MetaDef());
      assert r[MetaTable] == t[MetaTable];
      assert Extend(r, MetaTable, MetaDef()) == r;
      ExtendIdempotent(t, IdolsTable, IdolsDef());
      assert Extend(r, IdolsTable, IdolsDef()) == Extend(Extend(t1, IdolsTable, IdolsDef()), RecordsTable, RecordsDef());
      ExtendIdempotent(t1, RecordsTable, RecordsDef());
    }
  }

  /** The store's table declarations and its meta rows (id -> `database_version`). */
  class Registry {
    var tables: map<string, TableDef>
    var metaRows: map<nat, Option<string>>

    constructor (tables: map<string, TableDef>, metaRows: map<nat, Option<string>>)
      ensures this.tables == tables && this.metaRows == metaRows
    {
      this.tables := tables;
      this.metaRows := metaRows;
    }

    /** `createDatabase`: declares the idols table, then the records table with its foreign key. */
    method CreateDatabase()
      modifies this
      ensures tables == CreateTables(old(tables))
      ensures metaRows == old(metaRows)
    {
      tables := Extend(tables, IdolsTable, IdolsDef());
      tables := Extend(tables, RecordsTable, RecordsDef());
    }

    /**
     * `apply`: declares the meta table, reads meta row 1, and takes the upgrade path
     * when it is there and the create path when it is not. No path writes a meta row.
     */
    method Apply() returns (outcome: Startup)
      modifies this
      ensures metaRows == old(metaRows)
      ensures tables == AfterApply(old(tables), old(metaRows))
      ensures outcome == StartupOf(old(metaRows))
      ensures outcome.NeverReturns? ==> forall depth :: UpgradeWithin(outcome.stored, depth) == StillRecursing
    {
      tables := Extend(tables, MetaTable, MetaDef());
      if MetaRowId in metaRows {
        var stored := metaRows[MetaRowId];
        if stored == Some(LatestVersion) {
          outcome := UpToDate;
        } else {
          outcome := NeverReturns(stored);
          forall depth ensures UpgradeWithin(stored, depth) == StillRecursing {
            UpgradeReturnsOnlyAtLatest(stored, depth);
          }
        }
      } else {
        CreateDatabase();
        outcome := Created;
      }
    }
  }
}
