/**
 * The migrations runner's entry point: where the connection string comes
 * from (command line, then environment variable, then configuration) and
 * the exit code it ends with.
 */
module Migrations {
  import opened Wrappers

  predicate IsNullOrEmpty(s: Option<string>) {
    s.None? || s.value == ""
  }

  /** The first non-empty of `args[0]`, DATABASE_CONNECTION_STRING and the
      DefaultConnection setting, else null. */
  function GetConnectionString(args: seq<string>, environmentVariable: Option<string>,
                               defaultConnection: Option<string>): (r: Option<string>)
    ensures r.None? || r.value != ""
    ensures r.None? <==>
      (|args| == 0 || args[0] == "") && IsNullOrEmpty(environmentVariable) && IsNullOrEmpty(defaultConnection)
    ensures r.Some? ==>
      (|args| > 0 && r.value == args[0]) || r == environmentVariable || r == defaultConnection
  {
    if |args| > 0 && args[0] != "" then Some(args[0])
    else if !IsNullOrEmpty(environmentVariable) then environmentVariable
    else if !IsNullOrEmpty(defaultConnection) then defaultConnection
    else None
  }

  /** The priority: a non-empty first argument wins whatever the other two
      say; a non-empty environment variable wins over the configuration. */
  lemma ConnectionStringPriority(args: seq<string>, environmentVariable: Option<string>, defaultConnection: Option<string>)
    ensures |args| > 0 && args[0] != "" ==>
      GetConnectionString(args, environmentVariable, defaultConnection) == Some(args[0])
    ensures (|args| == 0 || args[0] == "") && !IsNullOrEmpty(environmentVariable) ==>
      GetConnectionString(args, environmentVariable, defaultConnection) == environmentVariable
    ensures (|args| == 0 || args[0] == "") && IsNullOrEmpty(environmentVariable) ==>
      GetConnectionString(args, environmentVariable, defaultConnection) ==
        (if IsNullOrEmpty(defaultConnection) then None else defaultConnection)
  {
  }

  /** How a run of the migrations program ends. */
  datatype MigrationRun = MigrationRun(exitCode: int, migrationStarted: bool)

  /** The exit-code rule of the entry point. `configurationLoads` says whether
      reading the configuration succeeds and `migrationSucceeds` whether
      creating the database and migrating up complete without an exception. */
  function RunMigrations(args: seq<string>, environmentVariable: Option<string>, defaultConnection: Option<string>,
                         configurationLoads: bool, migrationSucceeds: bool): (r: MigrationRun)
    ensures r.exitCode == 0 || r.exitCode == 1
    ensures r.exitCode == 0 <==> r.migrationStarted && migrationSucceeds
    ensures r.migrationStarted <==>
      configurationLoads && GetConnectionString(args, environmentVariable, defaultConnection).Some?
  {
    if !configurationLoads then MigrationRun(1, false)
    else
      var connectionString := GetConnectionString(args, environmentVariable, defaultConnection);
      if IsNullOrEmpty(connectionString) then MigrationRun(1, false)
      else if !migrationSucceeds then MigrationRun(1, true)
      else MigrationRun(0, true)
  }
}
