/** Error values and the Option/Result wrappers shared by every module of the model. */
module Base {

  /** Every error condition the migration engine and its command line can report. */
  datatype Error =
    | ReadDirFailed(dir: string)              // os.ReadDir / os.Stat of a directory failed
    | NotADir(dir: string)                    // isEmptyRepo on a path that is a file
    | ReadFileFailed(path: string)            // os.ReadFile failed (missing or empty path)
    | TableQueryFailed                        // the "does the migrations table exist" query failed
    | CreateTableFailed                       // CREATE TABLE migrations failed
    | CheckTableError(cause: Error)           // "check migration info failed: ..."
    | QueryFailed                             // SELECT over the migrations table failed
    | GetInfosError(cause: Error)             // "get migration infos error: ..."
    | ExecFailed(statement: string)           // a statement was rejected by the database
    | InsertFailed(name: string)
    | DeleteFailed(id: nat)
    | BeginFailed
    | CommitFailed
    | NothingToRollback
    | InvalidParam(flag: string)              // a flag without a value
    | NotAnInteger(token: string)             // the strconv.Atoi error
    | InvalidParamValue(flag: string, token: string)
    | StepAndBatch                            // both --step and --batch
    | NotEmptyRepo(dir: string)               // dump without --force
    | TablesFailed                            // listing the tables for a dump failed
    | ShowCreateFailed(table: string)
    | ShowCreateUnsupported(table: string)    // PostgreSQL has no SHOW CREATE TABLE
    | NotARepo(dir: string)                   // create outside a Blueprint repository
    | CreateFailed(path: string)              // os.Create of a migration file failed
    | WriteFailed(path: string)               // os.WriteFile of a dumped file failed

  datatype Option<+T> = None | Some(value: T)

  datatype Result<+T> = Ok(value: T) | Err(error: Error) {
    predicate IsFailure() { Err? }

    function PropagateFailure<U>(): Result<U>
      requires Err?
    {
      Err(error)
    }

    function Extract(): T
      requires Ok?
    {
      value
    }
  }
}
