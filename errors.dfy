/** The errors the index lifecycle manager can meet, one constructor per Go error it creates or passes on. */
module Errors {

  datatype IlmError =
    | InvalidFilenameFormat        // no `index-YYYY-MM-DD-HH` in a shard name
    | CreateFailed(path: string)   // bleve.New could not create a missing shard
    | RemoveFailed(path: string)   // os.RemoveAll failed during the retention sweep
    | IndexBusy(cause: string)     // bleve.Open reported that another handle holds the shard
    | OpenFailed(cause: string)    // any other bleve.Open error
    | OpenTimeout                  // bleve.Open did not return within the timeout
}
