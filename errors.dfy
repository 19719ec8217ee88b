/**
 * The errors the layer returns. Causes that come from the driver or from the
 * file system are opaque codes: only where they come from and how they are
 * wrapped is modelled, not their text.
 */
module Errors {

  datatype Error =
    | DsnRequired                                 // Open on an empty DSN
    | DatabaseClosed                              // database/sql on a closed pool
    | FileSystem(code: int)                       // os.MkdirAll, fs.ReadFile
    | Driver(code: int)                           // surfaced unchanged from the driver
    | CannotCreateMigrationsTable(cause: Error)   // "cannot create migrations table: %w"
    | MigrationFailed(name: string, cause: Error) // "migration error: name=%q err=%w"
    | CannotScan(goType: string)                  // "NullTime: cannot scan to time.Time: %T"
}
