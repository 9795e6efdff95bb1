/** How the replacement of a file can end.  The source writes a temporary file, renames it and
    syncs the directory, so a write is refused with nothing changed, or fails late, after the
    rename has taken effect. */
module DurableWrites {
  datatype Fate = Fine | Refused | LateSync
}
