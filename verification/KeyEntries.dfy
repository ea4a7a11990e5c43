/** The persisted form of a key. */
module KeyEntries {
  datatype KeyEntry = KeyEntry(key: string, name: string, disabled: bool, deleted: bool)
}
