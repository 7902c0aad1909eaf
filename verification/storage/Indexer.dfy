/** What the string index holds for a key. */
module Indexers {
  import opened Coding

  /** Where the key's last set record is, and its value if the index keeps values. */
  datatype Indexer = Indexer(fileId: nat, offset: nat, value: Bytes)
}
