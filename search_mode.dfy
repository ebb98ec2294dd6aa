/** The process-wide selector that decides how KEYS is answered. */
module SearchModes {
  datatype SearchMode = Glob | Regex | Trie
}
