# smirk, modelled in Dafny

smirk is a small typed key-value server. A client sends text lines such as `SET i32 age 41`,
`GET i32 age`, `DEL a b`, `KEYS a*`, `TTL age 60` or `ADD u8 a b`. The server keeps one
shared store. Each record holds a typed value, an optional time-to-live in seconds, the
time it was written, the name of its stored type and the type word the client used. Beside
the records sits a character trie that indexes keys by prefix. This project models that
store, its TTL arithmetic, its trie, the rendering of its replies, the parsing of command
lines, the dispatcher that turns a parsed command into store operations and reply text,
the command-line flags, and the earlier prototype of all of these.

Each module follows one source file.

| module | file | models |
|---|---|---|
| `Wrappers` | `wrappers.dfy` | `Option` and `Result` |
| `Values` | `values.dfy` | the closed set of value kinds and the integer ranges of their widths; parsing and display |
| `Messages` | `messages.dfy` | `SmirkMessages` and its `to_string` rendering |
| `Records` | `record.dfy` | `Record`, `is_expired`, `get_ttl` |
| `SearchModes` | `search_mode.dfy` | `SmirkSearchMode` |
| `TrieIndex` | `trie.dfy` | the prefix trie, as a class of linked nodes proved against a `Node` datatype |
| `Store` | `smirk_map.dfy` | `SmirkMap`: pure lookups as functions; writes as methods of a class proved against functions of the old map; `add` and `add_float` as loops |
| `Commands` | `command.dfy` | `Command`, `CommandError` and `Command::from_str` |
| `Server` | `server.dfy` | `process_command` and the per-type `*_and_write_to_stream` helpers |
| `Config` | `config.dfy` | `SmirkConfig`, its defaults and the flag loop (`get_runtime_config`, and the prototype's `get_config`) |
| `Prototype` | `prototype.dfy` | the prototype `SmirkMap`, its `Trie::insert` and its `process_command` |

How the model is built:

- **Values.** A stored `Box<dyn Any>` becomes a `Value` datatype, one variant per type word
  the dispatcher lists. It has twelve fixed-width integer kinds, each with its range
  (`isize`/`usize` at 64 bits), a BigInt as `int`, f32/f64 as opaque bit patterns,
  `bool`, `char`, `String` and a byte vector.
  - `get::<T>`'s exact-type downcast is a comparison of the stored value's kind with the
    requested tag.
  - `type_name::<T>()` is `TypeName(tag)`. It gives the dispatch word for each type and
    `"Vec<u8>"` for bytes.
- **Output.** The dispatcher does not write to a socket. It returns the chunks it would
  have written, one per `write_all`.
- **Panics.** A panic is a `panicked` flag in the result. The store keeps every change
  made before the panic, and nothing after it is written.
- **Parameters.** The clock (`SystemTime::now()`, as integer nanoseconds), the CPU count,
  floating-point parsing, addition and display (`FloatOps`), and glob/regex matching
  (`Patterns`) are passed in.
- **Specification functions.** Each stateful operation is proved against a function of the
  old state: `SetSpec`, `DelSpec`, `InsertSpec`, `RemoveSpec`, `Step` and the others. The
  lemmas below state what those functions mean.

Three behaviours of the code are modelled as written:

- A prefix trie's `insert` would create one node per character. Here the recursion guard
  at `src/core/trie.rs:35` is inverted. A key of two or more characters touches only the
  root's child for its first character. A one-character key recurses on the empty string
  and panics in `String::remove(0)`. `TrieIndex.InsertLongKey` and
  `TrieIndex.InsertOneCharKey` state what the code does.
- After inserting `cat` and `car`, the prefix `ca` lists nothing, because no node below
  depth one is ever created (`TrieIndex.NonEmptyPrefixFindsNothing`).
- KEYS `unwrap`s the compiled pattern at `src/server/main.rs:203-230`, so an invalid
  pattern panics.

## Model

| member | source | states |
|---|---|---|
| Values.TagOfName | src/server/main.rs:150-167 | a listed type word names a non-byte kind whose `TypeName` is that word |
| Values.TagOfNameInverts | src/server/main.rs:150-168 | every non-byte kind is recognised by its own name; `"Vec<u8>"` is not a listed word, so it falls to `binary_set` |
| Values.TypeNameInjective | src/core/smirk_map.rs:88 | two kinds with the same stored type name are the same kind, so comparing names is a faithful downcast |
| Values.ParseInteger | src/core/smirk_map.rs:77-78 | an integer parsed for a width is in that width's range |
| Values.IntegerRoundTrip | src/core/smirk_map.rs:77-94 | the decimal display of any in-range integer parses back to itself |
| Values.NatToStringDigits | src/server/main.rs:199 | a count is written as a non-empty string of decimal digits whose value is the count |
| Values.Parse | src/core/smirk_map.rs:77-94 | a successful parse yields a well-formed value of the requested kind |
| Values.ShowParseRoundTrip | src/server/main.rs:50-66 | parsing a displayed value (any kind but floats and bytes) gives the value back |
| Messages.RenderEndsWithOneNewline | src/core/smirk_messages.rs:19-49 | every rendering ends in a newline with no second before it, unless a SetKey's user type itself ends in one |
| Messages.RenderTellsVariant | src/core/smirk_messages.rs:19-49 | two messages with the same text are the same variant |
| Messages.KeyNotFoundInjective | src/core/smirk_messages.rs:32-35 | a KeyNotFound text determines its key |
| Records.NoTtlNeverExpires | src/core/record.rs:17-40 | a record without a TTL has no TTL left and never expires |
| Records.GetTtlValue | src/core/record.rs:27-40 | once the elapsed whole seconds reach the TTL, `get_ttl` is 0; before that it is TTL minus elapsed, between 1 and the TTL |
| Records.ExpiredIffNoTimeLeft | src/core/record.rs:17-37 | at one instant, a record is expired exactly when `get_ttl` is `Some(0)` |
| Records.ClockBeforeStart | src/core/record.rs:19-22 | a clock earlier than the write time counts as no time elapsed |
| Records.ElapsedMonotone | src/core/record.rs:30-33 | elapsed whole seconds never decrease as the clock advances |
| Records.GetTtlNonIncreasing | src/core/record.rs:27-40 | the remaining TTL never grows as the clock advances, and expiry is permanent |
| TrieIndex.InsertLongKey | src/core/trie.rs:21-38 | a key of two or more characters changes only the root's child for its first character: created at counter 2 or bumped by one, end flag false, grandchildren untouched, no panic |
| TrieIndex.InsertOneCharKey | src/core/trie.rs:21-38 | a one-character key marks and bumps that child, then panics |
| TrieIndex.ReplaceReachesNode | src/core/trie.rs:44-53 | replacing the node at a path makes that path reach the new node |
| TrieIndex.ReplaceLeavesOtherPaths | src/core/trie.rs:44-53 | replacing the node at a path changes no node on a path that diverges from it |
| TrieIndex.ReplaceKeepsAncestors | src/core/trie.rs:44-53 | replacing the node at a path keeps each ancestor's flag, counter and child keys |
| TrieIndex.PrunedKeeping | src/core/trie.rs:53-67 | the node reached loses one from its counter and exactly its children with counter 0 |
| TrieIndex.RemoveAtNode | src/core/trie.rs:40-68 | removing along an existing path with a positive counter decrements the node reached, keeps its flag and drops exactly its zero-counter children |
| TrieIndex.CounterUnderflowReachable | src/core/trie.rs:53 | three removals of `"a"` after inserting `"ab"` reach a counter of 0 and the third one panics |
| TrieIndex.ShallowReach | src/core/trie.rs:35 | in a trie of depth at most one, no path of two or more characters exists |
| TrieIndex.RemoveKeepsShallow | src/core/trie.rs:40-68 | removal keeps the trie at depth at most one |
| TrieIndex.RunKeepsShallow | src/core/trie.rs:21-68 | any sequence of inserts and removes from any depth-one trie stays at depth one |
| TrieIndex.NonEmptyPrefixFindsNothing | src/core/trie.rs:69-85 | from the default trie, every non-empty prefix query returns nothing, whatever was inserted and removed |
| TrieIndex.EmptyPrefixListsRootChildren | src/core/trie.rs:69-85 | the empty prefix lists one single-character string per child of the root |
| TrieIndex.Trie.constructor | src/core/trie.rs:10-18 | a new trie has counter 1, no end flag and no children |
| TrieIndex.Trie.Leaf | src/core/trie.rs:25-29 | the child `or_insert_with` creates: counter 1, the given end flag, no children |
| TrieIndex.Trie.Bump | src/core/trie.rs:32-33 | an existing child gains one on its counter and takes the new end flag, and nothing else changes |
| TrieIndex.Trie.AddBumpedLeaf | src/core/trie.rs:24-33 | a missing child is added at counter 2 with the new end flag, and nothing else changes |
| TrieIndex.Trie.EnterAndBump | src/core/trie.rs:23-33 | the first step of insert, as `InsertSpec` gives it, returning the child entered |
| TrieIndex.Trie.Insert | src/core/trie.rs:21-38 | the trie and the panic flag afterwards are `InsertSpec` of the trie before; the empty input panics and changes nothing |
| TrieIndex.Trie.Descend | src/core/trie.rs:44-51 | the node object reached along a path is the one whose view the path reaches |
| TrieIndex.Trie.DescendStep | src/core/trie.rs:44-51 | descending one more character is one child lookup from where the path ended |
| TrieIndex.Trie.DescendMissing | src/core/trie.rs:48-49 | once a path is missing, every extension of it is missing |
| TrieIndex.Trie.Walk | src/core/trie.rs:44-51 | the cursor loop finds exactly the node the path reaches, or nothing when the path is missing |
| TrieIndex.Trie.Remove | src/core/trie.rs:40-68 | the trie and the panic flag afterwards are `RemoveSpec` of the trie before: a missing path changes nothing; a zero counter panics |
| TrieIndex.Trie.DecrementAndPrune | src/core/trie.rs:53-67 | the node becomes `Pruned` of its old view |
| TrieIndex.Trie.DeleteChildren | src/core/trie.rs:65-67 | the doomed keys leave the child map and every other child stays |
| TrieIndex.Trie.KeysFromDescend | src/core/trie.rs:69-85 | the prefix query's answer is the child characters of the node the prefix reaches, or nothing |
| TrieIndex.Trie.GetKeysWithPrefix | src/core/trie.rs:69-85 | the list holds each continuation character of the prefix's node exactly once and nothing else |
| TrieIndex.ChildKeys | src/core/trie.rs:75 | the list holds one string per child character, without repeats |
| Store.Get | src/core/smirk_map.rs:31-40 | `get` succeeds exactly when the key holds a value of the requested kind, and then returns a value of that kind |
| Store.GetAgreesWithTypeName | src/core/smirk_map.rs:31-40 | on a present key, `get` succeeds exactly when the stored type name is the requested one, and fails with TypeMismatch naming the requested type otherwise |
| Store.LookupsAgreeOnAbsentKey | src/core/smirk_map.rs:31-40 | `exists` is false exactly when `get_record`, `get` and `ttl` all report the key missing (the first two with KeyNotFound) |
| Store.SetThenGet | src/core/smirk_map.rs:71-98 | `set` succeeds exactly when the text parses; then it replies SetKey, `get` returns the parsed value and no TTL is set; otherwise it replies ParseError with the raw text and leaves the map as it was; no other key changes |
| Store.SetOfShownValueRestoresIt | src/core/smirk_map.rs:71-98 | setting a value's display text stores that same value |
| Store.SetKeepsConsistent | src/core/smirk_map.rs:79-87 | after `set`, every record's type name still matches its value's kind |
| Store.OtherWritesKeepConsistent | src/core/smirk_map.rs:42-62 | `binary_set`, `del` and `set_ttl` keep every record's type name matching its value's kind |
| Store.BinarySetThenGet | src/core/smirk_map.rs:42-62 | `binary_set` always replies SetKey with `"Vec<u8>"`, stores the raw bytes with no TTL, and changes no other key |
| Store.DelTwice | src/core/smirk_map.rs:99-116 | `del` returns 1 exactly when the key existed; it removes only that key; afterwards the key does not exist and a second `del` returns 0 and changes nothing |
| Store.SetTtlChangesOnlyTtl | src/core/smirk_map.rs:117-127 | `set_ttl` replaces only the ttl of a present record, keeping its value, write time and type names; on an absent key it does nothing and `ttl` reports the key missing |
| Store.TtlCountsFromWrite | src/core/smirk_map.rs:123-127 | the countdown keeps its original start: a TTL set after that many seconds have passed is already at 0 and expired |
| Store.AddFrom | src/core/smirk_map.rs:147-165 | a successful checked sum lies in the type's range |
| Store.AddFromSucceedsExactly | src/core/smirk_map.rs:147-165 | `add` succeeds exactly when every key holds the type and every running sum stays in range, and the result is the total |
| Store.AddFromPrefix | src/core/smirk_map.rs:152-159 | after a good prefix of keys, the loop continues from the prefix's total |
| Store.AddReportsFirstUnusableKey | src/core/smirk_map.rs:160-161 | the first key that is absent or of another type is reported as a ParseError with empty text |
| Store.AddReportsFirstOverflow | src/core/smirk_map.rs:154-158 | the first running sum outside the range gives AddOverflowError |
| Store.BigIntAddIsTotal | src/core/smirk_map.rs:147-165 | a BigInt sum never overflows: it succeeds exactly when every key holds a BigInt |
| Store.FloatAddSucceedsExactly | src/core/smirk_map.rs:131-145 | the float sum succeeds exactly when every key holds the type, and otherwise names the first key that does not |
| Store.SmirkMap.constructor | src/core/smirk_map.rs:13-17 | a new store has the given mode, no records and a default trie |
| Store.SmirkMap.Set | src/core/smirk_map.rs:71-98 | the new map and the reply are `SetSpec` of the old map |
| Store.SmirkMap.BinarySet | src/core/smirk_map.rs:42-62 | the new map and the reply are `BinarySetSpec` of the old map |
| Store.SmirkMap.Del | src/core/smirk_map.rs:109-116 | the new map and the count are `DelSpec` of the old map |
| Store.SmirkMap.SetTtl | src/core/smirk_map.rs:123-127 | the new map is `SetTtlSpec` of the old map |
| Store.SmirkMap.SetSearchMode | src/core/smirk_map.rs:128-130 | the mode becomes the given one and the records are kept consistent |
| Store.SmirkMap.Add | src/core/smirk_map.rs:147-165 | the loop's result is `AddFrom` from 0; it is in range when it succeeds, and no keys give 0 |
| Store.SmirkMap.AddFloat | src/core/smirk_map.rs:131-145 | the loop's result is `FloatAddFrom` from the float zero, and any failure is a ParseError |
| Commands.LeadingWord | src/lib/command.rs:26 | the first token is a whitespace-free prefix ended by whitespace or the end of the line |
| Commands.TokensAreWords | src/lib/command.rs:26 | every token is non-empty and free of whitespace |
| Commands.TokensEmptyIff | src/lib/command.rs:26-29 | a line has no tokens exactly when it is all whitespace |
| Commands.TokensAfterWord | src/lib/command.rs:26 | a word followed by whitespace is the first token, and the rest is tokenised alone |
| Commands.JoinThenTokens | src/lib/command.rs:26-37 | tokenising words joined by single spaces gives back the words |
| Commands.UpperOfCapitals | src/lib/command.rs:32 | upper-casing leaves capital letters as they are |
| Commands.VerbWordRecognised | src/lib/command.rs:32-105 | every verb's own spelling is upper-case and is recognised as that verb |
| Commands.ModeWordRecognised | src/lib/command.rs:61-63 | the mode words are upper-case |
| Commands.ParseCanonical | src/lib/command.rs:25-107 | the canonical tokens of any command whose arguments are single words parse back to that command |
| Commands.ParseUnparse | src/lib/command.rs:25-107 | the canonical line of any such command parses back to it |
| Commands.ParsedVerbArgs | src/lib/command.rs:33-98 | a parsed command keeps its verb and, except for MODE, QUIT, SAVE and a TTL set, exactly the argument tokens given (so DEL keeps order and duplicates) |
| Commands.ParsedSetArgs | src/lib/command.rs:33-38 | a SET's value is the tokens after the key joined by single spaces, and joining undoes the split |
| Commands.ParsedIsCanonical | src/lib/command.rs:25-107 | whatever parses is a command that its canonical line parses back to |
| Commands.NoInputIffBlank | src/lib/command.rs:26-29 | the result is NoInput exactly when the line is all whitespace |
| Commands.LineAfterWord | src/lib/command.rs:26-32 | a line is parsed by its upper-cased first word and the tokens after it |
| Commands.VerbCaseInsensitive | src/lib/command.rs:32 | verbs that differ only in letter case parse the same |
| Commands.ModeWordOnly | src/lib/command.rs:57-66 | MODE accepts GLOB or REGEX in any case and reports NoValidModeSpecified for anything else, so TRIE is never chosen |
| Commands.QuitAndSaveIgnoreRest | src/lib/command.rs:99-104 | QUIT and SAVE succeed whatever follows them |
| Commands.TtlArgument | src/lib/command.rs:70-77 | TTL with a key and a number sets that TTL when the number parses as u64, else InvalidTtlSpecified |
| Commands.ArgumentCounts | src/lib/command.rs:32-105 | for each verb, the token counts that succeed: SET at least 4, GET exactly 3, DEL at least 2, KEYS/EXISTS/TYPE/DELTTL exactly 2, MODE 2, TTL 2 or 3, QUIT/SAVE any, and every other count is ArgumentMismatch; an unknown verb gives Unknown; a parse never yields ADD |
| Server.GetTag | src/server/main.rs:171-191 | GET reads a listed type word as its type and any other word as bytes |
| Server.Lines | src/server/main.rs:236-238 | one chunk per key, each the key and a newline |
| Server.StepKeepsConsistent | src/server/main.rs:146-318 | every command but KEYS keeps each record's type name matching its value's kind |
| Server.DelAllKeepsConsistent | src/server/main.rs:194-200 | a run of deletions keeps the records consistent |
| Server.ReadsChangeNothing | src/server/main.rs:171-296 | GET, TTL-get, EXISTS, TYPE, SAVE, QUIT and ADD change nothing; MODE only sets the mode and TTL-set only applies `set_ttl`, and both write nothing; only SET and DEL touch the trie; only SET, DEL and SAVE can panic |
| Server.SetParseErrorChangesNothing | src/server/main.rs:88-102 | a SET whose text does not parse writes the ParseError text and changes neither the records nor the trie |
| Server.UnlistedSetThenGet | src/server/main.rs:104-191 | a SET with an unlisted type word stores the raw bytes as `"Vec<u8>"`, and a GET with that word writes them back verbatim and then a newline |
| Server.ListedSetThenGet | src/server/main.rs:75-102 | a SET with a listed type word and parsable text replies SetKey, and a GET with that word writes the parsed value's display form and a newline |
| Server.OneCharacterSetPanics | src/server/main.rs:95-98 | a successful SET of a one-character key stores the record, then panics in the trie before any reply |
| Server.DelAllRemovesListed | src/server/main.rs:194-199 | DEL removes exactly the listed keys, and its count is the number of distinct listed keys that were present |
| Server.DelReply | src/server/main.rs:194-200 | DEL removes the listed keys, runs `trie.remove` on every listed key, and (if that does not panic) writes the count without a newline |
| Server.AddChangesNothing | src/server/main.rs:297-316 | ADD never changes anything; it writes one chunk for the fifteen numeric words and nothing for any other |
| Server.AddReply | src/server/main.rs:297-316 | for an integer word whose keys all hold the type and whose running sums stay in range, ADD writes the total; no keys give `"0"` |
| Server.RepliesEndLines | src/server/main.rs:171-296 | the last chunk of GET, TTL-get, EXISTS, TYPE and QUIT ends in a newline |
| Server.InsertKeepsShallow | src/server/main.rs:97 | a trie insert keeps the index at depth at most one |
| Server.RemoveAllKeepsShallow | src/server/main.rs:196-198 | DEL's removals keep the index at depth at most one |
| Server.StepKeepsShallow | src/server/main.rs:146-318 | no command deepens the index beyond one level |
| Server.TrieKeysFindNothing | src/server/main.rs:231-240 | in Trie mode a non-empty KEYS pattern always gets the no-matches reply |
| Server.GetValueAndWrite | src/server/main.rs:75-86 | writes the value's display form and a newline (bytes verbatim, then a newline), or the error's message |
| Server.WriteRecord | src/server/main.rs:88-118 | the store write of SET, typed or binary, as `WriteSpec` gives it |
| Server.SetValueAndWrite | src/server/main.rs:88-118 | the new state and the chunks are `SetResponse`: the trie is updated only after a successful write |
| Server.DeleteAndWrite | src/server/main.rs:194-200 | the loops over the keys give `DelResponse` of the old state |
| Server.CollectMatches | src/server/main.rs:203-230 | the list holds every key the pattern matches exactly once |
| Server.MatchKeysAndWrite | src/server/main.rs:201-230 | KEYS in Glob or Regex mode: a pattern that fails to compile panics; otherwise the matching keys as one chunk of lines, or the no-matches reply |
| Server.PrefixKeysAndWrite | src/server/main.rs:231-240 | KEYS in Trie mode: one line per continuation character, or the no-matches reply |
| Server.AddAndWrite | src/server/main.rs:297-316 | the chunks are `AddWrites` of the records |
| Server.Answer | src/server/main.rs:171-296 | the read-only commands answer as `Step` says and change nothing |
| Server.Apply | src/server/main.rs:148-252 | SET, DEL, MODE and TTL-set change the state and write as `Step` says |
| Server.ProcessCommand | src/server/main.rs:146-318 | every command but KEYS gives `Step` of the old state; KEYS changes nothing and answers as `KeysResponse` says |
| Config.Default | src/server/smirk_config.rs:13-22 | port 53173, one database, the given CPU count of threads, Glob mode |
| Config.ParseOr | src/server/smirk_config.rs:31-39 | a flag value that parses in the field's type is taken, anything else keeps the previous value |
| Config.SearchTypeOf | src/server/smirk_config.rs:40-45 | Regex exactly when the upper-cased value is REGEX, otherwise Glob; never Trie |
| Config.GetRuntimeConfig | src/server/smirk_config.rs:25-49 | the loop over the arguments computes `RuntimeConfig` |
| Config.FlagStepSetsOneField | src/server/smirk_config.rs:30-46 | one argument sets at most the field its flag names, to the parsed value, and leaves the others alone |
| Config.UnsetFieldKeeps | src/server/smirk_config.rs:30-46 | a field no later argument sets keeps its value |
| Config.LastSettingWins | src/server/smirk_config.rs:30-46 | the last argument that sets a field decides it |
| Config.RuntimeConfigFields | src/main.rs:34-58 | each field is its default when no argument sets it, and otherwise the value of the last argument that does |
| Config.LastArgumentSetsNothing | src/server/smirk_config.rs:31 | a flag in the last position sets nothing |
| Config.NeverTrie | src/main.rs:49-54 | the flags never choose Trie mode |
| Config.PortOutOfRangeIgnored | src/server/smirk_config.rs:31-33 | `--port 70000` leaves the default port |
| Prototype.Trie.constructor | src/lib/trie.rs:9-17 | a new trie has counter 1, no end flag and no children |
| Prototype.Trie.Insert | src/lib/trie.rs:20-39 | the empty input panics; an existing child for the first character gains one on its counter and marks whether the key was one character; a missing child is not added; nothing else changes |
| Prototype.TagOf | src/main.rs:120-138 | the prototype's type words: a listed word other than BigInt is its type; BigInt and any unlisted word become String; never bytes |
| Prototype.SetThenGet | src/lib/smirk_map.rs:29-72 | `set` always replies SetKey, stores the raw bytes with the requested type name and no TTL, and changes no other key; `get` then succeeds only for bytes and is TypeMismatch otherwise |
| Prototype.SetKeepsAllBytes | src/lib/smirk_map.rs:54-61 | the prototype's records only ever hold bytes |
| Prototype.GetNeverSucceeds | src/main.rs:140-160 | through the dispatcher, GET of a present key is always TypeMismatch and of an absent key KeyNotFound |
| Prototype.SmirkMap.constructor | src/lib/smirk_map.rs:11-15 | a new store has the given mode, no records and a default trie |
| Prototype.SmirkMap.Set | src/lib/smirk_map.rs:47-72 | the new map and reply are the prototype's `SetSpec` of the old map |
| Prototype.SmirkMap.Del | src/lib/smirk_map.rs:83-90 | the new map and count are `DelSpec` of the old map |
| Prototype.SmirkMap.SetTtl | src/lib/smirk_map.rs:97-101 | the new map is `SetTtlSpec` of the old map |
| Prototype.SmirkMap.SetSearchMode | src/lib/smirk_map.rs:102-104 | the mode becomes the given one |
| Prototype.StepKeepsAllBytes | src/main.rs:117-255 | no prototype command stores anything but bytes |
| Prototype.SetThenGetMismatches | src/main.rs:119-160 | a SET always replies SetKey naming the type `TagOf` gives its word (String for BigInt and unlisted words), and a later GET of that key with any type word is a TypeMismatch |
| Prototype.DelReply | src/main.rs:161-164 | DEL removes the listed keys, writes their count and never touches the trie |
| Prototype.ReadsChangeNothing | src/main.rs:140-253 | only SET, DEL, MODE and TTL-set change the state, and only SAVE panics |
| Prototype.GetValueAndWrite | src/main.rs:89-100 | writes the value and a newline, or the error's message |
| Prototype.SetValueAndWrite | src/main.rs:102-115 | the new state and the reply are `SetWrites` of the old state |
| Prototype.DeleteAndWrite | src/main.rs:161-164 | the loop gives `DelAll` of the old map and writes its count |
| Prototype.Answer | src/main.rs:140-253 | the read-only commands answer as the prototype's `Step` says |
| Prototype.ProcessCommand | src/main.rs:117-255 | every command but KEYS gives the prototype's `Step` of the old state; KEYS changes nothing, writes nothing in Trie mode and matches as the server does otherwise |

## Left out

- The TCP accept loop, thread spawning, the `Arc<Mutex>` lock and the per-connection read
  loop (`main` and `handle_client` in both programs) are not modelled. They are
  concurrency and socket I/O. Lock poisoning after a panic is left out with them.
- Socket writes, the `Streamable` impls and QUIT's `stream.shutdown` are not modelled.
  Replies are returned as chunks, and the shutdown error message is not modelled.
- Glob and regex matching come from outside crates. They are the `Patterns` parameter of
  the model: whether a pattern compiles, and whether it matches a key. An invalid pattern
  makes the model panic, as `unwrap` does.
- f32/f64 values are opaque bit patterns. Their parsing, addition and display are the
  `FloatOps` parameter.
- `type_name::<T>()` is replaced by the dispatch word of each type. Only the literal
  `"Vec<u8>"` is kept as written.
- `SystemTime::now()` and `num_cpus::get()` are passed in as parameters.
- `String::from_utf8_lossy` is taken as the identity: a byte is modelled as a character.
- SAVE writes its line and then reaches `todo!()`. It is modelled as a panic.
- `isize` and `usize` are fixed at 64 bits.
- TrieIndex.Trie.Insert: does not model the overflow panic of the u64 `counter += 1`,
  since it needs 2^64 inserts of one prefix.
- TrieIndex.Trie.Remove: models a build with integer overflow checks on (the default debug
  profile). There, `counter -= 1` at `src/core/trie.rs:53` on a zero counter panics, and so
  does the DEL that called it. In a default release build the counter wraps to 2^64 - 1
  instead. Pruning then goes ahead and DEL writes its count as usual, which the model does
  not capture. `TrieIndex.CounterUnderflowReachable` and `Server.DelReply` follow the same
  profile.
- Values.Parse: BigInt text is an optional sign and decimal digits. num-bigint's `_`
  separators are not accepted.
- Commands.Upper: upper-cases ASCII and a fixed list of the common special cases. The rest
  of Unicode's case mappings are left out.
- Server.ProcessCommand: KEYS is specified up to order, because the listing order is the
  hash map's iteration order.
- The core `Command` type (`smirk::core::command`) is not part of this model. Its shape,
  including ADD with a type word and keys, is inferred from the dispatcher's match arms.
  The command parser never yields ADD.
- The AddOverflowError variant is missing from the messages enum, though `add` uses it.
  The model adds it with the text `Adding the values overflowed the requested type.\n`.
- DEL's count is added up in a u64 in the source. The model uses an unbounded count, since
  a count beyond 2^64 keys cannot occur.
- Trie `get_keys_with_prefix` keeps an explicit stack. The stack never holds more than one
  entry, so it is modelled as the cursor walk that `remove` uses, followed by listing the
  node's children.
- TrieIndex.Trie.AddBumpedLeaf: a missing child is created with counter 1, bumped to 2,
  and then linked in. The source links it in first and then bumps it; the resulting trie
  is the same.
- Prototype.SetValueAndWrite: the prototype passes a `String` where its `set` expects a
  `Vec<u8>` (`src/main.rs:109` against `src/lib/smirk_map.rs:50`), so it does not compile
  as written. The value is modelled as bytes.
- The prototype's `Trie::insert` is never called by its dispatcher. It is modelled on its
  own.
- `src/core/smirk_search_mode.rs` and `src/lib/command_error.rs` are plain enums. They are
  reused as datatypes, and `from_ref` is the identity.
