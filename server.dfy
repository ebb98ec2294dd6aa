/**
 * The server's dispatcher (`process_command`): one parsed command applied to the shared
 * store, with what it writes to the client collected as a sequence of chunks, one per
 * `write_all`, instead of being sent over a socket.
 *
 * A panic ends the connection's thread at the point it happens; the store keeps every
 * change made before it and the chunks that would have followed are never written. Here a
 * panic is a flag in the result.
 */
module Server {
  import opened Wrappers
  import opened Values
  import opened Messages
  import opened Records
  import opened SearchModes
  import opened Store
  import Commands
  import TrieIndex

  /** What one command can see and change: the records, the search mode and the key index. */
  datatype State = State(records: RecordMap, mode: SearchMode, index: TrieIndex.Node)

  /**
   * The glob and regex crates: whether a KEYS pattern compiles under a mode (an invalid one
   * makes `unwrap` panic) and whether a compiled pattern matches a key.
   */
  datatype Patterns = Patterns(
    compiles: (SearchMode, string) -> bool,
    matches: (SearchMode, string, string) -> bool)

  /** What the dispatcher takes from outside: the clock, floating point, and pattern matching. */
  datatype Env = Env(now: int, fl: FloatOps, patterns: Patterns)

  /** The state after a command, the chunks written, and whether the command panicked. */
  datatype Response = Response(state: State, written: seq<string>, panicked: bool)

  // ---------------------------------------------------------------------------------------
  // The per-type helpers, as functions of the state before

  /** SET and GET map each listed type word to its type; GET reads any other word as bytes. */
  function GetTag(t: string): (tag: Tag)
    ensures TagOfName(t).Some? ==> tag == TagOfName(t).value
    ensures TagOfName(t).None? ==> tag == Bytes
  {
    match TagOfName(t) case Some(tag) => tag case None => Bytes
  }

  /**
   * `get_value_and_write_to_stream::<T>`: a value is written in its display form ended by a
   * newline (a byte vector verbatim, then a separate newline), an error as its message.
   */
  function GetWrites(m: RecordMap, key: string, tag: Tag, fl: FloatOps): seq<string>
  {
    match Get(m, key, tag)
    case Ok(v) => if tag == Bytes then [Show(v, fl), "\n"] else [Show(v, fl) + "\n"]
    case Err(e) => [Render(e)]
  }

  /** The store write SET makes: typed for a listed type word, raw bytes for any other. */
  function WriteSpec(m: RecordMap, t: string, key: string, text: string, env: Env): Written
  {
    match TagOfName(t)
    case Some(tag) => SetSpec(m, key, tag, text, t, env.now, env.fl)
    case None => BinarySetSpec(m, key, text, t, env.now)
  }

  /**
   * `set_value_and_write_to_stream::<T>` for a listed type word, and
   * `set_binary_value_and_write_to_stream` for any other: the write's reply is rendered,
   * and a successful write also inserts the key into the index first.
   */
  function SetResponse(s: State, t: string, key: string, text: string, env: Env): Response
  {
    var w := WriteSpec(s.records, t, key, text, env);
    match w.reply
    case Ok(msg) =>
      var o := TrieIndex.InsertSpec(s.index, key);
      Response(State(w.store, s.mode, o.trie), if o.panicked then [] else [Render(msg)], o.panicked)
    case Err(e) =>
      Response(s.(records := w.store), [Render(e)], false)
  }

  /** The `del` calls of DEL, one per listed key in order: what is left and how many went. */
  function DelAll(m: RecordMap, keys: seq<string>): (RecordMap, nat)
    decreases |keys|
  {
    if keys == [] then (m, 0)
    else
      var (m1, n1) := DelSpec(m, keys[0]);
      var (m2, n2) := DelAll(m1, keys[1..]);
      (m2, n1 + n2)
  }

  /** The `trie.remove` calls of DEL, one per listed key in order, stopping at a panic. */
  function RemoveAll(t: TrieIndex.Node, keys: seq<string>): TrieIndex.Outcome
    decreases |keys|
  {
    if keys == [] then TrieIndex.Outcome(t, false)
    else
      var o := TrieIndex.RemoveSpec(t, keys[0]);
      if o.panicked then o else RemoveAll(o.trie, keys[1..])
  }

  /** DEL: the records go first, then the index; the count is written without a newline. */
  function DelResponse(s: State, keys: seq<string>): Response
  {
    var (m, n) := DelAll(s.records, keys);
    var o := RemoveAll(s.index, keys);
    Response(State(m, s.mode, o.trie), if o.panicked then [] else [NatToString(n)], o.panicked)
  }

  /** The ADD words: the thirteen integer types and the two float types. */
  predicate AddsAs(t: string, tag: Tag)
  {
    TagOfName(t) == Some(tag) && (tag.IsInteger() || tag.IsFloat())
  }

  /**
   * `add_and_write_to_stream::<T>` and `add_float_and_write_to_stream::<T>`: the total in
   * display form without a newline, or the error's message; any other word does nothing.
   */
  function AddWrites(m: RecordMap, t: string, keys: seq<string>, fl: FloatOps): seq<string>
    requires Consistent(m)
  {
    match TagOfName(t)
    case Some(tag) =>
      if tag.IsInteger() then
        (match AddFrom(m, keys, tag, 0) case Ok(n) => [IntToString(n)] case Err(e) => [Render(e)])
      else if tag.IsFloat() then
        (match FloatAddFrom(m, keys, tag, fl, FloatZero) case Ok(b) => [fl.show(tag, b)] case Err(e) => [Render(e)])
      else []
    case None => []
  }

  /** TTL with a key only: the seconds left, or why there are none. */
  function TtlWrites(m: RecordMap, key: string, now: int): seq<string>
  {
    match Ttl(m, key, now)
    case Ok(Some(n)) => [NatToString(n) + "\n"]
    case Ok(None) => ["Key \"" + key + "\" does not expire.\n"]
    case Err(_) => ["Key \"" + key + "\" does not exist.\n"]
  }

  /** TYPE: the stored type's name and the client's type word. */
  function TypeWrites(m: RecordMap, key: string): seq<string>
  {
    match GetRecord(m, key)
    case Ok(r) => ["Stored-Type: " + r.typeName + ", User-Type: " + r.desiredTypeName + "\n"]
    case Err(e) => [Render(e)]
  }

  function ExistsWrites(m: RecordMap, key: string): seq<string>
  {
    if Exists(m, key) then ["true\n"] else ["false\n"]
  }

  /** The reply to a KEYS query nothing matched. */
  function NoMatches(pattern: string): string
  {
    "No matches for key query \"" + pattern + "\" were found.\n"
  }

  /** `keys.join("\n")`. */
  function JoinLines(ks: seq<string>): string
    decreases |ks|
  {
    if ks == [] then "" else if |ks| == 1 then ks[0] else ks[0] + "\n" + JoinLines(ks[1..])
  }

  /** One chunk per key, each ended by a newline. */
  function Lines(ks: seq<string>): (r: seq<string>)
    ensures |r| == |ks| && forall i :: 0 <= i < |ks| ==> r[i] == ks[i] + "\n"
  {
    seq(|ks|, i requires 0 <= i < |ks| => ks[i] + "\n")
  }

  /** A sequence lists a set when it holds each member once and nothing else. */
  predicate Enumerates(ks: seq<string>, found: set<string>)
  {
    TrieIndex.Distinct(ks) && (set i | 0 <= i < |ks| :: ks[i]) == found
  }

  /** The keys a glob or regex pattern matches. */
  function Matching(m: RecordMap, mode: SearchMode, pattern: string, p: Patterns): set<string>
  {
    set k | k in m && p.matches(mode, pattern, k)
  }

  /**
   * KEYS, whose listing order is the hash map's (or the index's) and so is not fixed:
   * nothing changes; in Trie mode each string the index returns is one chunk, and no result
   * at all is reported as such.
   */
  ghost predicate KeysResponse(s: State, pattern: string, p: Patterns, written: seq<string>, panicked: bool)
  {
    match s.mode
    case Trie =>
      var found := TrieIndex.KeysWithPrefix(s.index, pattern);
      !panicked &&
      (found == {} ==> written == [NoMatches(pattern)]) &&
      (found != {} ==> exists ks :: Enumerates(ks, found) && written == Lines(ks))
    case _ => MatchResponse(s.records, s.mode, pattern, p, written, panicked)
  }

  /**
   * KEYS in Glob or Regex mode: a pattern that does not compile panics; otherwise the keys
   * of the map it matches are written as one chunk of lines, and no match is reported as such.
   */
  ghost predicate MatchResponse(m: RecordMap, mode: SearchMode, pattern: string, p: Patterns, written: seq<string>, panicked: bool)
  {
    if !p.compiles(mode, pattern) then panicked && written == []
    else
      var found := Matching(m, mode, pattern, p);
      !panicked &&
      (found == {} ==> written == [NoMatches(pattern)]) &&
      (found != {} ==> exists ks :: Enumerates(ks, found) && written == [JoinLines(ks) + "\n"])
  }

  /** `process_command` for every command but KEYS. */
  function Step(s: State, cmd: Commands.Command, env: Env): Response
    requires Consistent(s.records) && !cmd.Keys?
  {
    match cmd
    case Set(t, k, v) => SetResponse(s, t, k, v, env)
    case Get(t, k) => Response(s, GetWrites(s.records, k, GetTag(t), env.fl), false)
    case Del(keys) => DelResponse(s, keys)
    case Mode(mode) => Response(s.(mode := mode), [], false)
    case TtlSet(k, ttl) => Response(s.(records := SetTtlSpec(s.records, k, ttl)), [], false)
    case TtlGet(k) => Response(s, TtlWrites(s.records, k, env.now), false)
    case Exists(k) => Response(s, ExistsWrites(s.records, k), false)
    case Type(k) => Response(s, TypeWrites(s.records, k), false)
    case Save => Response(s, ["Saving a dump of all keys."], true)
    case Quit => Response(s, ["Bye.\n"], false)
    case Add(t, keys) => Response(s, AddWrites(s.records, t, keys, env.fl), false)
  }

  // ---------------------------------------------------------------------------------------
  // What the dispatcher promises

  /** Every write keeps the records consistent, so commands can follow one another. */
  lemma StepKeepsConsistent(s: State, cmd: Commands.Command, env: Env)
    requires Consistent(s.records) && !cmd.Keys?
    ensures Consistent(Step(s, cmd, env).state.records)
  {
    match cmd
    case Set(t, k, v) =>
      if TagOfName(t).Some? {
        SetKeepsConsistent(s.records, k, TagOfName(t).value, v, t, env.now, env.fl);
      } else {
        OtherWritesKeepConsistent(s.records, k, v, t, env.now, None);
      }
    case Del(keys) => DelAllKeepsConsistent(s.records, keys);
    case TtlSet(k, ttl) => OtherWritesKeepConsistent(s.records, k, "", "", 0, ttl);
    case _ =>
  }

  lemma {:induction false} DelAllKeepsConsistent(m: RecordMap, keys: seq<string>)
    requires Consistent(m)
    ensures Consistent(DelAll(m, keys).0)
    decreases |keys|
  {
    if keys != [] {
      OtherWritesKeepConsistent(m, keys[0], "", "", 0, None);
      DelAllKeepsConsistent(DelSpec(m, keys[0]).0, keys[1..]);
    }
  }

  /** Only SET, DEL, MODE, TTL-set and DELTTL change anything, and only SET and DEL the index. */
  lemma ReadsChangeNothing(s: State, cmd: Commands.Command, env: Env)
    requires Consistent(s.records) && !cmd.Keys?
    ensures !(cmd.Set? || cmd.Del? || cmd.Mode? || cmd.TtlSet?) ==> Step(s, cmd, env).state == s
    ensures cmd.Mode? ==> Step(s, cmd, env) == Response(s.(mode := cmd.mode), [], false)
    ensures cmd.TtlSet? ==> Step(s, cmd, env) == Response(s.(records := SetTtlSpec(s.records, cmd.key, cmd.ttl)), [], false)
    ensures !cmd.Set? && !cmd.Del? ==> Step(s, cmd, env).state.index == s.index
    ensures Step(s, cmd, env).panicked ==> cmd.Set? || cmd.Del? || cmd.Save?
  {
  }

  /**
   * SET of text that does not parse as the listed type changes nothing and writes the
   * parse error naming the key, the raw text and the type word.
   */
  lemma SetParseErrorChangesNothing(s: State, t: string, k: string, v: string, env: Env)
    requires Consistent(s.records) && TagOfName(t).Some? && Parse(TagOfName(t).value, v, env.fl).None?
    ensures Step(s, Commands.Set(t, k, v), env) == Response(s, [Render(ParseError(k, v, t))], false)
  {
  }

  /**
   * SET with a type word outside the list stores the raw text as bytes; GET with the same
   * word then writes those bytes and a newline.
   */
  lemma UnlistedSetThenGet(s: State, t: string, k: string, v: string, env: Env)
    requires Consistent(s.records) && TagOfName(t).None? && |k| >= 2
    ensures var r := Step(s, Commands.Set(t, k, v), env);
      !r.panicked && r.written == [Render(SetKey(k, "Vec<u8>", t))] &&
      r.state.records[k] == Record(BytesVal(v), None, env.now, "Vec<u8>", t) &&
      Step(r.state, Commands.Get(t, k), env).written == [v, "\n"]
  {
    TrieIndex.InsertLongKey(s.index, k);
    var r := Step(s, Commands.Set(t, k, v), env);
    BinarySetThenGet(s.records, k, v, t, env.now, env.now);
    OtherWritesKeepConsistent(s.records, k, v, t, env.now, None);
  }

  /**
   * SET of a listed type with text that parses stores the parsed value; GET with the same
   * word then writes its display form. Integers survive display and parsing, so what GET
   * writes SETs back to the same value.
   */
  lemma ListedSetThenGet(s: State, t: string, k: string, v: string, env: Env)
    requires Consistent(s.records) && TagOfName(t).Some? && Parse(TagOfName(t).value, v, env.fl).Some? && |k| >= 2
    ensures var tag := TagOfName(t).value; var value := Parse(tag, v, env.fl).value;
      var r := Step(s, Commands.Set(t, k, v), env);
      !r.panicked && r.written == [Render(SetKey(k, t, t))] &&
      Step(r.state, Commands.Get(t, k), env).written == [Show(value, env.fl) + "\n"]
  {
    var tag := TagOfName(t).value;
    TrieIndex.InsertLongKey(s.index, k);
    SetThenGet(s.records, k, tag, v, t, env.now, env.fl, env.now);
    SetKeepsConsistent(s.records, k, tag, v, t, env.now, env.fl);
  }

  /**
   * A successful SET under a key of one character panics in the index after the record was
   * stored: the value is in the map but the client is told nothing.
   */
  lemma OneCharacterSetPanics(s: State, t: string, c: char, v: string, env: Env)
    requires Consistent(s.records)
    requires TagOfName(t).None? || Parse(TagOfName(t).value, v, env.fl).Some?
    ensures var r := Step(s, Commands.Set(t, [c], v), env);
      r.panicked && r.written == [] && [c] in r.state.records
  {
    TrieIndex.InsertOneCharKey(s.index, c);
  }

  /**
   * DEL removes every listed key from the records and reports how many distinct listed
   * keys were there; nothing else in the records changes.
   */
  lemma {:induction false} DelAllRemovesListed(m: RecordMap, keys: seq<string>)
    ensures DelAll(m, keys).0 == map k | k in m && k !in keys :: m[k]
    ensures DelAll(m, keys).1 == |set k | k in keys && k in m|
    decreases |keys|
  {
    var here := set k | k in keys && k in m;
    if keys == [] {
      assert m == map k | k in m && k !in keys :: m[k];
      assert here == {};
    } else {
      var k0, rest := keys[0], keys[1..];
      var (m1, n1) := DelSpec(m, k0);
      DelAllRemovesListed(m1, rest);
      var there := set k | k in rest && k in m1;
      assert forall k :: k in keys <==> k == k0 || k in rest by {
        assert keys == [k0] + rest;
      }
      assert (map k | k in m1 && k !in rest :: m1[k]) == map k | k in m && k !in keys :: m[k];
      if k0 in m {
        assert here == there + {k0} && k0 !in there;
      } else {
        assert here == there;
      }
    }
  }

  /**
   * DEL that does not panic writes the number of distinct listed keys that were present,
   * with no newline; a key listed twice counts once, and absent keys count nothing.
   */
  lemma DelReply(s: State, keys: seq<string>, env: Env)
    requires Consistent(s.records)
    ensures var r := Step(s, Commands.Del(keys), env);
      r.state.records == (map k | k in s.records && k !in keys :: s.records[k]) &&
      r.state.index == RemoveAll(s.index, keys).trie && r.state.mode == s.mode &&
      (!r.panicked ==> r.written == [NatToString(|set k | k in keys && k in s.records|)])
  {
    DelAllRemovesListed(s.records, keys);
  }

  /** ADD never changes the store, and a word outside the integer and float types writes nothing. */
  lemma AddChangesNothing(s: State, t: string, keys: seq<string>, env: Env)
    requires Consistent(s.records)
    ensures var r := Step(s, Commands.Add(t, keys), env);
      r.state == s && !r.panicked &&
      (!(exists tag :: AddsAs(t, tag)) ==> r.written == []) &&
      (forall tag :: AddsAs(t, tag) ==> |r.written| == 1)
  {
    if TagOfName(t).Some? {
      assert AddsAs(t, TagOfName(t).value) <==> TagOfName(t).value.IsInteger() || TagOfName(t).value.IsFloat();
    }
  }

  /** ADD over integer keys writes the checked sum, or the first reason it has none. */
  lemma AddReply(s: State, t: string, keys: seq<string>, env: Env)
    requires Consistent(s.records) && TagOfName(t).Some? && TagOfName(t).value.IsInteger()
    ensures var tag := TagOfName(t).value; var r := Step(s, Commands.Add(t, keys), env);
      (AllStoredAs(s.records, keys, tag) && RunningSumsInRange(s.records, keys, tag, 0) ==>
        r.written == [IntToString(Total(s.records, keys, tag))]) &&
      (keys == [] ==> r.written == ["0"])
  {
    AddFromSucceedsExactly(s.records, keys, TagOfName(t).value, 0);
  }

  /** Every reply of GET, TTL, EXISTS, TYPE and QUIT ends with a newline. */
  lemma RepliesEndLines(s: State, cmd: Commands.Command, env: Env)
    requires Consistent(s.records)
    requires cmd.Get? || cmd.TtlGet? || cmd.Exists? || cmd.Type? || cmd.Quit?
    ensures var w := Step(s, cmd, env).written;
      w != [] && EndsWithNewline(w[|w| - 1])
  {
    var w := Step(s, cmd, env).written;
    match cmd
    case Get(t, k) =>
      var got := Get(s.records, k, GetTag(t));
      if got.Err? {
        RenderEndsWithOneNewline(got.error);
      }
    case Type(k) =>
      var got := GetRecord(s.records, k);
      if got.Err? {
        RenderEndsWithOneNewline(got.error);
      }
    case _ =>
  }

  /** Inserting a key keeps every node below the root's children empty. */
  lemma InsertKeepsShallow(t: TrieIndex.Node, key: string)
    requires TrieIndex.Shallow(t)
    ensures TrieIndex.Shallow(TrieIndex.InsertSpec(t, key).trie)
  {
  }

  lemma {:induction false} RemoveAllKeepsShallow(t: TrieIndex.Node, keys: seq<string>)
    requires TrieIndex.Shallow(t)
    ensures TrieIndex.Shallow(RemoveAll(t, keys).trie)
    decreases |keys|
  {
    if keys != [] {
      TrieIndex.RemoveKeepsShallow(t, keys[0]);
      RemoveAllKeepsShallow(TrieIndex.RemoveSpec(t, keys[0]).trie, keys[1..]);
    }
  }

  /** No command ever puts a node below the root's children. */
  lemma StepKeepsShallow(s: State, cmd: Commands.Command, env: Env)
    requires Consistent(s.records) && !cmd.Keys? && TrieIndex.Shallow(s.index)
    ensures TrieIndex.Shallow(Step(s, cmd, env).state.index)
  {
    match cmd
    case Set(t, k, v) => InsertKeepsShallow(s.index, k);
    case Del(keys) => RemoveAllKeepsShallow(s.index, keys);
    case _ =>
  }

  /**
   * So on a server whose index began as `Trie::default()`, KEYS in Trie mode with any
   * non-empty prefix reports no match, whatever keys were stored.
   */
  lemma TrieKeysFindNothing(s: State, pattern: string, p: Patterns, written: seq<string>, panicked: bool)
    requires TrieIndex.Shallow(s.index) && s.mode == Trie && pattern != []
    requires KeysResponse(s, pattern, p, written, panicked)
    ensures written == [NoMatches(pattern)] && !panicked
  {
    TrieIndex.ShallowReach(s.index, pattern);
    if |pattern| == 1 && pattern[0] in s.index.children {
      assert TrieIndex.Reach(s.index, pattern) == TrieIndex.Reach(s.index.children[pattern[0]], pattern[1..]);
      assert TrieIndex.Reach(s.index, pattern) == Some(s.index.children[pattern[0]]);
    }
    assert TrieIndex.KeysWithPrefix(s.index, pattern) == {};
  }

  // ---------------------------------------------------------------------------------------
  // The dispatcher on the store as the server keeps it

  /** The state a store denotes. */
  ghost function StateOf(store: SmirkMap): State
    reads store, store.trie, store.trie.Repr
    requires store.Valid()
  {
    State(store.records, store.searchMode, store.trie.View())
  }

  /** `get_value_and_write_to_stream::<T>`. */
  method GetValueAndWrite(store: SmirkMap, key: string, tag: Tag, fl: FloatOps) returns (written: seq<string>)
    ensures written == GetWrites(store.records, key, tag, fl)
  {
    var result := Get(store.records, key, tag);
    if result.Ok? {
      if tag == Bytes {
        written := [Show(result.value, fl), "\n"];
      } else {
        written := [Show(result.value, fl) + "\n"];
      }
    } else {
      written := [Render(result.error)];
    }
  }

  /** The `set::<T>` or `binary_set` call SET makes, chosen by the type word. */
  method WriteRecord(store: SmirkMap, t: string, key: string, text: string, env: Env)
    returns (reply: Result<SmirkMessage, SmirkMessage>)
    requires store.Valid()
    modifies store`records
    ensures store.Valid()
    ensures Written(store.records, reply) == WriteSpec(old(store.records), t, key, text, env)
  {
    var tag := TagOfName(t);
    if tag.Some? {
      reply := store.Set(key, tag.value, text, t, env.now, env.fl);
    } else {
      reply := store.BinarySet(key, text, t, env.now);
    }
  }

  /** `set_value_and_write_to_stream::<T>` for a listed word, `set_binary_value_and_write_to_stream` otherwise. */
  method SetValueAndWrite(store: SmirkMap, t: string, key: string, text: string, env: Env)
    returns (written: seq<string>, panicked: bool)
    requires store.Valid()
    modifies store`records, store.trie.Repr
    ensures store.Valid() && old(store.trie.Repr) <= store.trie.Repr
    ensures fresh(store.trie.Repr - old(store.trie.Repr))
    ensures Response(StateOf(store), written, panicked) == SetResponse(old(StateOf(store)), t, key, text, env)
  {
    var reply := WriteRecord(store, t, key, text, env);
    written, panicked := [], false;
    if reply.Ok? {
      panicked := store.trie.Insert(key);
      if !panicked {
        written := [Render(reply.value)];
      }
    } else {
      written := [Render(reply.error)];
    }
  }

  /** DEL: `del` on each key in order, then `trie.remove` on each, then the count. */
  method DeleteAndWrite(store: SmirkMap, keys: seq<string>) returns (written: seq<string>, panicked: bool)
    requires store.Valid()
    modifies store`records, store.trie.Repr
    ensures store.Valid() && store.trie.Repr == old(store.trie.Repr)
    ensures Response(StateOf(store), written, panicked) == DelResponse(old(StateOf(store)), keys)
  {
    ghost var s0 := StateOf(store);
    var deleted := 0;
    var i := 0;
    while i < |keys|
      invariant 0 <= i <= |keys| && store.Valid() && store.trie.View() == s0.index
      invariant store.trie.Repr == old(store.trie.Repr)
      invariant var (m, n) := DelAll(store.records, keys[i..]); (m, deleted + n) == DelAll(s0.records, keys)
    {
      assert keys[i..][0] == keys[i] && keys[i..][1..] == keys[i + 1..];
      var d := store.Del(keys[i]);
      deleted := deleted + d;
      i := i + 1;
    }
    ghost var m1 := store.records;
    panicked := false;
    var j := 0;
    while j < |keys|
      invariant 0 <= j <= |keys| && store.Valid() && store.records == m1
      invariant store.trie.Repr == old(store.trie.Repr)
      invariant RemoveAll(s0.index, keys) == RemoveAll(store.trie.View(), keys[j..])
    {
      assert keys[j..][0] == keys[j] && keys[j..][1..] == keys[j + 1..];
      panicked := store.trie.Remove(keys[j]);
      if panicked {
        written := [];
        return;
      }
      j := j + 1;
    }
    written := [NatToString(deleted)];
  }

  /** The `filter(..).collect()` of KEYS: the keys of the map a pattern matches, each once. */
  method CollectMatches(m: RecordMap, mode: SearchMode, pattern: string, p: Patterns) returns (ks: seq<string>)
    ensures Enumerates(ks, Matching(m, mode, pattern, p))
  {
    ghost var found := Matching(m, mode, pattern, p);
    var remaining := m.Keys;
    ks := [];
    while remaining != {}
      invariant remaining <= m.Keys
      invariant TrieIndex.Distinct(ks) && forall i :: 0 <= i < |ks| ==> ks[i] !in remaining
      invariant (set i | 0 <= i < |ks| :: ks[i]) == found - remaining
      decreases |remaining|
    {
      var k :| k in remaining;
      ghost var before := ks;
      if p.matches(mode, pattern, k) {
        ks := ks + [k];
        assert (set i | 0 <= i < |ks| :: ks[i]) == (set i | 0 <= i < |before| :: before[i]) + {k} by {
          assert forall i :: 0 <= i < |before| ==> ks[i] == before[i];
          assert ks[|before|] == k;
        }
      } else {
        assert k !in found;
      }
      remaining := remaining - {k};
    }
  }

  /** KEYS in Glob or Regex mode: the matching keys, in the map's order, as lines of one chunk. */
  method MatchKeysAndWrite(m: RecordMap, mode: SearchMode, pattern: string, p: Patterns) returns (written: seq<string>, panicked: bool)
    ensures MatchResponse(m, mode, pattern, p, written, panicked)
  {
    if !p.compiles(mode, pattern) {
      return [], true;
    }
    var ks := CollectMatches(m, mode, pattern, p);
    panicked := false;
    if |ks| == 0 {
      written := [NoMatches(pattern)];
    } else {
      assert ks[0] in Matching(m, mode, pattern, p);
      written := [JoinLines(ks) + "\n"];
    }
  }

  /** KEYS in Trie mode: one line per string the index returns. */
  method PrefixKeysAndWrite(store: SmirkMap, pattern: string, p: Patterns) returns (written: seq<string>)
    requires store.Valid() && store.searchMode == Trie
    ensures KeysResponse(StateOf(store), pattern, p, written, false)
  {
    var results := store.trie.GetKeysWithPrefix(pattern);
    if |results| == 0 {
      written := [NoMatches(pattern)];
    } else {
      written := [];
      for i := 0 to |results|
        invariant written == Lines(results[..i])
      {
        written := written + [results[i] + "\n"];
      }
      assert results[..|results|] == results;
      assert results[0] in TrieIndex.KeysWithPrefix(store.trie.View(), pattern);
      assert Enumerates(results, TrieIndex.KeysWithPrefix(store.trie.View(), pattern));
    }
  }

  /** `add_and_write_to_stream::<T>` and `add_float_and_write_to_stream::<T>`, chosen by the type word. */
  method AddAndWrite(store: SmirkMap, t: string, keys: seq<string>, fl: FloatOps) returns (written: seq<string>)
    requires store.Valid()
    ensures written == AddWrites(store.records, t, keys, fl)
  {
    var tag := TagOfName(t);
    written := [];
    if tag.Some? && tag.value.IsInteger() {
      var total := store.Add(keys, tag.value);
      if total.Ok? {
        written := [IntToString(total.value)];
      } else {
        written := [Render(total.error)];
      }
    } else if tag.Some? && tag.value.IsFloat() {
      var total := store.AddFloat(keys, tag.value, fl);
      if total.Ok? {
        written := [fl.show(tag.value, total.value)];
      } else {
        written := [Render(total.error)];
      }
    }
  }

  /** The commands that only read the store: what they write is all they do. */
  method Answer(store: SmirkMap, cmd: Commands.Command, env: Env) returns (written: seq<string>, panicked: bool)
    requires store.Valid() && !(cmd.Set? || cmd.Del? || cmd.Keys? || cmd.Mode? || cmd.TtlSet?)
    ensures Response(StateOf(store), written, panicked) == Step(StateOf(store), cmd, env)
  {
    written, panicked := [], false;
    match cmd {
      case Get(t, k) =>
        written := GetValueAndWrite(store, k, GetTag(t), env.fl);
      case TtlGet(k) =>
        var ttl := Ttl(store.records, k, env.now);
        if ttl.Ok? {
          if ttl.value.Some? {
            written := [NatToString(ttl.value.value) + "\n"];
          } else {
            written := ["Key \"" + k + "\" does not expire.\n"];
          }
        } else {
          written := ["Key \"" + k + "\" does not exist.\n"];
        }
      case Exists(k) =>
        written := if Exists(store.records, k) then ["true\n"] else ["false\n"];
      case Type(k) =>
        var result := GetRecord(store.records, k);
        if result.Ok? {
          written := ["Stored-Type: " + result.value.typeName + ", User-Type: " + result.value.desiredTypeName + "\n"];
        } else {
          written := [Render(result.error)];
        }
      case Save =>
        written, panicked := ["Saving a dump of all keys."], true;
      case Quit =>
        written := ["Bye.\n"];
      case Add(t, keys) =>
        written := AddAndWrite(store, t, keys, env.fl);
    }
  }

  /** The commands that change the store. */
  method Apply(store: SmirkMap, cmd: Commands.Command, env: Env) returns (written: seq<string>, panicked: bool)
    requires store.Valid() && (cmd.Set? || cmd.Del? || cmd.Mode? || cmd.TtlSet?)
    modifies store, store.trie.Repr
    ensures store.Valid() && old(store.trie.Repr) <= store.trie.Repr
    ensures fresh(store.trie.Repr - old(store.trie.Repr))
    ensures Response(StateOf(store), written, panicked) == Step(old(StateOf(store)), cmd, env)
  {
    written, panicked := [], false;
    match cmd {
      case Set(t, k, v) =>
        written, panicked := SetValueAndWrite(store, t, k, v, env);
      case Del(keys) =>
        written, panicked := DeleteAndWrite(store, keys);
      case Mode(mode) =>
        store.SetSearchMode(mode);
      case TtlSet(k, ttl) =>
        store.SetTtl(k, ttl);
    }
  }

  /** `process_command`. */
  method ProcessCommand(store: SmirkMap, cmd: Commands.Command, env: Env) returns (written: seq<string>, panicked: bool)
    requires store.Valid()
    modifies store, store.trie.Repr
    ensures store.Valid() && old(store.trie.Repr) <= store.trie.Repr
    ensures fresh(store.trie.Repr - old(store.trie.Repr))
    ensures !cmd.Keys? ==> Response(StateOf(store), written, panicked) == Step(old(StateOf(store)), cmd, env)
    ensures cmd.Keys? ==>
      StateOf(store) == old(StateOf(store)) && KeysResponse(StateOf(store), cmd.pattern, env.patterns, written, panicked)
  {
    if cmd.Keys? {
      if store.searchMode == Trie {
        written := PrefixKeysAndWrite(store, cmd.pattern, env.patterns);
        panicked := false;
      } else {
        written, panicked := MatchKeysAndWrite(store.records, store.searchMode, cmd.pattern, env.patterns);
      }
    } else if cmd.Set? || cmd.Del? || cmd.Mode? || cmd.TtlSet? {
      written, panicked := Apply(store, cmd, env);
    } else {
      written, panicked := Answer(store, cmd, env);
    }
  }
}
