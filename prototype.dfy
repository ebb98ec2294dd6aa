/**
 * The earlier single-binary version of the server: its own `SmirkMap`, whose `set` files
 * the client's bytes whatever type they are for, its unfinished `Trie`, and its
 * `process_command`, which knows sixteen type words, falls back to String for any other
 * word, and never consults the index.
 */
module Prototype {
  import opened Wrappers
  import opened Values
  import opened Messages
  import opened Records
  import opened SearchModes
  import Store
  import Server
  import Commands

  // ---------------------------------------------------------------------------------------
  // The unfinished index

  /** A node of the prototype index; a node never owns itself. */
  class Trie {
    var hasKeyEndingHere: bool
    var counter: nat
    var children: map<char, Trie>

    ghost predicate Valid()
      reads this
    {
      this !in children.Values
    }

    /** `Trie::default()`. */
    constructor ()
      ensures Valid() && !hasKeyEndingHere && counter == 1 && children == map[]
    {
      hasKeyEndingHere := false;
      counter := 1;
      children := map[];
    }

    /**
     * `insert`: an empty key panics (`remove(0)`); otherwise only the root's existing child
     * for the first character changes: its counter goes up by one and its end flag tells
     * whether the key was one character long. A missing child is built and dropped, so
     * nothing changes, and the node itself and every other node are left alone.
     */
    method Insert(input: string) returns (panicked: bool)
      requires Valid()
      modifies if input != [] && input[0] in children then {children[input[0]]} else {}
      ensures Valid() && children == old(children)
      ensures counter == old(counter) && hasKeyEndingHere == old(hasKeyEndingHere)
      ensures panicked <==> input == []
      ensures input != [] && input[0] in children ==>
        var child := children[input[0]];
        child.counter == old(child.counter) + 1 &&
        child.hasKeyEndingHere == (|input| == 1) &&
        child.children == old(child.children)
    {
      if input == [] {
        return true;
      }
      var c := input[0];
      if c in children {
        var child := children[c];
        child.counter := child.counter + 1;
        child.hasKeyEndingHere := |input| == 1;
      }
      panicked := false;
    }
  }

  // ---------------------------------------------------------------------------------------
  // The prototype store

  /** Every record the prototype stores holds bytes, whatever type its name says. */
  predicate AllBytes(m: Store.RecordMap)
  {
    forall k :: k in m ==> m[k].value.BytesVal?
  }

  /**
   * The type a SET or GET type word selects in the prototype: the sixteen listed words name
   * their types, and any other word, "BigInt" included, means String.
   */
  function TagOf(t: string): (tag: Tag)
    ensures tag != Bytes && tag != BigInt
    ensures TagOfName(t).Some? && TagOfName(t).value != BigInt ==> tag == TagOfName(t).value
    ensures TagOfName(t).None? || t == "BigInt" ==> tag == Str
  {
    match TagOfName(t)
    case Some(tag) => if tag == BigInt then Str else tag
    case None => Str
  }

  /**
   * The prototype `set::<T>`: the bytes are filed unparsed, with T's name and the client's
   * type word and no time-to-live, replacing any record under `key`; it always succeeds.
   */
  function SetSpec(m: Store.RecordMap, key: string, tag: Tag, bytes: string, desired: string, now: int): Store.Written
  {
    Store.Written(m[key := Record(BytesVal(bytes), None, now, TypeName(tag), desired)],
      Ok(SetKey(key, TypeName(tag), desired)))
  }

  /**
   * A prototype write never fails and changes only `key`; a typed read of that key then
   * fails with a type mismatch for every type but the byte vector, which no GET asks for.
   */
  lemma SetThenGet(m: Store.RecordMap, key: string, tag: Tag, bytes: string, desired: string, now: int, asked: Tag)
    ensures var w := SetSpec(m, key, tag, bytes, desired, now);
      w.reply == Ok(SetKey(key, TypeName(tag), desired)) &&
      w.store.Keys == m.Keys + {key} &&
      (forall k :: k in m && k != key ==> w.store[k] == m[k]) &&
      w.store[key].ttl == None && w.store[key].typeName == TypeName(tag) &&
      Store.Get(w.store, key, asked) ==
        if asked == Bytes then Ok(BytesVal(bytes)) else Err(TypeMismatch(key, TypeName(asked)))
  {
  }

  lemma SetKeepsAllBytes(m: Store.RecordMap, key: string, tag: Tag, bytes: string, desired: string, now: int)
    requires AllBytes(m)
    ensures AllBytes(SetSpec(m, key, tag, bytes, desired, now).store)
  {
  }

  /** So in the prototype store no GET ever succeeds: the key is missing or holds bytes. */
  lemma GetNeverSucceeds(m: Store.RecordMap, key: string, t: string)
    requires AllBytes(m)
    ensures Store.Get(m, key, TagOf(t)) ==
      if key in m then Err(TypeMismatch(key, TypeName(TagOf(t)))) else Err(KeyNotFound(key))
  {
  }

  /** The prototype `SmirkMap`; its lookups are the server store's (`Store.Get` and the rest). */
  class SmirkMap {
    var searchMode: SearchMode
    var records: Store.RecordMap
    const trie: Trie

    ghost predicate Valid()
      reads this
    {
      AllBytes(records)
    }

    /** An empty store in the given search mode with a default index. */
    constructor (mode: SearchMode)
      ensures Valid() && searchMode == mode && records == map[]
      ensures fresh(trie) && trie.Valid() && trie.counter == 1 && !trie.hasKeyEndingHere && trie.children == map[]
    {
      searchMode := mode;
      records := map[];
      trie := new Trie();
    }

    /** The prototype `set::<T>`. */
    method Set(key: string, tag: Tag, bytes: string, desired: string, now: int)
      returns (reply: Result<SmirkMessage, SmirkMessage>)
      requires Valid()
      modifies this`records
      ensures Valid()
      ensures Store.Written(records, reply) == SetSpec(old(records), key, tag, bytes, desired, now)
    {
      records := records[key := Record(BytesVal(bytes), None, now, TypeName(tag), desired)];
      reply := Ok(SetKey(key, TypeName(tag), desired));
    }

    /** `del`: 1 and the key gone if it was there, 0 and no change otherwise. */
    method Del(key: string) returns (deleted: nat)
      requires Valid()
      modifies this`records
      ensures Valid()
      ensures (records, deleted) == Store.DelSpec(old(records), key)
    {
      if key in records {
        records := records - {key};
        deleted := 1;
      } else {
        deleted := 0;
      }
    }

    /** `set_ttl`: only the time-to-live of a present record changes. */
    method SetTtl(key: string, ttl: Option<nat>)
      requires Valid()
      modifies this`records
      ensures Valid()
      ensures records == Store.SetTtlSpec(old(records), key, ttl)
    {
      if key in records {
        records := records[key := records[key].(ttl := ttl)];
      }
    }

    /** `set_search_mode`. */
    method SetSearchMode(mode: SearchMode)
      modifies this`searchMode
      ensures searchMode == mode
    {
      searchMode := mode;
    }
  }

  // ---------------------------------------------------------------------------------------
  // The prototype dispatcher

  /** What a prototype command can see and change: the records and the search mode. */
  datatype State = State(records: Store.RecordMap, mode: SearchMode)

  datatype Response = Response(state: State, written: seq<string>, panicked: bool)

  /** The prototype `get_value_and_write_to_stream::<T>`: the display form and a newline, or the error. */
  function GetWrites(m: Store.RecordMap, key: string, tag: Tag, fl: FloatOps): seq<string>
  {
    match Store.Get(m, key, tag)
    case Ok(v) => [Show(v, fl) + "\n"]
    case Err(e) => [Render(e)]
  }

  /** The prototype `set_value_and_write_to_stream::<T>`: the write, then its reply rendered. */
  function SetWrites(s: State, t: string, key: string, bytes: string, now: int): Response
  {
    var w := SetSpec(s.records, key, TagOf(t), bytes, t, now);
    Response(s.(records := w.store), [match w.reply case Ok(msg) => Render(msg) case Err(e) => Render(e)], false)
  }

  /** The prototype `process_command` for every command of its parser but KEYS. */
  function Step(s: State, cmd: Commands.Command, env: Server.Env): Response
    requires !cmd.Keys? && !cmd.Add?
  {
    match cmd
    case Set(t, k, v) => SetWrites(s, t, k, v, env.now)
    case Get(t, k) => Response(s, GetWrites(s.records, k, TagOf(t), env.fl), false)
    case Del(keys) =>
      var (m, n) := Server.DelAll(s.records, keys);
      Response(s.(records := m), [NatToString(n)], false)
    case Mode(mode) => Response(s.(mode := mode), [], false)
    case TtlSet(k, ttl) => Response(s.(records := Store.SetTtlSpec(s.records, k, ttl)), [], false)
    case TtlGet(k) => Response(s, Server.TtlWrites(s.records, k, env.now), false)
    case Exists(k) => Response(s, Server.ExistsWrites(s.records, k), false)
    case Type(k) => Response(s, Server.TypeWrites(s.records, k), false)
    case Save => Response(s, ["Saving a dump of all keys."], true)
    case Quit => Response(s, ["Bye.\n"], false)
  }

  /** KEYS in the prototype: Glob and Regex as in the server, and nothing at all in Trie mode. */
  ghost predicate KeysResponse(s: State, pattern: string, p: Server.Patterns, written: seq<string>, panicked: bool)
  {
    if s.mode == Trie then written == [] && !panicked
    else Server.MatchResponse(s.records, s.mode, pattern, p, written, panicked)
  }

  /** Every prototype command keeps the records all bytes. */
  lemma StepKeepsAllBytes(s: State, cmd: Commands.Command, env: Server.Env)
    requires AllBytes(s.records) && !cmd.Keys? && !cmd.Add?
    ensures AllBytes(Step(s, cmd, env).state.records)
  {
    if cmd.Del? {
      Server.DelAllRemovesListed(s.records, cmd.keys);
    }
  }

  /**
   * SET then GET of the same key in the prototype: SET reports success under the type its
   * word selects, and GET, whatever its word, reports that the value cannot be read as it.
   */
  lemma SetThenGetMismatches(s: State, t: string, k: string, v: string, t2: string, env: Server.Env)
    ensures var r := Step(s, Commands.Set(t, k, v), env);
      r.written == [Render(SetKey(k, TypeName(TagOf(t)), t))] && !r.panicked &&
      Step(r.state, Commands.Get(t2, k), env).written == [Render(TypeMismatch(k, TypeName(TagOf(t2))))]
  {
    var r := Step(s, Commands.Set(t, k, v), env);
    SetThenGet(s.records, k, TagOf(t), v, t, env.now, TagOf(t2));
  }

  /**
   * DEL in the prototype removes every listed key and writes how many distinct listed keys
   * were present, with no newline; it never panics.
   */
  lemma DelReply(s: State, keys: seq<string>, env: Server.Env)
    ensures var r := Step(s, Commands.Del(keys), env);
      r.state == State(map k | k in s.records && k !in keys :: s.records[k], s.mode) &&
      r.written == [NatToString(|set k | k in keys && k in s.records|)] && !r.panicked
  {
    Server.DelAllRemovesListed(s.records, keys);
  }

  /** Only SET, DEL, MODE, TTL-set and DELTTL change anything, and only SAVE panics. */
  lemma ReadsChangeNothing(s: State, cmd: Commands.Command, env: Server.Env)
    requires !cmd.Keys? && !cmd.Add?
    ensures !(cmd.Set? || cmd.Del? || cmd.Mode? || cmd.TtlSet?) ==> Step(s, cmd, env).state == s
    ensures Step(s, cmd, env).panicked <==> cmd.Save?
  {
  }

  // ---------------------------------------------------------------------------------------
  // The dispatcher on the prototype store

  ghost function StateOf(store: SmirkMap): State
    reads store
  {
    State(store.records, store.searchMode)
  }

  /** The prototype `get_value_and_write_to_stream::<T>`. */
  method GetValueAndWrite(store: SmirkMap, key: string, tag: Tag, fl: FloatOps) returns (written: seq<string>)
    ensures written == GetWrites(store.records, key, tag, fl)
  {
    var result := Store.Get(store.records, key, tag);
    if result.Ok? {
      written := [Show(result.value, fl) + "\n"];
    } else {
      written := [Render(result.error)];
    }
  }

  /** The prototype `set_value_and_write_to_stream::<T>`. */
  method SetValueAndWrite(store: SmirkMap, t: string, key: string, bytes: string, now: int) returns (written: seq<string>)
    requires store.Valid()
    modifies store`records
    ensures store.Valid()
    ensures Response(StateOf(store), written, false) == SetWrites(old(StateOf(store)), t, key, bytes, now)
  {
    var reply := store.Set(key, TagOf(t), bytes, t, now);
    // the prototype `set` always answers Ok, so its error branch is never taken
    written := [Render(reply.value)];
  }

  /** The prototype DEL: `del` on each listed key in order, then the sum; the index is not touched. */
  method DeleteAndWrite(store: SmirkMap, keys: seq<string>) returns (written: seq<string>)
    requires store.Valid()
    modifies store`records
    ensures store.Valid()
    ensures (store.records, written) == (Server.DelAll(old(store.records), keys).0, [NatToString(Server.DelAll(old(store.records), keys).1)])
  {
    var deleted := 0;
    var i := 0;
    while i < |keys|
      invariant 0 <= i <= |keys| && store.Valid()
      invariant var (m, n) := Server.DelAll(store.records, keys[i..]); (m, deleted + n) == Server.DelAll(old(store.records), keys)
    {
      assert keys[i..][0] == keys[i] && keys[i..][1..] == keys[i + 1..];
      var d := store.Del(keys[i]);
      deleted := deleted + d;
      i := i + 1;
    }
    written := [NatToString(deleted)];
  }

  /** The prototype commands that only read the store. */
  method Answer(store: SmirkMap, cmd: Commands.Command, env: Server.Env) returns (written: seq<string>, panicked: bool)
    requires !(cmd.Set? || cmd.Del? || cmd.Keys? || cmd.Mode? || cmd.TtlSet? || cmd.Add?)
    ensures Response(StateOf(store), written, panicked) == Step(StateOf(store), cmd, env)
  {
    written, panicked := [], false;
    match cmd {
      case Get(t, k) =>
        written := GetValueAndWrite(store, k, TagOf(t), env.fl);
      case TtlGet(k) =>
        var ttl := Store.Ttl(store.records, k, env.now);
        if ttl.Ok? {
          if ttl.value.Some? {
            written := [NatToString(ttl.value.value) + "\n"];
          } else {
            written := ["Key \"" + k + "\" does not expire.\n"];
          }
        } else {
          written := ["Key \"" + k + "\" does not exist.\n"];
        }
      case Exists(k) =>
        written := if Store.Exists(store.records, k) then ["true\n"] else ["false\n"];
      case Type(k) =>
        var result := Store.GetRecord(store.records, k);
        if result.Ok? {
          written := ["Stored-Type: " + result.value.typeName + ", User-Type: " + result.value.desiredTypeName + "\n"];
        } else {
          written := [Render(result.error)];
        }
      case Save =>
        written, panicked := ["Saving a dump of all keys."], true;
      case Quit =>
        written := ["Bye.\n"];
    }
  }

  /**
   * The prototype `process_command`, for the commands its parser produces (there is no ADD).
   * It changes the store's records and search mode only; its index is never touched.
   */
  method ProcessCommand(store: SmirkMap, cmd: Commands.Command, env: Server.Env) returns (written: seq<string>, panicked: bool)
    requires store.Valid() && !cmd.Add?
    modifies store
    ensures store.Valid()
    ensures !cmd.Keys? ==> Response(StateOf(store), written, panicked) == Step(old(StateOf(store)), cmd, env)
    ensures cmd.Keys? ==>
      StateOf(store) == old(StateOf(store)) && KeysResponse(StateOf(store), cmd.pattern, env.patterns, written, panicked)
  {
    written, panicked := [], false;
    match cmd {
      case Set(t, k, v) =>
        written := SetValueAndWrite(store, t, k, v, env.now);
      case Del(keys) =>
        written := DeleteAndWrite(store, keys);
      case Keys(pattern) =>
        if store.searchMode != Trie {
          written, panicked := Server.MatchKeysAndWrite(store.records, store.searchMode, pattern, env.patterns);
        }
      case Mode(mode) =>
        store.SetSearchMode(mode);
      case TtlSet(k, ttl) =>
        store.SetTtl(k, ttl);
      case _ =>
        written, panicked := Answer(store, cmd, env);
    }
  }
}
