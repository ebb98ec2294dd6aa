/**
 * The typed record store (`SmirkMap` of the server): a map from keys to records whose
 * values are recovered only as the type they were stored as, the operations that read and
 * update it, and checked accumulation over a list of keys.
 *
 * The pure lookups are functions of the record map; the operations that update the map in
 * place are methods of the `SmirkMap` class, each proved against a function of the old map.
 */
module Store {
  import opened Wrappers
  import opened Values
  import opened Messages
  import opened Records
  import opened SearchModes
  import TrieIndex

  type RecordMap = map<string, Record>

  /** What the store keeps true of every record: a value its type can hold, filed under that type's name. */
  predicate Consistent(m: RecordMap)
  {
    forall k :: k in m ==> WellFormed(m[k].value) && m[k].typeName == TypeName(KindOf(m[k].value))
  }

  /** `key` holds a value stored as the type `tag`: what a successful `downcast_ref::<T>` needs. */
  predicate StoredAs(m: RecordMap, key: string, tag: Tag)
  {
    key in m && KindOf(m[key].value) == tag
  }

  // ---------------------------------------------------------------------------------------
  // Lookups

  /** `get::<T>`: the value under `key` when it was stored as T. */
  function Get(m: RecordMap, key: string, tag: Tag): (r: Result<Value, SmirkMessage>)
    ensures r.Ok? <==> StoredAs(m, key, tag)
    ensures r.Ok? ==> KindOf(r.value) == tag
  {
    if key !in m then Err(KeyNotFound(key))
    else if KindOf(m[key].value) == tag then Ok(m[key].value)
    else Err(TypeMismatch(key, TypeName(tag)))
  }

  /** `exists`. */
  predicate Exists(m: RecordMap, key: string)
  {
    key in m
  }

  /** `get_record`: the whole record, whatever its type. */
  function GetRecord(m: RecordMap, key: string): Result<Record, SmirkMessage>
  {
    if Exists(m, key) then Ok(m[key]) else Err(KeyNotFound(key))
  }

  /** `ttl`: the seconds left for the record under `key`, as `get_ttl` reports them at `now`. */
  function Ttl(m: RecordMap, key: string, now: int): Result<Option<nat>, string>
  {
    if key in m then Ok(GetTtl(m[key], now)) else Err("Key \"" + key + "\" was not found")
  }

  /**
   * In a consistent store a typed read succeeds exactly when the stored type name is the
   * requested type's name, so GET with tag T agrees with what TYPE reports.
   */
  lemma GetAgreesWithTypeName(m: RecordMap, key: string, tag: Tag)
    requires Consistent(m) && key in m
    ensures Get(m, key, tag).Ok? <==> m[key].typeName == TypeName(tag)
    ensures Get(m, key, tag).Err? ==> Get(m, key, tag) == Err(TypeMismatch(key, TypeName(tag)))
  {
    if m[key].typeName == TypeName(tag) {
      TypeNameInjective(KindOf(m[key].value), tag);
    }
  }

  /** The lookups agree on which keys are absent, and each then reports the key. */
  lemma LookupsAgreeOnAbsentKey(m: RecordMap, key: string, tag: Tag, now: int)
    ensures !Exists(m, key) <==> GetRecord(m, key) == Err(KeyNotFound(key))
    ensures !Exists(m, key) <==> Get(m, key, tag) == Err(KeyNotFound(key))
    ensures !Exists(m, key) <==> Ttl(m, key, now).Err?
    ensures GetRecord(m, key).Ok? ==> Get(m, key, KindOf(GetRecord(m, key).value.value)) == Ok(GetRecord(m, key).value.value)
  {
  }

  // ---------------------------------------------------------------------------------------
  // Updates, as functions of the map before

  /** The map after a write and the reply the write returns. */
  datatype Written = Written(store: RecordMap, reply: Result<SmirkMessage, SmirkMessage>)

  /**
   * `set::<T>` at clock reading `now`: the text is parsed as T; on success a fresh record
   * (no time-to-live, T's name, the client's type word) replaces whatever `key` held,
   * otherwise nothing changes and the raw text is reported.
   */
  function SetSpec(m: RecordMap, key: string, tag: Tag, text: string, desired: string, now: int, fl: FloatOps): Written
    requires tag != Bytes
  {
    match Parse(tag, text, fl)
    case Some(v) =>
      Written(m[key := Record(v, None, now, TypeName(tag), desired)], Ok(SetKey(key, TypeName(tag), desired)))
    case None =>
      Written(m, Err(ParseError(key, text, TypeName(tag))))
  }

  /** `binary_set`: the raw bytes are filed as "Vec<u8>", and the write always succeeds. */
  function BinarySetSpec(m: RecordMap, key: string, bytes: string, desired: string, now: int): Written
  {
    Written(m[key := Record(BytesVal(bytes), None, now, "Vec<u8>", desired)], Ok(SetKey(key, "Vec<u8>", desired)))
  }

  /** `del`: the map without `key`, and how many records went (1 or 0). */
  function DelSpec(m: RecordMap, key: string): (RecordMap, nat)
  {
    if key in m then (m - {key}, 1) else (m, 0)
  }

  /** `set_ttl`: the record under `key`, if any, gets the new time-to-live and nothing else. */
  function SetTtlSpec(m: RecordMap, key: string, ttl: Option<nat>): RecordMap
  {
    if key in m then m[key := m[key].(ttl := ttl)] else m
  }

  /**
   * A typed write succeeds exactly when the text parses; then a typed read of the key gives
   * the parsed value with no time-to-live, otherwise the map is untouched and the error
   * names the key, the raw text and the type. Other keys are never affected.
   */
  lemma SetThenGet(m: RecordMap, key: string, tag: Tag, text: string, desired: string, now: int, fl: FloatOps, later: int)
    requires tag != Bytes
    ensures var w := SetSpec(m, key, tag, text, desired, now, fl);
      (w.reply.Ok? <==> Parse(tag, text, fl).Some?) &&
      (w.reply.Ok? ==>
        w.reply == Ok(SetKey(key, TypeName(tag), desired)) &&
        Get(w.store, key, tag) == Ok(Parse(tag, text, fl).value) &&
        Ttl(w.store, key, later) == Ok(None) &&
        GetRecord(w.store, key).value.desiredTypeName == desired) &&
      (w.reply.Err? ==> w.store == m && w.reply == Err(ParseError(key, text, TypeName(tag)))) &&
      (forall k :: k != key ==> (k in w.store <==> k in m) && (k in m ==> w.store[k] == m[k]))
  {
  }

  /** Whatever a typed read prints, a typed write of that text restores (floats aside). */
  lemma SetOfShownValueRestoresIt(m: RecordMap, key: string, v: Value, desired: string, now: int, fl: FloatOps)
    requires WellFormed(v) && !v.FloatVal? && !v.BytesVal?
    ensures var w := SetSpec(m, key, KindOf(v), Show(v, fl), desired, now, fl);
      w.reply.Ok? && Get(w.store, key, KindOf(v)) == Ok(v)
  {
    ShowParseRoundTrip(v, fl);
  }

  /** A typed write keeps the store consistent. */
  lemma SetKeepsConsistent(m: RecordMap, key: string, tag: Tag, text: string, desired: string, now: int, fl: FloatOps)
    requires Consistent(m) && tag != Bytes
    ensures Consistent(SetSpec(m, key, tag, text, desired, now, fl).store)
  {
    var w := SetSpec(m, key, tag, text, desired, now, fl).store;
    forall k | k in w
      ensures WellFormed(w[k].value) && w[k].typeName == TypeName(KindOf(w[k].value))
    {
      if k == key && Parse(tag, text, fl).Some? {
        assert w[k].value == Parse(tag, text, fl).value;
      }
    }
  }

  /** So do the binary write, `del` and `set_ttl`. */
  lemma OtherWritesKeepConsistent(m: RecordMap, key: string, bytes: string, desired: string, now: int, ttl: Option<nat>)
    requires Consistent(m)
    ensures Consistent(BinarySetSpec(m, key, bytes, desired, now).store)
    ensures Consistent(DelSpec(m, key).0)
    ensures Consistent(SetTtlSpec(m, key, ttl))
  {
  }

  /** A binary write files the bytes as "Vec<u8>", read back verbatim by a byte read. */
  lemma BinarySetThenGet(m: RecordMap, key: string, bytes: string, desired: string, now: int, later: int)
    ensures var w := BinarySetSpec(m, key, bytes, desired, now);
      w.reply == Ok(SetKey(key, TypeName(Bytes), desired)) &&
      Get(w.store, key, Bytes) == Ok(BytesVal(bytes)) &&
      Ttl(w.store, key, later) == Ok(None) &&
      w.store.Keys == m.Keys + {key} &&
      (forall k :: k in m && k != key ==> w.store[k] == m[k])
  {
  }

  /**
   * `del` counts 1 exactly for a present key and removes only it; a second `del` of the
   * same key then counts 0, and the key no longer exists.
   */
  lemma DelTwice(m: RecordMap, key: string)
    ensures var (m1, n1) := DelSpec(m, key);
      (n1 == 1 <==> Exists(m, key)) && (n1 == 0 ==> m1 == m) &&
      !Exists(m1, key) && m1.Keys == m.Keys - {key} &&
      (forall k :: k in m1 ==> m1[k] == m[k]) &&
      DelSpec(m1, key) == (m1, 0)
  {
  }

  /**
   * `set_ttl` changes the time-to-live and nothing else of a present record, and nothing at
   * all for an absent key, whose `ttl` stays an error.
   */
  lemma SetTtlChangesOnlyTtl(m: RecordMap, key: string, ttl: Option<nat>, now: int)
    ensures var m1 := SetTtlSpec(m, key, ttl);
      m1.Keys == m.Keys &&
      (forall k :: k in m && k != key ==> m1[k] == m[k]) &&
      (key in m ==> m1[key].value == m[key].value && m1[key].ttlStart == m[key].ttlStart &&
                    m1[key].typeName == m[key].typeName && m1[key].desiredTypeName == m[key].desiredTypeName &&
                    m1[key].ttl == ttl) &&
      (key !in m ==> m1 == m && Ttl(m1, key, now) == Err("Key \"" + key + "\" was not found"))
  {
  }

  /**
   * A time-to-live is counted from when the record was written, not from when it was set:
   * once `t` seconds have passed since the write, setting time-to-live `t` leaves none.
   */
  lemma TtlCountsFromWrite(m: RecordMap, key: string, t: nat, now: int)
    requires key in m && ElapsedSeconds(m[key].ttlStart, now) >= t
    ensures Ttl(SetTtlSpec(m, key, Some(t)), key, now) == Ok(Some(0))
    ensures IsExpired(SetTtlSpec(m, key, Some(t))[key], now)
  {
    var r := SetTtlSpec(m, key, Some(t))[key];
    GetTtlValue(r, now);
  }

  // ---------------------------------------------------------------------------------------
  // Checked accumulation (`add`) and float accumulation (`add_float`)

  /** Every listed key holds a value stored as `tag`. */
  predicate AllStoredAs(m: RecordMap, keys: seq<string>, tag: Tag)
  {
    forall i :: 0 <= i < |keys| ==> StoredAs(m, keys[i], tag)
  }

  /** The integer stored under `key` as `tag`, and 0 for a key that holds none. */
  function IntAt(m: RecordMap, key: string, tag: Tag): int
    requires Consistent(m) && tag.IsInteger()
  {
    if StoredAs(m, key, tag) then m[key].value.n else 0
  }

  /** The mathematical sum of the integers stored under `keys`. */
  function Total(m: RecordMap, keys: seq<string>, tag: Tag): int
    requires Consistent(m) && tag.IsInteger()
    decreases |keys|
  {
    if keys == [] then 0 else IntAt(m, keys[0], tag) + Total(m, keys[1..], tag)
  }

  /** Every partial sum of the values under `keys`, starting from `total`, lies in T's range. */
  predicate RunningSumsInRange(m: RecordMap, keys: seq<string>, tag: Tag, total: int)
    requires Consistent(m) && tag.IsInteger()
  {
    forall j :: 0 <= j <= |keys| ==> InRange(tag, total + Total(m, keys[..j], tag))
  }

  /**
   * The loop of `add` from a running total: each key's value is added with a check against
   * T's range; the first key that is absent or of another type is reported as a parse
   * error with an empty value, and the first sum outside the range as an overflow.
   */
  function AddFrom(m: RecordMap, keys: seq<string>, tag: Tag, total: int): (r: Result<int, SmirkMessage>)
    requires Consistent(m) && tag.IsInteger() && InRange(tag, total)
    ensures r.Ok? ==> InRange(tag, r.value)
    decreases |keys|
  {
    if keys == [] then Ok(total)
    else
      match Get(m, keys[0], tag)
      case Err(_) => Err(ParseError(keys[0], "", TypeName(tag)))
      case Ok(v) =>
        var sum := v.n + total;
        if InRange(tag, sum) then AddFrom(m, keys[1..], tag, sum) else Err(AddOverflowError)
  }

  lemma TotalSnoc(m: RecordMap, keys: seq<string>, k: string, tag: Tag)
    requires Consistent(m) && tag.IsInteger()
    ensures Total(m, keys + [k], tag) == Total(m, keys, tag) + IntAt(m, k, tag)
    decreases |keys|
  {
    if keys == [] {
      assert [] + [k] == [k] && [k][1..] == [];
    } else {
      assert (keys + [k])[1..] == keys[1..] + [k];
      TotalSnoc(m, keys[1..], k, tag);
    }
  }

  /** The partial sums of `keys` from `total` are `total` and those of the rest from the first sum. */
  lemma RunningSumsStep(m: RecordMap, keys: seq<string>, tag: Tag, total: int)
    requires Consistent(m) && tag.IsInteger() && InRange(tag, total) && keys != []
    ensures var sum := total + IntAt(m, keys[0], tag);
      RunningSumsInRange(m, keys, tag, total) <==>
      InRange(tag, sum) && RunningSumsInRange(m, keys[1..], tag, sum)
  {
    var sum := total + IntAt(m, keys[0], tag);
    var rest := keys[1..];
    assert keys[..0] == [];
    forall i | 0 <= i <= |rest|
      ensures Total(m, keys[..i + 1], tag) == IntAt(m, keys[0], tag) + Total(m, rest[..i], tag)
    {
      assert keys[..i + 1][1..] == rest[..i];
    }
    assert rest[..0] == [];
    if RunningSumsInRange(m, keys, tag, total) {
      forall i | 0 <= i <= |rest|
        ensures InRange(tag, sum + Total(m, rest[..i], tag))
      {
        assert InRange(tag, total + Total(m, keys[..i + 1], tag));
      }
    }
    if InRange(tag, sum) && RunningSumsInRange(m, rest, tag, sum) {
      forall j | 0 <= j <= |keys|
        ensures InRange(tag, total + Total(m, keys[..j], tag))
      {
        if j > 0 {
          assert InRange(tag, sum + Total(m, rest[..j - 1], tag));
        }
      }
    }
  }

  /**
   * `add` succeeds exactly when every key holds a value of the type and every running sum
   * stays in the type's range, and its result is then the sum of the values.
   */
  lemma {:induction false} AddFromSucceedsExactly(m: RecordMap, keys: seq<string>, tag: Tag, total: int)
    requires Consistent(m) && tag.IsInteger() && InRange(tag, total)
    ensures AddFrom(m, keys, tag, total).Ok? <==>
      AllStoredAs(m, keys, tag) && RunningSumsInRange(m, keys, tag, total)
    ensures AddFrom(m, keys, tag, total).Ok? ==> AddFrom(m, keys, tag, total).value == total + Total(m, keys, tag)
    decreases |keys|
  {
    if keys == [] {
      assert keys[..0] == [];
    } else if StoredAs(m, keys[0], tag) {
      var sum := total + IntAt(m, keys[0], tag);
      RunningSumsStep(m, keys, tag, total);
      assert AllStoredAs(m, keys, tag) <==> AllStoredAs(m, keys[1..], tag) by {
        assert forall i :: 0 < i < |keys| ==> keys[i] == keys[1..][i - 1];
      }
      if InRange(tag, sum) {
        AddFromSucceedsExactly(m, keys[1..], tag, sum);
      }
    }
  }

  /** Once a prefix of the keys has been added without error, `add` continues from its sum. */
  lemma {:induction false} AddFromPrefix(m: RecordMap, keys: seq<string>, tag: Tag, total: int, i: nat)
    requires Consistent(m) && tag.IsInteger() && InRange(tag, total) && i <= |keys|
    requires AllStoredAs(m, keys[..i], tag) && RunningSumsInRange(m, keys[..i], tag, total)
    ensures InRange(tag, total + Total(m, keys[..i], tag))
    ensures AddFrom(m, keys, tag, total) == AddFrom(m, keys[i..], tag, total + Total(m, keys[..i], tag))
    decreases i
  {
    assert keys[..i][..i] == keys[..i];
    if i == 0 {
      assert keys[..0] == [] && keys[0..] == keys;
    } else {
      var pre := keys[..i];
      assert StoredAs(m, pre[0], tag) && pre[0] == keys[0];
      var sum := total + IntAt(m, keys[0], tag);
      RunningSumsStep(m, pre, tag, total);
      assert pre[1..] == keys[1..][..i - 1];
      var restPre := keys[1..][..i - 1];
      assert AllStoredAs(m, restPre, tag) by {
        assert forall j :: 0 <= j < |restPre| ==> restPre[j] == pre[j + 1];
      }
      AddFromPrefix(m, keys[1..], tag, sum, i - 1);
      assert keys[1..][i - 1..] == keys[i..];
    }
  }

  /** The first key that is absent or of another type is the one `add` reports. */
  lemma AddReportsFirstUnusableKey(m: RecordMap, keys: seq<string>, tag: Tag, i: nat)
    requires Consistent(m) && tag.IsInteger() && i < |keys|
    requires AllStoredAs(m, keys[..i], tag) && RunningSumsInRange(m, keys[..i], tag, 0)
    requires !StoredAs(m, keys[i], tag)
    ensures AddFrom(m, keys, tag, 0) == Err(ParseError(keys[i], "", TypeName(tag)))
  {
    AddFromPrefix(m, keys, tag, 0, i);
    assert keys[i..][0] == keys[i];
  }

  /** The first running sum outside the type's range makes `add` report an overflow. */
  lemma AddReportsFirstOverflow(m: RecordMap, keys: seq<string>, tag: Tag, i: nat)
    requires Consistent(m) && tag.IsInteger() && i < |keys|
    requires AllStoredAs(m, keys[..i], tag) && RunningSumsInRange(m, keys[..i], tag, 0)
    requires StoredAs(m, keys[i], tag) && !InRange(tag, Total(m, keys[..i + 1], tag))
    ensures AddFrom(m, keys, tag, 0) == Err(AddOverflowError)
  {
    AddFromPrefix(m, keys, tag, 0, i);
    assert keys[..i + 1] == keys[..i] + [keys[i]];
    TotalSnoc(m, keys[..i], keys[i], tag);
    assert keys[i..][0] == keys[i];
  }

  /** `BigInt` never overflows, so its `add` fails only on an unusable key. */
  lemma BigIntAddIsTotal(m: RecordMap, keys: seq<string>)
    requires Consistent(m)
    ensures AddFrom(m, keys, BigInt, 0).Ok? <==> AllStoredAs(m, keys, BigInt)
    ensures AddFrom(m, keys, BigInt, 0).Ok? ==> AddFrom(m, keys, BigInt, 0) == Ok(Total(m, keys, BigInt))
  {
    AddFromSucceedsExactly(m, keys, BigInt, 0);
  }

  /** The loop of `add_float`: unchecked addition of the stored bit patterns, in list order. */
  function FloatAddFrom(m: RecordMap, keys: seq<string>, tag: Tag, fl: FloatOps, total: nat): (r: Result<nat, SmirkMessage>)
    requires Consistent(m) && tag.IsFloat()
    decreases |keys|
  {
    if keys == [] then Ok(total)
    else
      match Get(m, keys[0], tag)
      case Err(_) => Err(ParseError(keys[0], "", TypeName(tag)))
      case Ok(v) => FloatAddFrom(m, keys[1..], tag, fl, fl.add(tag, total, v.bits))
  }

  /**
   * `add_float` never reports an overflow: it succeeds exactly when every key holds a value
   * of the type, and otherwise names the first key that does not.
   */
  lemma {:induction false} FloatAddSucceedsExactly(m: RecordMap, keys: seq<string>, tag: Tag, fl: FloatOps, total: nat)
    requires Consistent(m) && tag.IsFloat()
    ensures FloatAddFrom(m, keys, tag, fl, total).Ok? <==> AllStoredAs(m, keys, tag)
    ensures FloatAddFrom(m, keys, tag, fl, total).Err? ==>
      exists i :: 0 <= i < |keys| && !StoredAs(m, keys[i], tag) && AllStoredAs(m, keys[..i], tag) &&
        FloatAddFrom(m, keys, tag, fl, total) == Err(ParseError(keys[i], "", TypeName(tag)))
    decreases |keys|
  {
    if keys != [] {
      var k := keys[0];
      if StoredAs(m, k, tag) {
        var next := fl.add(tag, total, m[k].value.bits);
        FloatAddSucceedsExactly(m, keys[1..], tag, fl, next);
        assert forall i :: 0 <= i < |keys| - 1 ==> keys[1..][i] == keys[i + 1];
        if FloatAddFrom(m, keys, tag, fl, total).Err? {
          var i :| 0 <= i < |keys| - 1 && !StoredAs(m, keys[1..][i], tag) && AllStoredAs(m, keys[1..][..i], tag) &&
            FloatAddFrom(m, keys[1..], tag, fl, next) == Err(ParseError(keys[1..][i], "", TypeName(tag)));
          assert keys[..i + 1] == [k] + keys[1..][..i];
          assert !StoredAs(m, keys[i + 1], tag) && AllStoredAs(m, keys[..i + 1], tag);
        }
      } else {
        assert keys[..0] == [];
      }
    }
  }

  // ---------------------------------------------------------------------------------------
  // The store as the server keeps it

  class SmirkMap {
    var searchMode: SearchMode
    var records: RecordMap
    const trie: TrieIndex.Trie

    /** The records are consistent and the key index is a valid trie apart from the store. */
    ghost predicate Valid()
      reads this, trie, trie.Repr
    {
      Consistent(records) && trie.Valid() && this !in trie.Repr
    }

    /** `SmirkMap { search_mode, map: HashMap::new(), trie: Trie::default() }`. */
    constructor (mode: SearchMode)
      ensures Valid() && fresh(trie.Repr)
      ensures searchMode == mode && records == map[] && trie.View() == TrieIndex.DefaultNode
    {
      searchMode := mode;
      records := map[];
      trie := new TrieIndex.Trie();
    }

    /** `set::<T>` for every T except `Vec<u8>`, which has no text parser. */
    method Set(key: string, tag: Tag, text: string, desired: string, now: int, fl: FloatOps)
      returns (reply: Result<SmirkMessage, SmirkMessage>)
      requires Valid() && tag != Bytes
      modifies this`records
      ensures Valid()
      ensures Written(records, reply) == SetSpec(old(records), key, tag, text, desired, now, fl)
    {
      SetKeepsConsistent(records, key, tag, text, desired, now, fl);
      var parsed := Parse(tag, text, fl);
      if parsed.Some? {
        records := records[key := Record(parsed.value, None, now, TypeName(tag), desired)];
        reply := Ok(SetKey(key, TypeName(tag), desired));
      } else {
        reply := Err(ParseError(key, text, TypeName(tag)));
      }
    }

    /** `binary_set`. */
    method BinarySet(key: string, bytes: string, desired: string, now: int)
      returns (reply: Result<SmirkMessage, SmirkMessage>)
      requires Valid()
      modifies this`records
      ensures Valid()
      ensures Written(records, reply) == BinarySetSpec(old(records), key, bytes, desired, now)
    {
      OtherWritesKeepConsistent(records, key, bytes, desired, now, None);
      records := records[key := Record(BytesVal(bytes), None, now, "Vec<u8>", desired)];
      reply := Ok(SetKey(key, "Vec<u8>", desired));
    }

    /** `del`. */
    method Del(key: string) returns (deleted: nat)
      requires Valid()
      modifies this`records
      ensures Valid()
      ensures (records, deleted) == DelSpec(old(records), key)
    {
      if key in records {
        records := records - {key};
        deleted := 1;
      } else {
        deleted := 0;
      }
    }

    /** `set_ttl`. */
    method SetTtl(key: string, ttl: Option<nat>)
      requires Valid()
      modifies this`records
      ensures Valid()
      ensures records == SetTtlSpec(old(records), key, ttl)
    {
      if key in records {
        records := records[key := records[key].(ttl := ttl)];
      }
    }

    /** `set_search_mode`. */
    method SetSearchMode(mode: SearchMode)
      requires Valid()
      modifies this`searchMode
      ensures Valid() && searchMode == mode
    {
      searchMode := mode;
    }

    /** `add::<T>` for the integer types: the keys are visited in order; the store is only read. */
    method Add(keys: seq<string>, tag: Tag) returns (r: Result<int, SmirkMessage>)
      requires Consistent(records) && tag.IsInteger()
      ensures r == AddFrom(records, keys, tag, 0)
      ensures r.Ok? ==> InRange(tag, r.value)
      ensures keys == [] ==> r == Ok(0)
    {
      var m := records;
      var total := 0;
      var i := 0;
      while i < |keys|
        invariant 0 <= i <= |keys| && InRange(tag, total)
        invariant AddFrom(m, keys, tag, 0) == AddFrom(m, keys[i..], tag, total)
      {
        var key := keys[i];
        assert keys[i..][0] == key && keys[i..][1..] == keys[i + 1..];
        var got := Get(m, key, tag);
        if got.Err? {
          return Err(ParseError(key, "", TypeName(tag)));
        }
        var sum := got.value.n + total;
        if !InRange(tag, sum) {
          return Err(AddOverflowError);
        }
        total := sum;
        i := i + 1;
      }
      return Ok(total);
    }

    /** `add_float::<T>` for f32 and f64, starting from positive zero. */
    method AddFloat(keys: seq<string>, tag: Tag, fl: FloatOps) returns (r: Result<nat, SmirkMessage>)
      requires Consistent(records) && tag.IsFloat()
      ensures r == FloatAddFrom(records, keys, tag, fl, FloatZero)
      ensures r.Err? ==> r.error.ParseError?
    {
      FloatAddSucceedsExactly(records, keys, tag, fl, FloatZero);
      var total := FloatZero;
      var i := 0;
      while i < |keys|
        invariant 0 <= i <= |keys|
        invariant FloatAddFrom(records, keys, tag, fl, FloatZero) == FloatAddFrom(records, keys[i..], tag, fl, total)
      {
        var key := keys[i];
        assert keys[i..][0] == key && keys[i..][1..] == keys[i + 1..];
        var got := Get(records, key, tag);
        if got.Err? {
          return Err(ParseError(key, "", TypeName(tag)));
        }
        total := fl.add(tag, total, got.value.bits);
        i := i + 1;
      }
      return Ok(total);
    }
  }
}
