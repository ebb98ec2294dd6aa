/**
 * The server's start-up configuration (`SmirkConfig`) and the command-line flags that
 * override its defaults. The prototype's `get_config` is the same procedure over the same
 * four fields, so both are this module.
 */
module Config {
  import opened Wrappers
  import opened Values
  import opened SearchModes
  import Commands

  datatype SmirkConfig = SmirkConfig(
    port: nat,                          // u16
    numberOfDbs: nat,                   // u8
    maxThreads: nat,                    // usize
    defaultKeySearchMethod: SearchMode)

  /** `SmirkConfig::default()`; the CPU count (`num_cpus::get()`) is supplied by the caller. */
  function Default(cpus: nat): (c: SmirkConfig)
    ensures c.port == 53173 && c.numberOfDbs == 1 && c.maxThreads == cpus && c.defaultKeySearchMethod == Glob
  {
    SmirkConfig(53173, 1, cpus, Glob)
  }

  /** A number flag's value, or the field's previous value when it does not parse (`unwrap_or`). */
  function ParseOr(t: Tag, s: string, previous: nat): (n: nat)
    requires t.Unsigned?
    ensures ParseInteger(t, s).Some? ==> n == ParseInteger(t, s).value
    ensures ParseInteger(t, s).None? ==> n == previous
  {
    match ParseInteger(t, s) case Some(v) => v case None => previous
  }

  /** `--default-key-search-type`: REGEX in any case selects Regex, anything else Glob. */
  function SearchTypeOf(s: string): (m: SearchMode)
    ensures m != Trie
    ensures m == Regex <==> Commands.Upper(s) == "REGEX"
  {
    if Commands.Upper(s) == "REGEX" then Regex else Glob
  }

  /** One turn of the loop over the arguments: a known flag with a value after it acts on its field. */
  function FlagStep(args: seq<string>, i: nat, c: SmirkConfig): SmirkConfig
    requires 1 <= i < |args|
  {
    if args[i] == "--port" && i + 1 < |args| then
      c.(port := ParseOr(Unsigned(W16), args[i + 1], c.port))
    else if args[i] == "--number-of-dbs" && i + 1 < |args| then
      c.(numberOfDbs := ParseOr(Unsigned(W8), args[i + 1], c.numberOfDbs))
    else if args[i] == "--max-threads" && i + 1 < |args| then
      c.(maxThreads := ParseOr(Unsigned(WSize), args[i + 1], c.maxThreads))
    else if args[i] == "--default-key-search-type" && i + 1 < |args| then
      c.(defaultKeySearchMethod := SearchTypeOf(args[i + 1]))
    else c
  }

  /** The loop from argument `i` on, starting from `c`. */
  function FlagsFrom(args: seq<string>, i: nat, c: SmirkConfig): SmirkConfig
    requires i >= 1
    decreases |args| - i
  {
    if i >= |args| then c else FlagsFrom(args, i + 1, FlagStep(args, i, c))
  }

  /** The configuration the flags give: the loop over every argument after the program name. */
  function RuntimeConfig(args: seq<string>, cpus: nat): SmirkConfig
  {
    FlagsFrom(args, 1, Default(cpus))
  }

  /** `get_runtime_config` (and the prototype's `get_config`), with the arguments passed in. */
  method GetRuntimeConfig(args: seq<string>, cpus: nat) returns (config: SmirkConfig)
    ensures config == RuntimeConfig(args, cpus)
  {
    config := Default(cpus);
    if |args| > 1 {
      for i := 1 to |args|
        invariant FlagsFrom(args, i, config) == RuntimeConfig(args, cpus)
      {
        if args[i] == "--port" && i + 1 < |args| {
          config := config.(port := ParseOr(Unsigned(W16), args[i + 1], config.port));
        } else if args[i] == "--number-of-dbs" && i + 1 < |args| {
          config := config.(numberOfDbs := ParseOr(Unsigned(W8), args[i + 1], config.numberOfDbs));
        } else if args[i] == "--max-threads" && i + 1 < |args| {
          config := config.(maxThreads := ParseOr(Unsigned(WSize), args[i + 1], config.maxThreads));
        } else if args[i] == "--default-key-search-type" && i + 1 < |args| {
          config := config.(defaultKeySearchMethod := SearchTypeOf(args[i + 1]));
        }
      }
    }
  }

  // ---------------------------------------------------------------------------------------
  // What the flags mean, field by field

  datatype Field = Port | NumberOfDbs | MaxThreads | SearchType

  datatype FieldValue = Num(n: nat) | ModeValue(mode: SearchMode)

  function FlagName(f: Field): string
  {
    match f
    case Port => "--port"
    case NumberOfDbs => "--number-of-dbs"
    case MaxThreads => "--max-threads"
    case SearchType => "--default-key-search-type"
  }

  function FieldOf(c: SmirkConfig, f: Field): FieldValue
  {
    match f
    case Port => Num(c.port)
    case NumberOfDbs => Num(c.numberOfDbs)
    case MaxThreads => Num(c.maxThreads)
    case SearchType => ModeValue(c.defaultKeySearchMethod)
  }

  /**
   * The value argument `k` sets field `f` to, if it sets it: the argument is that field's
   * flag, a value follows it, and (for the numbers) the value parses in the field's type.
   */
  function SettingAt(args: seq<string>, k: nat, f: Field): Option<FieldValue>
    requires 1 <= k < |args|
  {
    if args[k] != FlagName(f) || k + 1 >= |args| then None
    else
      var v := args[k + 1];
      match f
      case Port => (match ParseInteger(Unsigned(W16), v) case Some(n) => Some(Num(n)) case None => None)
      case NumberOfDbs => (match ParseInteger(Unsigned(W8), v) case Some(n) => Some(Num(n)) case None => None)
      case MaxThreads => (match ParseInteger(Unsigned(WSize), v) case Some(n) => Some(Num(n)) case None => None)
      case SearchType => Some(ModeValue(SearchTypeOf(v)))
  }

  /** One argument changes at most one field, to the value it sets, and leaves the others alone. */
  lemma FlagStepSetsOneField(args: seq<string>, k: nat, c: SmirkConfig, f: Field)
    requires 1 <= k < |args|
    ensures FieldOf(FlagStep(args, k, c), f) ==
      match SettingAt(args, k, f) case Some(v) => v case None => FieldOf(c, f)
  {
  }

  /** A field no later argument sets keeps the value it had. */
  lemma {:induction false} UnsetFieldKeeps(args: seq<string>, i: nat, c: SmirkConfig, f: Field)
    requires i >= 1
    requires forall k :: i <= k < |args| ==> SettingAt(args, k, f).None?
    ensures FieldOf(FlagsFrom(args, i, c), f) == FieldOf(c, f)
    decreases |args| - i
  {
    if i < |args| {
      FlagStepSetsOneField(args, i, c, f);
      UnsetFieldKeeps(args, i + 1, FlagStep(args, i, c), f);
    }
  }

  /** The last argument that sets a field decides it: a later flag overrides an earlier one. */
  lemma {:induction false} LastSettingWins(args: seq<string>, i: nat, c: SmirkConfig, f: Field, j: nat)
    requires 1 <= i <= j < |args| && SettingAt(args, j, f).Some?
    requires forall k :: j < k < |args| ==> SettingAt(args, k, f).None?
    ensures FieldOf(FlagsFrom(args, i, c), f) == SettingAt(args, j, f).value
    decreases j - i
  {
    FlagStepSetsOneField(args, i, c, f);
    if i < j {
      LastSettingWins(args, i + 1, FlagStep(args, i, c), f, j);
    } else {
      UnsetFieldKeeps(args, i + 1, FlagStep(args, i, c), f);
    }
  }

  /**
   * So each field of the configuration is the value of the last argument that sets it, or
   * its default when none does; a flag in the last position, a value that does not parse
   * (such as a port of 70000), the program name and unknown arguments set nothing.
   */
  lemma RuntimeConfigFields(args: seq<string>, cpus: nat, f: Field)
    ensures (forall k :: 1 <= k < |args| ==> SettingAt(args, k, f).None?) ==>
      FieldOf(RuntimeConfig(args, cpus), f) == FieldOf(Default(cpus), f)
    ensures forall j ::
      (1 <= j < |args| && SettingAt(args, j, f).Some? &&
       (forall k :: j < k < |args| ==> SettingAt(args, k, f).None?)) ==>
      FieldOf(RuntimeConfig(args, cpus), f) == SettingAt(args, j, f).value
  {
    if forall k :: 1 <= k < |args| ==> SettingAt(args, k, f).None? {
      UnsetFieldKeeps(args, 1, Default(cpus), f);
    }
    forall j | 1 <= j < |args| && SettingAt(args, j, f).Some? &&
      (forall k :: j < k < |args| ==> SettingAt(args, k, f).None?)
      ensures FieldOf(RuntimeConfig(args, cpus), f) == SettingAt(args, j, f).value
    {
      LastSettingWins(args, 1, Default(cpus), f, j);
    }
  }

  /** A flag in the last position has no value after it and sets nothing. */
  lemma LastArgumentSetsNothing(args: seq<string>, f: Field)
    requires |args| >= 2
    ensures SettingAt(args, |args| - 1, f).None?
  {
  }

  /** The flags never choose the Trie search mode. */
  lemma {:induction false} NeverTrie(args: seq<string>, i: nat, c: SmirkConfig)
    requires i >= 1 && c.defaultKeySearchMethod != Trie
    ensures FlagsFrom(args, i, c).defaultKeySearchMethod != Trie
    decreases |args| - i
  {
    if i < |args| {
      NeverTrie(args, i + 1, FlagStep(args, i, c));
    }
  }

  /** A port outside u16 is ignored. */
  lemma PortOutOfRangeIgnored(cpus: nat)
    ensures RuntimeConfig(["smirk", "--port", "70000"], cpus).port == 53173
  {
    var args := ["smirk", "--port", "70000"];
    assert ParseInteger(Unsigned(W16), "70000") == None by {
      assert AllDigits("70000");
      assert DecimalValue("70000") == 70000 by {
        assert "70000"[..4] == "7000";
        assert "7000"[..3] == "700";
        assert "700"[..2] == "70";
        assert "70"[..1] == "7";
        assert "7"[..0] == "";
      }
    }
  }
}
