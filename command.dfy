/**
 * Parsing one request line into a `Command` (`Command::from_str`): the line is split into
 * whitespace-separated tokens, the verb is compared after upper-casing, and each verb checks
 * its token count.
 */
module Commands {
  import opened Wrappers
  import opened Values
  import opened SearchModes

  /**
   * The requests the dispatcher serves. `Add` belongs to the server's command type, whose
   * parser is not part of this model; the line parser here never produces it.
   */
  datatype Command =
    | Set(tag: string, key: string, value: string)
    | Get(tag: string, key: string)
    | Del(keys: seq<string>)
    | Keys(pattern: string)
    | Mode(mode: SearchMode)
    | TtlGet(key: string)
    | TtlSet(key: string, ttl: Option<nat>)
    | Exists(key: string)
    | Type(key: string)
    | Quit
    | Save
    | Add(tag: string, keys: seq<string>)

  datatype CommandError = NoInput | ArgumentMismatch | Unknown | NoValidModeSpecified | InvalidTtlSpecified

  // ---------------------------------------------------------------------------------------
  // Tokens

  /** Unicode White_Space, the separator of `split_whitespace` (and what `trim` removes). */
  predicate IsWhitespace(c: char)
  {
    ('\t' <= c <= '\r') || c == ' ' || c == '\U{85}' || c == '\U{A0}' || c == '\U{1680}' ||
    ('\U{2000}' <= c <= '\U{200A}') || c == '\U{2028}' || c == '\U{2029}' || c == '\U{202F}' ||
    c == '\U{205F}' || c == '\U{3000}'
  }

  predicate NoWhitespace(s: string) { forall i :: 0 <= i < |s| ==> !IsWhitespace(s[i]) }

  /** A token: non-empty, without whitespace. */
  predicate IsWord(w: string) { w != [] && NoWhitespace(w) }

  predicate AllWords(ts: seq<string>) { forall i :: 0 <= i < |ts| ==> IsWord(ts[i]) }

  /** The longest prefix without whitespace. */
  function LeadingWord(s: string): (w: string)
    ensures w <= s && NoWhitespace(w) && (|w| < |s| ==> IsWhitespace(s[|w|]))
    ensures s != [] && !IsWhitespace(s[0]) ==> w != []
    decreases |s|
  {
    if s == [] || IsWhitespace(s[0]) then []
    else
      var w := LeadingWord(s[1..]);
      assert [s[0]] + w <= s by {
        assert s == [s[0]] + s[1..];
      }
      [s[0]] + w
  }

  /** `s.trim().split_whitespace()`: the maximal runs of non-whitespace, in order. */
  function Tokens(s: string): seq<string>
    decreases |s|
  {
    if s == [] then []
    else if IsWhitespace(s[0]) then Tokens(s[1..])
    else
      var w := LeadingWord(s);
      [w] + Tokens(s[|w|..])
  }

  /** `tokens.join(" ")`. */
  function Join(ts: seq<string>): string
    decreases |ts|
  {
    if ts == [] then "" else if |ts| == 1 then ts[0] else ts[0] + " " + Join(ts[1..])
  }

  lemma {:induction false} TokensAreWords(s: string)
    ensures AllWords(Tokens(s))
    decreases |s|
  {
    if s != [] {
      if IsWhitespace(s[0]) {
        TokensAreWords(s[1..]);
      } else {
        TokensAreWords(s[|LeadingWord(s)|..]);
      }
    }
  }

  /** A line has no tokens exactly when it is all whitespace. */
  lemma {:induction false} TokensEmptyIff(s: string)
    ensures Tokens(s) == [] <==> forall i :: 0 <= i < |s| ==> IsWhitespace(s[i])
    decreases |s|
  {
    if s != [] && IsWhitespace(s[0]) {
      TokensEmptyIff(s[1..]);
      assert forall i :: 0 < i < |s| ==> s[i] == s[1..][i - 1];
    }
  }

  lemma {:induction false} LeadingWordOf(w: string, rest: string)
    requires NoWhitespace(w) && (rest == [] || IsWhitespace(rest[0]))
    ensures LeadingWord(w + rest) == w
    decreases |w|
  {
    if w == [] {
      assert w + rest == rest;
    } else {
      assert (w + rest)[1..] == w[1..] + rest;
      LeadingWordOf(w[1..], rest);
    }
  }

  /** A word followed by whitespace (or nothing) is the first token. */
  lemma TokensAfterWord(w: string, rest: string)
    requires IsWord(w) && (rest == [] || IsWhitespace(rest[0]))
    ensures Tokens(w + rest) == [w] + Tokens(rest)
  {
    LeadingWordOf(w, rest);
    assert (w + rest)[|w|..] == rest;
  }

  /** Words joined by single spaces split back into the same words. */
  lemma {:induction false} JoinThenTokens(ts: seq<string>)
    requires AllWords(ts)
    ensures Tokens(Join(ts)) == ts
    decreases |ts|
  {
    if |ts| == 1 {
      TokensAfterWord(ts[0], "");
      assert ts[0] + "" == ts[0];
    } else if |ts| > 1 {
      var rest := " " + Join(ts[1..]);
      TokensAfterWord(ts[0], rest);
      assert ts[0] + " " + Join(ts[1..]) == ts[0] + rest;
      assert rest[1..] == Join(ts[1..]);
      JoinThenTokens(ts[1..]);
    }
  }

  // ---------------------------------------------------------------------------------------
  // Upper-casing

  /**
   * `char::to_uppercase`, as far as it decides equality with an ASCII word: the ASCII
   * letters, and the ten other characters whose capitals are ASCII letters only.
   */
  function UpperChar(c: char): string
  {
    if c < '\U{80}' then
      if 'a' <= c <= 'z' then [(c as int - 32) as char] else [c]
    else if c == '\U{DF}' then "SS"
    else if c == '\U{131}' then "I"
    else if c == '\U{17F}' then "S"
    else if c == '\U{FB00}' then "FF"
    else if c == '\U{FB01}' then "FI"
    else if c == '\U{FB02}' then "FL"
    else if c == '\U{FB03}' then "FFI"
    else if c == '\U{FB04}' then "FFL"
    else if c == '\U{FB05}' || c == '\U{FB06}' then "ST"
    else [c]
  }

  /** `str::to_uppercase`. */
  function Upper(s: string): string
    decreases |s|
  {
    if s == [] then [] else UpperChar(s[0]) + Upper(s[1..])
  }

  /** A word already in ASCII capitals is its own upper case. */
  lemma {:induction false} UpperOfCapitals(s: string)
    requires forall i :: 0 <= i < |s| ==> 'A' <= s[i] <= 'Z'
    ensures Upper(s) == s
    decreases |s|
  {
    if s != [] {
      UpperOfCapitals(s[1..]);
      assert s == [s[0]] + s[1..];
    }
  }

  // ---------------------------------------------------------------------------------------
  // The parser

  /** The verbs the parser knows, each spelled in capitals. */
  datatype Verb =
    | VerbSet | VerbGet | VerbDel | VerbKeys | VerbMode | VerbTtl | VerbDelTtl
    | VerbExists | VerbType | VerbQuit | VerbSave

  function VerbWord(v: Verb): string
  {
    match v
    case VerbSet => "SET"
    case VerbGet => "GET"
    case VerbDel => "DEL"
    case VerbKeys => "KEYS"
    case VerbMode => "MODE"
    case VerbTtl => "TTL"
    case VerbDelTtl => "DELTTL"
    case VerbExists => "EXISTS"
    case VerbType => "TYPE"
    case VerbQuit => "QUIT"
    case VerbSave => "SAVE"
  }

  /** The verb an upper-cased first token spells, if any. */
  function VerbOf(word: string): Option<Verb>
  {
    if word == "SET" then Some(VerbSet)
    else if word == "GET" then Some(VerbGet)
    else if word == "DEL" then Some(VerbDel)
    else if word == "KEYS" then Some(VerbKeys)
    else if word == "MODE" then Some(VerbMode)
    else if word == "TTL" then Some(VerbTtl)
    else if word == "DELTTL" then Some(VerbDelTtl)
    else if word == "EXISTS" then Some(VerbExists)
    else if word == "TYPE" then Some(VerbType)
    else if word == "QUIT" then Some(VerbQuit)
    else if word == "SAVE" then Some(VerbSave)
    else None
  }

  /** Each verb's spelling, in any case, is recognised as that verb. */
  lemma VerbWordRecognised(v: Verb)
    ensures Upper(VerbWord(v)) == VerbWord(v) && VerbOf(VerbWord(v)) == Some(v)
  {
    VerbWordCapitals(v);
    UpperOfCapitals(VerbWord(v));
    VerbOfVerbWord(v);
  }

  lemma VerbWordCapitals(v: Verb)
    ensures forall i :: 0 <= i < |VerbWord(v)| ==> 'A' <= VerbWord(v)[i] <= 'Z'
  {
  }

  lemma VerbOfVerbWord(v: Verb)
    ensures VerbOf(VerbWord(v)) == Some(v)
  {
  }

  /**
   * The verb and token-count rules: `verb` is what the upper-cased first token spells and
   * `args` the tokens after it, so the source's token count is `|args| + 1`.
   */
  function ParseVerb(verb: Option<Verb>, args: seq<string>): Result<Command, CommandError>
  {
    var n := |args| + 1;
    match verb
    case None => Err(Unknown)
    case Some(VerbSet) =>
      if n < 4 then Err(ArgumentMismatch) else Ok(Set(args[0], args[1], Join(args[2..])))
    case Some(VerbGet) =>
      if n != 3 then Err(ArgumentMismatch) else Ok(Get(args[0], args[1]))
    case Some(VerbDel) =>
      if n < 2 then Err(ArgumentMismatch) else Ok(Del(args))
    case Some(VerbKeys) =>
      if n != 2 then Err(ArgumentMismatch) else Ok(Keys(args[0]))
    case Some(VerbMode) =>
      if n != 2 then Err(ArgumentMismatch)
      else
        var word := Upper(args[0]);
        if word == "GLOB" then Ok(Mode(Glob))
        else if word == "REGEX" then Ok(Mode(Regex))
        else Err(NoValidModeSpecified)
    case Some(VerbTtl) =>
      if n == 2 then Ok(TtlGet(args[0]))
      else if n == 3 then
        match ParseInteger(U64, args[1])
        case Some(t) => Ok(TtlSet(args[0], Some(t)))
        case None => Err(InvalidTtlSpecified)
      else Err(ArgumentMismatch)
    case Some(VerbDelTtl) =>
      if n == 2 then Ok(TtlSet(args[0], None)) else Err(ArgumentMismatch)
    case Some(VerbExists) =>
      if n != 2 then Err(ArgumentMismatch) else Ok(Exists(args[0]))
    case Some(VerbType) =>
      if n != 2 then Err(ArgumentMismatch) else Ok(Type(args[0]))
    case Some(VerbQuit) => Ok(Quit)
    case Some(VerbSave) => Ok(Save)
  }

  /** The tokens of a line: none is `NoInput`, otherwise the verb decides. */
  function ParseTokens(ts: seq<string>): Result<Command, CommandError>
  {
    if ts == [] then Err(NoInput) else ParseVerb(VerbOf(Upper(ts[0])), ts[1..])
  }

  /** `Command::from_str`. */
  function ParseCommand(line: string): Result<Command, CommandError>
  {
    ParseTokens(Tokens(line))
  }

  // ---------------------------------------------------------------------------------------
  // The canonical spelling of a command, and what the parser promises

  /** The mode words MODE accepts; TRIE is spelled here only to make the function total. */
  function ModeWord(m: SearchMode): string
  {
    match m case Glob => "GLOB" case Regex => "REGEX" case Trie => "TRIE"
  }

  lemma ModeWordRecognised(m: SearchMode)
    ensures Upper(ModeWord(m)) == ModeWord(m)
  {
    assert forall i :: 0 <= i < |ModeWord(m)| ==> 'A' <= ModeWord(m)[i] <= 'Z';
    UpperOfCapitals(ModeWord(m));
  }

  /** The verb a command is spelled with; ADD has none in this parser. */
  function CommandVerb(cmd: Command): Option<Verb>
  {
    match cmd
    case Set(_, _, _) => Some(VerbSet)
    case Get(_, _) => Some(VerbGet)
    case Del(_) => Some(VerbDel)
    case Keys(_) => Some(VerbKeys)
    case Mode(_) => Some(VerbMode)
    case TtlGet(_) => Some(VerbTtl)
    case TtlSet(_, None) => Some(VerbDelTtl)
    case TtlSet(_, Some(_)) => Some(VerbTtl)
    case Exists(_) => Some(VerbExists)
    case Type(_) => Some(VerbType)
    case Quit => Some(VerbQuit)
    case Save => Some(VerbSave)
    case Add(_, _) => None
  }

  /** The tokens after the verb of a command's canonical line, in order. */
  function CanonicalArgs(cmd: Command): seq<string>
  {
    match cmd
    case Set(t, k, v) => [t, k] + Tokens(v)
    case Get(t, k) => [t, k]
    case Del(keys) => keys
    case Keys(p) => [p]
    case Mode(m) => [ModeWord(m)]
    case TtlGet(k) => [k]
    case TtlSet(k, None) => [k]
    case TtlSet(k, Some(t)) => [k, NatToString(t)]
    case Exists(k) => [k]
    case Type(k) => [k]
    case Quit => []
    case Save => []
    case Add(t, keys) => [t] + keys
  }

  /** The tokens of the canonical line for a command: upper-case verb, arguments in order. */
  function CanonicalTokens(cmd: Command): seq<string>
  {
    var word := match CommandVerb(cmd) case Some(v) => VerbWord(v) case None => "ADD";
    [word] + CanonicalArgs(cmd)
  }

  /** The canonical request line for a command. */
  function Unparse(cmd: Command): string
  {
    Join(CanonicalTokens(cmd))
  }

  /**
   * The commands a line can denote: every argument a single token (a SET value a
   * single-spaced run of tokens), DEL with at least one key, MODE never TRIE, a TTL that
   * fits u64, and no ADD.
   */
  predicate Parseable(cmd: Command)
  {
    AllWords(CanonicalTokens(cmd)) && ArgumentsFit(cmd)
  }

  /** The conditions on arguments the token rules of each verb impose. */
  predicate ArgumentsFit(cmd: Command)
  {
    match cmd
    case Set(_, _, v) => Tokens(v) != [] && Join(Tokens(v)) == v
    case Del(keys) => keys != []
    case Mode(m) => m != Trie
    case TtlSet(_, Some(t)) => InRange(U64, t)
    case Add(_, _) => false
    case _ => true
  }

  /** A line opening with a verb's own spelling is parsed by that verb's rule. */
  lemma ParseTokensOfVerb(v: Verb, args: seq<string>)
    ensures ParseTokens([VerbWord(v)] + args) == ParseVerb(Some(v), args)
  {
    VerbWordRecognised(v);
    assert ([VerbWord(v)] + args)[1..] == args;
  }

  /** The verb of a parseable command, given its canonical arguments, rebuilds it. */
  lemma ParseCanonicalArgs(cmd: Command)
    requires ArgumentsFit(cmd)
    ensures CommandVerb(cmd).Some? && ParseVerb(CommandVerb(cmd), CanonicalArgs(cmd)) == Ok(cmd)
  {
    match cmd
    case Set(t, k, v) => assert CanonicalArgs(cmd)[2..] == Tokens(v);
    case Mode(m) => ModeWordRecognised(m);
    case TtlSet(k, Some(n)) => IntegerRoundTrip(U64, n);
    case _ =>
  }

  /** The canonical tokens of a parseable command parse back to it. */
  lemma ParseCanonical(cmd: Command)
    requires ArgumentsFit(cmd)
    ensures ParseTokens(CanonicalTokens(cmd)) == Ok(cmd)
  {
    ParseCanonicalArgs(cmd);
    ParseTokensOfVerb(CommandVerb(cmd).value, CanonicalArgs(cmd));
  }

  /** Every command a line can denote is denoted by its canonical line. */
  lemma ParseUnparse(cmd: Command)
    requires Parseable(cmd)
    ensures ParseCommand(Unparse(cmd)) == Ok(cmd)
  {
    JoinThenTokens(CanonicalTokens(cmd));
    ParseCanonical(cmd);
  }

  /**
   * What a verb rule builds from word arguments is spelled with that verb, meets the
   * argument conditions, and has word arguments; apart from MODE, QUIT, SAVE and a numeric
   * TTL those arguments are exactly the ones given, in order, duplicates kept.
   */
  lemma ParsedVerbArgs(v: Option<Verb>, args: seq<string>)
    requires AllWords(args) && ParseVerb(v, args).Ok?
    ensures var cmd := ParseVerb(v, args).value;
      CommandVerb(cmd) == v && ArgumentsFit(cmd) && AllWords(CanonicalArgs(cmd)) &&
      (!cmd.Mode? && !cmd.Quit? && !cmd.Save? && !(cmd.TtlSet? && cmd.ttl.Some?) ==>
        CanonicalArgs(cmd) == args)
  {
    ParsedVerbSpelling(v, args);
    match v
    case Some(VerbSet) => ParsedSetArgs(args);
    case Some(VerbMode) => ModeWordIsWord(ParseVerb(v, args).value.mode);
    case Some(VerbTtl) =>
      if |args| == 2 {
        NatToStringIsWord(ParseVerb(v, args).value.ttl.value);
      }
    case _ =>
  }

  /** SET keeps its type and key and single-spaces its value's tokens. */
  lemma ParsedSetArgs(args: seq<string>)
    requires AllWords(args) && |args| >= 3
    ensures var cmd := Set(args[0], args[1], Join(args[2..]));
      ArgumentsFit(cmd) && CanonicalArgs(cmd) == args
  {
    var rest := args[2..];
    assert AllWords(rest) by {
      assert forall i :: 0 <= i < |rest| ==> rest[i] == args[i + 2];
    }
    JoinThenTokens(rest);
    assert [args[0], args[1]] + rest == args;
  }

  lemma NatToStringIsWord(n: nat)
    ensures IsWord(NatToString(n))
  {
    NatToStringDigits(n);
    forall i | 0 <= i < |NatToString(n)| ensures !IsWhitespace(NatToString(n)[i]) {
      assert IsDigit(NatToString(n)[i]);
    }
  }

  /** A verb rule builds a command spelled with that verb. */
  lemma ParsedVerbSpelling(v: Option<Verb>, args: seq<string>)
    requires ParseVerb(v, args).Ok?
    ensures CommandVerb(ParseVerb(v, args).value) == v
  {
    match v
    case Some(VerbMode) =>
      assert ParseVerb(v, args).value.Mode?;
    case Some(VerbTtl) =>
      assert ParseVerb(v, args).value.TtlGet? || ParseVerb(v, args).value.ttl.Some?;
    case _ =>
  }

  lemma ModeWordIsWord(m: SearchMode)
    ensures IsWord(ModeWord(m))
  {
  }

  lemma VerbWordIsWord(v: Verb)
    ensures IsWord(VerbWord(v))
  {
    VerbWordCapitals(v);
  }

  /**
   * What a parsed line denotes is a command lines can denote, so parsing its canonical line
   * gives it back; and apart from MODE, QUIT, SAVE and a numeric TTL its arguments are the
   * line's tokens after the verb, in order, duplicates kept. A SET value is therefore the
   * line's fourth and later tokens joined by single spaces.
   */
  lemma ParsedIsCanonical(line: string)
    requires ParseCommand(line).Ok?
    ensures var cmd := ParseCommand(line).value;
      Parseable(cmd) && ParseCommand(Unparse(cmd)) == Ok(cmd) &&
      (!cmd.Mode? && !cmd.Quit? && !cmd.Save? && !(cmd.TtlSet? && cmd.ttl.Some?) ==>
        CanonicalTokens(cmd)[1..] == Tokens(line)[1..])
  {
    var ts := Tokens(line);
    TokensAreWords(line);
    var args := ts[1..];
    assert AllWords(args) by {
      assert forall i :: 0 <= i < |args| ==> args[i] == ts[i + 1];
    }
    var cmd := ParseCommand(line).value;
    ParsedVerbArgs(VerbOf(Upper(ts[0])), args);
    var v := CommandVerb(cmd).value;
    VerbWordIsWord(v);
    var canon := CanonicalTokens(cmd);
    assert canon == [VerbWord(v)] + CanonicalArgs(cmd);
    assert AllWords(canon) by {
      assert forall i :: 1 <= i < |canon| ==> canon[i] == CanonicalArgs(cmd)[i - 1];
    }
    ParseUnparse(cmd);
  }

  /** A line without a token is `NoInput`, and only such a line. */
  lemma NoInputIffBlank(line: string)
    ensures ParseCommand(line) == Err(NoInput) <==> forall i :: 0 <= i < |line| ==> IsWhitespace(line[i])
  {
    TokensEmptyIff(line);
  }

  /** A line of a word, a space and more is parsed by the word's verb rule on the rest's tokens. */
  lemma LineAfterWord(verb: string, rest: string)
    requires IsWord(verb)
    ensures ParseCommand(verb + " " + rest) == ParseVerb(VerbOf(Upper(verb)), Tokens(rest))
  {
    TokensAfterWord(verb, " " + rest);
    assert verb + " " + rest == verb + (" " + rest);
    assert (" " + rest)[1..] == rest;
    assert ([verb] + Tokens(rest))[1..] == Tokens(rest);
  }

  /** The verb is compared after upper-casing: two spellings with the same capitals parse alike. */
  lemma VerbCaseInsensitive(a: string, b: string, rest: string)
    requires IsWord(a) && IsWord(b) && Upper(a) == Upper(b)
    ensures ParseCommand(a + " " + rest) == ParseCommand(b + " " + rest)
  {
    LineAfterWord(a, rest);
    LineAfterWord(b, rest);
  }

  /** Only GLOB and REGEX, in any case, select a mode; TRIE and every other word are refused. */
  lemma ModeWordOnly(verb: string, word: string)
    requires IsWord(verb) && VerbOf(Upper(verb)) == Some(VerbMode) && IsWord(word)
    ensures ParseCommand(verb + " " + word) ==
      if Upper(word) == "GLOB" then Ok(Mode(Glob))
      else if Upper(word) == "REGEX" then Ok(Mode(Regex))
      else Err(NoValidModeSpecified)
    ensures ParseCommand(verb + " " + word) != Ok(Mode(Trie))
  {
    LineAfterWord(verb, word);
    TokensAfterWord(word, "");
    assert word + "" == word;
  }

  /** QUIT and SAVE ignore whatever follows them. */
  lemma QuitAndSaveIgnoreRest(verb: string, v: Verb, rest: string)
    requires IsWord(verb) && VerbOf(Upper(verb)) == Some(v) && (v == VerbQuit || v == VerbSave)
    ensures ParseCommand(verb + " " + rest) == if v == VerbQuit then Ok(Quit) else Ok(Save)
  {
    LineAfterWord(verb, rest);
  }

  /** A TTL with a third token sets a time-to-live exactly when that token is a u64. */
  lemma TtlArgument(verb: string, key: string, seconds: string)
    requires IsWord(verb) && VerbOf(Upper(verb)) == Some(VerbTtl) && IsWord(key) && IsWord(seconds)
    ensures ParseCommand(verb + " " + (key + " " + seconds)) ==
      match ParseInteger(U64, seconds)
      case Some(t) => Ok(TtlSet(key, Some(t)))
      case None => Err(InvalidTtlSpecified)
  {
    LineAfterWord(verb, key + " " + seconds);
    TwoTokens(key, seconds);
    TtlWithTwoArguments(key, seconds);
  }

  lemma TtlWithTwoArguments(key: string, seconds: string)
    ensures ParseVerb(Some(VerbTtl), [key, seconds]) ==
      match ParseInteger(U64, seconds)
      case Some(t) => Ok(TtlSet(key, Some(t)))
      case None => Err(InvalidTtlSpecified)
  {
  }

  lemma TwoTokens(a: string, b: string)
    requires IsWord(a) && IsWord(b)
    ensures Tokens(a + " " + b) == [a, b]
  {
    JoinThenTokens([a, b]);
    assert [a, b][1..] == [b];
  }

  /** The token counts each verb accepts; any other count is an argument mismatch. */
  lemma ArgumentCounts(ts: seq<string>)
    requires ts != []
    ensures var v := VerbOf(Upper(ts[0])); var r := ParseTokens(ts);
      (v.None? ==> r == Err(Unknown)) &&
      (v == Some(VerbSet) ==> (r.Ok? <==> |ts| >= 4)) &&
      (v == Some(VerbGet) ==> (r.Ok? <==> |ts| == 3)) &&
      (v == Some(VerbDel) ==> (r.Ok? <==> |ts| >= 2)) &&
      (v in {Some(VerbKeys), Some(VerbExists), Some(VerbType), Some(VerbDelTtl)} ==> (r.Ok? <==> |ts| == 2)) &&
      (v == Some(VerbSet) ==> (r == Err(ArgumentMismatch) <==> |ts| < 4)) &&
      (v == Some(VerbGet) ==> (r == Err(ArgumentMismatch) <==> |ts| != 3)) &&
      (v == Some(VerbDel) ==> (r == Err(ArgumentMismatch) <==> |ts| < 2)) &&
      (v in {Some(VerbKeys), Some(VerbExists), Some(VerbType), Some(VerbDelTtl)} ==>
        (r == Err(ArgumentMismatch) <==> |ts| != 2)) &&
      (v == Some(VerbMode) ==> (r == Err(ArgumentMismatch) <==> |ts| != 2)) &&
      (v == Some(VerbTtl) ==> (r == Err(ArgumentMismatch) <==> |ts| != 2 && |ts| != 3)) &&
      (v in {Some(VerbQuit), Some(VerbSave)} ==> r.Ok?) &&
      (r.Ok? ==> !r.value.Add?)
  {
  }
}
