/** The store's result messages and their text rendering (`SmirkMessages` and `to_string`). */
module Messages {

  datatype SmirkMessage =
    | SetKey(key: string, storedType: string, userType: string)
    | KeyNotFound(key: string)
    | TypeMismatch(key: string, desiredType: string)
    | ParseError(key: string, value: string, desiredType: string)
    /** Used by checked ADD but absent from the enum as written; its text is this model's. */
    | AddOverflowError

  /** The message text the dispatcher writes to the client. */
  function Render(m: SmirkMessage): string
  {
    match m
    case SetKey(k, s, u) =>
      "Set key \"" + k + "\" successfully. Stored-Type: " + s + ", User-Type: " + u + "\n"
    case KeyNotFound(k) =>
      "Key \"" + k + "\" not found.\n"
    case TypeMismatch(k, t) =>
      "Couldn't downcast the value stored in key \"" + k + "\" to type \"" + t + "\".\n"
    case ParseError(k, v, t) =>
      "Setting key \"" + k + "\" failed. Could not parse \"" + v + "\" into \"" + t + "\".\n"
    case AddOverflowError =>
      "Adding the values overflowed the requested type.\n"
  }

  predicate EndsWithNewline(s: string) { |s| > 0 && s[|s| - 1] == '\n' }

  /**
   * Every rendering is terminated by a newline, and by exactly one unless it is a SetKey
   * whose user type itself ends in a newline.
   */
  lemma RenderEndsWithOneNewline(m: SmirkMessage)
    ensures var r := Render(m);
      |r| >= 2 && r[|r| - 1] == '\n' &&
      (!(m.SetKey? && EndsWithNewline(m.userType)) ==> r[|r| - 2] != '\n')
  {
    var r := Render(m);
    match m
    case SetKey(k, s, u) =>
      var head := "Set key \"" + k + "\" successfully. Stored-Type: " + s + ", User-Type: ";
      assert r == head + u + "\n";
      if u == [] {
        assert r[|r| - 2] == head[|head| - 1] == ' ';
      } else {
        assert r[|r| - 2] == u[|u| - 1];
      }
    case KeyNotFound(k) =>
      assert r == ("Key \"" + k) + "\" not found.\n";
    case TypeMismatch(k, t) =>
      assert r == ("Couldn't downcast the value stored in key \"" + k + "\" to type \"" + t) + "\".\n";
    case ParseError(k, v, t) =>
      assert r == ("Setting key \"" + k + "\" failed. Could not parse \"" + v + "\" into \"" + t) + "\".\n";
    case AddOverflowError =>
  }

  /** The opening words of a rendering tell which message it is. */
  lemma RenderTellsVariant(a: SmirkMessage, b: SmirkMessage)
    requires Render(a) == Render(b)
    ensures a.SetKey? == b.SetKey? && a.KeyNotFound? == b.KeyNotFound?
    ensures a.TypeMismatch? == b.TypeMismatch? && a.ParseError? == b.ParseError?
    ensures a.AddOverflowError? == b.AddOverflowError?
  {
    OpeningChars(a);
    OpeningChars(b);
    assert Opening(a) == Render(a)[..4] == Opening(b);
  }

  /** The fixed words each rendering opens with. */
  function Opening(m: SmirkMessage): string
  {
    match m
    case SetKey(_, _, _) => "Set "
    case KeyNotFound(_) => "Key "
    case TypeMismatch(_, _) => "Coul"
    case ParseError(_, _, _) => "Sett"
    case AddOverflowError => "Addi"
  }

  lemma OpeningChars(m: SmirkMessage)
    ensures |Opening(m)| == 4 && Opening(m) <= Render(m)
  {
    match m
    case SetKey(k, s, u) =>
      PrefixOfConcat("Set ", "Set key \"", k + "\" successfully. Stored-Type: " + s + ", User-Type: " + u + "\n");
    case KeyNotFound(k) =>
      PrefixOfConcat("Key ", "Key \"", k + "\" not found.\n");
    case TypeMismatch(k, t) =>
      PrefixOfConcat("Coul", "Couldn't downcast the value stored in key \"", k + "\" to type \"" + t + "\".\n");
    case ParseError(k, v, t) =>
      PrefixOfConcat("Sett", "Setting key \"", k + "\" failed. Could not parse \"" + v + "\" into \"" + t + "\".\n");
    case AddOverflowError =>
      PrefixOfConcat("Addi", "Adding", " the values overflowed the requested type.\n");
  }

  lemma PrefixOfConcat(p: string, head: string, rest: string)
    requires p <= head
    ensures p <= head + rest
  {
    assert (head + rest)[..|p|] == head[..|p|];
  }

  /** The key is recoverable from a KeyNotFound rendering. */
  lemma KeyNotFoundInjective(a: string, b: string)
    requires Render(KeyNotFound(a)) == Render(KeyNotFound(b))
    ensures a == b
  {
    var ra, rb := Render(KeyNotFound(a)), Render(KeyNotFound(b));
    assert |a| == |b|;
    assert a == ra[5..5 + |a|];
    assert b == rb[5..5 + |b|];
  }
}
