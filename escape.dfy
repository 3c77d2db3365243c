// `escapeRegex` of the document controller and the literal meaning of the
// patterns it produces.
module Escape {
  import opened Common
  import opened Text

  /** The characters of the class `[-[\]{}()*+?.,\\^$|#]` in the escaping pattern. */
  predicate IsSpecial(c: char) {
    c in "-[]{}()*+?.,\\^$|#"
  }

  /** Characters the pattern `[-[\]{}()*+?.,\\^$|#\s]` selects. */
  predicate NeedsEscape(c: char) {
    IsSpecial(c) || IsWs(c)
  }

  function EscapeChar(c: char): string {
    if NeedsEscape(c) then ['\\', c] else [c]
  }

  /** `text.replace(/[-[\]{}()*+?.,\\^$|#\s]/g, "\\$&")`. */
  function EscapeRegex(s: string): (r: string)
    ensures |r| >= |s|
  {
    if s == [] then [] else EscapeChar(s[0]) + EscapeRegex(s[1..])
  }

  /** Escaping works character by character: it is fixed by its value on one character. */
  lemma {:induction false} EscapeAppend(a: string, b: string)
    ensures EscapeRegex(a + b) == EscapeRegex(a) + EscapeRegex(b)
  {
    if a == [] {
      assert a + b == b;
    } else {
      assert (a + b)[0] == a[0] && (a + b)[1..] == a[1..] + b;
      EscapeAppend(a[1..], b);
    }
  }

  lemma EscapeOne(c: char)
    ensures EscapeRegex([c]) == if NeedsEscape(c) then ['\\', c] else [c]
  {
    assert [c][1..] == [];
  }

  /**
   * The literal text a pattern stands for, when the pattern is a sequence of
   * plain characters and identity escapes `\c` of the characters above (each
   * matches c itself); None for any other pattern, whose meaning is not modelled.
   */
  function Literal(p: string): Option<string>
  {
    if p == [] then Some([])
    else if p[0] == '\\' then
      if |p| >= 2 && NeedsEscape(p[1]) then
        match Literal(p[2..])
        case Some(rest) => Some([p[1]] + rest)
        case None => None
      else None
    else if NeedsEscape(p[0]) then None
    else
      match Literal(p[1..])
      case Some(rest) => Some([p[0]] + rest)
      case None => None
  }

  /** A pattern built by escaping stands for exactly the raw text, and nothing else
      produces that pattern: Literal and EscapeRegex are inverse to each other. */
  lemma {:induction false} EscapeRoundTrip(s: string)
    ensures Literal(EscapeRegex(s)) == Some(s)
  {
    if s != [] {
      EscapeRoundTrip(s[1..]);
      var e := EscapeRegex(s);
      var tail := EscapeRegex(s[1..]);
      assert s == [s[0]] + s[1..];
      if NeedsEscape(s[0]) {
        assert e[0] == '\\' && e[1] == s[0] && e[2..] == tail;
      } else {
        assert s[0] != '\\';
        assert e[0] == s[0] && e[1..] == tail;
      }
    }
  }

  lemma {:induction false} LiteralCanonical(p: string, s: string)
    requires Literal(p) == Some(s)
    ensures p == EscapeRegex(s)
    decreases |p|
  {
    if p != [] {
      if p[0] == '\\' {
        var rest := Literal(p[2..]).value;
        LiteralCanonical(p[2..], rest);
        assert s == [p[1]] + rest && s[1..] == rest;
        assert p == ['\\', p[1]] + p[2..];
      } else {
        var rest := Literal(p[1..]).value;
        LiteralCanonical(p[1..], rest);
        assert s == [p[0]] + rest && s[1..] == rest;
        assert p == [p[0]] + p[1..];
      }
    }
  }

  /** A compiled `new RegExp(p, 'i')` tested against a field that may be absent:
      an absent field never matches. */
  predicate RegexTestCI(p: string, field: Option<string>) {
    field.Some? && Literal(p).Some? && ContainsCI(field.value, Literal(p).value)
  }

  /** A pattern built by `escapeRegex` matches a field exactly when the field holds
      the raw text as a case-insensitive substring. */
  lemma EscapedPatternMatches(text: string, field: Option<string>)
    ensures RegexTestCI(EscapeRegex(text), field) <==> field.Some? && ContainsCI(field.value, text)
  {
    EscapeRoundTrip(text);
  }
}
