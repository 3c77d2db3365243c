// `generateSlug`: a URL-friendly form of a text, made by a chain of string
// replacements.
module Slug {
  import opened Text

  /** The characters `[a-z0-9\s-]` keeps. */
  predicate Kept(c: char) {
    ('a' <= c <= 'z') || ('0' <= c <= '9') || IsWs(c) || c == '-'
  }

  /** The characters a slug is made of. */
  predicate SlugChar(c: char) {
    ('a' <= c <= 'z') || ('0' <= c <= '9') || c == '-'
  }

  predicate IsMark(c: char) {
    '\U{0300}' <= c <= '\U{036F}'
  }

  /** No two hyphens in a row. */
  predicate NoDoubleHyphen(s: string) {
    forall i :: 0 <= i < |s| - 1 ==> !(s[i] == '-' && s[i + 1] == '-')
  }

  predicate IsSlug(s: string) {
    (forall i :: 0 <= i < |s| ==> SlugChar(s[i])) && NoDoubleHyphen(s)
  }

  /**
   * `normalize('NFD')`, given character by character: `decompose` maps a
   * character to its canonical decomposition.
   */
  function Decompose(s: string, decompose: char -> string): (r: string)
    ensures (forall i :: 0 <= i < |s| ==> decompose(s[i]) == [s[i]]) ==> r == s
  {
    if s == [] then [] else decompose(s[0]) + Decompose(s[1..], decompose)
  }

  /** `replace(/[\u0300-\u036f]/g, '')`: combining diacritical marks are removed. */
  function StripMarks(s: string): (r: string)
    ensures forall i :: 0 <= i < |r| ==> !IsMark(r[i])
    ensures forall c :: c in r ==> c in s
    ensures (forall i :: 0 <= i < |s| ==> !IsMark(s[i])) ==> r == s
  {
    if s == [] then []
    else if IsMark(s[0]) then StripMarks(s[1..])
    else [s[0]] + StripMarks(s[1..])
  }

  /** `replace(/[^a-z0-9\s-]/g, '')`. */
  function KeepSlugChars(s: string): (r: string)
    ensures forall i :: 0 <= i < |r| ==> Kept(r[i])
    ensures (forall i :: 0 <= i < |s| ==> Kept(s[i])) ==> r == s
  {
    if s == [] then []
    else if Kept(s[0]) then [s[0]] + KeepSlugChars(s[1..])
    else KeepSlugChars(s[1..])
  }

  /** `replace(/\s+/g, '-')`: each run of `\s` characters becomes one hyphen. */
  function Hyphenate(s: string): (r: string)
    ensures NoWs(r)
    ensures forall c :: c in r ==> c == '-' || c in s
    ensures NoWs(s) ==> r == s
    decreases |s|
  {
    if s == [] then []
    else if IsWs(s[0]) then
      var rest := TrimStart(s[1..]);
      RestWithin(s);
      var tail := Hyphenate(rest);
      NoWsAppend(['-'], tail);
      ['-'] + tail
    else
      NoWsTail(s);
      var tail := Hyphenate(s[1..]);
      NoWsAppend([s[0]], tail);
      [s[0]] + tail
  }

  lemma RestWithin(s: string)
    requires s != []
    ensures forall c :: c in TrimStart(s[1..]) ==> c in s
  {
    var rest := TrimStart(s[1..]);
    forall c | c in rest ensures c in s {
      var i :| 0 <= i < |rest| && rest[i] == c;
      assert s[1..][|s[1..]| - |rest| + i] == c;
    }
  }

  lemma NoWsTail(s: string)
    requires s != []
    ensures NoWs(s) ==> NoWs(s[1..])
  {
    if NoWs(s) {
      forall i | 0 <= i < |s[1..]| ensures !IsWs(s[1..][i]) {
        assert s[1..][i] == s[i + 1];
      }
    }
  }

  /** `replace(/-+/g, '-')`: each run of hyphens becomes one hyphen. */
  function Collapse(s: string): (r: string)
    ensures NoDoubleHyphen(r)
    ensures s != [] ==> r != [] && r[0] == s[0]
    ensures forall c :: c in r ==> c in s
    ensures forall c :: c in s ==> c in r
    ensures NoDoubleHyphen(s) ==> r == s
  {
    if |s| < 2 then s
    else if s[0] == '-' && s[1] == '-' then
      assert forall c :: c in s ==> c in s[1..] by {
        assert s == [s[0]] + s[1..];
      }
      Collapse(s[1..])
    else
      assert forall c :: c in s <==> c == s[0] || c in s[1..] by {
        assert s == [s[0]] + s[1..];
      }
      assert NoDoubleHyphen(s) ==> NoDoubleHyphen(s[1..]) by {
        if NoDoubleHyphen(s) {
          forall i | 0 <= i < |s[1..]| - 1 ensures !(s[1..][i] == '-' && s[1..][i + 1] == '-') {
            assert s[1..][i] == s[i + 1] && s[1..][i + 1] == s[i + 2];
          }
        }
      }
      [s[0]] + Collapse(s[1..])
  }

  /**
   * `generateSlug` as written: lower-case, decompose, strip combining marks,
   * drop everything but `[a-z0-9\s-]`, turn whitespace runs and hyphen runs
   * into single hyphens, and finally `trim('-')`, which is `String.prototype.trim`:
   * the argument is ignored and only whitespace is trimmed.
   */
  function GenerateSlug(text: string, decompose: char -> string): (r: string)
    ensures IsSlug(r)
  {
    var h := Hyphenate(KeepSlugChars(StripMarks(Decompose(Lower(text), decompose))));
    var c := Collapse(h);
    assert forall i :: 0 <= i < |c| ==> SlugChar(c[i]) by {
      forall i | 0 <= i < |c| ensures SlugChar(c[i]) {
        assert c[i] in c && c[i] in h;
        var j :| 0 <= j < |h| && h[j] == c[i];
        assert !IsWs(h[j]);
        if c[i] != '-' {
          var k := KeepSlugChars(StripMarks(Decompose(Lower(text), decompose)));
          assert c[i] in k;
          var m :| 0 <= m < |k| && k[m] == c[i];
          assert Kept(k[m]);
        }
      }
    }
    assert NoWs(c) by {
      forall i | 0 <= i < |c| ensures !IsWs(c[i]) {
        assert SlugChar(c[i]);
      }
    }
    TrimNoWs(c);
    Trim(c)
  }

  /** The trim at the end of `generateSlug` changes nothing: no whitespace is left by then. */
  lemma FinalTrimIsIdentity(text: string, decompose: char -> string)
    ensures var c := Collapse(Hyphenate(KeepSlugChars(StripMarks(Decompose(Lower(text), decompose)))));
            GenerateSlug(text, decompose) == c
  {
    var c := Collapse(Hyphenate(KeepSlugChars(StripMarks(Decompose(Lower(text), decompose)))));
    assert NoWs(c) by {
      forall i | 0 <= i < |c| ensures !IsWs(c[i]) {
        assert c[i] in c;
      }
    }
    TrimNoWs(c);
  }

  /** A slug is a fixed point of every step of the pipeline. */
  lemma SlugFixed(s: string, decompose: char -> string)
    requires IsSlug(s)
    requires forall c :: SlugChar(c) ==> decompose(c) == [c]
    ensures GenerateSlug(s, decompose) == s
  {
    assert Lower(s) == s;
    assert Decompose(s, decompose) == s;
    assert StripMarks(s) == s;
    assert KeepSlugChars(s) == s;
    assert NoWs(s);
    assert Hyphenate(s) == s;
    assert Collapse(s) == s;
    FinalTrimIsIdentity(s, decompose);
  }

  /**
   * `generateSlug` is idempotent, given that decomposition leaves the
   * characters of a slug alone (as canonical decomposition does for ASCII).
   */
  lemma SlugIdempotent(text: string, decompose: char -> string)
    requires forall c :: SlugChar(c) ==> decompose(c) == [c]
    ensures GenerateSlug(GenerateSlug(text, decompose), decompose) == GenerateSlug(text, decompose)
  {
    SlugFixed(GenerateSlug(text, decompose), decompose);
  }

  /** Surrounding spaces become surrounding hyphens: `trim('-')` does not remove them. */
  lemma EdgeHyphensKept(decompose: char -> string)
    requires decompose(' ') == " " && decompose('a') == "a"
    ensures GenerateSlug(" a ", decompose) == "-a-"
  {
    PrepareExample(decompose);
    HyphenateExample();
    CollapseExample();
    FinalTrimIsIdentity(" a ", decompose);
  }

  /** Lower-casing, decomposing, stripping marks and filtering leave " a " alone. */
  lemma PrepareExample(decompose: char -> string)
    requires decompose(' ') == " " && decompose('a') == "a"
    ensures KeepSlugChars(StripMarks(Decompose(Lower(" a "), decompose))) == " a "
  {
    var text := " a ";
    assert Lower(text) == text by {
      assert LowerChar(' ') == ' ' && LowerChar('a') == 'a';
    }
    assert Decompose(text, decompose) == text;
    assert KeepSlugChars(StripMarks(text)) == text by {
      assert !IsMark(' ') && !IsMark('a') && Kept(' ') && Kept('a');
    }
  }

  lemma CollapseExample()
    ensures Collapse("-a-") == "-a-"
  {
    assert NoDoubleHyphen("-a-");
  }

  lemma HyphenateExample()
    ensures Hyphenate(" a ") == "-a-"
  {
    assert IsWs(' ') && !IsWs('a');
    assert TrimStart("") == "";
    assert Hyphenate(" ") == "-" by {
      assert " "[1..] == "";
    }
    assert Hyphenate("a ") == "a-" by {
      assert "a "[1..] == " ";
    }
    assert TrimStart("a ") == "a ";
    assert " a "[1..] == "a ";
  }

  // ---------------------------------------------------------------------------
  // The slug the comment at the trim step describes
  // ---------------------------------------------------------------------------

  /** The number of hyphens the input starts with. */
  function LeadingHyphens(s: string): (n: nat)
    ensures n <= |s|
    ensures forall k :: 0 <= k < n ==> s[k] == '-'
    ensures n < |s| ==> s[n] != '-'
  {
    if s != [] && s[0] == '-' then
      var n := 1 + LeadingHyphens(s[1..]);
      assert forall k :: 1 <= k < n ==> s[k] == s[1..][k - 1];
      n
    else 0
  }

  /** The number of hyphens the input ends with. */
  function TrailingHyphens(s: string): (n: nat)
    ensures n <= |s|
    ensures forall k :: |s| - n <= k < |s| ==> s[k] == '-'
    ensures n < |s| ==> s[|s| - 1 - n] != '-'
  {
    if s != [] && s[|s| - 1] == '-' then
      var n := 1 + TrailingHyphens(s[..|s| - 1]);
      assert forall k :: |s| - n <= k < |s| - 1 ==> s[k] == s[..|s| - 1][k];
      n
    else 0
  }

  /** The slug without its leading and trailing hyphens. */
  function TrimHyphens(s: string): (r: string)
    requires IsSlug(s)
    ensures IsSlug(r)
    ensures r == [] || (r[0] != '-' && r[|r| - 1] != '-')
  {
    var i := LeadingHyphens(s);
    var a := s[i..];
    var j := TrailingHyphens(a);
    assert a[..|a| - j] == s[i..|s| - j];
    SliceIsSlug(s, i, |s| - j);
    a[..|a| - j]
  }

  /** `generateSlug` with the leading and trailing hyphens removed as well. */
  function TrimmedSlug(text: string, decompose: char -> string): (r: string)
    ensures IsSlug(r)
    ensures r == [] || (r[0] != '-' && r[|r| - 1] != '-')
  {
    TrimHyphens(GenerateSlug(text, decompose))
  }

  /** Any slice of a slug is a slug. */
  lemma SliceIsSlug(s: string, i: nat, j: nat)
    requires IsSlug(s) && i <= j <= |s|
    ensures IsSlug(s[i..j])
  {
    var t := s[i..j];
    forall k | 0 <= k < |t| ensures SlugChar(t[k]) {
      assert t[k] == s[i + k];
    }
    forall k | 0 <= k < |t| - 1 ensures !(t[k] == '-' && t[k + 1] == '-') {
      assert t[k] == s[i + k] && t[k + 1] == s[i + k + 1];
    }
  }

  /** The corrected slug is idempotent too, and leaves `" a "` as `"a"`. */
  lemma TrimmedSlugIdempotent(text: string, decompose: char -> string)
    requires forall c :: SlugChar(c) ==> decompose(c) == [c]
    ensures TrimmedSlug(TrimmedSlug(text, decompose), decompose) == TrimmedSlug(text, decompose)
  {
    var r := TrimmedSlug(text, decompose);
    SlugFixed(r, decompose);
    TrimHyphensFixed(r);
  }

  /** A slug without edge hyphens is left alone. */
  lemma TrimHyphensFixed(s: string)
    requires IsSlug(s) && (s == [] || (s[0] != '-' && s[|s| - 1] != '-'))
    ensures TrimHyphens(s) == s
  {
    assert LeadingHyphens(s) == 0;
    assert s[0..] == s;
    assert TrailingHyphens(s) == 0;
    assert s[..|s|] == s;
  }

  lemma TrimmedSlugExample(decompose: char -> string)
    requires decompose(' ') == " " && decompose('a') == "a"
    ensures TrimmedSlug(" a ", decompose) == "a"
  {
    EdgeHyphensKept(decompose);
    DropBothHyphens("-a-");
  }

  /** A letter between two hyphens keeps only the letter. */
  lemma DropBothHyphens(s: string)
    requires |s| == 3 && s[0] == '-' && s[1] != '-' && s[2] == '-'
    ensures IsSlug(s) ==> TrimHyphens(s) == [s[1]]
  {
    assert LeadingHyphens(s) == 1;
    var a := s[1..];
    assert TrailingHyphens(a) == 1;
    assert a[..1] == [s[1]];
  }
}
