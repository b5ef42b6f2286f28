/**
 The two rename rules of serde's derive that the crate uses, on ASCII
 identifiers: `rename_all = "camelCase"` applied to a struct field and
 `rename_all = "SCREAMING_SNAKE_CASE"` applied to an enum variant.
 */
module SerdeRename {

  predicate IsUpper(c: char) { 'A' <= c <= 'Z' }

  predicate IsLower(c: char) { 'a' <= c <= 'z' }

  predicate IsLowerWord(w: string) { forall i :: 0 <= i < |w| ==> IsLower(w[i]) }

  function ToUpper(c: char): char
  {
    if IsLower(c) then (c as int - 32) as char else c
  }

  function ToLower(c: char): char
  {
    if IsUpper(c) then (c as int + 32) as char else c
  }

  // ---------------------------------------------------------------------
  // SCREAMING_SNAKE_CASE for variants: snake case, then upper case
  // ---------------------------------------------------------------------

  /** Snake case after the first character: '_' before each upper-case letter, then the letter in lower case. */
  function SnakeRest(s: string): string
  {
    if s == [] then []
    else (if IsUpper(s[0]) then "_" else "") + [ToLower(s[0])] + SnakeRest(s[1..])
  }

  /** serde's `snake_case` of a variant name: the first character is never preceded by '_'. */
  function SnakeCase(variant: string): string
  {
    if variant == [] then [] else [ToLower(variant[0])] + SnakeRest(variant[1..])
  }

  function UpperAll(s: string): (r: string)
    ensures |r| == |s| && forall i :: 0 <= i < |s| ==> r[i] == ToUpper(s[i])
  {
    seq(|s|, i requires 0 <= i < |s| => ToUpper(s[i]))
  }

  function ScreamingSnake(variant: string): string
  {
    UpperAll(SnakeCase(variant))
  }

  lemma {:induction false} SnakeRestAppend(a: string, b: string)
    ensures SnakeRest(a + b) == SnakeRest(a) + SnakeRest(b)
  {
    if a == [] {
      assert a + b == b;
    } else {
      assert (a + b)[1..] == a[1..] + b;
      SnakeRestAppend(a[1..], b);
    }
  }

  /** A run of lower-case letters passes through snake case unchanged. */
  lemma {:induction false} SnakeRestLower(s: string)
    requires IsLowerWord(s)
    ensures SnakeRest(s) == s
  {
    if s != [] {
      SnakeRestLower(s[1..]);
      assert s == [s[0]] + s[1..];
    }
  }

  /** A capitalised word after the first: '_', then the word in lower case. */
  lemma SnakeRestWord(c: char, w: string)
    requires IsUpper(c)
    requires IsLowerWord(w)
    ensures SnakeRest([c] + w) == "_" + [ToLower(c)] + w
  {
    assert ([c] + w)[1..] == w;
    SnakeRestLower(w);
  }

  lemma UpperAllAppend(a: string, b: string)
    ensures UpperAll(a + b) == UpperAll(a) + UpperAll(b)
  {
  }

  /** A capitalised word, lowered by snake case and raised again, is the word with its tail in upper case. */
  lemma UpperWord(c: char, w: string)
    requires IsUpper(c)
    ensures UpperAll([ToLower(c)] + w) == [c] + UpperAll(w)
  {
    UpperAllAppend([ToLower(c)], w);
  }

  /** A variant that is one capitalised word: the word with its tail in upper case. */
  lemma ScreamingOneWord(c: char, w: string)
    requires IsUpper(c)
    requires IsLowerWord(w)
    ensures ScreamingSnake([c] + w) == [c] + UpperAll(w)
  {
    assert ([c] + w)[1..] == w;
    SnakeRestLower(w);
    UpperWord(c, w);
  }

  /** Snake case of a variant with one more capitalised word: '_', then the word in lower case. */
  lemma SnakeCaseAddWord(v: string, c: char, w: string)
    requires v != [] && IsUpper(c)
    requires IsLowerWord(w)
    ensures SnakeCase(v + [c] + w) == SnakeCase(v) + ("_" + ([ToLower(c)] + w))
  {
    var u := v + [c] + w;
    assert u[0] == v[0] && u[1..] == v[1..] + ([c] + w);
    SnakeRestAppend(v[1..], [c] + w);
    SnakeRestWord(c, w);
    calc {
      SnakeCase(u);
      [ToLower(v[0])] + (SnakeRest(v[1..]) + ("_" + ([ToLower(c)] + w)));
      SnakeCase(v) + ("_" + ([ToLower(c)] + w));
    }
  }

  /** One more capitalised word at the end of a variant adds '_' and the word with its tail in upper case. */
  lemma ScreamingAddWord(v: string, c: char, w: string)
    requires v != [] && IsUpper(c)
    requires IsLowerWord(w)
    ensures ScreamingSnake(v + [c] + w) == ScreamingSnake(v) + "_" + [c] + UpperAll(w)
  {
    SnakeCaseAddWord(v, c, w);
    UpperAllAppend(SnakeCase(v), "_" + ([ToLower(c)] + w));
    UpperAllAppend("_", [ToLower(c)] + w);
    UpperWord(c, w);
  }

  /** The name of a one-word variant, given the word's tail in upper case. */
  lemma ScreamingName(v: string, c: char, w: string, u: string, name: string)
    requires v == [c] + w && IsUpper(c) && IsLowerWord(w) && UpperAll(w) == u
    requires name == [c] + u
    ensures ScreamingSnake(v) == name
  {
    ScreamingOneWord(c, w);
  }

  lemma ScreamingName2(v: string, c0: char, w0: string, u0: string, c1: char, w1: string, u1: string, name: string)
    requires v == [c0] + w0 + [c1] + w1
    requires IsUpper(c0) && IsLowerWord(w0) && UpperAll(w0) == u0
    requires IsUpper(c1) && IsLowerWord(w1) && UpperAll(w1) == u1
    requires name == [c0] + u0 + "_" + [c1] + u1
    ensures ScreamingSnake(v) == name
  {
    ScreamingOneWord(c0, w0);
    ScreamingAddWord([c0] + w0, c1, w1);
  }

  lemma ScreamingName3(v: string, c0: char, w0: string, u0: string, c1: char, w1: string, u1: string,
                       c2: char, w2: string, u2: string, name: string)
    requires v == [c0] + w0 + [c1] + w1 + [c2] + w2
    requires IsUpper(c0) && IsLowerWord(w0) && UpperAll(w0) == u0
    requires IsUpper(c1) && IsLowerWord(w1) && UpperAll(w1) == u1
    requires IsUpper(c2) && IsLowerWord(w2) && UpperAll(w2) == u2
    requires name == [c0] + u0 + "_" + [c1] + u1 + "_" + [c2] + u2
    ensures ScreamingSnake(v) == name
  {
    ScreamingOneWord(c0, w0);
    ScreamingAddWord([c0] + w0, c1, w1);
    ScreamingAddWord([c0] + w0 + [c1] + w1, c2, w2);
  }

  // ---------------------------------------------------------------------
  // camelCase for fields: PascalCase, then the first letter in lower case
  // ---------------------------------------------------------------------

  /** serde's PascalCase loop over a field name: '_' is dropped and makes the next character upper case. */
  function Pascal(s: string, capitalize: bool): string
  {
    if s == [] then []
    else if s[0] == '_' then Pascal(s[1..], true)
    else if capitalize then [ToUpper(s[0])] + Pascal(s[1..], false)
    else [s[0]] + Pascal(s[1..], false)
  }

  function CamelCase(field: string): string
  {
    var pascal := Pascal(field, true);
    if pascal == [] then [] else [ToLower(pascal[0])] + pascal[1..]
  }

  /** A first character other than '_' is copied, in upper case when capitalising. */
  lemma PascalStep(s: string, capitalize: bool)
    requires s != [] && s[0] != '_'
    ensures Pascal(s, capitalize) == [if capitalize then ToUpper(s[0]) else s[0]] + Pascal(s[1..], false)
  {
  }

  lemma {:induction false} PascalAppend(a: string, b: string, capitalize: bool)
    requires a != [] && '_' !in a
    ensures Pascal(a + b, capitalize) == Pascal(a, capitalize) + Pascal(b, false)
  {
    assert a[0] in a;
    assert (a + b)[0] == a[0] && (a + b)[1..] == a[1..] + b;
    PascalStep(a + b, capitalize);
    PascalStep(a, capitalize);
    if a[1..] == [] {
      assert a[1..] + b == b;
    } else {
      PascalAppend(a[1..], b, false);
    }
  }

  lemma {:induction false} PascalPlain(s: string)
    requires '_' !in s
    ensures Pascal(s, false) == s
  {
    if s != [] {
      PascalPlain(s[1..]);
      assert s == [s[0]] + s[1..];
    }
  }

  /** A word without '_' under "capitalize": its first letter in upper case, the rest as is. */
  lemma PascalWord(w: string)
    requires w != [] && '_' !in w
    ensures Pascal(w, true) == [ToUpper(w[0])] + w[1..]
  {
    PascalPlain(w[1..]);
  }

  /** A field name without '_' that starts with a lower-case letter keeps its name. */
  lemma CamelCaseOneWord(field: string)
    requires field != [] && IsLower(field[0]) && '_' !in field
    ensures CamelCase(field) == field
  {
    PascalWord(field);
    assert field == [field[0]] + field[1..];
  }

  /** `a_b`, both parts lower-case words: `a` followed by `b` with its first letter in upper case. */
  lemma CamelCaseTwoWords(a: string, b: string)
    requires a != [] && b != [] && IsLower(a[0]) && '_' !in a && '_' !in b
    ensures CamelCase(a + "_" + b) == a + [ToUpper(b[0])] + b[1..]
  {
    var u := "_" + b;
    assert a + "_" + b == a + u;
    PascalAppend(a, u, true);
    assert u[1..] == b;
    PascalWord(a);
    PascalWord(b);
    var pascal := Pascal(a + u, true);
    assert pascal == [ToUpper(a[0])] + (a[1..] + [ToUpper(b[0])] + b[1..]);
    assert a == [a[0]] + a[1..];
  }
}
