/** The few PHP builtins the database handler relies on, with the semantics
    PHP documents for them: truthiness of null and strings, `escapeshellarg`
    on POSIX systems, `explode`/`implode`, `ltrim` with its default character
    list and `strtoupper` on ASCII letters. */
module Php {

  /** A configuration value as PHP sees it: `null` or a string. */
  datatype Value = Null | Str(s: string)

  /** PHP truthiness restricted to null and strings: `null`, `""` and `"0"`
      are false, every other string is true. `empty($v)` is its negation. */
  predicate Truthy(v: Value) {
    v.Str? && v.s != "" && v.s != "0"
  }

  /** `escapeshellarg` on POSIX: the argument wrapped in single quotes, each
      single quote inside it closed, backslash-escaped and reopened. */
  function EscapeShellArg(x: string): string {
    "'" + EscapeQuotes(x) + "'"
  }

  /** The body of `EscapeShellArg`: every `'` becomes `'\''`. */
  function EscapeQuotes(x: string): string {
    if x == [] then []
    else (if x[0] == '\'' then "'\\''" else [x[0]]) + EscapeQuotes(x[1..])
  }

  /** `implode($glue, $parts)`: the parts with the glue between neighbours. */
  function Implode(glue: string, parts: seq<string>): string {
    if |parts| == 0 then []
    else if |parts| == 1 then parts[0]
    else parts[0] + glue + Implode(glue, parts[1..])
  }

  /** Implode of a list with at least two parts: the first part, the glue,
      then the rest imploded. */
  lemma ImplodeCons(glue: string, x: string, xs: seq<string>)
    requires |xs| >= 1
    ensures Implode(glue, [x] + xs) == x + glue + Implode(glue, xs)
  {
    assert ([x] + xs)[0] == x && ([x] + xs)[1..] == xs;
  }

  /** `explode($c, $s)` for a one-character delimiter: the maximal pieces of
      `s` free of `c`, in order; the empty string gives one empty piece. */
  function Explode(c: char, s: string): (r: seq<string>)
    ensures |r| >= 1
    ensures forall i :: 0 <= i < |r| ==> c !in r[i]
    ensures |r| == 1 <==> c !in s
  {
    if s == [] then [[]]
    else
      var rest := Explode(c, s[1..]);
      if s[0] == c then [[]] + rest
      else [[s[0]] + rest[0]] + rest[1..]
  }

  /** Gluing the pieces back with the delimiter gives the original string. */
  lemma {:induction false} ImplodeExplode(c: char, s: string)
    ensures Implode([c], Explode(c, s)) == s
    decreases |s|
  {
    if s != [] {
      var rest := Explode(c, s[1..]);
      ImplodeExplode(c, s[1..]);
      if s[0] != c && |rest| > 1 {
        assert Implode([c], rest) == rest[0] + [c] + Implode([c], rest[1..]);
      }
    }
  }

  /** A piece free of the delimiter, followed by anything, is the first piece
      of the split and leaves the split of the remainder untouched. */
  lemma {:induction false} ExplodeFreePrefix(c: char, p: string, s: string)
    requires c !in p
    ensures Explode(c, p + s) == [p + Explode(c, s)[0]] + Explode(c, s)[1..]
    decreases |p|
  {
    var e := Explode(c, s);
    if p == [] {
      assert p + s == s && p + e[0] == e[0];
      assert e == [e[0]] + e[1..];
    } else {
      ExplodeFreePrefix(c, p[1..], s);
      assert (p + s)[1..] == p[1..] + s;
      var rest := Explode(c, p[1..] + s);
      assert rest[0] == p[1..] + e[0] && rest[1..] == e[1..];
      assert [p[0]] + (p[1..] + e[0]) == p + e[0];
    }
  }

  /** Splitting the glued pieces gives the pieces back, provided there is at
      least one and none contains the delimiter. */
  lemma {:induction false} ExplodeImplode(c: char, parts: seq<string>)
    requires |parts| >= 1
    requires forall i :: 0 <= i < |parts| ==> c !in parts[i]
    ensures Explode(c, Implode([c], parts)) == parts
    decreases |parts|
  {
    if |parts| == 1 {
      ExplodeFreePrefix(c, parts[0], []);
      assert parts[0] + [] == parts[0];
    } else {
      var tail := Implode([c], parts[1..]);
      ExplodeImplode(c, parts[1..]);
      ExplodeFreePrefix(c, parts[0], [c] + tail);
      assert parts[0] + [c] + tail == parts[0] + ([c] + tail);
      assert ([c] + tail)[1..] == tail;
      assert Explode(c, [c] + tail) == [[]] + parts[1..];
      assert Implode([c], parts) == parts[0] + ([c] + tail);
      assert parts[0] + [] == parts[0];
      assert parts == [parts[0]] + parts[1..];
    }
  }

  /** The characters `ltrim` strips by default: space, tab, line feed,
      carriage return, NUL and vertical tab. */
  predicate IsTrimmed(ch: char) {
    ch == ' ' || ch == '\t' || ch == '\n' || ch == '\r' || ch == '\0' || ch == 11 as char
  }

  /** `ltrim($s)`: the longest suffix of `s` that does not start with a
      trimmed character. */
  function LTrim(s: string): (r: string)
    ensures |r| <= |s| && r == s[|s| - |r|..]
    ensures r == [] || !IsTrimmed(r[0])
    ensures forall i :: 0 <= i < |s| - |r| ==> IsTrimmed(s[i])
    decreases |s|
  {
    if s != [] && IsTrimmed(s[0]) then LTrim(s[1..]) else s
  }

  /** `strtoupper` on one character: ASCII lower-case letters are raised,
      everything else is left alone. */
  function UpperChar(ch: char): char {
    if 'a' <= ch <= 'z' then (ch as int - 32) as char else ch
  }

  /** `strtoupper($s)`. */
  function ToUpper(s: string): string {
    seq(|s|, i requires 0 <= i < |s| => UpperChar(s[i]))
  }

  /** Concatenation regrouped to the right, three pieces. */
  lemma Assoc(a: string, b: string, c: string)
    ensures a + b + c == a + (b + c)
  {}

  /** Concatenation regrouped to the right, four pieces. */
  lemma Regroup(a: string, b: string, c: string, d: string)
    ensures a + b + c + d == a + (b + c + d)
  {}
}
