/** Identifiers on their way into SQL: reducing an audience to a prefix, matching role names with
    LIKE, and printing a name so that a SQL lexer reads it back. */
module Identifiers {
  import opened Text

  // ---------- Sanitizing ----------

  predicate Kept(c: char) {
    'a' <= c <= 'z' || 'A' <= c <= 'Z' || '0' <= c <= '9' || c == '_' || c == '-'
  }

  function LowerLetter(c: char): char {
    if 'A' <= c <= 'Z' then c + ('a' - 'A') else c
  }

  function Filter(s: string): string {
    if s == [] then [] else if Kept(s[0]) then [s[0]] + Filter(s[1..]) else Filter(s[1..])
  }

  function Sanitize(input: string): Option<string> {
    var kept := Filter(input);
    if kept == [] then None else Some(seq(|kept|, i requires 0 <= i < |kept| => LowerLetter(kept[i])))
  }

  /** What sanitizing leaves alone. */
  predicate Plain(s: string) {
    s != [] && forall i :: 0 <= i < |s| ==> Kept(s[i]) && LowerLetter(s[i]) == s[i]
  }

  lemma {:induction false} FilterKept(s: string)
    ensures forall i :: 0 <= i < |Filter(s)| ==> Kept(Filter(s)[i])
    ensures Filter(s) == s <==> forall i :: 0 <= i < |s| ==> Kept(s[i])
    ensures |Filter(s)| <= |s|
  {
    if s != [] {
      FilterKept(s[1..]);
      assert s == [s[0]] + s[1..];
      assert forall i :: 0 <= i < |s[1..]| ==> s[1..][i] == s[i + 1];
      if Kept(s[0]) {
        assert Filter(s) == s <==> Filter(s[1..]) == s[1..] by {
          assert Filter(s)[1..] == Filter(s[1..]);
        }
        assert (forall i :: 0 <= i < |s| ==> Kept(s[i])) <==> forall i :: 0 <= i < |s[1..]| ==> Kept(s[1..][i]) by {
          if forall i :: 0 <= i < |s[1..]| ==> Kept(s[1..][i]) {
            forall i | 0 <= i < |s| ensures Kept(s[i]) {
              assert i > 0 ==> s[i] == s[1..][i - 1];
            }
          }
        }
      }
    }
  }

  /** Sanitizing is a projection onto the plain identifiers. */
  lemma SanitizeProjects(input: string)
    ensures Sanitize(input).Some? ==> Plain(Sanitize(input).value)
    ensures Sanitize(input) == Some(input) <==> Plain(input)
  {
    FilterKept(input);
    var kept := Filter(input);
    if kept != [] {
      var lower := Sanitize(input).value;
      forall i | 0 <= i < |lower| ensures Kept(lower[i]) && LowerLetter(lower[i]) == lower[i] {
        assert Kept(kept[i]);
      }
    }
    if Plain(input) {
      assert Sanitize(input).value == input;
    }
  }

  lemma {:induction false} FilterUnderscore(s: string)
    ensures '_' in Filter(s) <==> '_' in s
  {
    if s != [] {
      FilterUnderscore(s[1..]);
      assert s == [s[0]] + s[1..];
    }
  }

  /** Sanitizing neither adds nor removes underscores. */
  lemma SanitizeUnderscore(input: string)
    ensures '_' in input ==> Sanitize(input).Some?
    ensures Sanitize(input).Some? ==> ('_' in Sanitize(input).value <==> '_' in input)
  {
    FilterUnderscore(input);
    var kept := Filter(input);
    if kept != [] {
      var lower := Sanitize(input).value;
      assert forall i :: 0 <= i < |kept| ==> (lower[i] == '_' <==> kept[i] == '_');
      if '_' in kept {
        var i :| 0 <= i < |kept| && kept[i] == '_';
        assert lower[i] == '_';
      }
    }
  }

  /** What is left of an input, as a text: nothing when there is no result. */
  function Left(input: string): string {
    if Sanitize(input).Some? then Sanitize(input).value else []
  }

  /** One character: a capital letter becomes the letter 32 higher, small letters, digits, '_' and '-' stay,
      and anything else goes. */
  lemma SanitizeOne(c: char)
    ensures Left([c]) == if 'A' <= c <= 'Z' then [((c as int) + 32) as char]
                         else if 'a' <= c <= 'z' || '0' <= c <= '9' || c == '_' || c == '-' then [c]
                         else []
  {
    assert [c][1..] == [];
    assert Filter([c]) == if Kept(c) then [c] else [];
  }

  lemma {:induction false} FilterConcat(a: string, b: string)
    ensures Filter(a + b) == Filter(a) + Filter(b)
  {
    if a == [] {
      assert a + b == b;
    } else {
      FilterConcat(a[1..], b);
      assert (a + b)[1..] == a[1..] + b;
    }
  }

  /** A text is sanitized part by part, and there is a result exactly when something is left. */
  lemma SanitizeConcat(a: string, b: string)
    ensures Left(a + b) == Left(a) + Left(b)
    ensures Sanitize(a).Some? <==> Left(a) != []
  {
    FilterConcat(a, b);
  }

  /** No capital letter is left. */
  lemma {:induction false} NoCapitalLeft(input: string)
    ensures forall c :: c in Left(input) ==> !('A' <= c <= 'Z')
  {
    if input != [] {
      NoCapitalLeft(input[1..]);
      SanitizeOne(input[0]);
      SanitizeConcat([input[0]], input[1..]);
      assert input == [input[0]] + input[1..];
    }
  }

  // ---------- LIKE with escape character '\' ----------

  predicate Like(pattern: string, s: string)
    decreases |pattern| + |s|
  {
    if pattern == [] then s == []
    else if pattern[0] == '\\' then
      |pattern| > 1 && s != [] && s[0] == pattern[1] && Like(pattern[2..], s[1..])
    else if pattern[0] == '%' then
      Like(pattern[1..], s) || (s != [] && Like(pattern, s[1..]))
    else
      s != [] && (pattern[0] == '_' || pattern[0] == s[0]) && Like(pattern[1..], s[1..])
  }

  function RolePattern(prefix: string): string {
    prefix + "\\_%"
  }

  lemma {:induction false} PercentMatchesAll(s: string)
    ensures Like("%", s)
  {
    if s != [] {
      PercentMatchesAll(s[1..]);
    }
  }

  /** The name agrees with the prefix everywhere but at the prefix's own underscores, and goes on with
      an underscore. */
  ghost predicate Extends(prefix: string, name: string) {
    && |name| > |prefix| && name[|prefix|] == '_'
    && forall i :: 0 <= i < |prefix| ==> prefix[i] == '_' || prefix[i] == name[i]
  }

  /** The pattern of a kept prefix matches exactly the names that extend it: LIKE reads the underscores
      of the prefix as wildcards, and the escaped one literally. */
  lemma {:induction false} RolePatternExact(prefix: string, name: string)
    requires forall i :: 0 <= i < |prefix| ==> Kept(prefix[i])
    ensures Like(RolePattern(prefix), name) <==> Extends(prefix, name)
  {
    var pattern := RolePattern(prefix);
    if prefix == [] {
      assert pattern == "\\_%" && pattern[2..] == "%";
      if name != [] {
        PercentMatchesAll(name[1..]);
      }
    } else {
      assert Kept(prefix[0]) && pattern[0] == prefix[0];
      assert pattern[1..] == RolePattern(prefix[1..]);
      if name != [] {
        RolePatternExact(prefix[1..], name[1..]);
        ExtendsShift(prefix, name);
      }
    }
  }

  lemma ExtendsShift(prefix: string, name: string)
    requires prefix != [] && name != []
    ensures Extends(prefix, name) <==> (prefix[0] == '_' || prefix[0] == name[0]) && Extends(prefix[1..], name[1..])
  {
    if Extends(prefix, name) {
      forall i | 0 <= i < |prefix[1..]| ensures prefix[1..][i] == '_' || prefix[1..][i] == name[1..][i] {
        assert prefix[i + 1] == '_' || prefix[i + 1] == name[i + 1];
      }
    }
    if (prefix[0] == '_' || prefix[0] == name[0]) && Extends(prefix[1..], name[1..]) {
      forall i | 0 <= i < |prefix| ensures prefix[i] == '_' || prefix[i] == name[i] {
        assert i > 0 ==> prefix[1..][i - 1] == prefix[i] && name[1..][i - 1] == name[i];
      }
    }
  }

  lemma LiteralPrefix(prefix: string, name: string)
    requires '_' !in prefix && Extends(prefix, name)
    ensures prefix + "_" <= name
  {
    assert name[..|prefix|] == prefix;
  }

  /** A name that a prefix with underscores matches without being named after it. */
  function Disguised(prefix: string): (name: string)
    ensures |name| == |prefix| + 1
  {
    seq(|prefix|, i requires 0 <= i < |prefix| => if prefix[i] == '_' then '!' else prefix[i]) + "_"
  }

  lemma DisguisedExtends(prefix: string)
    ensures Extends(prefix, Disguised(prefix))
  {
  }

  /** It is named after no kept prefix at all. */
  lemma DisguisedForeign(prefix: string, other: string)
    requires '_' in prefix && forall i :: 0 <= i < |other| ==> Kept(other[i])
    ensures !(other + "_" <= Disguised(prefix))
  {
    var name := Disguised(prefix);
    var start := other + "_";
    if |other| < |prefix| {
      assert name[|other|] != '_' && start[|other|] == '_';
    } else if |other| == |prefix| {
      var i :| 0 <= i < |prefix| && prefix[i] == '_';
      assert name[i] == '!' && start[i] == other[i];
    }
  }

  /** A kept prefix matches only names that start with it and an underscore if and only if it contains no
      underscore itself. */
  lemma RolePatternLiteral(prefix: string)
    requires forall i :: 0 <= i < |prefix| ==> Kept(prefix[i])
    ensures (forall name :: Like(RolePattern(prefix), name) ==> prefix + "_" <= name) <==> '_' !in prefix
  {
    if '_' in prefix {
      DisguisedExtends(prefix);
      RolePatternExact(prefix, Disguised(prefix));
      DisguisedForeign(prefix, prefix);
    } else {
      forall name | Like(RolePattern(prefix), name) ensures prefix + "_" <= name {
        RolePatternExact(prefix, name);
        LiteralPrefix(prefix, name);
      }
    }
  }

  // ---------- Delimited identifiers ----------

  function Doubled(s: string): string {
    if s == [] then [] else (if s[0] == '"' then ['"', '"'] else [s[0]]) + Doubled(s[1..])
  }

  function Quote(s: string): string {
    ['"'] + Doubled(s) + ['"']
  }

  /** A name without quotes is printed between two of them. */
  lemma {:induction false} QuotePlain(s: string)
    requires '"' !in s
    ensures Quote(s) == "\"" + s + "\""
  {
    DoubledPlain(s);
  }

  lemma {:induction false} DoubledPlain(s: string)
    requires '"' !in s
    ensures Doubled(s) == s
  {
    if s != [] {
      DoubledPlain(s[1..]);
    }
  }

  /** The inside of a delimited identifier up to its closing quote, and what follows. */
  function LexBody(text: string): Option<(string, string)>
    decreases |text|
  {
    if text == [] then None
    else if text[0] != '"' then
      match LexBody(text[1..])
      case None => None
      case Some((name, rest)) => Some(([text[0]] + name, rest))
    else if |text| > 1 && text[1] == '"' then
      match LexBody(text[2..])
      case None => None
      case Some((name, rest)) => Some((['"'] + name, rest))
    else Some(([], text[1..]))
  }

  /** A SQL lexer at a delimited identifier: the name it denotes and the text after it. */
  function LexIdentifier(text: string): Option<(string, string)> {
    if text == [] || text[0] != '"' then None else LexBody(text[1..])
  }

  /** A printed name is read back whole, and the lexer stops right after it, exactly when the text that
      follows does not start with another quote. */
  lemma QuoteLexes(s: string, rest: string)
    ensures LexIdentifier(Quote(s) + rest) == Some((s, rest)) <==> rest == [] || rest[0] != '"'
  {
    assert (Quote(s) + rest)[1..] == Doubled(s) + ['"'] + rest;
    DoubledLexes(s, rest);
  }

  lemma {:induction false} DoubledLexes(s: string, rest: string)
    ensures LexBody(Doubled(s) + ['"'] + rest) == Some((s, rest)) <==> rest == [] || rest[0] != '"'
  {
    var text := Doubled(s) + ['"'] + rest;
    if s == [] {
      assert text[1..] == rest;
    } else {
      DoubledLexes(s[1..], rest);
      var tail := Doubled(s[1..]) + ['"'] + rest;
      assert s == [s[0]] + s[1..];
      if s[0] == '"' {
        assert text == ['"', '"'] + tail && text[2..] == tail;
      } else {
        assert text == [s[0]] + tail && text[1..] == tail;
      }
    }
  }
}
