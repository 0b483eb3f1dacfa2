/** The filter's glob-to-regex translation: three textual replaces, then an anchored regex match. */
module Glob {
  import opened Wrappers

  /******* Globs: `*` any sequence, `?` at most one character, all else literal *******/

  predicate GlobMatches(pattern: string, name: string)
    decreases |pattern|
  {
    if pattern == "" then name == ""
    else if pattern[0] == '*' then exists k :: 0 <= k <= |name| && GlobMatches(pattern[1..], name[k..])
    else if pattern[0] == '?' then
      GlobMatches(pattern[1..], name) || (name != "" && GlobMatches(pattern[1..], name[1..]))
    else name != "" && name[0] == pattern[0] && GlobMatches(pattern[1..], name[1..])
  }

  /******* The regex fragment the translation lands in *******/

  const META := "\\.+*?()|[]{}^$"

  datatype Item = Lit(c: char) | AnyChar | AnyStar | AnyOpt

  // None: needs more of the regex language than this fragment.
  function ParseRegex(regex: string): Option<seq<Item>>
    decreases |regex|
  {
    if regex == "" then Some([])
    else
      var (item, rest) :=
        if regex[0] == '.' then
          if |regex| > 1 && regex[1] == '*' then (Some(AnyStar), regex[2..])
          else if |regex| > 1 && regex[1] == '?' then (Some(AnyOpt), regex[2..])
          else (Some(AnyChar), regex[1..])
        else if regex[0] == '\\' then
          if |regex| > 1 && regex[1] in META then (Some(Lit(regex[1])), regex[2..]) else (None, "")
        else if regex[0] in META then (None, "")
        else (Some(Lit(regex[0])), regex[1..]);
      var tail := ParseRegex(rest);
      if item.None? || tail.None? then None else Some([item.value] + tail.value)
  }

  predicate NewlineFree(s: string) {
    '\n' !in s
  }

  // `^...$` over the whole name; `.` does not match a newline.
  predicate RegexMatches(items: seq<Item>, name: string)
    decreases |items|
  {
    if items == [] then name == ""
    else
      match items[0]
      case Lit(c) => name != "" && name[0] == c && RegexMatches(items[1..], name[1..])
      case AnyChar => name != "" && name[0] != '\n' && RegexMatches(items[1..], name[1..])
      case AnyStar => exists k :: 0 <= k <= |name| && NewlineFree(name[..k]) && RegexMatches(items[1..], name[k..])
      case AnyOpt =>
        RegexMatches(items[1..], name) || (name != "" && name[0] != '\n' && RegexMatches(items[1..], name[1..]))
  }

  /******* The translation *******/

  function Replace(s: string, from: char, to: string): string {
    if s == "" then "" else (if s[0] == from then to else [s[0]]) + Replace(s[1..], from, to)
  }

  function Translate(pattern: string): string {
    Replace(Replace(Replace(pattern, '.', "\\."), '*', ".*"), '?', ".?")
  }

  predicate PlainChar(c: char) {
    c in ".*?" || c !in META
  }

  // The wildcards and `.` aside, no regex metacharacter.
  ghost predicate Plain(pattern: string) {
    forall i :: 0 <= i < |pattern| ==> PlainChar(pattern[i])
  }

  function ItemOf(c: char): Item {
    if c == '*' then AnyStar else if c == '?' then AnyOpt else Lit(c)
  }

  function ItemsOf(pattern: string): seq<Item> {
    seq(|pattern|, i requires 0 <= i < |pattern| => ItemOf(pattern[i]))
  }

  function CharText(c: char): string {
    if c == '.' then "\\." else if c == '*' then ".*" else if c == '?' then ".?" else [c]
  }

  lemma {:induction false} ReplaceConcat(a: string, b: string, from: char, to: string)
    ensures Replace(a + b, from, to) == Replace(a, from, to) + Replace(b, from, to)
  {
    if a == "" {
      assert a + b == b;
    } else {
      assert (a + b)[1..] == a[1..] + b;
      ReplaceConcat(a[1..], b, from, to);
    }
  }

  lemma ReplaceOne(c: char, from: char, to: string)
    ensures Replace([c], from, to) == if c == from then to else [c]
  {
    assert [c][1..] == "";
  }

  lemma ReplaceTwo(c: char, d: char, from: char, to: string)
    requires c != from && d != from
    ensures Replace([c, d], from, to) == [c, d]
  {
    ReplaceOne(d, from, to);
    assert [c, d][1..] == [d];
    assert [c] + [d] == [c, d];
  }

  // The order of the three replaces matters: none of them touches what an earlier one wrote.
  lemma TranslateChar(c: char)
    ensures Translate([c]) == CharText(c)
  {
    ReplaceOne(c, '.', "\\.");
    var first := Replace([c], '.', "\\.");
    if c == '.' {
      ReplaceTwo('\\', '.', '*', ".*");
      ReplaceTwo('\\', '.', '?', ".?");
      assert first == ['\\', '.'];
    } else {
      ReplaceOne(c, '*', ".*");
      if c == '*' {
        ReplaceTwo('.', '*', '?', ".?");
        assert Replace(first, '*', ".*") == ['.', '*'];
      } else {
        ReplaceOne(c, '?', ".?");
      }
    }
  }

  lemma TranslateConcat(a: string, b: string)
    ensures Translate(a + b) == Translate(a) + Translate(b)
  {
    ReplaceConcat(a, b, '.', "\\.");
    var a1, b1 := Replace(a, '.', "\\."), Replace(b, '.', "\\.");
    ReplaceConcat(a1, b1, '*', ".*");
    ReplaceConcat(Replace(a1, '*', ".*"), Replace(b1, '*', ".*"), '?', ".?");
  }

  lemma ParseChar(c: char, rest: string)
    requires PlainChar(c)
    ensures ParseRegex(CharText(c) + rest) ==
            var tail := ParseRegex(rest); if tail.None? then None else Some([ItemOf(c)] + tail.value)
  {
    var text := CharText(c);
    assert (text + rest)[|text|..] == rest;
    assert (text + rest)[0] == text[0];
    assert |text| == 2 ==> (text + rest)[1] == text[1];
  }

  lemma ItemsCons(c: char, rest: string)
    ensures ItemsOf([c] + rest) == [ItemOf(c)] + ItemsOf(rest)
  {
  }

  lemma EmptyTranslates()
    ensures ParseRegex(Translate("")) == Some(ItemsOf(""))
  {
    assert Translate("") == "" && ItemsOf("") == [];
  }

  lemma PlainCons(c: char, rest: string)
    ensures Plain([c] + rest) <==> PlainChar(c) && Plain(rest)
  {
    var p := [c] + rest;
    assert p[0] == c && forall i :: 0 <= i < |rest| ==> p[i + 1] == rest[i];
  }

  lemma {:induction false} TranslationParses(pattern: string)
    requires Plain(pattern)
    ensures ParseRegex(Translate(pattern)) == Some(ItemsOf(pattern))
  {
    hide Translate, CharText, ParseRegex, PlainChar, ItemOf, ItemsOf, Plain;
    if pattern == "" {
      EmptyTranslates();
    } else {
      var c, rest := pattern[0], pattern[1..];
      assert pattern == [c] + rest;
      PlainCons(c, rest);
      TranslationParses(rest);
      TranslateConcat([c], rest);
      TranslateChar(c);
      ParseChar(c, Translate(rest));
      ItemsCons(c, rest);
    }
  }

  lemma {:induction false} ItemsAreGlob(pattern: string, name: string)
    ensures RegexMatches(ItemsOf(pattern), name) ==> GlobMatches(pattern, name)
    ensures NewlineFree(name) && GlobMatches(pattern, name) ==> RegexMatches(ItemsOf(pattern), name)
    decreases |pattern|
  {
    if pattern == "" {
    } else {
      var rest := pattern[1..];
      assert ItemsOf(pattern)[1..] == ItemsOf(rest);
      if pattern[0] == '*' {
        forall k | 0 <= k <= |name|
          ensures RegexMatches(ItemsOf(rest), name[k..]) ==> GlobMatches(rest, name[k..])
          ensures NewlineFree(name) && GlobMatches(rest, name[k..]) ==> RegexMatches(ItemsOf(rest), name[k..])
          ensures NewlineFree(name) ==> NewlineFree(name[..k])
        {
          ItemsAreGlob(rest, name[k..]);
        }
      } else {
        ItemsAreGlob(rest, name);
        if name != "" {
          ItemsAreGlob(rest, name[1..]);
        }
      }
    }
  }

  // The translated regex accepts exactly what the glob does, on every newline-free name; with a newline
  // in the name it accepts no more than the glob.
  lemma TranslationPreservesMeaning(pattern: string, name: string)
    requires Plain(pattern)
    ensures var items := ParseRegex(Translate(pattern));
            && items.Some?
            && (RegexMatches(items.value, name) ==> GlobMatches(pattern, name))
            && (NewlineFree(name) ==> (RegexMatches(items.value, name) <==> GlobMatches(pattern, name)))
  {
    TranslationParses(pattern);
    ItemsAreGlob(pattern, name);
  }

  /******* Patterns that match the literal name "*" *******/

  ghost predicate Wild(pattern: string) {
    forall i :: 0 <= i < |pattern| ==> pattern[i] == '*' || pattern[i] == '?'
  }

  ghost predicate OnlyOptional(pattern: string) {
    pattern != "" && forall i :: 0 <= i < |pattern| ==> pattern[i] == '?'
  }

  // The regex of a wild pattern never crosses a newline.
  lemma {:induction false} WildStopsAtNewline(pattern: string, name: string)
    requires Wild(pattern) && RegexMatches(ItemsOf(pattern), name)
    ensures NewlineFree(name)
    decreases |pattern|
  {
    if pattern == "" {
    } else {
      var rest := pattern[1..];
      assert ItemsOf(pattern)[1..] == ItemsOf(rest);
      if pattern[0] == '*' {
        var k :| 0 <= k <= |name| && NewlineFree(name[..k]) && RegexMatches(ItemsOf(rest), name[k..]);
        WildStopsAtNewline(rest, name[k..]);
        assert name == name[..k] + name[k..];
      } else if RegexMatches(ItemsOf(rest), name) {
        WildStopsAtNewline(rest, name);
      } else {
        WildStopsAtNewline(rest, name[1..]);
        assert name == [name[0]] + name[1..];
      }
    }
  }

  // Glob and regex agree on a name for every pattern exactly when the name holds no newline.
  lemma AgreeWithoutNewline(name: string)
    ensures (forall p :: Plain(p) ==> (RegexMatches(ItemsOf(p), name) <==> GlobMatches(p, name))) <==> NewlineFree(name)
  {
    forall p | Plain(p) && NewlineFree(name) ensures RegexMatches(ItemsOf(p), name) <==> GlobMatches(p, name) {
      ItemsAreGlob(p, name);
    }
    if !NewlineFree(name) {
      WildStarMatchesAll("*", name);
      assert Plain("*") && Wild("*") && GlobMatches("*", name);
      if RegexMatches(ItemsOf("*"), name) {
        WildStopsAtNewline("*", name);
      }
    }
  }

  // A name of one repeated character that the pattern does not spell out is matched by wildcards alone.
  lemma {:induction false} UniformNeedsWild(pattern: string, name: string, c: char)
    requires GlobMatches(pattern, name) && forall i :: 0 <= i < |name| ==> name[i] == c
    requires c == '*' || c == '?' || c !in pattern
    ensures Wild(pattern)
    decreases |pattern|
  {
    if pattern == "" {
    } else {
      var rest := pattern[1..];
      if pattern[0] == '*' {
        var k :| 0 <= k <= |name| && GlobMatches(rest, name[k..]);
        UniformNeedsWild(rest, name[k..], c);
      } else if GlobMatches(rest, name) && pattern[0] == '?' {
        UniformNeedsWild(rest, name, c);
      } else {
        UniformNeedsWild(rest, name[1..], c);
      }
      assert forall i :: 1 <= i < |pattern| ==> pattern[i] == rest[i - 1];
    }
  }

  lemma {:induction false} WildMatchesEmpty(pattern: string)
    requires Wild(pattern)
    ensures GlobMatches(pattern, "")
    decreases |pattern|
  {
    if pattern == "" {
    } else {
      WildMatchesEmpty(pattern[1..]);
      assert ""[0..] == "";
    }
  }

  lemma {:induction false} WildStarMatchesAll(pattern: string, name: string)
    requires Wild(pattern) && '*' in pattern
    ensures GlobMatches(pattern, name)
    decreases |pattern|
  {
    var rest := pattern[1..];
    if pattern[0] == '*' {
      WildMatchesEmpty(rest);
      assert name[|name|..] == "";
    } else {
      assert pattern == [pattern[0]] + rest;
      WildStarMatchesAll(rest, name);
    }
  }

  lemma {:induction false} OptionalBoundsLength(pattern: string, name: string)
    requires forall i :: 0 <= i < |pattern| ==> pattern[i] == '?'
    ensures GlobMatches(pattern, name) <==> |name| <= |pattern|
    decreases |pattern|
  {
    if pattern == "" {
    } else {
      OptionalBoundsLength(pattern[1..], name);
      if name != "" {
        OptionalBoundsLength(pattern[1..], name[1..]);
      }
    }
  }

  // Repeated beyond the pattern's length, it needs a `*`.
  lemma LongNeedsStar(pattern: string, name: string, c: char)
    requires GlobMatches(pattern, name) && forall i :: 0 <= i < |name| ==> name[i] == c
    requires (c == '*' || c == '?' || c !in pattern) && |name| > |pattern|
    ensures Wild(pattern) && '*' in pattern
  {
    UniformNeedsWild(pattern, name, c);
    if '*' !in pattern {
      OptionalBoundsLength(pattern, name);
    }
  }

  // A pattern that accepts the name "*" accepts every name, exactly unless it is made only of `?`.
  lemma StarTestIsSound(pattern: string)
    ensures (GlobMatches(pattern, "*") ==> forall name :: GlobMatches(pattern, name)) <==> !OnlyOptional(pattern)
  {
    if GlobMatches(pattern, "*") {
      UniformNeedsWild(pattern, "*", '*');
      if OnlyOptional(pattern) {
        var long := seq(|pattern| + 1, _ => 'x');
        OptionalBoundsLength(pattern, long);
      } else {
        assert pattern != "" && '*' in pattern;
        forall name ensures GlobMatches(pattern, name) {
          WildStarMatchesAll(pattern, name);
        }
      }
    } else if OnlyOptional(pattern) {
      OptionalBoundsLength(pattern, "*");
    }
  }
}
