/** Text helpers the models share: splitting at a character, ASCII case. */
module Strings {
  ghost predicate Distinct(xs: seq<string>) {
    forall i, j :: 0 <= i < j < |xs| ==> xs[i] != xs[j]
  }

  function LowerChar(c: char): char {
    if 'A' <= c <= 'Z' then (c as int + 32) as char else c
  }

  // Position of the first `c`, or the length.
  function IndexOf(s: string, c: char): (i: nat)
    ensures i <= |s| && (i < |s| ==> s[i] == c) && forall k :: 0 <= k < i ==> s[k] != c
  {
    if s == "" || s[0] == c then 0 else 1 + IndexOf(s[1..], c)
  }

  // The parts between the occurrences of `c`; one more than there are occurrences.
  function Split(s: string, c: char): (parts: seq<string>)
    ensures parts != []
  {
    var i := IndexOf(s, c);
    if i == |s| then [s] else [s[..i]] + Split(s[i + 1..], c)
  }

  function Join(parts: seq<string>, c: char): string
    requires parts != []
  {
    if |parts| == 1 then parts[0] else parts[0] + [c] + Join(parts[1..], c)
  }

  lemma SplitNone(s: string, c: char)
    ensures Split(s, c) == [s] <==> c !in s
    ensures |Split(s, c)| == 1 <==> c !in s
  {
    var i := IndexOf(s, c);
    assert i < |s| ==> s[i] in s;
  }

  lemma {:induction false} PartsWithin(s: string, c: char, i: nat)
    requires i < |Split(s, c)|
    ensures c !in Split(s, c)[i] && forall d :: d in Split(s, c)[i] ==> d in s
    decreases |s|
  {
    var at := IndexOf(s, c);
    if at < |s| && i > 0 {
      PartsWithin(s[at + 1..], c, i - 1);
    }
  }

  lemma SplitFirst(first: string, rest: string, c: char)
    requires c !in first
    ensures Split(first + [c] + rest, c) == [first] + Split(rest, c)
  {
    var s := first + [c] + rest;
    assert s[|first|] == c && forall k :: 0 <= k < |first| ==> s[k] == first[k];
    assert IndexOf(s, c) == |first|;
    assert s[..|first|] == first && s[|first| + 1..] == rest;
  }

  lemma FirstPart(s: string, c: char) returns (first: string, rest: string)
    requires c in s
    ensures c !in first && s == first + [c] + rest && |rest| < |s|
  {
    var i := IndexOf(s, c);
    first, rest := s[..i], s[i + 1..];
  }

  lemma {:induction false} JoinSplit(s: string, c: char)
    ensures Join(Split(s, c), c) == s
    decreases |s|
  {
    hide Split;
    SplitNone(s, c);
    if c in s {
      var first, rest := FirstPart(s, c);
      SplitFirst(first, rest, c);
      JoinSplit(rest, c);
      assert ([first] + Split(rest, c))[1..] == Split(rest, c);
    }
  }

  // A text is determined by its parts.
  lemma SplitInjective(s: string, t: string, c: char)
    ensures Split(s, c) == Split(t, c) <==> s == t
  {
    JoinSplit(s, c);
    JoinSplit(t, c);
  }

  // Text in front joins the first part.
  lemma SplitPrefix(p: string, s: string, c: char)
    requires c !in p
    ensures Split(p + s, c) == [p + Split(s, c)[0]] + Split(s, c)[1..]
  {
    hide Split;
    SplitNone(s, c);
    SplitNone(p + s, c);
    if c in s {
      var first, rest := FirstPart(s, c);
      SplitFirst(first, rest, c);
      SplitFirst(p + first, rest, c);
      assert p + s == (p + first) + [c] + rest;
    }
  }

  lemma {:induction false} SplitConcat(a: string, b: string, c: char)
    ensures Split(a + [c] + b, c) == Split(a, c) + Split(b, c)
    decreases |a|
  {
    hide Split;
    SplitNone(a, c);
    if c !in a {
      SplitFirst(a, b, c);
    } else {
      var first, rest := FirstPart(a, c);
      SplitConcat(rest, b, c);
      SplitFirst(first, rest, c);
      SplitFirst(first, rest + [c] + b, c);
      assert a + [c] + b == first + [c] + (rest + [c] + b);
    }
  }

  // Text behind a part that is still empty starts it.
  lemma {:induction false} SplitAppend(a: string, parts: seq<string>, b: string, c: char)
    requires Split(a, c) == parts + [""]
    ensures Split(a + b, c) == parts + Split(b, c)
    decreases |a|
  {
    hide Split;
    SplitNone(a, c);
    if c !in a {
      assert [a][|parts|] == "";
      assert a + b == b;
    } else {
      var first, rest := FirstPart(a, c);
      SplitFirst(first, rest, c);
      assert Split(rest, c) == parts[1..] + [""] by {
        assert Split(rest, c) == ([first] + Split(rest, c))[1..];
      }
      SplitAppend(rest, parts[1..], b, c);
      SplitFirst(first, rest + b, c);
      assert a + b == first + [c] + (rest + b);
      assert parts[0] == (parts + [""])[0];
    }
  }

  lemma {:induction false} SplitCount(a: string, b: string, c: char)
    ensures |Split(a + b, c)| == |Split(a, c)| + |Split(b, c)| - 1
    decreases |a|
  {
    hide Split;
    SplitNone(a, c);
    if c !in a {
      SplitPrefix(a, b, c);
    } else {
      var first, rest := FirstPart(a, c);
      SplitCount(rest, b, c);
      SplitFirst(first, rest, c);
      SplitFirst(first, rest + b, c);
      assert a + b == first + [c] + (rest + b);
    }
  }
}
