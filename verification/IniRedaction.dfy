/** Redacting rendered INI text, and exactly when that is rendering redacted values. */
module IniRedaction {
  import opened Wrappers
  import opened Strings
  import opened Ini
  import opened Redaction

  const INI_REDACTED := "******"

  /******* Line by line *******/

  function RedactLine(content: string): string {
    var eq := IndexOf(content, '=');
    if eq == |content| then content
    else
      var key, value := content[..eq], content[eq + 1..];
      if TrimStart(key) != "" && TrimStart(key)[0] == '#' then content
      else if value == "" then content
      else if IsSecretKey(Trim(key)) then key + "=" + INI_REDACTED
      else if IsUrlKey(Trim(key)) then key + "=" + RedactUrl(value)
      else content
  }

  function RedactIni(text: string): string {
    if text == "" then ""
    else
      var end := IndexOf(text, '\n');
      if end == |text| then RedactLine(text)
      else RedactLine(text[..end]) + "\n" + RedactIni(text[end + 1..])
  }

  lemma OneLine(line: string)
    requires '\n' !in line
    ensures RedactIni(line) == RedactLine(line)
  {
    hide IsSecretKey, IsUrlKey, RedactUrl, Trim, TrimStart;
    assert IndexOf(line, '\n') == |line|;
  }

  lemma FirstLine(first: string, rest: string)
    requires '\n' !in first
    ensures RedactIni(first + "\n" + rest) == RedactLine(first) + "\n" + RedactIni(rest)
  {
    hide RedactLine;
    var text := first + "\n" + rest;
    assert text[|first|] == '\n' && forall k :: 0 <= k < |first| ==> text[k] == first[k];
    assert IndexOf(text, '\n') == |first|;
    assert text[..|first|] == first && text[|first| + 1..] == rest;
  }

  // The loop over `split_inclusive('\n')`.
  method RedactIniText(ini: string) returns (out: string)
    ensures out == RedactIni(ini)
  {
    hide RedactLine, RedactIni, IndexOf;
    out := "";
    var at := 0;
    assert ini[0..] == ini;
    while at < |ini|
      invariant 0 <= at <= |ini|
      invariant RedactIni(ini) == out + RedactIni(ini[at..])
      decreases |ini| - at
    {
      var rest := ini[at..];
      var end := IndexOf(rest, '\n');
      var line := RedactLine(rest[..end]);
      ghost var before := out;
      out := out + line;
      if end < |rest| {
        assert rest == rest[..end] + "\n" + rest[end + 1..];
        FirstLine(rest[..end], rest[end + 1..]);
        out := out + "\n";
        assert before + (line + "\n" + RedactIni(rest[end + 1..])) == out + RedactIni(rest[end + 1..]);
        at := at + end + 1;
        assert ini[at..] == rest[end + 1..];
      } else {
        assert rest[..end] == rest;
        OneLine(rest);
        at := |ini|;
        EmptyText();
        assert ini[at..] == "" && out + "" == out;
      }
    }
    EmptyText();
    assert ini[at..] == "";
  }

  lemma EmptyText()
    ensures RedactIni("") == ""
  {
  }

  function Lines(s: string): (lines: seq<string>)
    ensures lines != []
  {
    Split(s, '\n')
  }

  function RedactLines(lines: seq<string>): seq<string> {
    seq(|lines|, i requires 0 <= i < |lines| => RedactLine(lines[i]))
  }

  lemma RedactUrlKeeps(url: string)
    requires '\n' !in url
    ensures '\n' !in RedactUrl(url)
  {
    hide FindScheme, LastAt;
  }

  lemma RedactLineKeeps(line: string)
    requires '\n' !in line
    ensures '\n' !in RedactLine(line)
  {
    hide IsSecretKey, IsUrlKey, RedactUrl, Trim, TrimStart;
    var eq := IndexOf(line, '=');
    if eq < |line| {
      RedactUrlKeeps(line[eq + 1..]);
    }
  }

  // Redaction works on each line by itself: nothing is added, dropped or moved.
  lemma {:induction false} RedactIsLinewise(text: string)
    ensures Lines(RedactIni(text)) == RedactLines(Lines(text))
    decreases |text|
  {
    hide RedactLine, Split, RedactIni;
    SplitNone(text, '\n');
    if '\n' !in text {
      OneLine(text);
      RedactLineKeeps(text);
      SplitNone(RedactLine(text), '\n');
    } else {
      var first, rest := FirstPart(text, '\n');
      FirstLine(first, rest);
      RedactLineKeeps(first);
      SplitFirst(first, rest, '\n');
      SplitFirst(RedactLine(first), RedactIni(rest), '\n');
      RedactIsLinewise(rest);
      LinesCons(first, Lines(rest));
    }
  }

  lemma LinesCons(first: string, rest: seq<string>)
    ensures RedactLines([first] + rest) == [RedactLine(first)] + RedactLines(rest)
  {
    hide RedactLine;
  }

  lemma LinesConcat(a: seq<string>, b: seq<string>)
    ensures RedactLines(a + b) == RedactLines(a) + RedactLines(b)
  {
    hide RedactLine;
  }

  /******* The lines of a rendered file *******/

  function PairLines(kv: Kv): seq<string> {
    Lines(kv.0 + "=" + kv.1)
  }

  function KvLines(kv: seq<Kv>): seq<string> {
    if kv == [] then [] else KvLines(kv[..|kv| - 1]) + PairLines(kv[|kv| - 1])
  }

  function SectionLines(s: Section): seq<string> {
    ["[" + s.name + "]"] + KvLines(s.kv)
  }

  function GapLines(n: int): seq<string> {
    if n > 0 then [""] else []
  }

  function IniLines(sections: seq<Section>): seq<string> {
    if sections == [] then []
    else
      var n := |sections| - 1;
      IniLines(sections[..n]) + (GapLines(n) + SectionLines(sections[n]))
  }

  lemma EmptyLines()
    ensures Lines("") == [""]
  {
    SplitNone("", '\n');
  }

  lemma PairTextLines(kv: Kv)
    ensures Lines(KvLine(kv)) == PairLines(kv) + [""]
  {
    hide Split;
    EmptyLines();
    var pair := kv.0 + "=" + kv.1;
    SplitConcat(pair, "", '\n');
    assert KvLine(kv) == pair + "\n" + "";
  }

  lemma {:induction false} KvTextLines(kv: seq<Kv>)
    ensures Lines(KvText(kv)) == KvLines(kv) + [""]
  {
    EmptyLines();
    if kv == [] {
    } else {
      var n := |kv| - 1;
      KvTextLines(kv[..n]);
      PairTextLines(kv[n]);
      hide Split, PairLines, KvLine;
      SplitAppend(KvText(kv[..n]), KvLines(kv[..n]), KvLine(kv[n]), '\n');
    }
  }

  lemma HeaderLine(name: Word)
    ensures RedactLine("[" + name + "]") == "[" + name + "]" && '\n' !in "[" + name + "]"
  {
    var line := "[" + name + "]";
    assert forall i :: 1 <= i <= |name| ==> line[i] == name[i - 1];
    assert IndexOf(line, '=') == |line|;
  }

  lemma SectionTextLines(s: Section)
    ensures Lines(SectionText(s)) == SectionLines(s) + [""]
  {
    hide Split, RedactLine, KvText, KvLines;
    var header := "[" + s.name + "]";
    HeaderLine(s.name);
    KvTextLines(s.kv);
    SplitFirst(header, KvText(s.kv), '\n');
    assert SectionText(s) == header + "\n" + KvText(s.kv);
  }

  lemma GapTextLines(n: int, s: Section)
    ensures Lines(Gap(n) + SectionText(s)) == GapLines(n) + SectionLines(s) + [""]
  {
    hide Split, SectionText, SectionLines;
    SectionTextLines(s);
    if n > 0 {
      SplitFirst("", SectionText(s), '\n');
      assert Gap(n) + SectionText(s) == "" + "\n" + SectionText(s);
    } else {
      assert Gap(n) + SectionText(s) == SectionText(s);
    }
  }

  lemma {:induction false} IniTextLines(sections: seq<Section>)
    ensures Lines(IniText(sections)) == IniLines(sections) + [""]
  {
    EmptyLines();
    if sections == [] {
    } else {
      var n := |sections| - 1;
      IniTextLines(sections[..n]);
      hide Split, SectionText, SectionLines, Gap, GapLines;
      GapTextLines(n, sections[n]);
      SplitAppend(IniText(sections[..n]), IniLines(sections[..n]), Gap(n) + SectionText(sections[n]), '\n');
    }
  }

  /******* Masking values *******/

  function MaskValue(key: string, value: string): string {
    if value == "" then value
    else if IsSecretKey(key) then INI_REDACTED
    else if IsUrlKey(key) then RedactUrl(value)
    else value
  }

  function MaskPair(kv: Kv): Kv {
    (kv.0, MaskValue(kv.0, kv.1))
  }

  function MaskKv(kv: seq<Kv>): seq<Kv> {
    seq(|kv|, i requires 0 <= i < |kv| => MaskPair(kv[i]))
  }

  function MaskSection(s: Section): Section {
    Section(s.name, MaskKv(s.kv))
  }

  function MaskSections(sections: seq<Section>): seq<Section> {
    seq(|sections|, i requires 0 <= i < |sections| => MaskSection(sections[i]))
  }

  ghost predicate Blank(s: string) {
    forall i :: 0 <= i < |s| ==> IsSpace(s[i])
  }

  lemma {:induction false} TrimStartBlank(p: string, s: string)
    requires Blank(p)
    ensures TrimStart(p + s) == TrimStart(s)
  {
    hide IsSpace;
    if p == "" {
      assert p + s == s;
    } else {
      assert (p + s)[1..] == p[1..] + s;
      TrimStartBlank(p[1..], s);
    }
  }

  lemma {:induction false} TrimEndBlank(s: string, q: string)
    requires Blank(q)
    ensures TrimEnd(s + q) == TrimEnd(s)
  {
    hide IsSpace;
    if q == "" {
      assert s + q == s;
    } else {
      var n := |q| - 1;
      assert (s + q)[..|s + q| - 1] == s + q[..n];
      TrimEndBlank(s, q[..n]);
    }
  }

  // A key as it is looked up: something that is no comment, without an `=`, and with no blank at either end.
  ghost predicate IsKey(key: string) {
    key != "" && '=' !in key && key[0] != '#' && !IsSpace(key[0]) && !IsSpace(key[|key| - 1])
  }

  lemma KeyTrims(p: string, key: string, q: string)
    requires Blank(p) && IsKey(key) && Blank(q)
    ensures TrimStart(p + key + q) == key + q && Trim(p + key + q) == key
  {
    hide IsSpace;
    assert p + key + q == p + (key + q);
    TrimStartBlank(p, key + q);
    TrimEndBlank(key, q);
  }

  // A pair keeps everything but its value, which the key decides; blanks around the key do not matter.
  lemma PaddedPair(p: string, key: string, q: string, value: string)
    requires Blank(p) && IsKey(key) && Blank(q)
    ensures RedactLine(p + key + q + "=" + value) ==
            p + key + q + "=" +
            (if value == "" then ""
             else if IsSecretKey(key) then "******"
             else if IsUrlKey(key) then RedactUrl(value)
             else value)
  {
    hide IsSecretKey, IsUrlKey, RedactUrl, Trim, TrimStart;
    var left := p + key + q;
    var line := left + "=" + value;
    assert '=' !in p && '=' !in q;
    assert line[|left|] == '=' && forall k :: 0 <= k < |left| ==> line[k] == left[k];
    assert IndexOf(line, '=') == |left|;
    assert line[..|left|] == left && line[|left| + 1..] == value;
    KeyTrims(p, key, q);
    assert left + "=" + "" == line[..|left| + 1];
  }

  // A comment stays as it is.
  lemma CommentLine(p: string, rest: string)
    requires Blank(p)
    ensures RedactLine(p + "#" + rest) == p + "#" + rest
  {
    hide IsSecretKey, IsUrlKey, RedactUrl, TrimEnd;
    var line := p + "#" + rest;
    var eq := IndexOf(line, '=');
    assert '=' !in p;
    if eq < |line| {
      assert forall k :: 0 <= k < |p| ==> line[k] == p[k];
      assert line[|p|] == '#';
      assert eq > |p|;
      var tail := line[|p|..eq];
      assert line[..eq] == p + tail && tail[0] == '#';
      TrimStartBlank(p, tail);
    }
  }

  lemma WordLine(key: Word, value: string)
    ensures RedactLine(key + "=" + value) == key + "=" + MaskValue(key, value)
  {
    hide IsSecretKey, IsUrlKey, RedactUrl;
    var line := key + "=" + value;
    assert line[|key|] == '=' && forall k :: 0 <= k < |key| ==> line[k] == key[k];
    assert IndexOf(line, '=') == |key|;
    assert line[..|key|] == key && line[|key| + 1..] == value;
    assert !IsSpace(key[0]) && !IsSpace(key[|key| - 1]);
    assert TrimStart(key) == key && Trim(key) == key;
  }

  /******* URLs over several lines *******/

  // What stands behind the scheme, with everything up to the last `@` replaced.
  function MaskHost(s: string): string {
    if LastAt(s).None? then s else "***" + s[LastAt(s).value..]
  }

  lemma LastAtConcat(a: string, b: string)
    ensures '@' in b ==> LastAt(b).Some? && LastAt(a + b) == Some(|a| + LastAt(b).value)
    ensures '@' !in b ==> LastAt(a + b) == LastAt(a)
  {
    hide LastAt;
    var s := a + b;
    assert forall i :: 0 <= i < |a| ==> s[i] == a[i];
    assert forall i :: 0 <= i < |b| ==> s[|a| + i] == b[i];
    assert LastAt(b).Some? ==> s[|a| + LastAt(b).value] == '@';
    assert LastAt(a).Some? ==> s[LastAt(a).value] == '@';
  }

  lemma DropConcat(a: string, b: string, k: nat)
    requires k <= |a| + |b|
    ensures (a + b)[k..] == if k <= |a| then a[k..] + b else b[k - |a|..]
  {
  }

  lemma MaskHostConcat(a: string, b: string)
    ensures MaskHost(a + b) == if '@' in b then MaskHost(b) else MaskHost(a) + b
  {
    hide LastAt;
    LastAtConcat(a, b);
    if '@' in b {
      DropConcat(a, b, |a| + LastAt(b).value);
      assert LastAt(b).value == 0 ==> b[0..] == b && a[|a|..] + b == b;
    } else if LastAt(a).Some? {
      DropConcat(a, b, LastAt(a).value);
      assert ("***" + a[LastAt(a).value..]) + b == "***" + (a[LastAt(a).value..] + b);
    }
  }

  lemma MaskHostLines(s: string)
    ensures |Lines(MaskHost(s))| <= |Lines(s)|
  {
    hide LastAt, Split;
    if LastAt(s).Some? {
      var at := LastAt(s).value;
      SplitPrefix("***", s[at..], '\n');
      SplitCount(s[..at], s[at..], '\n');
      assert s == s[..at] + s[at..];
    }
  }

  // Text that ends with its first "://".
  predicate IsScheme(p: string) {
    |p| >= 3 && FindScheme(p, 0) == Some(|p| - 3)
  }

  lemma SchemeSplit(url: string) returns (p: string, m: string)
    requires FindScheme(url, 0).Some?
    ensures IsScheme(p) && url == p + m
  {
    hide FindScheme, StartsAt;
    var e := FindScheme(url, 0).value;
    SchemeInPrefix(url, e);
    p, m := url[..e + 3], url[e + 3..];
  }

  lemma UrlUnmasked(url: string, host: nat)
    requires 3 <= host <= |url| && FindScheme(url, 0) == Some(host - 3) && LastAt(url[host..]).None?
    ensures RedactUrl(url) == url
  {
    hide FindScheme, StartsAt, LastAt;
  }

  lemma UrlByScheme(p: string, m: string)
    requires IsScheme(p)
    ensures RedactUrl(p + m) == p + MaskHost(m)
  {
    hide FindScheme, StartsAt, LastAt, RedactUrl;
    var url := p + m;
    CutConcat(p, m);
    SchemeInPrefix(url, |p| - 3);
    if LastAt(m).Some? {
      RedactUrlBy(url, |p|, LastAt(m).value);
      DropMore(url, |p|, LastAt(m).value);
      Assoc(p, "***", m[LastAt(m).value..]);
    } else {
      UrlUnmasked(url, |p|);
    }
  }

  lemma CutConcat(a: string, b: string)
    ensures (a + b)[..|a|] == a && (a + b)[|a|..] == b
  {
  }

  lemma DropMore(s: string, i: nat, j: nat)
    requires i + j <= |s|
    ensures s[i + j..] == s[i..][j..]
  {
  }

  lemma SchemeChars(s: string, i: int)
    ensures StartsAt(s, i, "://") <==> 0 <= i <= |s| - 3 && s[i] == ':' && s[i + 1] == '/' && s[i + 2] == '/'
  {
    if 0 <= i <= |s| - 3 {
      assert s[i..i + 3] == [s[i], s[i + 1], s[i + 2]];
    }
  }

  // A scheme never straddles a line break.
  lemma SchemeShift(first: string, rest: string, i: nat)
    requires '\n' !in first && FindScheme(first, 0).None?
    ensures StartsAt(first + "\n" + rest, i, "://") <==> StartsAt(rest, i - |first| - 1, "://")
  {
    hide FindScheme, StartsAt;
    var v := first + "\n" + rest;
    SchemeChars(v, i);
    SchemeChars(first, i);
    SchemeChars(rest, i - |first| - 1);
    assert v[|first|] == '\n';
    assert forall k :: 0 <= k < |first| ==> v[k] == first[k];
    assert forall k :: 0 <= k < |rest| ==> v[|first| + 1 + k] == rest[k];
  }

  lemma SchemeBelow(first: string, rest: string)
    requires '\n' !in first && FindScheme(first, 0).None?
    ensures FindScheme(rest, 0).None? ==> FindScheme(first + "\n" + rest, 0).None?
    ensures IsScheme(rest) ==> IsScheme(first + "\n" + rest)
  {
    hide FindScheme, StartsAt;
    var v := first + "\n" + rest;
    var f := FindScheme(v, 0);
    if f.Some? {
      SchemeShift(first, rest, f.value);
      assert StartsAt(rest, f.value - |first| - 1, "://");
      SchemeChars(rest, f.value - |first| - 1);
    }
    if IsScheme(rest) {
      SchemeShift(first, rest, |v| - 3);
    }
  }

  lemma UrlPlain(url: string)
    requires FindScheme(url, 0).None?
    ensures RedactUrl(url) == url
  {
  }

  lemma UrlBelow(first: string, rest: string)
    requires '\n' !in first && FindScheme(first, 0).None?
    ensures RedactUrl(first) == first && RedactUrl(first + "\n" + rest) == first + "\n" + RedactUrl(rest)
  {
    hide FindScheme, StartsAt, RedactUrl, MaskHost;
    UrlPlain(first);
    if FindScheme(rest, 0).None? {
      SchemeBelow(first, rest);
      UrlPlain(rest);
      UrlPlain(first + "\n" + rest);
    } else {
      var p, m := SchemeSplit(rest);
      SchemeBelow(first, p);
      UrlByScheme(p, m);
      UrlByScheme(first + "\n" + p, m);
      assert first + "\n" + rest == (first + "\n" + p) + m;
    }
  }

  // With the scheme on the first line, an `@` further down swallows the line break.
  lemma UrlSwallows(first: string, rest: string)
    requires '\n' !in first && FindScheme(first, 0).Some? && '@' in rest
    ensures |Lines(RedactUrl(first + "\n" + rest))| < |Lines(first + "\n" + rest)|
  {
    hide FindScheme, RedactUrl, MaskHost, Split;
    var p, m := SchemeSplit(first);
    assert first + "\n" + rest == p + (m + "\n" + rest);
    UrlByScheme(p, m + "\n" + rest);
    MaskHostConcat(m + "\n", rest);
    SplitPrefix(p, MaskHost(rest), '\n');
    MaskHostLines(rest);
    SplitFirst(first, rest, '\n');
  }

  lemma UrlOnFirst(first: string, rest: string)
    requires FindScheme(first, 0).Some? && '@' !in rest
    ensures RedactUrl(first + "\n" + rest) == RedactUrl(first) + "\n" + rest
  {
    hide FindScheme, RedactUrl, MaskHost;
    var p, m := SchemeSplit(first);
    assert first + "\n" + rest == p + (m + ("\n" + rest));
    UrlByScheme(p, m);
    UrlByScheme(p, m + ("\n" + rest));
    MaskHostConcat(m, "\n" + rest);
  }

  lemma UrlWithoutAt(url: string)
    requires '@' !in url
    ensures RedactUrl(url) == url
  {
    hide FindScheme, LastAt;
  }

  function UrlEach(lines: seq<string>): seq<string> {
    seq(|lines|, i requires 0 <= i < |lines| => RedactUrl(lines[i]))
  }

  // Redacting a URL adds no line; if it swallows none it redacts line by line.
  lemma {:induction false} UrlLines(url: string)
    ensures |Lines(RedactUrl(url))| <= |Lines(url)|
    ensures |Lines(RedactUrl(url))| == |Lines(url)| ==> Lines(RedactUrl(url)) == UrlEach(Lines(url))
    decreases |url|
  {
    hide RedactUrl, FindScheme, Split;
    SplitNone(url, '\n');
    if '\n' !in url {
      RedactUrlKeeps(url);
      SplitNone(RedactUrl(url), '\n');
    } else {
      var first, rest := FirstPart(url, '\n');
      SplitFirst(first, rest, '\n');
      if FindScheme(first, 0).None? {
        UrlBelow(first, rest);
        SplitFirst(first, RedactUrl(rest), '\n');
        UrlLines(rest);
      } else if '@' in rest {
        UrlSwallows(first, rest);
      } else {
        UrlOnFirst(first, rest);
        RedactUrlKeeps(first);
        SplitFirst(RedactUrl(first), rest, '\n');
        forall i | 0 <= i < |Lines(rest)| ensures RedactUrl(Lines(rest)[i]) == Lines(rest)[i] {
          PartsWithin(rest, '\n', i);
          UrlWithoutAt(Lines(rest)[i]);
        }
        assert UrlEach([first] + Lines(rest)) == [RedactUrl(first)] + Lines(rest);
      }
    }
  }

  /******* Exactly when the two agree *******/

  /** The mask swallows no line break of the value, and each line below the first is treated as a line of its own just
      as the mask treats it. */
  ghost predicate RedactsCleanly(key: string, value: string) {
    var lines := Lines(value);
    && |Lines(MaskValue(key, value))| == |lines|
    && forall i :: 1 <= i < |lines| ==> RedactLine(lines[i]) == MaskValue(key, lines[i])
  }

  lemma MaskLines(key: string, value: string)
    ensures |Lines(MaskValue(key, value))| <= |Lines(value)|
    ensures |Lines(MaskValue(key, value))| == |Lines(value)| ==>
              forall i :: 0 <= i < |Lines(value)| ==> Lines(MaskValue(key, value))[i] == MaskValue(key, Lines(value)[i])
  {
    hide IsSecretKey, IsUrlKey, RedactUrl, Split;
    SplitNone(value, '\n');
    SplitNone(INI_REDACTED, '\n');
    if value != "" && !IsSecretKey(key) && IsUrlKey(key) {
      UrlLines(value);
      UrlWithoutAt("");
    }
  }

  // Both sides of the law, for one pair.
  ghost predicate Redacts(kv: Kv) {
    RedactLines(PairLines(kv)) == PairLines(MaskPair(kv))
  }

  lemma PairPrefix(kv: Kv)
    ensures PairLines(kv) == [kv.0 + "=" + Lines(kv.1)[0]] + Lines(kv.1)[1..]
  {
    hide Split;
    SplitPrefix(kv.0 + "=", kv.1, '\n');
  }

  lemma PairExact(kv: Kv)
    ensures |PairLines(MaskPair(kv))| <= |PairLines(kv)|
    ensures Redacts(kv) <==> RedactsCleanly(kv.0, kv.1)
  {
    hide Split, MaskValue, RedactLine, PairLines, Lines;
    var key, lines, masked := kv.0, Lines(kv.1), Lines(MaskValue(kv.0, kv.1));
    PairPrefix(kv);
    PairPrefix(MaskPair(kv));
    MaskLines(key, kv.1);
    WordLine(key, lines[0]);
    LinesCons(key + "=" + lines[0], lines[1..]);
    var a, b := RedactLines(PairLines(kv)), PairLines(MaskPair(kv));
    assert a == [key + "=" + MaskValue(key, lines[0])] + RedactLines(lines[1..]);
    assert b == [key + "=" + masked[0]] + masked[1..];
    if |masked| == |lines| {
      assert a[0] == b[0];
      assert forall i :: 1 <= i < |lines| ==> a[i] == RedactLine(lines[i]) && b[i] == masked[i];
    }
  }

  // The law for a single pair.
  lemma PairCommutes(kv: Kv)
    ensures RedactIni(KvLine(kv)) == KvLine(MaskPair(kv)) <==> RedactsCleanly(kv.0, kv.1)
  {
    hide RedactsCleanly, RedactIni, RedactLine, Split, PairLines, MaskPair;
    PairTextLines(kv);
    PairTextLines(MaskPair(kv));
    RedactIsLinewise(KvLine(kv));
    LinesConcat(PairLines(kv), [""]);
    BlankLine();
    PairExact(kv);
    SplitInjective(RedactIni(KvLine(kv)), KvLine(MaskPair(kv)), '\n');
    SameCount(PairLines(kv));
    Halves(RedactLines(PairLines(kv)), [""], PairLines(MaskPair(kv)), [""]);
  }

  lemma BlankLine()
    ensures RedactLines([""]) == [""]
  {
    OneLine("");
    EmptyText();
  }

  lemma Halves<T>(a: seq<T>, b: seq<T>, c: seq<T>, d: seq<T>)
    requires |c| <= |a| && |d| <= |b|
    ensures a + b == c + d <==> a == c && b == d
  {
    if a + b == c + d {
      assert |a| == |c|;
      assert a == (a + b)[..|a|] && c == (c + d)[..|a|];
      assert b == (a + b)[|a|..] && d == (c + d)[|a|..];
    }
  }

  ghost predicate AllRedactCleanly(kv: seq<Kv>) {
    forall i :: 0 <= i < |kv| ==> RedactsCleanly(kv[i].0, kv[i].1)
  }

  lemma {:induction false} KvExact(kv: seq<Kv>)
    ensures |KvLines(MaskKv(kv))| <= |KvLines(kv)|
    ensures RedactLines(KvLines(kv)) == KvLines(MaskKv(kv)) <==> AllRedactCleanly(kv)
  {
    hide RedactsCleanly, PairLines, MaskPair;
    if kv == [] {
    } else {
      var n := |kv| - 1;
      KvExact(kv[..n]);
      PairExact(kv[n]);
      assert MaskKv(kv)[..n] == MaskKv(kv[..n]);
      hide RedactLines;
      LinesConcat(KvLines(kv[..n]), PairLines(kv[n]));
      SameCount(KvLines(kv[..n]));
      SameCount(PairLines(kv[n]));
      Halves(RedactLines(KvLines(kv[..n])), RedactLines(PairLines(kv[n])),
             KvLines(MaskKv(kv[..n])), PairLines(MaskPair(kv[n])));
    }
  }

  lemma SameCount(lines: seq<string>)
    ensures |RedactLines(lines)| == |lines|
  {
  }

  lemma SectionExact(s: Section, n: int)
    ensures var own, masked := GapLines(n) + SectionLines(s), GapLines(n) + SectionLines(MaskSection(s));
            && |masked| <= |own|
            && (RedactLines(own) == masked <==> AllRedactCleanly(s.kv))
  {
    hide RedactLine, KvLines, MaskKv, AllRedactCleanly;
    var head := GapLines(n) + ["[" + s.name + "]"];
    KvExact(s.kv);
    HeaderLine(s.name);
    OneLine("");
    EmptyText();
    assert RedactLines(head) == head;
    assert GapLines(n) + SectionLines(s) == head + KvLines(s.kv);
    assert GapLines(n) + SectionLines(MaskSection(s)) == head + KvLines(MaskKv(s.kv));
    hide RedactLines;
    LinesConcat(head, KvLines(s.kv));
    SameCount(KvLines(s.kv));
    Halves(head, RedactLines(KvLines(s.kv)), head, KvLines(MaskKv(s.kv)));
  }

  ghost predicate SectionsRedactCleanly(sections: seq<Section>) {
    forall i :: 0 <= i < |sections| ==> AllRedactCleanly(sections[i].kv)
  }

  lemma {:induction false} IniExact(sections: seq<Section>)
    ensures |IniLines(MaskSections(sections))| <= |IniLines(sections)|
    ensures RedactLines(IniLines(sections)) == IniLines(MaskSections(sections)) <==> SectionsRedactCleanly(sections)
  {
    hide AllRedactCleanly, SectionLines, GapLines, MaskSection;
    if sections == [] {
    } else {
      var n := |sections| - 1;
      IniExact(sections[..n]);
      SectionExact(sections[n], n);
      assert MaskSections(sections)[..n] == MaskSections(sections[..n]);
      hide RedactLines;
      var last, masked := GapLines(n) + SectionLines(sections[n]), GapLines(n) + SectionLines(MaskSection(sections[n]));
      LinesConcat(IniLines(sections[..n]), last);
      SameCount(IniLines(sections[..n]));
      SameCount(last);
      Halves(RedactLines(IniLines(sections[..n])), RedactLines(last), IniLines(MaskSections(sections[..n])), masked);
    }
  }

  /** Redacting the text is rendering the same sections and keys, each value masked by its key, exactly when every pair
      redacts cleanly. */
  lemma RedactionCommutes(sections: seq<Section>)
    ensures RedactIni(IniText(sections)) == IniText(MaskSections(sections)) <==> SectionsRedactCleanly(sections)
  {
    hide RedactIni, IniText, IniLines, MaskSections, SectionsRedactCleanly, RedactLine, Split;
    var text, masked := IniText(sections), IniText(MaskSections(sections));
    RedactIsLinewise(text);
    IniTextLines(sections);
    IniTextLines(MaskSections(sections));
    LinesConcat(IniLines(sections), [""]);
    BlankLine();
    IniExact(sections);
    SplitInjective(RedactIni(text), masked, '\n');
    SameCount(IniLines(sections));
    Halves(RedactLines(IniLines(sections)), [""], IniLines(MaskSections(sections)), [""]);
  }

  lemma RenderRedacts(task: Task)
    ensures RedactIni(IniText(Render(task))) == IniText(MaskSections(Render(task))) <==> SectionsRedactCleanly(Render(task))
  {
    RedactionCommutes(Render(task));
  }

  // What clean redaction asks of a value, by the kind of its key.
  lemma CleanByKey(key: string, value: string)
    ensures '\n' !in value ==> RedactsCleanly(key, value)
    ensures IsSecretKey(key) ==> (RedactsCleanly(key, value) <==> '\n' !in value)
    ensures !IsSecretKey(key) && !IsUrlKey(key) ==>
              (RedactsCleanly(key, value) <==>
               forall i :: 1 <= i < |Lines(value)| ==> RedactLine(Lines(value)[i]) == Lines(value)[i])
    ensures !IsSecretKey(key) && IsUrlKey(key) ==>
              (RedactsCleanly(key, value) <==>
               && |Lines(RedactUrl(value))| == |Lines(value)|
               && forall i :: 1 <= i < |Lines(value)| ==> RedactLine(Lines(value)[i]) == RedactUrl(Lines(value)[i]))
  {
    hide IsSecretKey, IsUrlKey, RedactUrl, Split, RedactLine;
    SplitNone(value, '\n');
    SplitNone(INI_REDACTED, '\n');
    UrlWithoutAt("");
    MaskLines(key, value);
  }

  // Of a secret over two lines, the second is left as it is unless it reads as a pair itself.
  lemma LineBreakShows(key: Word, a: string, b: string)
    requires IsSecretKey(key) && a != "" && '\n' !in a && '\n' !in b && '=' !in b
    ensures RedactLines(PairLines((key, a + "\n" + b))) == [key + "=" + INI_REDACTED, b]
  {
    UnpairedLine(b);
    WordLine(key, a);
    assert MaskValue(key, a) == INI_REDACTED;
    hide *;
    var value := a + "\n" + b;
    PairPrefix((key, value));
    TwoLines(a, b);
    assert PairLines((key, value)) == [key + "=" + a] + [b];
    LinesCons(key + "=" + a, [b]);
    LinesCons(b, []);
    LinesNone();
    assert [b] == [b] + [];
  }

  lemma LinesNone()
    ensures RedactLines([]) == []
  {
  }

  lemma TwoLines(a: string, b: string)
    requires '\n' !in a && '\n' !in b
    ensures Lines(a + "\n" + b) == [a, b]
  {
    hide Split;
    SplitFirst(a, b, '\n');
    SplitNone(b, '\n');
  }

  lemma UnpairedLine(line: string)
    requires '=' !in line
    ensures RedactLine(line) == line
  {
    assert IndexOf(line, '=') == |line|;
  }

  // A password of two lines breaks the law.
  lemma PasswordBreaks()
    ensures var sections := [Section("sinker", [("password", "a\nb")])];
            RedactIni(IniText(sections)) != IniText(MaskSections(sections))
  {
    PasswordIsSecret();
    hide IsSecretKey, RedactIni, IniText, MaskSections, RedactsCleanly;
    var sections := [Section("sinker", [("password", "a\nb")])];
    CleanByKey("password", "a\nb");
    assert "a\nb"[1] == '\n';
    RedactionCommutes(sections);
    assert sections[0].kv[0] == ("password", "a\nb");
  }

  lemma PasswordIsSecret()
    ensures IsSecretKey("password")
  {
    assert NormalizeKey("password") == "password";
    assert StartsAt("password", 0, "password");
  }
}
