/** What a client sees of a document: which keys are secret, what stands at each leaf, and what cannot be told apart. */
module Secrets {
  import opened Wrappers
  import opened Json
  import opened Strings
  import opened Redaction

  /******* Which keys are secret, by their letters *******/

  // ASCII capitals read as small letters, everything else as itself.
  predicate ReadsAs(c: char, d: char) {
    if 'A' <= c <= 'Z' then d as int == c as int + 32 else d == c
  }

  predicate Letter(c: char) {
    'a' <= c <= 'z' || 'A' <= c <= 'Z' || '0' <= c <= '9'
  }

  // The letters and digits of `text`, in order, read as `word`.
  predicate Spells(text: string, word: string) {
    if text == "" then word == ""
    else if Letter(text[0]) then word != "" && ReadsAs(text[0], word[0]) && Spells(text[1..], word[1..])
    else Spells(text[1..], word)
  }

  // Some stretch of the key spells the word.
  ghost predicate Mentions(key: string, word: string) {
    exists i, j :: 0 <= i <= j <= |key| && Spells(key[i..j], word)
  }

  lemma {:induction false} SpellsNormalized(text: string, word: string)
    ensures Spells(text, word) <==> NormalizeKey(text) == word
  {
    if text == "" {
    } else {
      var rest := NormalizeKey(text[1..]);
      if Letter(text[0]) {
        if word != "" {
          SpellsNormalized(text[1..], word[1..]);
          assert word == [word[0]] + word[1..];
          assert ([LowerChar(text[0])] + rest)[1..] == rest;
        }
      } else {
        SpellsNormalized(text[1..], word);
      }
    }
  }

  lemma {:induction false} NormalizeConcat(a: string, b: string)
    ensures NormalizeKey(a + b) == NormalizeKey(a) + NormalizeKey(b)
  {
    hide IsAlnum, LowerChar;
    if a == "" {
      assert a + b == b;
    } else {
      var head := if IsAlnum(a[0]) then [LowerChar(a[0])] else "";
      assert (a + b)[0] == a[0] && (a + b)[1..] == a[1..] + b;
      NormalizeConcat(a[1..], b);
      assert (head + NormalizeKey(a[1..])) + NormalizeKey(b) == head + (NormalizeKey(a[1..]) + NormalizeKey(b));
    }
  }

  // Every prefix of the normalized key is that of a prefix of the key.
  lemma {:induction false} CutAt(key: string, p: nat) returns (i: nat)
    requires p <= |NormalizeKey(key)|
    ensures i <= |key| && NormalizeKey(key[..i]) == NormalizeKey(key)[..p] && NormalizeKey(key[i..]) == NormalizeKey(key)[p..]
  {
    if p == 0 {
      i := 0;
      assert key[0..] == key;
    } else {
      var head, rest := NormalizeKey([key[0]]), key[1..];
      assert key == [key[0]] + rest;
      NormalizeConcat([key[0]], rest);
      assert [key[0]][1..] == "";
      var j := CutAt(rest, p - |head|);
      i := j + 1;
      assert key[..i] == [key[0]] + rest[..j] && key[i..] == rest[j..];
      NormalizeConcat([key[0]], rest[..j]);
      assert NormalizeKey(key)[..p] == head + NormalizeKey(rest)[..p - |head|];
      assert NormalizeKey(key)[p..] == NormalizeKey(rest)[p - |head|..];
    }
  }

  lemma MentionsContains(key: string, word: string)
    ensures Mentions(key, word) <==> Contains(NormalizeKey(key), word)
  {
    hide NormalizeKey, Spells;
    var all := NormalizeKey(key);
    if Mentions(key, word) {
      var i, j :| 0 <= i <= j <= |key| && Spells(key[i..j], word);
      SpellsNormalized(key[i..j], word);
      assert key == key[..i] + key[i..j] + key[j..];
      NormalizeConcat(key[..i] + key[i..j], key[j..]);
      NormalizeConcat(key[..i], key[i..j]);
      var p := |NormalizeKey(key[..i])|;
      assert all[p..p + |word|] == word;
      assert StartsAt(all, p, word);
    }
    if Contains(all, word) {
      var p :| 0 <= p <= |all| && StartsAt(all, p, word);
      var i := CutAt(key, p);
      var j := CutAt(key[i..], |word|);
      assert NormalizeKey(key[i..])[..|word|] == word;
      assert key[i..][..j] == key[i..i + j];
      SpellsNormalized(key[i..i + j], word);
    }
  }

  // A key is secret exactly when it spells one of ten words, whatever its case and punctuation.
  lemma SecretKeys(key: string)
    ensures IsSecretKey(key) <==>
            || Mentions(key, "password") || Mentions(key, "passwd") || Mentions(key, "token") || Mentions(key, "secret")
            || Mentions(key, "apikey") || Mentions(key, "accesskey") || Mentions(key, "privatekey")
            || Mentions(key, "credential") || Mentions(key, "community") || Mentions(key, "webhook")
  {
    hide Mentions, Contains, NormalizeKey;
    MentionsContains(key, "password");
    MentionsContains(key, "passwd");
    MentionsContains(key, "token");
    MentionsContains(key, "secret");
    MentionsContains(key, "apikey");
    MentionsContains(key, "accesskey");
    MentionsContains(key, "privatekey");
    MentionsContains(key, "credential");
    MentionsContains(key, "community");
    MentionsContains(key, "webhook");
  }

  lemma UrlKeys(key: string)
    ensures IsUrlKey(key) <==> Mentions(key, "url") || Mentions(key, "uri") || Mentions(key, "dsn")
  {
    hide Mentions, Contains, NormalizeKey;
    MentionsContains(key, "url");
    MentionsContains(key, "uri");
    MentionsContains(key, "dsn");
  }

  /******* URLs *******/

  // What stands between the first `://` and the last `@` is masked.
  lemma UrlMasked(scheme: string, user: string, host: string)
    requires forall i :: 0 <= i < |scheme| ==> !StartsAt(scheme + "://", i, "://")
    requires '@' !in host
    ensures RedactUrl(scheme + "://" + user + "@" + host) == scheme + "://***@" + host
  {
    var prefix, suffix := scheme + "://", "@" + host;
    assert StartsAt(prefix, |scheme|, "://");
    assert FindScheme(prefix, 0) == Some(|prefix| - 3);
    hide StartsAt, FindScheme, RedactUrl;
    RedactUrlParts(prefix, user, suffix);
    assert scheme + "://" + user + "@" + host == prefix + user + suffix;
    assert prefix + "***" + suffix == scheme + "://***@" + host;
  }

  // Without a scheme, or without an `@` behind it, a URL stays as it is.
  lemma UrlKept(url: string)
    requires forall i, j :: 0 <= i < |url| && i + 3 <= j < |url| && StartsAt(url, i, "://") ==> url[j] != '@'
    ensures RedactUrl(url) == url
  {
    hide StartsAt, FindScheme, LastAt;
    var scheme := FindScheme(url, 0);
    if scheme.Some? {
      var host := scheme.value + 3;
      assert forall j :: 0 <= j < |url[host..]| ==> url[host..][j] == url[host + j];
    }
  }

  /******* What stands at each leaf *******/

  lemma {:induction false} LeafUnder(v: Json, path: seq<Hop>)
    requires Leaf(v, path).Some? && path != []
    ensures var s, last := Leaf(v, path).value, path[|path| - 1];
            Leaf(Redact(v), path) == Some(if last.Key? then Masked(last.key, s) else s)
    decreases |path|
  {
    hide Masked;
    var next, rest := At(v, path[0]).value, path[1..];
    if rest == [] {
      assert Leaf(next, []) == Leaf(v, path);
    } else {
      LeafUnder(next, rest);
      assert rest[|rest| - 1] == path[|path| - 1];
      RedactKeepsStrings(next);
    }
  }

  // A non-empty secret reads `<redacted>`, a URL its masked form, and everything else itself.
  lemma RedactedLeaf(v: Json, path: seq<Hop>)
    requires Leaf(v, path).Some?
    ensures var s, seen := Leaf(v, path).value, Leaf(Redact(v), path);
            if path == [] || path[|path| - 1].Index? || s == "" then seen == Some(s)
            else if IsSecretKey(path[|path| - 1].key) then seen == Some("<redacted>")
            else if IsUrlKey(path[|path| - 1].key) then seen == Some(RedactUrl(s))
            else seen == Some(s)
  {
    hide IsSecretKey, IsUrlKey, RedactUrl;
    if path == [] {
    } else {
      LeafUnder(v, path);
    }
  }

  /******* What cannot be told apart *******/

  // Alike but for what redaction hides: secrets that are both empty or both not, and URLs with the same masked form.
  ghost predicate SameToClient(a: Json, b: Json)
    decreases a, 0
  {
    match (a, b)
    case (Obj(x), Obj(y)) => x.Keys == y.Keys && forall k :: k in x ==> SameField(k, x[k], y[k])
    case (Arr(x), Arr(y)) => |x| == |y| && forall i :: 0 <= i < |x| ==> SameToClient(x[i], y[i])
    case _ => a == b
  }

  ghost predicate SameField(key: string, a: Json, b: Json)
    decreases a, 1
  {
    if !a.Str? || !b.Str? then SameToClient(a, b)
    else if IsSecretKey(key) then a.s == "" <==> b.s == ""
    else if IsUrlKey(key) then RedactUrl(a.s) == RedactUrl(b.s)
    else a.s == b.s
  }

  lemma MaskedTells(key: string, s: string, t: string)
    ensures Masked(key, s) == Masked(key, t) <==> SameField(key, Str(s), Str(t))
  {
    hide IsSecretKey, IsUrlKey, RedactUrl;
    UrlKept("");
  }

  function RedactField(key: string, v: Json): Json {
    if v.Str? then Str(Masked(key, v.s)) else Redact(v)
  }

  lemma RedactObj(fields: map<string, Json>)
    ensures Redact(Obj(fields)) == Obj(map k | k in fields :: RedactField(k, fields[k]))
  {
    hide Masked;
  }

  lemma RedactArr(items: seq<Json>)
    ensures Redact(Arr(items)).Arr?
    ensures |Redact(Arr(items)).items| == |items|
    ensures forall i :: 0 <= i < |items| ==> Redact(Arr(items)).items[i] == Redact(items[i])
  {
  }

  // Two documents read alike exactly when they differ in hidden parts only.
  lemma {:induction false} RedactTells(a: Json, b: Json)
    ensures Redact(a) == Redact(b) <==> SameToClient(a, b)
    decreases a, 2
  {
    match (a, b)
    case (Obj(x), Obj(y)) => ObjTells(a, b);
    case (Arr(x), Arr(y)) => ArrTells(a, b);
    case _ =>
  }

  lemma {:induction false} ObjTells(a: Json, b: Json)
    requires a.Obj? && b.Obj?
    ensures Redact(a) == Redact(b) <==> SameToClient(a, b)
    decreases a, 1
  {
    hide Redact, RedactField, SameField;
    var x, y := a.fields, b.fields;
    RedactObj(x);
    RedactObj(y);
    var p, q := map k | k in x :: RedactField(k, x[k]), map k | k in y :: RedactField(k, y[k]);
    assert p.Keys == x.Keys && q.Keys == y.Keys;
    if x.Keys == y.Keys {
      forall k | k in x ensures p[k] == q[k] <==> SameField(k, x[k], y[k]) {
        FieldTells(k, x[k], y[k]);
      }
      assert p == q <==> forall k :: k in x ==> p[k] == q[k];
    }
  }

  lemma {:induction false} ArrTells(a: Json, b: Json)
    requires a.Arr? && b.Arr?
    ensures Redact(a) == Redact(b) <==> SameToClient(a, b)
    decreases a, 1
  {
    hide Redact;
    var x, y := a.items, b.items;
    RedactArr(x);
    RedactArr(y);
    var p, q := Redact(a).items, Redact(b).items;
    if |x| == |y| {
      forall i | 0 <= i < |x| ensures p[i] == q[i] <==> SameToClient(x[i], y[i]) {
        RedactTells(x[i], y[i]);
      }
      assert p == q <==> forall i :: 0 <= i < |x| ==> p[i] == q[i];
    }
  }

  lemma {:induction false} FieldTells(key: string, a: Json, b: Json)
    ensures RedactField(key, a) == RedactField(key, b) <==> SameField(key, a, b)
    decreases a, 3
  {
    RedactKeepsStrings(a);
    RedactKeepsStrings(b);
    if a.Str? && b.Str? {
      MaskedTells(key, a.s, b.s);
    } else if !a.Str? && !b.Str? {
      RedactTells(a, b);
    }
  }

  // In particular a secret does not show: putting any other non-empty one in its place is not seen.
  lemma {:induction false} SecretDoesNotShow(v: Json, path: seq<Hop>, s: string)
    requires Leaf(v, path).Some? && path != [] && path[|path| - 1].Key? && IsSecretKey(path[|path| - 1].key)
    requires Leaf(v, path).value != "" && s != ""
    ensures Redact(Edit(v, path, s)) == Redact(v)
    decreases |path|
  {
    hide IsSecretKey, IsUrlKey, RedactUrl;
    var next, rest := At(v, path[0]).value, path[1..];
    assert Leaf(next, rest) == Leaf(v, path);
    if rest == [] {
      assert Redact(Edit(v, path, s)).fields == Redact(v).fields;
    } else {
      assert rest[|rest| - 1] == path[|path| - 1];
      SecretDoesNotShow(next, rest, s);
      RedactKeepsStrings(next);
      RedactKeepsStrings(Edit(next, rest, s));
      match path[0]
      case Key(k) => assert Redact(Edit(v, path, s)).fields == Redact(v).fields;
      case Index(i) => assert Redact(Edit(v, path, s)).items == Redact(v).items;
    }
  }

  /******* What counts as sent back unchanged *******/

  // Only the placeholder of a secret and the masked form of the stored URL restore what is stored.
  lemma PlaceholderIs(stored: Json, path: seq<Hop>, s: string)
    requires Leaf(stored, path).Some?
    ensures IsPlaceholder(stored, path, s) <==>
            && path != [] && path[|path| - 1].Key?
            && var key := path[|path| - 1].key;
               (IsSecretKey(key) && s == "<redacted>") || (IsUrlKey(key) && s == RedactUrl(Leaf(stored, path).value))
  {
    hide IsSecretKey, IsUrlKey, RedactUrl, Leaf;
  }
}
