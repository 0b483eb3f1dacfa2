/** Secret redaction of JSON documents, and its inverse on writes. */
module Redaction {
  import opened Wrappers
  import opened Json
  import opened Strings

  const REDACTED := "<redacted>"

  /******* Keys *******/

  predicate IsAlnum(c: char) {
    'a' <= c <= 'z' || 'A' <= c <= 'Z' || '0' <= c <= '9'
  }

  function NormalizeKey(key: string): string {
    if key == "" then "" else (if IsAlnum(key[0]) then [LowerChar(key[0])] else "") + NormalizeKey(key[1..])
  }

  predicate StartsAt(s: string, i: int, needle: string) {
    0 <= i <= |s| - |needle| && s[i..i + |needle|] == needle
  }

  predicate Contains(s: string, needle: string) {
    exists i :: 0 <= i <= |s| && StartsAt(s, i, needle)
  }

  predicate IsSecretKey(key: string) {
    var k := NormalizeKey(key);
    || Contains(k, "password") || Contains(k, "passwd") || Contains(k, "token") || Contains(k, "secret")
    || Contains(k, "apikey") || Contains(k, "accesskey") || Contains(k, "privatekey")
    || Contains(k, "credential") || Contains(k, "community") || Contains(k, "webhook")
  }

  predicate IsUrlKey(key: string) {
    var k := NormalizeKey(key);
    Contains(k, "url") || Contains(k, "uri") || Contains(k, "dsn")
  }

  /******* URLs *******/

  // url.find("://") from position `from` on
  function FindScheme(url: string, from: nat): (r: Option<nat>)
    ensures r.Some? ==> from <= r.value <= |url| - 3 && StartsAt(url, r.value, "://")
    ensures r.Some? ==> forall i :: from <= i < r.value ==> !StartsAt(url, i, "://")
    ensures r.None? ==> forall i :: from <= i ==> !StartsAt(url, i, "://")
    decreases |url| - from
  {
    if from + 3 > |url| then None
    else if StartsAt(url, from, "://") then Some(from)
    else FindScheme(url, from + 1)
  }

  // s.rfind('@')
  function LastAt(s: string): (r: Option<nat>)
    ensures r.Some? ==> r.value < |s| && s[r.value] == '@' && forall i :: r.value < i < |s| ==> s[i] != '@'
    ensures r.None? ==> forall i :: 0 <= i < |s| ==> s[i] != '@'
  {
    if s == "" then None
    else if s[|s| - 1] == '@' then Some(|s| - 1)
    else LastAt(s[..|s| - 1])
  }

  function RedactUrl(url: string): string {
    var scheme := FindScheme(url, 0);
    if scheme.None? then url
    else
      var host := scheme.value + 3;
      var at := LastAt(url[host..]);
      if at.None? then url else url[..host] + "***" + url[host + at.value..]
  }

  lemma StartsInPrefix(url: string, n: nat, i: nat)
    requires i + 3 <= n <= |url|
    ensures StartsAt(url[..n], i, "://") <==> StartsAt(url, i, "://")
  {
    assert url[..n][i..i + 3] == url[i..i + 3];
  }

  // The first "://" is found in the prefix that ends with it.
  lemma SchemeInPrefix(url: string, e: nat)
    requires e + 3 <= |url|
    ensures FindScheme(url[..e + 3], 0) == Some(e) <==> FindScheme(url, 0) == Some(e)
  {
    hide StartsAt, FindScheme;
    var prefix := url[..e + 3];
    var inPrefix, inUrl := FindScheme(prefix, 0), FindScheme(url, 0);
    StartsInPrefix(url, e + 3, e);
    if inPrefix.Some? {
      StartsInPrefix(url, e + 3, inPrefix.value);
    }
    if inUrl.Some? && inUrl.value <= e {
      StartsInPrefix(url, e + 3, inUrl.value);
    }
  }

  lemma LastAtIn(middle: string, suffix: string)
    requires suffix != "" && suffix[0] == '@' && forall i :: 1 <= i < |suffix| ==> suffix[i] != '@'
    ensures LastAt(middle + suffix) == Some(|middle|)
  {
    var s := middle + suffix;
    assert s[|middle|] == '@';
    assert forall i :: |middle| < i < |s| ==> s[i] == suffix[i - |middle|];
  }

  lemma Parts(a: string, b: string, c: string)
    ensures (a + b + c)[..|a|] == a && (a + b + c)[|a|..] == b + c && (a + b + c)[|a| + |b|..] == c
  {
  }

  lemma RedactUrlBy(url: string, host: nat, at: nat)
    requires 3 <= host <= |url| && FindScheme(url, 0) == Some(host - 3) && LastAt(url[host..]) == Some(at)
    ensures RedactUrl(url) == url[..host] + "***" + url[host + at..]
  {
    hide FindScheme, StartsAt, LastAt;
  }

  // Whatever stands between the scheme and the last `@` is replaced.
  lemma RedactUrlParts(prefix: string, middle: string, suffix: string)
    requires |prefix| >= 3 && FindScheme(prefix, 0) == Some(|prefix| - 3)
    requires suffix != "" && suffix[0] == '@' && forall i :: 1 <= i < |suffix| ==> suffix[i] != '@'
    ensures RedactUrl(prefix + middle + suffix) == prefix + "***" + suffix
  {
    hide StartsAt, FindScheme, LastAt, RedactUrl;
    var url := prefix + middle + suffix;
    Parts(prefix, middle, suffix);
    SchemeInPrefix(url, |prefix| - 3);
    LastAtIn(middle, suffix);
    RedactUrlBy(url, |prefix|, |middle|);
  }

  lemma RedactedParts(url: string) returns (prefix: string, suffix: string)
    requires RedactUrl(url) != url
    ensures |prefix| >= 3 && FindScheme(prefix, 0) == Some(|prefix| - 3)
    ensures suffix != "" && suffix[0] == '@' && forall i :: 1 <= i < |suffix| ==> suffix[i] != '@'
    ensures RedactUrl(url) == prefix + "***" + suffix
  {
    hide StartsAt, FindScheme, LastAt;
    var host := FindScheme(url, 0).value + 3;
    var at := LastAt(url[host..]).value;
    SchemeInPrefix(url, host - 3);
    prefix, suffix := url[..host], url[host + at..];
    assert forall i :: 0 <= i < |suffix| ==> suffix[i] == url[host..][at + i];
  }

  // Redacting a URL twice is redacting it once.
  lemma RedactUrlTwice(url: string)
    ensures RedactUrl(RedactUrl(url)) == RedactUrl(url)
  {
    hide RedactUrl;
    if RedactUrl(url) != url {
      var prefix, suffix := RedactedParts(url);
      RedactUrlParts(prefix, "***", suffix);
    }
  }

  /******* Redact and restore *******/

  // What a client sees in place of a string under `key`.
  function Masked(key: string, s: string): string {
    if s == "" then s
    else if IsSecretKey(key) then REDACTED
    else if IsUrlKey(key) then RedactUrl(s)
    else s
  }

  function Redact(v: Json): Json {
    match v
    case Obj(fields) => Obj(map k | k in fields :: if fields[k].Str? then Str(Masked(k, fields[k].s)) else Redact(fields[k]))
    case Arr(items) => Arr(seq(|items|, i requires 0 <= i < |items| => Redact(items[i])))
    case _ => v
  }

  // Did the client send back the placeholder of the stored string?
  predicate Echoes(key: string, incoming: string, stored: string) {
    (IsSecretKey(key) && incoming == REDACTED) || (IsUrlKey(key) && incoming == RedactUrl(stored))
  }

  function RestoreString(key: string, incoming: string, stored: string): string {
    if Echoes(key, incoming, stored) then stored else incoming
  }

  function Restore(incoming: Json, stored: Json): Json
    decreases incoming, 0
  {
    match (incoming, stored)
    case (Obj(fields), Obj(_)) => Obj(map k | k in fields :: RestoreField(k, fields[k], Field(stored, k)))
    case (Arr(items), Arr(was)) =>
      Arr(seq(|items|, i requires 0 <= i < |items| => if i < |was| then Restore(items[i], was[i]) else items[i]))
    case _ => incoming
  }

  function RestoreField(key: string, incoming: Json, stored: Option<Json>): Json
    decreases incoming, 1
  {
    if stored.None? then incoming
    else if incoming.Str? && stored.value.Str? then Str(RestoreString(key, incoming.s, stored.value.s))
    else Restore(incoming, stored.value)
  }

  // Reading a document redacted and writing it back unedited loses nothing.
  lemma {:induction false} RestoreUndoesRedact(v: Json)
    ensures Restore(Redact(v), v) == v
  {
    hide IsSecretKey, IsUrlKey, RedactUrl;
    match v
    case Obj(fields) =>
      forall k | k in fields
        ensures RestoreField(k, Redact(v).fields[k], Field(v, k)) == fields[k]
      {
        if !fields[k].Str? {
          RestoreUndoesRedact(fields[k]);
          RedactKeepsStrings(fields[k]);
        } else {
          MaskedRestores(k, fields[k].s);
        }
      }
    case Arr(items) =>
      forall i | 0 <= i < |items| ensures Restore(Redact(items[i]), items[i]) == items[i] {
        RestoreUndoesRedact(items[i]);
      }
    case _ =>
  }

  lemma RedactKeepsStrings(v: Json)
    ensures Redact(v).Str? <==> v.Str?
  {
  }

  lemma MaskedRestores(key: string, s: string)
    ensures RestoreString(key, Masked(key, s), s) == s
  {
    hide IsSecretKey, IsUrlKey;
    assert RedactUrl("") == "";
  }

  lemma {:induction false} RedactTwice(v: Json)
    ensures Redact(Redact(v)) == Redact(v)
  {
    hide IsSecretKey, IsUrlKey, RedactUrl;
    match v
    case Obj(fields) =>
      forall k | k in fields
        ensures Redact(Redact(v)).fields[k] == Redact(v).fields[k]
      {
        if fields[k].Str? {
          MaskedTwice(k, fields[k].s);
        } else {
          RedactTwice(fields[k]);
          RedactKeepsStrings(fields[k]);
        }
      }
    case Arr(items) =>
      forall i | 0 <= i < |items| ensures Redact(Redact(items[i])) == Redact(items[i]) {
        RedactTwice(items[i]);
      }
    case _ =>
  }

  lemma MaskedTwice(key: string, s: string)
    ensures Masked(key, Masked(key, s)) == Masked(key, s)
  {
    hide IsSecretKey, IsUrlKey;
    RedactUrlTwice(s);
  }

  /******* Editing one string *******/

  datatype Hop = Key(key: string) | Index(i: nat)

  function At(v: Json, hop: Hop): Option<Json> {
    match hop
    case Key(k) => Field(v, k)
    case Index(i) => if v.Arr? && i < |v.items| then Some(v.items[i]) else None
  }

  // The string at the end of a path, if the path leads to one.
  function Leaf(v: Json, path: seq<Hop>): Option<string> {
    if path == [] then (if v.Str? then Some(v.s) else None)
    else
      var next := At(v, path[0]);
      if next.None? then None else Leaf(next.value, path[1..])
  }

  function Edit(v: Json, path: seq<Hop>, s: string): Json
    requires Leaf(v, path).Some?
    decreases |path|
  {
    if path == [] then Str(s)
    else
      match path[0]
      case Key(k) => Obj(v.fields[k := Edit(v.fields[k], path[1..], s)])
      case Index(i) => Arr(v.items[i := Edit(v.items[i], path[1..], s)])
  }

  // `s` is the placeholder of the stored string at `path`, which only a string under a key has.
  predicate IsPlaceholder(stored: Json, path: seq<Hop>, s: string) {
    && path != []
    && path[|path| - 1].Key?
    && var was := Leaf(stored, path); was.Some? && Echoes(path[|path| - 1].key, s, was.value)
  }

  lemma RestoreLeaf(x: Json, v: Json, path: seq<Hop>)
    requires Leaf(x, path).Some?
    ensures Leaf(Restore(x, v), path).Some?
    decreases |path|
  {
    if path != [] {
      var hop := path[0];
      var next := At(v, hop);
      if next.Some? && v.Obj? == x.Obj? {
        RestoreLeaf(At(x, hop).value, next.value, path[1..]);
      }
    }
  }

  // Restoring an edited document is editing the restored one, at exactly the strings that are not
  // placeholders of what is stored (or that equal it anyway): only the edited leaf changes.
  lemma {:induction false} EditCommutes(x: Json, v: Json, path: seq<Hop>, s: string)
    requires Leaf(x, path).Some?
    ensures Leaf(Restore(x, v), path).Some?
    ensures Restore(Edit(x, path, s), v) == Edit(Restore(x, v), path, s) <==>
            !IsPlaceholder(v, path, s) || Leaf(v, path) == Some(s)
    decreases |path|
  {
    RestoreLeaf(x, v, path);
    if path == [] {
    } else {
      match path[0]
      case Key(k) => EditUnderKey(x, v, path, s);
      case Index(i) => EditUnderIndex(x, v, path, s);
    }
  }

  lemma {:induction false} EditUnderKey(x: Json, v: Json, path: seq<Hop>, s: string)
    requires Leaf(x, path).Some? && path != [] && path[0].Key?
    requires Leaf(Restore(x, v), path).Some?
    ensures Restore(Edit(x, path, s), v) == Edit(Restore(x, v), path, s) <==>
            !IsPlaceholder(v, path, s) || Leaf(v, path) == Some(s)
    decreases |path|, 0
  {
    hide IsSecretKey, IsUrlKey, RedactUrl;
    var k := path[0].key;
    var rest := path[1..];
    var a, b := Restore(Edit(x, path, s), v), Edit(Restore(x, v), path, s);
    assert a.Obj? && b.Obj?;
    assert forall c :: c != k && c in a.fields ==> c in b.fields && a.fields[c] == b.fields[c];
    assert a == b <==> a.fields[k] == b.fields[k];
    var next := Field(v, k);
    assert rest == [] <==> x.fields[k].Str?;
    assert Leaf(v, path) == if next.None? then None else Leaf(next.value, rest);
    if rest == [] {
    } else {
      assert path[|path| - 1] == rest[|rest| - 1];
    }
    if next.Some? && !(x.fields[k].Str? && next.value.Str?) {
      EditCommutes(x.fields[k], next.value, rest, s);
    }
  }

  lemma {:induction false} EditUnderIndex(x: Json, v: Json, path: seq<Hop>, s: string)
    requires Leaf(x, path).Some? && path != [] && path[0].Index?
    requires Leaf(Restore(x, v), path).Some?
    ensures Restore(Edit(x, path, s), v) == Edit(Restore(x, v), path, s) <==>
            !IsPlaceholder(v, path, s) || Leaf(v, path) == Some(s)
    decreases |path|, 0
  {
    hide IsSecretKey, IsUrlKey, RedactUrl;
    var i := path[0].i;
    var rest := path[1..];
    var a, b := Restore(Edit(x, path, s), v), Edit(Restore(x, v), path, s);
    assert a.Arr? && b.Arr? && |a.items| == |b.items|;
    assert forall c :: 0 <= c < |a.items| && c != i ==> a.items[c] == b.items[c];
    assert a == b <==> a.items[i] == b.items[i];
    if v.Arr? && i < |v.items| {
      EditCommutes(x.items[i], v.items[i], rest, s);
      if rest != [] {
        assert path[|path| - 1] == rest[|rest| - 1];
      }
    }
  }

  lemma RedactLeaf(v: Json, path: seq<Hop>)
    requires Leaf(v, path).Some?
    ensures Leaf(Redact(v), path).Some?
    decreases |path|
  {
    if path != [] {
      RedactLeaf(At(v, path[0]).value, path[1..]);
    }
  }

  // The client's round trip: read redacted, change one string to something that is no placeholder, write.
  // The stored document changes at that string only.
  lemma EditRoundTrip(v: Json, path: seq<Hop>, s: string)
    requires Leaf(v, path).Some? && !IsPlaceholder(v, path, s)
    ensures Leaf(Redact(v), path).Some? && Restore(Edit(Redact(v), path, s), v) == Edit(v, path, s)
  {
    RedactLeaf(v, path);
    EditCommutes(Redact(v), v, path, s);
    RestoreUndoesRedact(v);
  }
}
