/** What editing keys of the extractor column does to the rendered [extractor]. */
module ExtractorEdits {
  import opened Wrappers
  import opened Json
  import opened Ini

  // The two columns read alike under every key outside `keys`.
  ghost predicate AgreeOff(a: Json, b: Json, keys: set<string>) {
    forall k :: k !in keys ==> Field(a, k) == Field(b, k)
  }

  // The lines whose key is not in `keys`, in order.
  function Without(kv: seq<Kv>, keys: set<string>): seq<Kv> {
    if kv == [] then []
    else
      var n := |kv| - 1;
      Without(kv[..n], keys) + if kv[n].0 in keys then [] else [kv[n]]
  }

  lemma {:induction false} WithoutConcat(a: seq<Kv>, b: seq<Kv>, keys: set<string>)
    ensures Without(a + b, keys) == Without(a, keys) + Without(b, keys)
  {
    if b == [] {
      assert a + b == a;
    } else {
      var n := |b| - 1;
      assert (a + b)[..|a + b| - 1] == a + b[..n];
      WithoutConcat(a, b[..n], keys);
    }
  }

  lemma {:induction false} PushesAgree(a: Json, b: Json, specs: seq<Spec>, keys: set<string>)
    requires AgreeOff(a, b, keys)
    ensures Without(Pushes(a, specs), keys) == Without(Pushes(b, specs), keys)
  {
    hide Rendered, Field;
    if specs == [] {
    } else {
      var n := |specs| - 1;
      var key, form := specs[n].key, specs[n].form;
      PushesAgree(a, b, specs[..n], keys);
      var x, y := OptKv(key, Rendered(form, Field(a, key))), OptKv(key, Rendered(form, Field(b, key)));
      WithoutConcat(Pushes(a, specs[..n]), x, keys);
      WithoutConcat(Pushes(b, specs[..n]), y, keys);
      assert key in keys || x == y;
    }
  }

  // Every pushed line is some spec's rendering of the value under its key.
  lemma {:induction false} PushedFrom(j: Json, specs: seq<Spec>, i: int) returns (n: int)
    requires 0 <= i < |Pushes(j, specs)|
    ensures 0 <= n < |specs| && specs[n].key == Pushes(j, specs)[i].0
    ensures Rendered(specs[n].form, Field(j, specs[n].key)) == Some(Pushes(j, specs)[i].1)
  {
    hide Rendered, Field;
    n := |specs| - 1;
    if i < |Pushes(j, specs[..n])| {
      n := PushedFrom(j, specs[..n], i);
    }
  }

  lemma {:induction false} PushedAll(j: Json, specs: seq<Spec>, n: int, value: string)
    requires 0 <= n < |specs| && Rendered(specs[n].form, Field(j, specs[n].key)) == Some(value)
    ensures (specs[n].key, value) in Pushes(j, specs)
  {
    hide Rendered, Field;
    var last := |specs| - 1;
    if n < last {
      PushedAll(j, specs[..last], n, value);
    } else {
      assert (specs[n].key, value) in OptKv(specs[n].key, Some(value));
    }
  }

  const HEAD_KEYS := {"url", "username", "password", "connection_auth"}

  lemma HeadAgrees(dbType: string, t: string, a: Json, b: Json, endpoint: Json, keys: set<string>)
    requires AgreeOff(a, b, keys) && HEAD_KEYS !! keys
    ensures Head(dbType, "extract_type", t, a, endpoint) == Head(dbType, "extract_type", t, b, endpoint)
  {
    hide Field, OptKv, NonEmpty;
    assert "url" in HEAD_KEYS && "username" in HEAD_KEYS && "password" in HEAD_KEYS && "connection_auth" in HEAD_KEYS;
    assert UrlOf(a, endpoint) == UrlOf(b, endpoint);
    assert Credential(a, endpoint, "username") == Credential(b, endpoint, "username");
    assert Credential(a, endpoint, "password") == Credential(b, endpoint, "password");
  }

  // Outside the edited keys, the section is rendered line for line as before.
  lemma SectionAgrees(dbType: string, a: Json, b: Json, endpoint: Json, keys: set<string>)
    requires AgreeOff(a, b, keys) && HEAD_KEYS !! keys
    requires ExtractorSpecs(ExtractType(a)) == ExtractorSpecs(ExtractType(b))
    requires ExtractType(a) == ExtractType(b) || "extract_type" in keys
    ensures Without(RenderExtractor(dbType, a, endpoint).kv, keys) == Without(RenderExtractor(dbType, b, endpoint).kv, keys)
  {
    hide Head, Pushes, ExtractorSpecs, ExtractType, Without, AgreeOff;
    var ta, tb := ExtractType(a), ExtractType(b);
    var specs := ExtractorSpecs(ta);
    HeadAgrees(dbType, ta, a, b, endpoint, keys);
    HeadTypeOnly(dbType, ta, tb, b, endpoint, keys);
    PushesAgree(a, b, specs, keys);
    WithoutConcat(Head(dbType, "extract_type", ta, a, endpoint), Pushes(a, specs), keys);
    WithoutConcat(Head(dbType, "extract_type", tb, b, endpoint), Pushes(b, specs), keys);
  }

  lemma HeadTypeOnly(dbType: string, ta: string, tb: string, j: Json, endpoint: Json, keys: set<string>)
    requires ta == tb || "extract_type" in keys
    ensures Without(Head(dbType, "extract_type", ta, j, endpoint), keys) ==
            Without(Head(dbType, "extract_type", tb, j, endpoint), keys)
  {
    hide Access;
    var first: seq<Kv>, rest := [("db_type", dbType)], Access(j, endpoint);
    var x: seq<Kv>, y: seq<Kv> := [("extract_type", ta)], [("extract_type", tb)];
    assert Without(x, keys) == Without(y, keys);
    hide Without;
    WithoutConcat(first, x, keys);
    WithoutConcat(first, y, keys);
    WithoutConcat(first + x, rest, keys);
    WithoutConcat(first + y, rest, keys);
  }

  lemma {:induction false} WithoutKeepsKey(kv: seq<Kv>, keys: set<string>, key: Word)
    requires key !in keys
    ensures HasKey(Without(kv, keys), key) <==> HasKey(kv, key)
  {
    if kv == [] {
    } else {
      var n := |kv| - 1;
      var before, all := Without(kv[..n], keys), Without(kv, keys);
      WithoutKeepsKey(kv[..n], keys, key);
      assert forall i :: 0 <= i < |before| ==> all[i] == before[i];
      assert forall i :: 0 <= i < n ==> kv[..n][i] == kv[i];
      if HasKey(before, key) {
        var i :| 0 <= i < |before| && before[i].0 == key;
        assert all[i].0 == key;
        var j :| 0 <= j < n && kv[..n][j].0 == key;
        assert kv[j].0 == key;
      } else if kv[n].0 == key {
        assert all[|before|] == kv[n];
      }
    }
  }

  // Filling in missing keys goes on outside the dropped ones.
  lemma {:induction false} WithoutEnsure(kv: seq<Kv>, wanted: seq<Word>, keys: set<string>)
    requires forall i :: 0 <= i < |wanted| ==> wanted[i] !in keys
    ensures Without(Ensure(kv, wanted), keys) == Ensure(Without(kv, keys), wanted)
  {
    if wanted == [] {
    } else {
      var n := |wanted| - 1;
      var before := Ensure(kv, wanted[..n]);
      WithoutEnsure(kv, wanted[..n], keys);
      WithoutKeepsKey(before, keys, wanted[n]);
      WithoutConcat(before, [(wanted[n], "")], keys);
      assert Without([(wanted[n], "")], keys) == [(wanted[n], "")];
    }
  }
}
