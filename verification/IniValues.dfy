/** What the rendered lines say: which columns they come from, how values are written, and the defaults. */
module IniValues {
  import opened Wrappers
  import opened Strings
  import opened Json
  import opened Ini
  import opened ExtractorEdits

  /******* Numbers and lists *******/

  lemma DigitReads(n: nat)
    requires n < 10
    ensures '0' <= Digit(n) <= '9' && Digit(n) as int - '0' as int == n
  {
  }

  lemma DigitsSnoc(s: string, d: char)
    requires IsDigits(s) && '0' <= d <= '9'
    ensures IsDigits(s + [d]) && DigitsValue(s + [d]) == 10 * DigitsValue(s) + (d as int - '0' as int)
  {
    assert (s + [d])[..|s|] == s;
  }

  // A number is written in decimal without leading zeros, and reads back as itself.
  lemma {:induction false} NumberReadsBack(n: nat)
    ensures IsDigits(NatText(n)) && DigitsValue(NatText(n)) == n
    ensures n > 0 ==> NatText(n)[0] != '0'
    ensures n == 0 ==> NatText(n) == "0"
  {
    DigitReads(n % 10);
    if n < 10 {
      assert NatText(n)[..0] == "";
    } else {
      NumberReadsBack(n / 10);
      DigitsSnoc(NatText(n / 10), Digit(n % 10));
    }
  }

  // A numeric column may also hold its own text: both are written alike.
  lemma NumberOrText(n: nat)
    requires n < 0x1_0000_0000_0000_0000
    ensures Rendered(NatOrText, Some(Str(NatText(n)))) == Rendered(NatOrText, Some(Num(PosInt(n)))) == Some(NatText(n))
  {
    NumberReadsBack(n);
    hide NatText, DigitsValue;
  }

  function Texts(items: seq<Json>): seq<string> {
    if items == [] then []
    else
      var n := |items| - 1;
      Texts(items[..n]) + if items[n].Str? && items[n].s != "" then [items[n].s] else []
  }

  lemma {:induction false} JoinSnoc(parts: seq<string>, last: string, c: char)
    requires parts != []
    ensures Join(parts + [last], c) == Join(parts, c) + [c] + last
  {
    if |parts| == 1 {
      assert (parts + [last])[1..] == [last];
    } else {
      assert (parts + [last])[1..] == parts[1..] + [last];
      JoinSnoc(parts[1..], last, c);
      assert parts[0] + [c] + (Join(parts[1..], c) + [c] + last) == parts[0] + [c] + Join(parts[1..], c) + [c] + last;
    }
  }

  lemma {:induction false} JoinNotEmpty(parts: seq<string>, c: char)
    requires parts != [] && parts[0] != ""
    ensures Join(parts, c) != ""
  {
  }

  lemma {:induction false} TextsNotEmpty(items: seq<Json>)
    ensures forall i :: 0 <= i < |Texts(items)| ==> Texts(items)[i] != ""
  {
    if items == [] {
    } else {
      TextsNotEmpty(items[..|items| - 1]);
    }
  }

  // A list is written as its non-empty strings with commas between them.
  lemma {:induction false} ListIsJoined(items: seq<Json>)
    ensures JoinStrings(items) == if Texts(items) == [] then "" else Join(Texts(items), ',')
  {
    if items == [] {
    } else {
      var n := |items| - 1;
      var before := Texts(items[..n]);
      ListIsJoined(items[..n]);
      TextsNotEmpty(items[..n]);
      if before != [] {
        JoinNotEmpty(before, ',');
        if items[n].Str? && items[n].s != "" {
          JoinSnoc(before, items[n].s, ',');
        } else {
          assert Texts(items) == before;
        }
      }
    }
  }

  // How each form writes a value, and when it writes none.
  lemma FormsWrite(v: Json)
    ensures Rendered(Text, Some(v)) ==
            match v
            case Str(s) => if s == "" then None else Some(s)
            case Arr(items) => if Texts(items) == [] then None else Some(Join(Texts(items), ','))
            case _ => None
    ensures Rendered(Nat, Some(v)) == if v.Num? && v.num.PosInt? then Some(NatText(v.num.n)) else None
    ensures Rendered(Flag, Some(v)) == if v == Bool(true) then Some("true") else if v == Bool(false) then Some("false") else None
    ensures Rendered(Required, Some(v)) == if v.Str? then Some(v.s) else Some("")
  {
    hide NatText, Join, Texts, JoinStrings;
    if v.Arr? {
      ListIsJoined(v.items);
      TextsNotEmpty(v.items);
      if Texts(v.items) != [] {
        JoinNotEmpty(Texts(v.items), ',');
      }
    }
  }

  lemma AbsentWritesNothing()
    ensures Rendered(Text, None) == Rendered(Nat, None) == Rendered(NatOrText, None) == Rendered(Flag, None) == None
    ensures Rendered(Required, None) == Some("")
  {
  }

  /******* Where a line comes from *******/

  // A line of [extractor] is one of its head, or writes the column under its own key in the form the type gives it.
  lemma ExtractorLines(dbType: string, extractor: Json, endpoint: Json, line: Kv)
    ensures var t := ExtractType(extractor);
            line in RenderExtractor(dbType, extractor, endpoint).kv <==>
            || line in Head(dbType, "extract_type", t, extractor, endpoint)
            || exists n :: 0 <= n < |ExtractorSpecs(t)| && Writes(extractor, ExtractorSpecs(t)[n], line)
  {
    hide Head, ExtractorSpecs, Pushes, Writes;
    PushedLines(extractor, ExtractorSpecs(ExtractType(extractor)), line);
  }

  lemma SinkerLines(dbType: string, sinker: Json, endpoint: Json, line: Kv)
    ensures var t := SinkType(sinker);
            line in RenderSinker(dbType, sinker, endpoint).kv <==>
            || line in Head(dbType, "sink_type", t, sinker, endpoint)
            || exists n :: 0 <= n < |SinkerSpecs(t)| && Writes(sinker, SinkerSpecs(t)[n], line)
  {
    hide Head, SinkerSpecs, Pushes, Writes;
    PushedLines(sinker, SinkerSpecs(SinkType(sinker)), line);
  }

  ghost predicate Writes(j: Json, spec: Spec, line: Kv) {
    line.0 == spec.key && Rendered(spec.form, Field(j, spec.key)) == Some(line.1)
  }

  lemma PushedLines(j: Json, specs: seq<Spec>, line: Kv)
    ensures line in Pushes(j, specs) <==> exists n :: 0 <= n < |specs| && Writes(j, specs[n], line)
  {
    hide Rendered, Field;
    if line in Pushes(j, specs) {
      var i :| 0 <= i < |Pushes(j, specs)| && Pushes(j, specs)[i] == line;
      var n := PushedFrom(j, specs, i);
      assert Writes(j, specs[n], line);
    }
    if exists n :: 0 <= n < |specs| && Writes(j, specs[n], line) {
      var n :| 0 <= n < |specs| && Writes(j, specs[n], line);
      PushedAll(j, specs, n, line.1);
    }
  }

  // The first value found under the key decides, in the section, in its connection_auth, then at the endpoint.
  function Found(j: Json, endpoint: Json, key: string): Option<Json> {
    if Field(j, key).Some? then Field(j, key)
    else if Field(j, "connection_auth").Some? && Field(Field(j, "connection_auth").value, key).Some?
    then Field(Field(j, "connection_auth").value, key)
    else Field(endpoint, key)
  }

  // Who connects: a user name and a password are written when a non-empty string is found, each under its own key.
  lemma CredentialsAre(j: Json, endpoint: Json)
    ensures var user, word := Found(j, endpoint, "username"), Found(j, endpoint, "password");
            Access(j, endpoint) ==
            OptKv("url", NonEmpty(UrlOf(j, endpoint))) +
            (if user.Some? && user.value.Str? && user.value.s != "" then [("username", user.value.s)] else []) +
            (if word.Some? && word.value.Str? && word.value.s != "" then [("password", word.value.s)] else [])
  {
    hide Field, UrlOf;
  }

  // Where to: the section's own URL if it is a non-empty string, else the endpoint's.
  lemma UrlIs(j: Json, endpoint: Json)
    ensures UrlOf(j, endpoint) ==
            match Field(j, "url")
            case Some(Str(s)) => if s != "" then s else EndpointUrl(endpoint)
            case _ => EndpointUrl(endpoint)
  {
    hide Field;
  }

  function EndpointUrl(endpoint: Json): string {
    match Field(endpoint, "url")
    case Some(Str(s)) => s
    case _ => ""
  }

  /******* Defaults *******/

  const NOTHING := Obj(map[])

  lemma {:induction false} NothingPushed(specs: seq<Spec>)
    requires forall i :: 0 <= i < |specs| ==> specs[i].form != Required
    ensures Pushes(NOTHING, specs) == []
  {
    hide Rendered;
    if specs == [] {
    } else {
      AbsentWritesNothing();
      NothingPushed(specs[..|specs| - 1]);
    }
  }

  lemma HeadDefault(dbType: string, typeKey: Word, typeValue: string)
    ensures Head(dbType, typeKey, typeValue, NOTHING, NOTHING) == [("db_type", dbType), (typeKey, typeValue)]
  {
  }

  // An empty column leaves each section with its fixed lines and its defaults.
  lemma ExtractorDefault(dbType: string)
    ensures RenderExtractor(dbType, NOTHING, NOTHING).kv == [("db_type", dbType), ("extract_type", "snapshot")]
  {
    hide Head, Pushes;
    HeadDefault(dbType, "extract_type", "snapshot");
    NothingPushed(SNAPSHOT_SPECS);
  }

  lemma SinkerDefault(dbType: string)
    ensures RenderSinker(dbType, NOTHING, NOTHING).kv == [("db_type", dbType), ("sink_type", "write")]
  {
    hide Head, Pushes;
    HeadDefault(dbType, "sink_type", "write");
    NothingPushed(SINK_COMMON + SINK_WRITE_SPECS);
  }

  lemma ScopeDefault()
    ensures FilterScope(NOTHING) == []
  {
  }

  lemma FilterKvDefault(kind: string)
    ensures FilterKv(NOTHING, kind) == if kind == "snapshot" || kind == "check" then [("do_events", "insert")] else []
  {
    hide Pushes, FilterScope;
    ScopeDefault();
    NothingPushed(FILTER_IGNORES);
    NothingPushed(FILTER_REST);
  }

  lemma FilterKeysApart()
    ensures forall i, j :: 0 <= i < j < |FILTER_KEYS| ==> FILTER_KEYS[i] != FILTER_KEYS[j]
    ensures forall i :: 0 <= i < |FILTER_KEYS| ==> FILTER_KEYS[i] != "do_events"
  {
    assert FILTER_KEYS[0] == "do_dbs" && FILTER_KEYS[1] == "ignore_dbs" && FILTER_KEYS[2] == "do_tbs";
    assert |"do_dbs"| == |"do_tbs"| == 6 && |"ignore_dbs"| == |"ignore_tbs"| == 10 && |"do_events"| == 9;
    assert "do_dbs"[3] != "do_tbs"[3] && "ignore_dbs"[7] != "ignore_tbs"[7];
  }

  lemma FilterDefault(kind: string)
    ensures RenderFilter(NOTHING, kind).kv ==
            (if kind == "snapshot" || kind == "check" then [("do_events", "insert")] else []) +
            [("do_dbs", ""), ("ignore_dbs", ""), ("do_tbs", ""), ("ignore_tbs", "")]
  {
    hide Ensure, FilterKv;
    FilterKvDefault(kind);
    FilterKeysApart();
    EnsureAll(FilterKv(NOTHING, kind), FILTER_KEYS);
  }

  lemma RouterDefault()
    ensures RenderRouter(NOTHING).kv == [("db_map", ""), ("tb_map", ""), ("col_map", "")]
  {
    hide Pushes, Ensure;
    NothingPushed(ROUTER_SPECS);
    EnsureAll([], ROUTER_KEYS);
  }

  // Keys that none of the lines has are added in order.
  lemma {:induction false} EnsureAll(kv: seq<Kv>, keys: seq<Word>)
    requires forall i, j :: 0 <= i < |kv| && 0 <= j < |keys| ==> kv[i].0 != keys[j]
    requires forall i, j :: 0 <= i < j < |keys| ==> keys[i] != keys[j]
    ensures Ensure(kv, keys) == kv + seq(|keys|, i requires 0 <= i < |keys| => (keys[i], ""))
  {
    if keys == [] {
    } else {
      var n := |keys| - 1;
      EnsureAll(kv, keys[..n]);
      var before := Ensure(kv, keys[..n]);
      assert !HasKey(before, keys[n]);
      assert Ensure(kv, keys) == before + [(keys[n], "")];
      hide Ensure;
    }
  }

  lemma PipelineDefault()
    ensures RenderPipeline(NOTHING).kv == [("buffer_size", NatText(16000)), ("checkpoint_interval_secs", NatText(10))]
  {
    hide NatText;
    NothingPushed(PIPELINE_SPECS);
  }

  lemma RuntimeDefault()
    ensures RenderRuntime(NOTHING).kv ==
            [("log_level", "info"), ("log4rs_file", "./log4rs.yaml"), ("log_dir", "./logs")]
  {
    NothingPushed([Spec(Nat, "tb_parallel_size")]);
  }

  lemma ParallelDefault(kind: string)
    ensures RenderParallelizer(NOTHING, kind).kv ==
            [("parallel_type", if kind == "snapshot" then "snapshot" else if kind == "check" then "rdb_check"
                               else if kind == "cdc" then "rdb_merge" else "serial"),
             ("parallel_size", NatText(1))]
  {
    hide NatText;
  }

  lemma MetricsDefault()
    ensures RenderMetrics(NOTHING).kv == [("http_port", NatText(9100)), ("http_host", "0.0.0.0"), ("workers", NatText(2))]
  {
    hide NatText;
  }

  // The buffer size is the pipeline's own, or its capacity limiter's; a value that is no number counts as the default.
  lemma BufferSizeIs(pipeline: Json)
    ensures var limiter := Field(pipeline, "capacity_limiter");
            var size :=
              match Field(pipeline, "buffer_size")
              case Some(Num(PosInt(n))) => n
              case Some(_) => 16000
              case None =>
                if limiter.None? then 16000
                else
                  match Field(limiter.value, "buffer_size")
                  case Some(Num(PosInt(n))) => n
                  case _ => 16000;
            BufferSize(pipeline) == NatText(size)
  {
    hide NatText;
  }

  /******* Sections that may be missing *******/

  // [resumer] is left out exactly when its type is missing, no string, empty or `dummy`.
  lemma ResumerOmitted(resumer: Json, runtime: Json)
    ensures RenderResumer(resumer, runtime).kv == [] <==>
            match Field(resumer, "resume_type")
            case Some(Str(t)) => t == "" || t == "dummy"
            case _ => true
  {
    hide Pushes;
  }

  // A value says something unless it is null, false, zero or empty.
  ghost predicate Says(v: Json) {
    && v != Null && v != Bool(false) && v != Str("") && v != Arr([]) && v != Obj(map[])
    && (v.Num? ==> v.num != PosInt(0) && v.num != NegInt(0) && v.num != Float(0.0))
  }

  // [processor] is there exactly when one of its fields says something.
  lemma ProcessorShown(processor: Json)
    ensures HasNonEmptyFields(processor) <==>
            processor.Obj? && exists k :: k in processor.fields && Says(processor.fields[k])
  {
    if processor.Obj? {
      forall k | k in processor.fields ensures IsEmptyValue(processor.fields[k]) <==> !Says(processor.fields[k]) {
      }
    }
  }

  /******* Labels *******/

  function LabelOf(labels: map<string, Json>, k: string): string
    requires k in labels
  {
    k + "=" + if labels[k].Str? then labels[k].s else ""
  }

  ghost predicate InOrder(ks: seq<string>) {
    forall i, j :: 0 <= i < j < |ks| ==> ks[i] != ks[j] && Before(ks[i], ks[j])
  }

  lemma {:induction false} BeforeItself(a: string)
    ensures Before(a, a)
  {
    if a != "" {
      BeforeItself(a[1..]);
    }
  }

  function LabelsOf(labels: map<string, Json>, ks: seq<string>): seq<string>
    requires forall k :: k in ks ==> k in labels
  {
    seq(|ks|, i requires 0 <= i < |ks| => LabelOf(labels, ks[i]))
  }

  lemma LabelsRest(labels: map<string, Json>, rest: map<string, Json>, ks: seq<string>)
    requires ks != [] && InOrder(ks) && labels.Keys == (set k | k in ks) && rest == labels - {ks[0]}
    ensures rest.Keys == (set k | k in ks[1..]) && InOrder(ks[1..])
    ensures LabelsOf(labels, ks)[0] == LabelOf(labels, ks[0]) && LabelsOf(labels, ks)[1..] == LabelsOf(rest, ks[1..])
  {
    hide Before;
  }

  lemma LabelsFrom(labels: map<string, Json>, first: string)
    requires forall k :: IsLeast(labels.Keys, k) <==> k == first
    ensures first in labels
    ensures var rest := labels - {first};
            LabelText(labels) == if rest == map[] then LabelOf(labels, first) else LabelOf(labels, first) + "," + LabelText(rest)
  {
    assert IsLeast(labels.Keys, first);
    hide IsLeast;
  }

  // The labels are written in the order of their keys with commas between them.
  lemma {:induction false} LabelsJoined(labels: map<string, Json>, ks: seq<string>)
    requires InOrder(ks) && ks != [] && labels.Keys == set k | k in ks
    ensures LabelText(labels) == Join(LabelsOf(labels, ks), ',')
    decreases |ks|
  {
    hide InOrder, LabelText, LabelOf, IsLeast;
    var rest := labels - {ks[0]};
    FirstIsLeast(labels, ks);
    LabelsFrom(labels, ks[0]);
    LabelsRest(labels, rest, ks);
    hide LabelsOf;
    if |ks| == 1 {
      assert rest == map[];
    } else {
      assert ks[1..][0] in rest;
      LabelsJoined(rest, ks[1..]);
    }
  }

  lemma FirstIsLeast(labels: map<string, Json>, ks: seq<string>)
    requires InOrder(ks) && ks != [] && labels.Keys == set k | k in ks
    ensures forall k :: IsLeast(labels.Keys, k) <==> k == ks[0]
  {
    hide Before;
    BeforeItself(ks[0]);
    forall k | k in labels ensures Before(ks[0], k) && (Before(k, ks[0]) ==> k == ks[0]) {
      BeforeTotal(ks[0], k);
    }
  }

  /******* The filter's scope *******/

  // `do_dbs=*` stands only while no tables are named: with tables other than `*.*` it is left out.
  lemma ScopeNarrows(filter: Json)
    ensures FilterScope(filter) ==
            var dbs, tbs := FilterValue(filter, "do_dbs"), FilterValue(filter, "do_tbs");
            var named := Trim(tbs) != "" && Trim(tbs) != "*.*";
            (if dbs == "" || (Trim(dbs) == "*" && named) then [] else [("do_dbs", dbs)]) +
            (if tbs == "" then [] else [("do_tbs", tbs)])
  {
    hide FilterValue, Trim;
  }
}
