/** No rendered section holds a key twice. */
module IniKeys {
  import opened Wrappers
  import opened Strings
  import opened Json
  import opened Ini

  ghost predicate DistinctKeys(kv: seq<Kv>) {
    forall i, j :: 0 <= i < j < |kv| ==> kv[i].0 != kv[j].0
  }

  // Each key at most once, and only keys of the list.
  ghost predicate Fits(kv: seq<Kv>, keys: seq<string>) {
    DistinctKeys(kv) && forall i :: 0 <= i < |kv| ==> kv[i].0 in keys
  }

  lemma FitsConcat(a: seq<Kv>, ka: seq<string>, b: seq<Kv>, kb: seq<string>)
    requires Fits(a, ka) && Fits(b, kb) && Distinct(ka + kb)
    ensures Fits(a + b, ka + kb)
  {
    forall i, j | 0 <= i < |a| && 0 <= j < |b| ensures a[i].0 != b[j].0 {
      var x :| 0 <= x < |ka| && ka[x] == a[i].0;
      var y :| 0 <= y < |kb| && kb[y] == b[j].0;
      assert (ka + kb)[x] != (ka + kb)[|ka| + y];
    }
  }

  function SpecKeys(specs: seq<Spec>): seq<string> {
    seq(|specs|, i requires 0 <= i < |specs| => specs[i].key)
  }

  lemma {:induction false} FitsPushes(j: Json, specs: seq<Spec>)
    requires Distinct(SpecKeys(specs))
    ensures Fits(Pushes(j, specs), SpecKeys(specs))
  {
    hide Rendered;
    if specs == [] {
    } else {
      var n := |specs| - 1;
      var key, keys := specs[n].key, SpecKeys(specs[..n]);
      assert SpecKeys(specs) == keys + [key];
      hide SpecKeys, OptKv, Distinct, Fits;
      DistinctPrefix(keys, [key]);
      FitsPushes(j, specs[..n]);
      OptFits(key, Rendered(specs[n].form, Field(j, key)));
      FitsConcat(Pushes(j, specs[..n]), keys, OptKv(key, Rendered(specs[n].form, Field(j, key))), [key]);
    }
  }

  lemma DistinctPrefix(a: seq<string>, b: seq<string>)
    requires Distinct(a + b)
    ensures Distinct(a) && Distinct(b)
  {
    assert forall i :: 0 <= i < |a| ==> (a + b)[i] == a[i];
    assert forall i :: 0 <= i < |b| ==> (a + b)[|a| + i] == b[i];
    forall i, j | 0 <= i < j < |b| ensures b[i] != b[j] {
      assert (a + b)[|a| + i] != (a + b)[|a| + j];
    }
  }

  // A fixed head followed by optional keys.
  lemma FitsSection(head: seq<Kv>, headKeys: seq<string>, j: Json, specs: seq<Spec>)
    requires Fits(head, headKeys) && Distinct(headKeys + SpecKeys(specs))
    ensures Fits(head + Pushes(j, specs), headKeys + SpecKeys(specs))
  {
    DistinctPrefix(headKeys, SpecKeys(specs));
    FitsPushes(j, specs);
    FitsConcat(head, headKeys, Pushes(j, specs), SpecKeys(specs));
  }

  lemma {:induction false} EnsureKeeps(kv: seq<Kv>, keys: seq<Word>)
    requires DistinctKeys(kv)
    ensures DistinctKeys(Ensure(kv, keys))
  {
    if keys == [] {
    } else {
      EnsureKeeps(kv, keys[..|keys| - 1]);
    }
  }

  const EXTRACTOR_HEAD := ["db_type", "extract_type", "url", "username", "password"]
  const SINKER_HEAD := ["db_type", "sink_type", "url", "username", "password"]

  lemma HeadFits(dbType: string, typeKey: Word, typeValue: string, j: Json, endpoint: Json)
    requires typeKey == "extract_type" || typeKey == "sink_type"
    ensures Fits(Head(dbType, typeKey, typeValue, j, endpoint), ["db_type", typeKey, "url", "username", "password"])
  {
    hide Fits, Access;
    var front: seq<Kv>, keys := [("db_type", dbType)] + [(typeKey, typeValue)], ["db_type", typeKey];
    FrontFits(dbType, typeKey, typeValue);
    AccessFits(j, endpoint);
    FitsConcat(front, keys, Access(j, endpoint), ["url", "username", "password"]);
    assert keys + ["url", "username", "password"] == ["db_type", typeKey, "url", "username", "password"];
  }

  lemma FrontFits(dbType: string, typeKey: Word, typeValue: string)
    requires typeKey == "extract_type" || typeKey == "sink_type"
    ensures Fits([("db_type", dbType)] + [(typeKey, typeValue)], ["db_type", typeKey])
    ensures Distinct(["db_type", typeKey] + ["url", "username", "password"])
  {
  }

  lemma AccessFits(j: Json, endpoint: Json)
    ensures Fits(Access(j, endpoint), ["url", "username", "password"])
  {
    hide UrlOf, Credential;
  }

  const CDC_KEYS := [
    "db_type", "extract_type", "url", "username", "password",
    "binlog_filename", "binlog_position", "server_id", "gtid_enabled", "gtid_set", "binlog_heartbeat_interval_secs",
    "binlog_timeout_secs", "heartbeat_interval_secs", "heartbeat_tb", "keepalive_idle_secs", "keepalive_interval_secs",
    "slot_name", "pub_name", "start_lsn", "recreate_slot_if_exists", "ddl_meta_tb", "cdc_mode", "poll_interval_millis",
    "poll_batch_size", "start_scn", "start_time_utc", "end_time_utc"]

  lemma SpecKeysConcat(a: seq<Spec>, b: seq<Spec>)
    ensures SpecKeys(a + b) == SpecKeys(a) + SpecKeys(b)
  {
  }

  lemma CdcHeadKeys()
    ensures EXTRACTOR_HEAD + SpecKeys(CDC_BINLOG_SPECS + CDC_TIMEOUT_SPECS + CDC_COMMON_SPECS) == CDC_KEYS[..16]
  {
  }

  lemma CdcTailKeys()
    ensures SpecKeys(CDC_PG_SPECS + CDC_ORACLE_SPECS + CDC_TIME_SPECS) == CDC_KEYS[16..]
  {
  }

  lemma CdcKeysAre()
    ensures EXTRACTOR_HEAD + SpecKeys(CDC_SPECS) == CDC_KEYS
  {
    hide SpecKeys;
    var a := CDC_BINLOG_SPECS + CDC_TIMEOUT_SPECS + CDC_COMMON_SPECS;
    var b := CDC_PG_SPECS + CDC_ORACLE_SPECS + CDC_TIME_SPECS;
    SpecKeysConcat(a, b);
    CdcHeadKeys();
    CdcTailKeys();
    assert EXTRACTOR_HEAD + (SpecKeys(a) + SpecKeys(b)) == (EXTRACTOR_HEAD + SpecKeys(a)) + SpecKeys(b);
    assert CDC_KEYS == CDC_KEYS[..16] + CDC_KEYS[16..];
  }

  lemma DistinctJoin(a: seq<string>, b: seq<string>)
    requires Distinct(a) && Distinct(b) && forall i, j :: 0 <= i < |a| && 0 <= j < |b| ==> a[i] != b[j]
    ensures Distinct(a + b)
  {
  }

  lemma CdcKeysDistinct()
    ensures Distinct(CDC_KEYS)
  {
    var a, b := CDC_KEYS[..12], CDC_KEYS[12..];
    assert CDC_KEYS == a + b;
    CdcFirstKeys();
    CdcLastKeys();
    CdcKeysApart();
    DistinctJoin(a, b);
  }

  lemma CdcFirstKeys()
    ensures Distinct(CDC_KEYS[..12])
  {
  }

  lemma CdcLastKeys()
    ensures Distinct(CDC_KEYS[12..])
  {
  }

  lemma CdcKeysApart()
    ensures forall i, j :: 0 <= i < 12 && 0 <= j < 15 ==> CDC_KEYS[..12][i] != CDC_KEYS[12..][j]
  {
  }

  lemma ExtractorKeysDistinct(t: string)
    ensures Distinct(EXTRACTOR_HEAD + SpecKeys(ExtractorSpecs(t)))
  {
    if t == "cdc" || t == "snapshot_and_cdc" {
      CdcKeysAre();
      CdcKeysDistinct();
    }
  }

  lemma SinkerKeysDistinct(t: string)
    ensures Distinct(SINKER_HEAD + SpecKeys(SinkerSpecs(t)))
  {
  }

  lemma ExtractorFits(dbType: string, extractor: Json, endpoint: Json)
    ensures DistinctKeys(RenderExtractor(dbType, extractor, endpoint).kv)
  {
    hide Head, Pushes, ExtractorSpecs, SpecKeys;
    var t := ExtractType(extractor);
    HeadFits(dbType, "extract_type", t, extractor, endpoint);
    ExtractorKeysDistinct(t);
    FitsSection(Head(dbType, "extract_type", t, extractor, endpoint), EXTRACTOR_HEAD, extractor, ExtractorSpecs(t));
  }

  lemma SinkerFits(dbType: string, sinker: Json, endpoint: Json)
    ensures DistinctKeys(RenderSinker(dbType, sinker, endpoint).kv)
  {
    hide Head, Pushes, SinkerSpecs, SpecKeys;
    var t := SinkType(sinker);
    HeadFits(dbType, "sink_type", t, sinker, endpoint);
    SinkerKeysDistinct(t);
    FitsSection(Head(dbType, "sink_type", t, sinker, endpoint), SINKER_HEAD, sinker, SinkerSpecs(t));
  }

  lemma ScopeFits(filter: Json)
    ensures Fits(FilterScope(filter), ["do_dbs", "do_tbs"])
  {
    hide FilterValue, Trim, ExplicitTables;
  }

  lemma FilterKeysDistinct()
    ensures var head := ["do_dbs", "do_tbs"] + SpecKeys(FILTER_IGNORES);
            Distinct(head) && Distinct(head + ["do_events"]) && Distinct(head + ["do_events"] + SpecKeys(FILTER_REST))
  {
    var keys := ["do_dbs", "do_tbs"] + SpecKeys(FILTER_IGNORES) + ["do_events"] + SpecKeys(FILTER_REST);
    assert keys == ["do_dbs", "do_tbs", "ignore_dbs", "ignore_tbs", "do_events", "do_ddls", "do_dcls", "do_structures",
                    "ignore_cols", "ignore_cmds", "where_conditions"];
    assert Distinct(keys);
    hide SpecKeys;
    DistinctPrefix(["do_dbs", "do_tbs"] + SpecKeys(FILTER_IGNORES) + ["do_events"], SpecKeys(FILTER_REST));
    DistinctPrefix(["do_dbs", "do_tbs"] + SpecKeys(FILTER_IGNORES), ["do_events"]);
  }

  lemma FilterFits(filter: Json, kind: string)
    ensures DistinctKeys(RenderFilter(filter, kind).kv)
  {
    hide Pushes, FilterScope, DoEvents, Ensure, SpecKeys, Distinct, DistinctKeys;
    var scope, ignores := FilterScope(filter), Pushes(filter, FILTER_IGNORES);
    var events := OptKv("do_events", DoEvents(filter, kind));
    var keys := ["do_dbs", "do_tbs"] + SpecKeys(FILTER_IGNORES);
    ScopeFits(filter);
    FilterKeysDistinct();
    FitsSection(scope, ["do_dbs", "do_tbs"], filter, FILTER_IGNORES);
    OptFits("do_events", DoEvents(filter, kind));
    FitsConcat(scope + ignores, keys, events, ["do_events"]);
    FitsSection(scope + ignores + events, keys + ["do_events"], filter, FILTER_REST);
    EnsureKeeps(FilterKv(filter, kind), FILTER_KEYS);
  }

  lemma OptFits(key: Word, value: Option<string>)
    ensures Fits(OptKv(key, value), [key])
  {
  }

  lemma RouterFits(router: Json)
    ensures DistinctKeys(RenderRouter(router).kv)
  {
    hide Pushes, Ensure;
    FitsPushes(router, ROUTER_SPECS);
    EnsureKeeps(Pushes(router, ROUTER_SPECS), ROUTER_KEYS);
  }

  lemma PipelineFits(pipeline: Json)
    ensures DistinctKeys(RenderPipeline(pipeline).kv)
  {
    hide Pushes, NatOr, BufferSize;
    FitsSection(PipelineHead(pipeline), ["buffer_size", "checkpoint_interval_secs"], pipeline, PIPELINE_SPECS);
  }

  lemma ResumerFits(resumer: Json, runtime: Json)
    ensures DistinctKeys(RenderResumer(resumer, runtime).kv)
  {
    hide Pushes, StrOr, SpecKeys, Fits, DistinctKeys, Distinct;
    var t := StrOr(resumer, "resume_type", "");
    if t == "from_log" {
      FromLogKeys(resumer, runtime);
      FitsSection(ResumerHead(resumer, runtime), ["resume_type", "log_dir"], resumer, CONFIG_FILE);
      FitsDistinct(ResumerHead(resumer, runtime), resumer, CONFIG_FILE);
    } else if t == "from_target" || t == "from_db" {
      FromDbKeys(resumer, runtime);
      FitsSection(ResumerHead(resumer, runtime), ["resume_type"], resumer, RESUMER_DB_SPECS);
      FitsDistinct(ResumerHead(resumer, runtime), resumer, RESUMER_DB_SPECS);
    } else {
      ShortHead(resumer, runtime);
    }
  }

  lemma FitsDistinct(head: seq<Kv>, j: Json, specs: seq<Spec>)
    ensures forall keys :: Fits(head + Pushes(j, specs), keys) ==> DistinctKeys(head + Pushes(j, specs))
  {
    hide Pushes, DistinctKeys;
  }

  lemma ShortHead(resumer: Json, runtime: Json)
    requires StrOr(resumer, "resume_type", "") != "from_log"
    ensures DistinctKeys(ResumerHead(resumer, runtime)) && DistinctKeys([])
  {
    hide StrOr;
  }

  lemma FromLogKeys(resumer: Json, runtime: Json)
    requires StrOr(resumer, "resume_type", "") == "from_log"
    ensures Fits(ResumerHead(resumer, runtime), ["resume_type", "log_dir"])
    ensures Distinct(["resume_type", "log_dir"] + SpecKeys(CONFIG_FILE))
  {
    hide StrOr;
  }

  lemma FromDbKeys(resumer: Json, runtime: Json)
    requires StrOr(resumer, "resume_type", "") != "from_log"
    ensures Fits(ResumerHead(resumer, runtime), ["resume_type"])
    ensures Distinct(["resume_type"] + SpecKeys(RESUMER_DB_SPECS))
  {
    hide StrOr;
  }

  lemma RuntimeFits(runtime: Json)
    ensures DistinctKeys(RenderRuntime(runtime).kv)
  {
    hide Pushes, StrOr;
    FitsSection(RuntimeHead(runtime), ["log_level", "log4rs_file", "log_dir"], runtime, [Spec(Nat, "tb_parallel_size")]);
  }

  lemma ProcessorFits(processor: Json)
    ensures DistinctKeys(RenderProcessor(processor).kv)
  {
    FitsPushes(processor, [Spec(Text, "lua_code_file")]);
  }

  // No section of any task holds a key twice.
  lemma NoDuplicateKeys(task: Task)
    ensures forall i :: 0 <= i < |Render(task)| ==> DistinctKeys(Render(task)[i].kv)
  {
    hide RenderExtractor, RenderSinker, RenderFilter, RenderRouter, RenderPipeline, RenderResumer, RenderRuntime,
         RenderProcessor, HasNonEmptyFields, LabelText, NatOr, StrOr;
    ExtractorFits(task.dbTypeSource, task.extractor, task.sourceEndpoint);
    SinkerFits(task.dbTypeTarget, task.sinker, task.targetEndpoint);
    FilterFits(task.filter, task.kind);
    RouterFits(task.router);
    PipelineFits(task.pipeline);
    ResumerFits(task.resumer, task.runtime);
    RuntimeFits(task.runtime);
    ProcessorFits(task.processor);
  }
}
