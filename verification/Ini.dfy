/** Rendering a task to the INI sections of the engine. */
module Ini {
  import opened Wrappers
  import opened Json

  // Section names and keys: lower-case letters, digits and underscores.
  predicate IsWordChar(c: char) {
    'a' <= c <= 'z' || '0' <= c <= '9' || c == '_'
  }

  predicate IsWord(s: string) {
    s != "" && forall i :: 0 <= i < |s| ==> IsWordChar(s[i])
  }

  type Word = s: string | IsWord(s) witness "k"

  type Kv = (Word, string)

  datatype Section = Section(name: Word, kv: seq<Kv>)

  // The JSON columns are held parsed; a column that is not JSON reads as null.
  datatype Task = Task(
    taskId: string, kind: string, dbTypeSource: string, dbTypeTarget: string,
    sourceEndpoint: Json, targetEndpoint: Json, extractor: Json, sinker: Json, filter: Json, router: Json,
    parallelizer: Json, pipeline: Json, resumer: Json, processor: Json, runtime: Json, metrics: Json)

  /******* Text *******/

  predicate IsSpace(c: char) {
    || c in " \t\n\r" || c == '\U{B}' || c == '\U{C}' || c == '\U{85}' || c == '\U{A0}' || c == '\U{1680}'
    || '\U{2000}' <= c <= '\U{200A}' || c == '\U{2028}' || c == '\U{2029}' || c == '\U{202F}' || c == '\U{205F}'
    || c == '\U{3000}'
  }

  function TrimStart(s: string): string {
    if s != "" && IsSpace(s[0]) then TrimStart(s[1..]) else s
  }

  function TrimEnd(s: string): string {
    if s != "" && IsSpace(s[|s| - 1]) then TrimEnd(s[..|s| - 1]) else s
  }

  function Trim(s: string): string {
    TrimEnd(TrimStart(s))
  }

  function Digit(n: nat): char
    requires n < 10
  {
    "0123456789"[n]
  }

  function NatText(n: nat): string {
    if n < 10 then [Digit(n)] else NatText(n / 10) + [Digit(n % 10)]
  }

  predicate IsDigits(s: string) {
    s != "" && forall i :: 0 <= i < |s| ==> '0' <= s[i] <= '9'
  }

  function DigitsValue(s: string): nat
    requires forall i :: 0 <= i < |s| ==> '0' <= s[i] <= '9'
  {
    if s == "" then 0 else 10 * DigitsValue(s[..|s| - 1]) + (s[|s| - 1] as int - '0' as int)
  }

  // str::parse::<u64>
  function ParseU64(s: string): Option<nat> {
    var digits := if s != "" && s[0] == '+' then s[1..] else s;
    if IsDigits(digits) && DigitsValue(digits) < 0x1_0000_0000_0000_0000 then Some(DigitsValue(digits)) else None
  }

  // Non-empty strings of an array, comma-separated.
  function JoinStrings(items: seq<Json>): string {
    if items == [] then ""
    else
      var n := |items| - 1;
      var before := JoinStrings(items[..n]);
      if items[n].Str? && items[n].s != "" then (if before == "" then items[n].s else before + "," + items[n].s) else before
  }

  /******* Optional keys: push_opt_string and its relatives *******/

  datatype Form = Text | Nat | NatOrText | Flag | Required

  datatype Spec = Spec(form: Form, key: Word)

  function Rendered(form: Form, o: Option<Json>): Option<string> {
    match form
    case Text =>
      var s := if o.None? then "" else if o.value.Str? then o.value.s else if o.value.Arr? then JoinStrings(o.value.items) else "";
      if s == "" then None else Some(s)
    case Nat => if AsNat(o).Some? then Some(NatText(AsNat(o).value)) else None
    case NatOrText =>
      var n := OrElse(AsNat(o), if AsStr(o).Some? then ParseU64(AsStr(o).value) else None);
      if n.Some? then Some(NatText(n.value)) else None
    case Flag => if AsBool(o).Some? then Some(if AsBool(o).value then "true" else "false") else None
    case Required => Some(UnwrapOr(AsStr(o), ""))
  }

  function OptKv(key: Word, value: Option<string>): seq<Kv> {
    if value.Some? then [(key, value.value)] else []
  }

  function Pushes(j: Json, specs: seq<Spec>): seq<Kv> {
    if specs == [] then []
    else
      var n := |specs| - 1;
      Pushes(j, specs[..n]) + OptKv(specs[n].key, Rendered(specs[n].form, Field(j, specs[n].key)))
  }

  function NonEmpty(s: string): Option<string> {
    if s == "" then None else Some(s)
  }

  predicate HasKey(kv: seq<Kv>, key: Word) {
    exists i :: 0 <= i < |kv| && kv[i].0 == key
  }

  // ensure_key_present, key after key
  function Ensure(kv: seq<Kv>, keys: seq<Word>): seq<Kv> {
    if keys == [] then kv
    else
      var n := |keys| - 1;
      var before := Ensure(kv, keys[..n]);
      if HasKey(before, keys[n]) then before else before + [(keys[n], "")]
  }

  /******* Sections *******/

  function UrlOf(j: Json, endpoint: Json): string {
    var url := StrOr(j, "url", "");
    if url != "" then url else StrOr(endpoint, "url", "")
  }

  function Credential(j: Json, endpoint: Json, key: string): string {
    var o := OrElse(OrElse(Field(j, key), Then(Field(j, "connection_auth"), key)), Field(endpoint, key));
    UnwrapOr(AsStr(o), "")
  }

  // Where and as whom to connect.
  function Access(j: Json, endpoint: Json): seq<Kv> {
    OptKv("url", NonEmpty(UrlOf(j, endpoint))) +
    OptKv("username", NonEmpty(Credential(j, endpoint, "username"))) +
    OptKv("password", NonEmpty(Credential(j, endpoint, "password")))
  }

  function Head(dbType: string, typeKey: Word, typeValue: string, j: Json, endpoint: Json): seq<Kv> {
    [("db_type", dbType)] + [(typeKey, typeValue)] + Access(j, endpoint)
  }

  function ExtractType(extractor: Json): string {
    UnwrapOr(AsStr(OrElse(Field(extractor, "extractType"), Field(extractor, "extract_type"))), "snapshot")
  }

  const SNAPSHOT_SPECS := [
    Spec(Nat, "sample_interval"), Spec(Nat, "parallel_size"), Spec(Nat, "batch_size"), Spec(Text, "partition_cols")]

  const CDC_BINLOG_SPECS := [
    Spec(Text, "binlog_filename"), Spec(Nat, "binlog_position"), Spec(NatOrText, "server_id"),
    Spec(Flag, "gtid_enabled"), Spec(Text, "gtid_set")]

  const CDC_TIMEOUT_SPECS := [
    Spec(NatOrText, "binlog_heartbeat_interval_secs"), Spec(NatOrText, "binlog_timeout_secs")]

  const CDC_COMMON_SPECS := [
    Spec(NatOrText, "heartbeat_interval_secs"), Spec(Text, "heartbeat_tb"),
    Spec(NatOrText, "keepalive_idle_secs"), Spec(NatOrText, "keepalive_interval_secs")]

  const CDC_PG_SPECS := [
    Spec(Text, "slot_name"), Spec(Text, "pub_name"), Spec(Text, "start_lsn"),
    Spec(Flag, "recreate_slot_if_exists"), Spec(Text, "ddl_meta_tb")]

  const CDC_ORACLE_SPECS := [
    Spec(Text, "cdc_mode"), Spec(NatOrText, "poll_interval_millis"), Spec(Nat, "poll_batch_size"),
    Spec(NatOrText, "start_scn")]

  const CDC_TIME_SPECS := [Spec(Text, "start_time_utc"), Spec(Text, "end_time_utc")]

  const CDC_SPECS :=
    (CDC_BINLOG_SPECS + CDC_TIMEOUT_SPECS + CDC_COMMON_SPECS) + (CDC_PG_SPECS + CDC_ORACLE_SPECS + CDC_TIME_SPECS)

  const CHECK_LOG_SPECS := [Spec(Required, "check_log_dir"), Spec(Nat, "batch_size")]

  const STRUCT_SPECS := [Spec(Nat, "db_batch_size")]

  function ExtractorSpecs(extractType: string): seq<Spec> {
    match extractType
    case "snapshot" => SNAPSHOT_SPECS
    case "cdc" => CDC_SPECS
    case "snapshot_and_cdc" => CDC_SPECS
    case "check_log" => CHECK_LOG_SPECS
    case "struct" => STRUCT_SPECS
    case _ => []
  }

  function RenderExtractor(dbType: string, extractor: Json, endpoint: Json): Section {
    var t := ExtractType(extractor);
    Section("extractor", Head(dbType, "extract_type", t, extractor, endpoint) + Pushes(extractor, ExtractorSpecs(t)))
  }

  function SinkType(sinker: Json): string {
    UnwrapOr(AsStr(OrElse(Field(sinker, "sinkType"), Field(sinker, "sink_type"))), "write")
  }

  const SINK_COMMON := [Spec(Nat, "batch_size"), Spec(Nat, "max_connections")]

  const SINK_WRITE_SPECS := [
    Spec(Flag, "replace"), Spec(Flag, "disable_foreign_key_checks"), Spec(Text, "transaction_isolation")]

  const SINK_LOG_SPECS := [
    Spec(Text, "check_log_dir"), Spec(Text, "check_log_file_size"), Spec(Flag, "output_full_row"),
    Spec(Flag, "output_revise_sql")]

  const SINK_RETRY_SPECS := [
    Spec(Flag, "revise_match_full_row"), Spec(NatOrText, "retry_interval_secs"), Spec(Nat, "max_retries")]

  function SinkerSpecs(sinkType: string): seq<Spec> {
    SINK_COMMON +
    match sinkType
    case "write" => SINK_WRITE_SPECS
    case "check" => SINK_LOG_SPECS + SINK_RETRY_SPECS
    case "struct" => [Spec(Text, "conflict_policy")]
    case "sql" => [Spec(Flag, "reverse")]
    case _ => []
  }

  function RenderSinker(dbType: string, sinker: Json, endpoint: Json): Section {
    var t := SinkType(sinker);
    Section("sinker", Head(dbType, "sink_type", t, sinker, endpoint) + Pushes(sinker, SinkerSpecs(t)))
  }

  function FilterValue(filter: Json, key: string): string {
    UnwrapOr(Rendered(Text, Field(filter, key)), "")
  }

  predicate ExplicitTables(doTbs: string) {
    Trim(doTbs) != "" && Trim(doTbs) != "*.*"
  }

  // `do_dbs=*` is dropped when tables are named explicitly.
  function FilterScope(filter: Json): seq<Kv> {
    var doDbs, doTbs := FilterValue(filter, "do_dbs"), FilterValue(filter, "do_tbs");
    var narrowed := if Trim(doDbs) == "*" && ExplicitTables(doTbs) then "" else doDbs;
    OptKv("do_dbs", NonEmpty(narrowed)) + OptKv("do_tbs", NonEmpty(doTbs))
  }

  const FILTER_IGNORES := [Spec(Text, "ignore_dbs"), Spec(Text, "ignore_tbs")]

  const FILTER_REST := [
    Spec(Text, "do_ddls"), Spec(Text, "do_dcls"), Spec(Text, "do_structures"), Spec(Text, "ignore_cols"),
    Spec(Text, "ignore_cmds"), Spec(Text, "where_conditions")]

  // Snapshot and check tasks take inserts only, whatever the filter says.
  function DoEvents(filter: Json, kind: string): Option<string> {
    if kind == "snapshot" || kind == "check" then Some("insert") else Rendered(Text, Field(filter, "do_events"))
  }

  function FilterKv(filter: Json, kind: string): seq<Kv> {
    FilterScope(filter) + Pushes(filter, FILTER_IGNORES) + OptKv("do_events", DoEvents(filter, kind)) +
    Pushes(filter, FILTER_REST)
  }

  const FILTER_KEYS: seq<Word> := ["do_dbs", "ignore_dbs", "do_tbs", "ignore_tbs"]

  function RenderFilter(filter: Json, kind: string): Section {
    Section("filter", Ensure(FilterKv(filter, kind), FILTER_KEYS))
  }

  const ROUTER_SPECS := [Spec(Text, "db_map"), Spec(Text, "tb_map"), Spec(Text, "col_map"), Spec(Text, "topic_map")]

  const ROUTER_KEYS: seq<Word> := ["db_map", "tb_map", "col_map"]

  function RenderRouter(router: Json): Section {
    Section("router", Ensure(Pushes(router, ROUTER_SPECS), ROUTER_KEYS))
  }

  function ParallelType(kind: string): string {
    match kind
    case "snapshot" => "snapshot"
    case "check" => "rdb_check"
    case "cdc" => "rdb_merge"
    case _ => "serial"
  }

  function NatOr(j: Json, key: string, default: nat): string {
    NatText(UnwrapOr(AsNat(Field(j, key)), default))
  }

  function RenderParallelizer(parallelizer: Json, kind: string): Section {
    Section("parallelizer",
            [("parallel_type", StrOr(parallelizer, "parallel_type", ParallelType(kind))),
             ("parallel_size", NatOr(parallelizer, "parallel_size", 1))])
  }

  const PIPELINE_COUNTERS := [
    Spec(NatOrText, "counter_time_window_secs"), Spec(NatOrText, "counter_max_sub_count")]

  const PIPELINE_SPECS := [Spec(Nat, "batch_sink_interval_secs")] + PIPELINE_COUNTERS + [Spec(Text, "pipeline_type")]

  function BufferSize(pipeline: Json): string {
    var buffer := OrElse(Field(pipeline, "buffer_size"), Then(Field(pipeline, "capacity_limiter"), "buffer_size"));
    NatText(UnwrapOr(AsNat(buffer), 16000))
  }

  const CHECKPOINT_KEY: Word := "checkpoint_interval_secs"

  function PipelineHead(pipeline: Json): seq<Kv> {
    [("buffer_size", BufferSize(pipeline)), (CHECKPOINT_KEY, NatOr(pipeline, CHECKPOINT_KEY, 10))]
  }

  function RenderPipeline(pipeline: Json): Section {
    Section("pipeline", PipelineHead(pipeline) + Pushes(pipeline, PIPELINE_SPECS))
  }

  const RESUMER_DB_SPECS := [
    Spec(Text, "url"), Spec(Text, "db_type"), Spec(Text, "table_full_name"), Spec(Nat, "max_connections"),
    Spec(Text, "username"), Spec(Text, "password")]

  const CONFIG_FILE := [Spec(Text, "config_file")]

  function ResumerHead(resumer: Json, runtime: Json): seq<Kv> {
    var t := StrOr(resumer, "resume_type", "");
    [("resume_type", t)] +
    if t == "from_log" then [("log_dir", StrOr(resumer, "log_dir", StrOr(runtime, "log_dir", "./logs")))] else []
  }

  // An empty section stands for "no [resumer]".
  function RenderResumer(resumer: Json, runtime: Json): Section {
    var t := StrOr(resumer, "resume_type", "");
    var kv :=
      if t == "" || t == "dummy" then []
      else if t == "from_log" then ResumerHead(resumer, runtime) + Pushes(resumer, CONFIG_FILE)
      else if t == "from_target" || t == "from_db" then ResumerHead(resumer, runtime) + Pushes(resumer, RESUMER_DB_SPECS)
      else ResumerHead(resumer, runtime);
    Section("resumer", kv)
  }

  function RuntimeHead(runtime: Json): seq<Kv> {
    [("log_level", StrOr(runtime, "log_level", "info")),
     ("log4rs_file", StrOr(runtime, "log4rs_file", "./log4rs.yaml")),
     ("log_dir", StrOr(runtime, "log_dir", "./logs"))]
  }

  function RenderRuntime(runtime: Json): Section {
    Section("runtime", RuntimeHead(runtime) + Pushes(runtime, [Spec(Nat, "tb_parallel_size")]))
  }

  predicate IsEmptyValue(v: Json) {
    match v
    case Null => true
    case Str(s) => s == ""
    case Obj(fields) => fields == map[]
    case Arr(items) => items == []
    case Bool(b) => !b
    case Num(num) => (num.PosInt? && num.n == 0) || (num.NegInt? && num.i == 0) || (num.Float? && num.x == 0.0)
  }

  predicate HasNonEmptyFields(v: Json) {
    v.Obj? && exists k :: k in v.fields && !IsEmptyValue(v.fields[k])
  }

  function RenderProcessor(processor: Json): Section {
    Section("processor", Pushes(processor, [Spec(Text, "lua_code_file")]))
  }

  /******* Metric labels, in key order *******/

  predicate Before(a: string, b: string) {
    if a == "" then true
    else if b == "" then false
    else a[0] < b[0] || (a[0] == b[0] && Before(a[1..], b[1..]))
  }

  lemma {:induction false} BeforeTotal(a: string, b: string)
    ensures Before(a, b) || Before(b, a)
    ensures Before(a, b) && Before(b, a) ==> a == b
  {
    if a != "" && b != "" {
      BeforeTotal(a[1..], b[1..]);
      assert a == [a[0]] + a[1..] && b == [b[0]] + b[1..];
    }
  }

  lemma {:induction false} BeforeTrans(a: string, b: string, c: string)
    requires Before(a, b) && Before(b, c)
    ensures Before(a, c)
  {
    if a != "" && a[0] == b[0] && b[0] == c[0] {
      BeforeTrans(a[1..], b[1..], c[1..]);
    }
  }

  ghost predicate IsLeast(keys: set<string>, k: string) {
    k in keys && forall o :: o in keys ==> Before(k, o)
  }

  lemma {:induction false} LeastExists(keys: set<string>) returns (k: string)
    requires keys != {}
    ensures IsLeast(keys, k)
  {
    var x :| x in keys;
    if keys == {x} {
      BeforeTotal(x, x);
      k := x;
    } else {
      var rest := keys - {x};
      assert rest != {};
      var y := LeastExists(rest);
      BeforeTotal(x, y);
      k := if Before(x, y) then x else y;
      forall o | o in keys ensures Before(k, o) {
        BeforeTotal(o, o);
        if o in rest && k == x {
          BeforeTrans(x, y, o);
        }
      }
    }
  }

  ghost function LabelText(labels: map<string, Json>): string
    decreases |labels|
  {
    if labels == map[] then ""
    else
      assert labels.Keys != {};
      assert exists k :: IsLeast(labels.Keys, k) by { var k := LeastExists(labels.Keys); }
      var k :| IsLeast(labels.Keys, k);
      var text := k + "=" + UnwrapOr(AsStr(Some(labels[k])), "");
      var rest := labels - {k};
      assert |rest.Keys| < |labels.Keys| by { assert rest.Keys == labels.Keys - {k}; }
      if rest == map[] then text else text + "," + LabelText(rest)
  }

  function MetricsHead(metrics: Json): seq<Kv> {
    [("http_port", NatOr(metrics, "http_port", 9100)),
     ("http_host", StrOr(metrics, "http_host", "0.0.0.0")),
     ("workers", NatOr(metrics, "workers", 2))]
  }

  ghost function RenderMetrics(metrics: Json): Section {
    var labels := Field(metrics, "metrics_labels");
    Section("metrics",
            MetricsHead(metrics) +
            if labels.Some? && labels.value.Obj? && labels.value.fields != map[]
            then [("labels", LabelText(labels.value.fields))] else [])
  }

  /******* The whole file *******/

  function OptSection(keep: bool, s: Section): seq<Section> {
    if keep then [s] else []
  }

  // The sections before [resumer], and those after it.
  function FirstSections(task: Task): (r: seq<Section>)
    ensures |r| == 7
  {
    [Section("global", [("task_id", task.taskId)]),
     RenderExtractor(task.dbTypeSource, task.extractor, task.sourceEndpoint),
     RenderSinker(task.dbTypeTarget, task.sinker, task.targetEndpoint),
     RenderFilter(task.filter, task.kind),
     RenderRouter(task.router),
     RenderParallelizer(task.parallelizer, task.kind),
     RenderPipeline(task.pipeline)]
  }

  ghost function LastSections(task: Task): seq<Section> {
    [RenderRuntime(task.runtime)] +
    OptSection(HasNonEmptyFields(task.processor), RenderProcessor(task.processor)) +
    [RenderMetrics(task.metrics)]
  }

  ghost function Render(task: Task): seq<Section> {
    var resumer := RenderResumer(task.resumer, task.runtime);
    FirstSections(task) + OptSection(resumer.kv != [], resumer) + LastSections(task)
  }

  function KvLine(kv: Kv): string {
    kv.0 + "=" + kv.1 + "\n"
  }

  function KvText(kv: seq<Kv>): string {
    if kv == [] then "" else KvText(kv[..|kv| - 1]) + KvLine(kv[|kv| - 1])
  }

  function SectionText(s: Section): string {
    "[" + s.name + "]\n" + KvText(s.kv)
  }

  // Sections separated by a blank line.
  function Gap(i: int): string {
    if i > 0 then "\n" else ""
  }

  function IniText(sections: seq<Section>): string {
    if sections == [] then ""
    else
      var n := |sections| - 1;
      IniText(sections[..n]) + (Gap(n) + SectionText(sections[n]))
  }

  lemma Assoc(a: string, b: string, c: string)
    ensures (a + b) + c == a + (b + c)
  {
  }

  method Assemble(sections: seq<Section>) returns (out: string)
    ensures out == IniText(sections)
  {
    out := "";
    for i := 0 to |sections|
      invariant out == IniText(sections[..i])
    {
      ghost var before := out;
      var s := sections[i];
      assert sections[..i + 1][..i] == sections[..i];
      if i > 0 {
        out := out + "\n";
      }
      assert out == before + Gap(i);
      ghost var start := out;
      out := out + ("[" + s.name + "]\n");
      ghost var header := out;
      assert header + KvText(s.kv[..0]) == header;
      for j := 0 to |s.kv|
        invariant out == header + KvText(s.kv[..j])
      {
        assert s.kv[..j + 1][..j] == s.kv[..j];
        Assoc(header, KvText(s.kv[..j]), KvLine(s.kv[j]));
        out := out + (s.kv[j].0 + "=" + s.kv[j].1 + "\n");
      }
      assert s.kv[..|s.kv|] == s.kv;
      Assoc(start, "[" + s.name + "]\n", KvText(s.kv));
      Assoc(before, Gap(i), SectionText(s));
    }
    assert sections[..|sections|] == sections;
  }
}
