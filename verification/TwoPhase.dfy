/** Splitting a snapshot_and_cdc task into a snapshot phase and a cdc phase. */
module TwoPhase {
  import opened Wrappers
  import opened Json
  import opened Ini
  import opened ExtractorEdits
  import opened IniKeys

  predicate IsSupportedSource(dbType: string) {
    dbType in {"mysql", "pg", "gaussdb_pg", "gaussdb_mysql", "gaussdb_oracle", "oracle"}
  }

  predicate IsTwoPhase(task: Task) {
    && IsSupportedSource(task.dbTypeSource)
    && UnwrapOr(AsStr(OrElse(Field(task.extractor, "extract_type"), Field(task.extractor, "extractType"))), "") ==
       "snapshot_and_cdc"
  }

  datatype Start = Time(startTimeUtc: string) | OracleScn(scn: nat)

  // A value that is not an object is replaced by one.
  function Override(j: Json, key: string, value: Json): Json {
    Obj((if j.Obj? then j.fields else map[])[key := value])
  }

  function Phase1Task(task: Task): Task {
    task.(extractor := Override(task.extractor, "extract_type", Str("snapshot")), kind := "snapshot")
  }

  function ApplyStart(extractor: Json, start: Start): Json {
    match start
    case Time(t) => Override(extractor, "start_time_utc", Str(t))
    case OracleScn(scn) => Override(Override(extractor, "cdc_mode", Str("logminer")), "start_scn", Num(PosInt(scn)))
  }

  function Phase2ParallelType(task: Task): string {
    if task.dbTypeSource == "oracle" || task.dbTypeTarget == "oracle" then "serial" else "rdb_merge"
  }

  function Phase2Task(task: Task, start: Start): Task {
    task.(
      extractor := ApplyStart(Override(task.extractor, "extract_type", Str("cdc")), start),
      parallelizer := Override(task.parallelizer, "parallel_type", Str(Phase2ParallelType(task))),
      kind := "cdc")
  }

  /******* Which extract type each phase renders *******/

  lemma Phase1Type(task: Task)
    ensures ExtractType(Phase1Task(task).extractor) ==
            if Field(task.extractor, "extractType").Some?
            then UnwrapOr(AsStr(Field(task.extractor, "extractType")), "snapshot") else "snapshot"
  {
  }

  lemma Phase2Type(task: Task, start: Start)
    ensures ExtractType(Phase2Task(task, start).extractor) ==
            if Field(task.extractor, "extractType").Some?
            then UnwrapOr(AsStr(Field(task.extractor, "extractType")), "snapshot") else "cdc"
  {
  }

  // The renderer reads the camel-case key first and the phases write the other one.
  lemma PhasesTakeTheirTypes(task: Task, start: Start)
    ensures ExtractType(Phase1Task(task).extractor) == "snapshot" &&
            ExtractType(Phase2Task(task, start).extractor) == "cdc" <==>
            Field(task.extractor, "extractType").None?
  {
    Phase1Type(task);
    Phase2Type(task, start);
    hide ExtractType, Phase1Task, Phase2Task;
  }

  // A two-phase task, yet both phases run `snapshot_and_cdc`.
  lemma CamelCaseDefeatsPhases(task: Task, start: Start)
    requires task.dbTypeSource == "mysql" && task.extractor == Obj(map["extractType" := Str("snapshot_and_cdc")])
    ensures IsTwoPhase(task)
    ensures ExtractType(Phase1Task(task).extractor) == "snapshot_and_cdc"
    ensures ExtractType(Phase2Task(task, start).extractor) == "snapshot_and_cdc"
  {
    Phase1Type(task);
    Phase2Type(task, start);
    hide ExtractType, Phase1Task, Phase2Task;
  }

  /******* What each phase renders *******/

  // `key` is there, once, with this value.
  ghost predicate Sets(kv: seq<Kv>, key: string, value: string) {
    && (exists i :: 0 <= i < |kv| && kv[i].0 == key && kv[i].1 == value)
    && forall i :: 0 <= i < |kv| && kv[i].0 == key ==> kv[i].1 == value
  }

  lemma SetsOnce(kv: seq<Kv>, key: Word, value: string)
    requires DistinctKeys(kv) && (key, value) in kv
    ensures Sets(kv, key, value)
  {
    var i :| 0 <= i < |kv| && kv[i] == (key, value);
    assert kv[i].0 == key && kv[i].1 == value;
  }

  function Extractor1(task: Task): Section {
    RenderExtractor(task.dbTypeSource, Phase1Task(task).extractor, task.sourceEndpoint)
  }

  function Extractor2(task: Task, start: Start): Section {
    RenderExtractor(task.dbTypeSource, Phase2Task(task, start).extractor, task.sourceEndpoint)
  }

  lemma TypeLine(dbType: string, extractor: Json, endpoint: Json)
    ensures Sets(RenderExtractor(dbType, extractor, endpoint).kv, "extract_type", ExtractType(extractor))
  {
    ExtractorFits(dbType, extractor, endpoint);
    hide DistinctKeys, ExtractType, Pushes, UrlOf, Credential, Sets;
    var kv := RenderExtractor(dbType, extractor, endpoint).kv;
    assert kv[1] == ("extract_type", ExtractType(extractor));
    SetsOnce(kv, "extract_type", ExtractType(extractor));
  }

  lemma MarkerSpecs()
    ensures CDC_ORACLE_SPECS[0] in CDC_SPECS && CDC_ORACLE_SPECS[3] in CDC_SPECS && CDC_TIME_SPECS[0] in CDC_SPECS
  {
    var a := CDC_BINLOG_SPECS + CDC_TIMEOUT_SPECS + CDC_COMMON_SPECS;
    assert CDC_SPECS[|a| + 5] == CDC_ORACLE_SPECS[0];
    assert CDC_SPECS[|a| + 8] == CDC_ORACLE_SPECS[3];
    assert CDC_SPECS[|a| + 9] == CDC_TIME_SPECS[0];
  }

  lemma CdcLine(dbType: string, extractor: Json, endpoint: Json, spec: Spec, value: string)
    requires ExtractType(extractor) == "cdc" && spec in CDC_SPECS
    requires Rendered(spec.form, Field(extractor, spec.key)) == Some(value)
    ensures Sets(RenderExtractor(dbType, extractor, endpoint).kv, spec.key, value)
  {
    hide DistinctKeys, ExtractType, Pushes, Head, Rendered, Sets, Field;
    ExtractorFits(dbType, extractor, endpoint);
    var n :| 0 <= n < |CDC_SPECS| && CDC_SPECS[n] == spec;
    PushedAll(extractor, CDC_SPECS, n, value);
    SetsOnce(RenderExtractor(dbType, extractor, endpoint).kv, spec.key, value);
  }

  ghost predicate Marked(kv: seq<Kv>, start: Start) {
    match start
    case Time(t) => t != "" ==> Sets(kv, "start_time_utc", t)
    case OracleScn(scn) => Sets(kv, "cdc_mode", "logminer") && Sets(kv, "start_scn", NatText(scn))
  }

  lemma StartFields(task: Task, start: Start)
    ensures match start
            case Time(t) => Field(Phase2Task(task, start).extractor, "start_time_utc") == Some(Str(t))
            case OracleScn(scn) =>
              && Field(Phase2Task(task, start).extractor, "cdc_mode") == Some(Str("logminer"))
              && Field(Phase2Task(task, start).extractor, "start_scn") == Some(Num(PosInt(scn)))
  {
  }

  lemma Phase2Marked(task: Task, start: Start)
    requires Field(task.extractor, "extractType").None?
    ensures Marked(Extractor2(task, start).kv, start)
  {
    StartFields(task, start);
    PhasesTakeTheirTypes(task, start);
    MarkerSpecs();
    hide ExtractType, Phase1Task, Phase2Task, Field, Sets, RenderExtractor;
    var extractor := Phase2Task(task, start).extractor;
    match start
    case Time(t) =>
      if t != "" {
        CdcLine(task.dbTypeSource, extractor, task.sourceEndpoint, CDC_TIME_SPECS[0], t);
      }
    case OracleScn(scn) =>
      CdcLine(task.dbTypeSource, extractor, task.sourceEndpoint, CDC_ORACLE_SPECS[0], "logminer");
      CdcLine(task.dbTypeSource, extractor, task.sourceEndpoint, CDC_ORACLE_SPECS[3], NatText(scn));
  }

  // The keys phase 2 writes: its type and those of the captured marker.
  function PhaseKeys(start: Start): set<string> {
    match start
    case Time(_) => {"extract_type", "start_time_utc"}
    case OracleScn(_) => {"extract_type", "cdc_mode", "start_scn"}
  }

  lemma Phase2Agrees(task: Task, start: Start)
    ensures AgreeOff(Phase2Task(task, start).extractor, task.extractor, PhaseKeys(start))
    ensures HEAD_KEYS !! PhaseKeys(start)
  {
  }

  lemma OwnType(task: Task)
    requires IsTwoPhase(task) && Field(task.extractor, "extractType").None?
    ensures ExtractType(task.extractor) == "snapshot_and_cdc"
  {
  }

  // Phase 2 extracts as the task itself would, but for its type and the marker it was given.
  lemma Phase2OtherwiseSame(task: Task, start: Start)
    requires IsTwoPhase(task) && Field(task.extractor, "extractType").None?
    ensures Without(Extractor2(task, start).kv, PhaseKeys(start)) == Without(FirstSections(task)[1].kv, PhaseKeys(start))
  {
    hide AgreeOff, ExtractType, Phase2Task, Without, RenderExtractor, Field, IsTwoPhase, RenderFilter, RenderSinker;
    OwnType(task);
    Phase2Type(task, start);
    Phase2Agrees(task, start);
    SectionAgrees(task.dbTypeSource, Phase2Task(task, start).extractor, task.extractor, task.sourceEndpoint,
                  PhaseKeys(start));
  }

  lemma FilterOtherwiseSame(filter: Json)
    ensures Without(RenderFilter(filter, "snapshot").kv, {"do_events"}) ==
            Without(RenderFilter(filter, "cdc").kv, {"do_events"})
  {
    hide FilterScope, Pushes, Ensure, DoEvents;
    var a, b := FilterScope(filter) + Pushes(filter, FILTER_IGNORES), Pushes(filter, FILTER_REST);
    var keys := {"do_events"};
    var x, y := OptKv("do_events", DoEvents(filter, "snapshot")), OptKv("do_events", DoEvents(filter, "cdc"));
    assert Without(x, keys) == [] == Without(y, keys);
    hide Without, OptKv;
    WithoutConcat(a, x, keys);
    WithoutConcat(a, y, keys);
    WithoutConcat(a + x, b, keys);
    WithoutConcat(a + y, b, keys);
    assert FilterKv(filter, "snapshot") == a + x + b && FilterKv(filter, "cdc") == a + y + b;
    WithoutEnsure(a + x + b, FILTER_KEYS, keys);
    WithoutEnsure(a + y + b, FILTER_KEYS, keys);
  }

  lemma {:induction false} EnsureExtends(kv: seq<Kv>, keys: seq<Word>)
    ensures kv <= Ensure(kv, keys)
  {
    if keys == [] {
    } else {
      EnsureExtends(kv, keys[..|keys| - 1]);
    }
  }

  lemma InsertsOnly(filter: Json, kind: string)
    requires kind == "snapshot" || kind == "check"
    ensures Sets(RenderFilter(filter, kind).kv, "do_events", "insert")
  {
    EventsSet(filter, kind, "insert");
  }

  // Other tasks take the events their filter names.
  lemma EventsNamed(filter: Json, kind: string, events: string)
    requires kind != "snapshot" && kind != "check" && events != "" && Field(filter, "do_events") == Some(Str(events))
    ensures Sets(RenderFilter(filter, kind).kv, "do_events", events)
  {
    EventsSet(filter, kind, events);
  }

  lemma EventsSet(filter: Json, kind: string, events: string)
    requires DoEvents(filter, kind) == Some(events)
    ensures Sets(RenderFilter(filter, kind).kv, "do_events", events)
  {
    FilterFits(filter, kind);
    hide FilterScope, Pushes, Ensure, DistinctKeys, Sets;
    var kv, all := FilterKv(filter, kind), RenderFilter(filter, kind).kv;
    var at := |FilterScope(filter) + Pushes(filter, FILTER_IGNORES)|;
    assert kv[at] == ("do_events", events);
    EnsureExtends(kv, FILTER_KEYS);
    assert all[at] == kv[at];
    SetsOnce(all, "do_events", events);
  }

  // Phase 2 applies serially when Oracle is on either side and by merging otherwise, with the task's own parallelism.
  lemma Phase2Parallel(task: Task, start: Start)
    ensures RenderParallelizer(Phase2Task(task, start).parallelizer, "cdc") ==
            Section("parallelizer",
                    [("parallel_type", if task.dbTypeSource == "oracle" || task.dbTypeTarget == "oracle" then "serial"
                                       else "rdb_merge"),
                     ("parallel_size", NatOr(task.parallelizer, "parallel_size", 1))])
  {
    hide NatText;
  }

  // Without the camel-case key, a task is split exactly when it would itself render as snapshot_and_cdc from one of the
  // six managed sources.
  lemma TwoPhaseExactly(task: Task)
    requires Field(task.extractor, "extractType").None?
    ensures IsTwoPhase(task) <==>
            && ExtractType(task.extractor) == "snapshot_and_cdc"
            && (task.dbTypeSource == "mysql" || task.dbTypeSource == "pg" || task.dbTypeSource == "oracle" ||
                task.dbTypeSource == "gaussdb_pg" || task.dbTypeSource == "gaussdb_mysql" ||
                task.dbTypeSource == "gaussdb_oracle")
  {
  }

  // The task's own file with three of its sections replaced.
  ghost function Replacing(task: Task, extractor: Section, filter: Section, parallelizer: Section): seq<Section> {
    var resumer := RenderResumer(task.resumer, task.runtime);
    FirstSections(task)[1 := extractor][3 := filter][5 := parallelizer] +
    OptSection(resumer.kv != [], resumer) + LastSections(task)
  }

  lemma Replaced(task: Task, phase: Task)
    requires phase == task.(extractor := phase.extractor, parallelizer := phase.parallelizer, kind := phase.kind)
    ensures Render(phase) ==
            Replacing(task, RenderExtractor(task.dbTypeSource, phase.extractor, task.sourceEndpoint),
                      RenderFilter(task.filter, phase.kind), RenderParallelizer(phase.parallelizer, phase.kind))
  {
    hide RenderExtractor, RenderSinker, RenderFilter, RenderRouter, RenderParallelizer, RenderPipeline, RenderResumer,
         RenderRuntime, RenderProcessor, RenderMetrics, HasNonEmptyFields;
    assert FirstSections(phase) ==
           FirstSections(task)[1 := RenderExtractor(task.dbTypeSource, phase.extractor, task.sourceEndpoint)]
                              [3 := RenderFilter(task.filter, phase.kind)]
                              [5 := RenderParallelizer(phase.parallelizer, phase.kind)];
  }

  // Phase 1 is a snapshot taking inserts only; every other section but [parallelizer] is the task's own.
  lemma Phase1Renders(task: Task)
    requires IsTwoPhase(task) && Field(task.extractor, "extractType").None?
    ensures Render(Phase1Task(task)) ==
            Replacing(task, Extractor1(task), RenderFilter(task.filter, "snapshot"),
                      RenderParallelizer(task.parallelizer, "snapshot"))
    ensures Sets(Extractor1(task).kv, "extract_type", "snapshot")
    ensures Sets(RenderFilter(task.filter, "snapshot").kv, "do_events", "insert")
  {
    Phase1Type(task);
    hide RenderExtractor, RenderFilter, RenderParallelizer, Render, Replacing, Sets, ExtractType, Field, IsTwoPhase;
    TypeLine(task.dbTypeSource, Phase1Task(task).extractor, task.sourceEndpoint);
    InsertsOnly(task.filter, "snapshot");
    Replaced(task, Phase1Task(task));
  }

  // Phase 2 is a change stream from the captured marker, extracting otherwise as the task does, with its own events.
  lemma Phase2Renders(task: Task, start: Start)
    requires IsTwoPhase(task) && Field(task.extractor, "extractType").None?
    ensures Render(Phase2Task(task, start)) ==
            Replacing(task, Extractor2(task, start), RenderFilter(task.filter, "cdc"),
                      RenderParallelizer(Phase2Task(task, start).parallelizer, "cdc"))
    ensures Sets(Extractor2(task, start).kv, "extract_type", "cdc") && Marked(Extractor2(task, start).kv, start)
    ensures Without(Extractor2(task, start).kv, PhaseKeys(start)) == Without(FirstSections(task)[1].kv, PhaseKeys(start))
    ensures Without(RenderFilter(task.filter, "cdc").kv, {"do_events"}) ==
            Without(RenderFilter(task.filter, "snapshot").kv, {"do_events"})
  {
    Phase2Type(task, start);
    hide RenderExtractor, RenderFilter, RenderParallelizer, Render, Replacing, Sets, ExtractType, Field, IsTwoPhase, Marked,
         Without, FirstSections;
    TypeLine(task.dbTypeSource, Phase2Task(task, start).extractor, task.sourceEndpoint);
    Phase2Marked(task, start);
    Phase2OtherwiseSame(task, start);
    FilterOtherwiseSame(task.filter);
    Replaced(task, Phase2Task(task, start));
  }

  lemma OwnEvents(filter: Json, kind: string)
    requires kind != "snapshot" && kind != "check"
    ensures RenderFilter(filter, "cdc") == RenderFilter(filter, kind)
  {
    hide FilterScope, Pushes, Ensure, Rendered;
    assert DoEvents(filter, "cdc") == DoEvents(filter, kind);
  }
}
