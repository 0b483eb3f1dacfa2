/** Rendering a task for a resumed run: what is forced, what is recorded, what is left alone. */
module Resume {
  import opened Wrappers
  import opened Json
  import opened Ini
  import opened ExtractorEdits

  const SLOT_KEY := "recreate_slot_if_exists"

  const START_KEYS := ["start_lsn", "start_time_utc", "start_scn", "binlog_filename", "binlog_position"]

  predicate IsCleared(v: Json) {
    match v
    case Null => true
    case Str(s) => s == ""
    case Num(num) => num == PosInt(0)
    case _ => false
  }

  // The neutral marker keeps its JSON type.
  function Cleared(v: Json): Json {
    if IsCleared(v) then v else if v.Num? then Num(PosInt(0)) else Str("")
  }

  datatype Note =
    | ResumerForced(logDir: string, previous: Json)
    | SlotForced(was: Option<Json>)
    | StartCleared(key: string, value: Json)

  /******* What the rewrite amounts to *******/

  function FieldsOf(j: Json): map<string, Json> {
    if j.Obj? then j.fields else map[]
  }

  function ForcedFields(fields: map<string, Json>): map<string, Json> {
    map k | k in fields.Keys + {SLOT_KEY} ::
      if k == SLOT_KEY then Bool(false) else if k in START_KEYS then Cleared(fields[k]) else fields[k]
  }

  function ResumerFor(logDir: string): Json {
    Obj(map["resume_type" := Str("from_log"), "log_dir" := Str(logDir), "config_file" := Str("")])
  }

  function Resumed(task: Task, logDir: string): Task {
    task.(resumer := ResumerFor(logDir), extractor := Obj(ForcedFields(FieldsOf(task.extractor))))
  }

  function SlotNotes(extractor: Json): seq<Note> {
    if Field(extractor, SLOT_KEY) == Some(Bool(false)) then [] else [SlotForced(Field(extractor, SLOT_KEY))]
  }

  function StartNotes(extractor: Json, keys: seq<string>): seq<Note> {
    if keys == [] then []
    else
      var n := |keys| - 1;
      var o := Field(extractor, keys[n]);
      StartNotes(extractor, keys[..n]) + if o.None? || IsCleared(o.value) then [] else [StartCleared(keys[n], o.value)]
  }

  function Notes(task: Task, logDir: string): seq<Note> {
    [ResumerForced(logDir, task.resumer)] + SlotNotes(task.extractor) + StartNotes(task.extractor, START_KEYS)
  }

  lemma StartKeysApart()
    ensures forall i, j :: 0 <= i < j < |START_KEYS| ==> START_KEYS[i] != START_KEYS[j]
    ensures SLOT_KEY !in START_KEYS
  {
  }

  // The fields after the first `i` start keys have been seen to.
  ghost predicate Progress(fields: map<string, Json>, obj: map<string, Json>, i: int)
    requires 0 <= i <= |START_KEYS|
  {
    && obj.Keys == fields.Keys + {SLOT_KEY}
    && obj[SLOT_KEY] == Bool(false)
    && forall k :: k in fields && k != SLOT_KEY ==>
         obj[k] == if k in START_KEYS[..i] then Cleared(fields[k]) else fields[k]
  }

  lemma ProgressStep(fields: map<string, Json>, obj: map<string, Json>, next: map<string, Json>, i: int)
    requires 0 <= i < |START_KEYS| && Progress(fields, obj, i)
    requires var key := START_KEYS[i];
             if key in obj then next == obj[key := Cleared(obj[key])] else next == obj
    ensures Progress(fields, next, i + 1)
    ensures START_KEYS[i] in fields <==> START_KEYS[i] in obj
    ensures START_KEYS[i] in fields ==> obj[START_KEYS[i]] == fields[START_KEYS[i]]
  {
    hide Cleared;
    StartKeysApart();
    assert START_KEYS[..i + 1] == START_KEYS[..i] + [START_KEYS[i]];
    assert START_KEYS[i] !in START_KEYS[..i];
  }

  lemma ProgressEnds(fields: map<string, Json>, obj: map<string, Json>)
    ensures Progress(fields, fields[SLOT_KEY := Bool(false)], 0)
    ensures Progress(fields, obj, |START_KEYS|) ==> obj == ForcedFields(fields)
  {
    hide Cleared;
    assert START_KEYS[..|START_KEYS|] == START_KEYS;
  }

  method ForceResume(task: Task, logDir: string) returns (resumed: Task, applied: seq<Note>)
    ensures resumed == Resumed(task, logDir)
    ensures applied == Notes(task, logDir)
  {
    hide Progress, Cleared, ForcedFields, ResumerFor;
    applied := [ResumerForced(logDir, task.resumer)];
    ghost var fields := FieldsOf(task.extractor);
    var obj := FieldsOf(task.extractor);
    var previous := if SLOT_KEY in obj then Some(obj[SLOT_KEY]) else None;
    obj := obj[SLOT_KEY := Bool(false)];
    if previous != Some(Bool(false)) {
      applied := applied + [SlotForced(previous)];
    }
    ghost var head := applied;
    ProgressEnds(fields, obj);
    for i := 0 to |START_KEYS|
      invariant Progress(fields, obj, i)
      invariant applied == head + StartNotes(task.extractor, START_KEYS[..i])
    {
      var key := START_KEYS[i];
      assert START_KEYS[..i + 1][..i] == START_KEYS[..i];
      ghost var next := if key in obj then obj[key := Cleared(obj[key])] else obj;
      ProgressStep(fields, obj, next, i);
      if key in obj && !IsCleared(obj[key]) {
        applied := applied + [StartCleared(key, obj[key])];
        ClearedValue(obj[key]);
        obj := obj[key := if obj[key].Num? then Num(PosInt(0)) else Str("")];
      } else if key in obj {
        ClearedValue(obj[key]);
        assert next == obj;
      }
    }
    ProgressEnds(fields, obj);
    assert START_KEYS[..|START_KEYS|] == START_KEYS;
    resumed := task.(resumer := ResumerFor(logDir), extractor := Obj(obj));
  }

  lemma ClearedValue(v: Json)
    ensures Cleared(v) == if IsCleared(v) then v else if v.Num? then Num(PosInt(0)) else Str("")
  {
  }

  /******* The record is exactly what changed *******/

  predicate About(note: Note, key: string) {
    (note.SlotForced? && key == SLOT_KEY) || (note.StartCleared? && note.key == key)
  }

  function Was(note: Note): Option<Json>
    requires !note.ResumerForced?
  {
    if note.SlotForced? then note.was else Some(note.value)
  }

  ghost predicate Recorded(notes: seq<Note>, key: string) {
    exists i :: 0 <= i < |notes| && About(notes[i], key)
  }

  lemma {:induction false} StartNotesTell(extractor: Json, keys: seq<string>, key: string)
    requires SLOT_KEY !in keys
    ensures Recorded(StartNotes(extractor, keys), key) <==>
            key in keys && Field(extractor, key).Some? && !IsCleared(Field(extractor, key).value)
    ensures forall i :: 0 <= i < |StartNotes(extractor, keys)| ==>
              var note := StartNotes(extractor, keys)[i];
              note.StartCleared? && note.key in keys && Field(extractor, note.key) == Some(note.value)
  {
    hide IsCleared, Field;
    if keys == [] {
    } else {
      var n := |keys| - 1;
      var before, notes := StartNotes(extractor, keys[..n]), StartNotes(extractor, keys);
      StartNotesTell(extractor, keys[..n], key);
      assert forall i :: 0 <= i < |before| ==> notes[i] == before[i];
      if Recorded(before, key) {
        var i :| 0 <= i < |before| && About(before[i], key);
        assert About(notes[i], key);
      }
      var o := Field(extractor, keys[n]);
      if o.Some? && !IsCleared(o.value) {
        assert notes[|before|] == StartCleared(keys[n], o.value);
        assert About(notes[|before|], keys[n]);
      }
    }
  }

  lemma {:induction false} StartNotesOnce(extractor: Json, keys: seq<string>)
    requires forall i, j :: 0 <= i < j < |keys| ==> keys[i] != keys[j]
    requires SLOT_KEY !in keys
    ensures forall i, j :: 0 <= i < j < |StartNotes(extractor, keys)| ==>
              StartNotes(extractor, keys)[i] != StartNotes(extractor, keys)[j]
  {
    if keys == [] {
    } else {
      var n := |keys| - 1;
      StartNotesOnce(extractor, keys[..n]);
      StartNotesTell(extractor, keys[..n], "");
    }
  }

  lemma ChangedKeys(extractor: Json, key: string)
    ensures var after := Field(Obj(ForcedFields(FieldsOf(extractor))), key);
            after != Field(extractor, key) <==>
            if key == SLOT_KEY then Field(extractor, key) != Some(Bool(false))
            else key in START_KEYS && Field(extractor, key).Some? && !IsCleared(Field(extractor, key).value)
  {
  }

  lemma RecordedConcat(a: seq<Note>, b: seq<Note>, key: string)
    ensures Recorded(a + b, key) <==> Recorded(a, key) || Recorded(b, key)
  {
    hide About;
    assert forall i :: 0 <= i < |b| ==> (a + b)[|a| + i] == b[i];
    if Recorded(b, key) {
      var i :| 0 <= i < |b| && About(b[i], key);
      assert About((a + b)[|a| + i], key);
    }
    if Recorded(a, key) {
      var i :| 0 <= i < |a| && About(a[i], key);
      assert About((a + b)[i], key);
    }
  }

  lemma HeadNotesTell(task: Task, logDir: string, key: string)
    ensures var head := [ResumerForced(logDir, task.resumer)] + SlotNotes(task.extractor);
            Recorded(head, key) <==> key == SLOT_KEY && Field(task.extractor, key) != Some(Bool(false))
  {
    var head := [ResumerForced(logDir, task.resumer)] + SlotNotes(task.extractor);
    if SlotNotes(task.extractor) != [] {
      assert About(head[1], SLOT_KEY);
    }
  }

  // A note for every extractor key whose value changed, and for no other.
  lemma NotesTellChanges(task: Task, logDir: string, key: string)
    ensures Recorded(Notes(task, logDir), key) <==>
            Field(Resumed(task, logDir).extractor, key) != Field(task.extractor, key)
  {
    hide Field, IsCleared, StartNotes, SlotNotes, ForcedFields, Recorded;
    StartKeysApart();
    HeadNotesTell(task, logDir, key);
    StartNotesTell(task.extractor, START_KEYS, key);
    ChangedKeys(task.extractor, key);
    RecordedConcat([ResumerForced(logDir, task.resumer)] + SlotNotes(task.extractor),
                   StartNotes(task.extractor, START_KEYS), key);
  }

  // Each note is there once and carries the value its key had.
  lemma NotesOnce(task: Task, logDir: string)
    ensures var notes := Notes(task, logDir);
            forall i, j :: 0 <= i < j < |notes| ==> notes[i] != notes[j]
    ensures var notes := Notes(task, logDir);
            forall i, key :: 0 <= i < |notes| && About(notes[i], key) ==> Was(notes[i]) == Field(task.extractor, key)
  {
    hide Field, IsCleared, StartNotes;
    StartKeysApart();
    StartNotesTell(task.extractor, START_KEYS, "");
    StartNotesOnce(task.extractor, START_KEYS);
  }

  /******* The rendered file *******/

  const FORCED_KEYS := {
    "recreate_slot_if_exists", "start_lsn", "start_time_utc", "start_scn", "binlog_filename", "binlog_position"}

  lemma ForcedKeysAre()
    ensures forall k: string :: k in FORCED_KEYS <==> k == SLOT_KEY || k in START_KEYS
  {
  }

  lemma ForcedKeysApart()
    ensures HEAD_KEYS !! FORCED_KEYS
    ensures {"db_type", "extract_type", "extractType", "check_log_dir"} !! FORCED_KEYS
  {
  }

  lemma ForcedAgrees(extractor: Json)
    ensures AgreeOff(Obj(ForcedFields(FieldsOf(extractor))), extractor, FORCED_KEYS)
  {
    ForcedKeysAre();
    forall k | k !in FORCED_KEYS
      ensures Field(Obj(ForcedFields(FieldsOf(extractor))), k) == Field(extractor, k)
    {
      ChangedKeys(extractor, k);
    }
  }

  lemma NeutralRenders(form: Form, v: Json)
    requires form != Required
    ensures Rendered(form, Some(Cleared(v))) in {None, Some("0")}
    ensures Rendered(form, Some(Bool(false))) in {None, Some("false")}
  {
  }

  lemma RequiredSpecs(t: string, n: int)
    requires 0 <= n < |ExtractorSpecs(t)| && ExtractorSpecs(t)[n].form == Required
    ensures ExtractorSpecs(t)[n].key == "check_log_dir"
  {
  }

  // A rendered forced key holds its neutral value.
  ghost predicate Neutral(kv: Kv) {
    && (kv.0 == SLOT_KEY ==> kv.1 == "false")
    && (kv.0 in START_KEYS ==> kv.1 == "0")
  }

  lemma PushedNeutral(extractor: Json, t: string, i: int)
    requires 0 <= i < |Pushes(Obj(ForcedFields(FieldsOf(extractor))), ExtractorSpecs(t))|
    ensures Neutral(Pushes(Obj(ForcedFields(FieldsOf(extractor))), ExtractorSpecs(t))[i])
  {
    var forced, specs := Obj(ForcedFields(FieldsOf(extractor))), ExtractorSpecs(t);
    var n := PushedFrom(forced, specs, i);
    var key, form := specs[n].key, specs[n].form;
    ForcedKeysApart();
    ForcedKeysAre();
    StartKeysApart();
    assert "check_log_dir" in {"db_type", "extract_type", "extractType", "check_log_dir"};
    if key in FORCED_KEYS {
      if form == Required {
        RequiredSpecs(t, n);
      }
      ForcedValue(extractor, key, form);
    }
  }

  lemma ForcedValue(extractor: Json, key: string, form: Form)
    requires form != Required
    ensures var o := Field(Obj(ForcedFields(FieldsOf(extractor))), key);
            && (key == SLOT_KEY ==> Rendered(form, o) in {None, Some("false")})
            && (key in START_KEYS ==> Rendered(form, o) in {None, Some("0")})
  {
    hide Rendered, Cleared;
    StartKeysApart();
    NeutralRenders(form, Null);
    if key in FieldsOf(extractor) {
      NeutralRenders(form, FieldsOf(extractor)[key]);
    }
    AbsentRenders(form);
  }

  lemma AbsentRenders(form: Form)
    requires form != Required
    ensures Rendered(form, None) == None
  {
  }

  lemma HeadNeutral(dbType: string, t: string, j: Json, endpoint: Json, i: int)
    requires 0 <= i < |Head(dbType, "extract_type", t, j, endpoint)|
    ensures Neutral(Head(dbType, "extract_type", t, j, endpoint)[i])
  {
    hide UrlOf, Credential;
    ForcedKeysApart();
    ForcedKeysAre();
    assert {"url", "username", "password"} <= HEAD_KEYS;
    assert {"db_type", "extract_type"} <= {"db_type", "extract_type", "extractType", "check_log_dir"};
    assert Head(dbType, "extract_type", t, j, endpoint)[i].0 in {"db_type", "extract_type", "url", "username", "password"};
  }

  lemma TypeKept(extractor: Json)
    ensures ExtractType(Obj(ForcedFields(FieldsOf(extractor)))) == ExtractType(extractor)
  {
    hide ForcedFields;
    ForcedAgrees(extractor);
    ForcedKeysApart();
    assert {"extract_type", "extractType"} <= {"db_type", "extract_type", "extractType", "check_log_dir"};
  }

  lemma SlotSpec()
    ensures exists n :: 0 <= n < |CDC_SPECS| && CDC_SPECS[n] == Spec(Flag, SLOT_KEY)
  {
    var a := CDC_BINLOG_SPECS + CDC_TIMEOUT_SPECS + CDC_COMMON_SPECS;
    assert CDC_SPECS[|a| + 3] == CDC_PG_SPECS[3];
  }

  lemma SlotPushed(extractor: Json)
    ensures (SLOT_KEY, "false") in Pushes(Obj(ForcedFields(FieldsOf(extractor))), CDC_SPECS)
  {
    SlotSpec();
    var n :| 0 <= n < |CDC_SPECS| && CDC_SPECS[n] == Spec(Flag, SLOT_KEY);
    PushedAll(Obj(ForcedFields(FieldsOf(extractor))), CDC_SPECS, n, "false");
  }

  function ResumedExtractor(task: Task, logDir: string): Section {
    RenderExtractor(task.dbTypeSource, Resumed(task, logDir).extractor, task.sourceEndpoint)
  }

  lemma ExtractorNeutral(task: Task, logDir: string)
    ensures forall i :: 0 <= i < |ResumedExtractor(task, logDir).kv| ==> Neutral(ResumedExtractor(task, logDir).kv[i])
    ensures ExtractType(task.extractor) in {"cdc", "snapshot_and_cdc"} ==>
              (SLOT_KEY, "false") in ResumedExtractor(task, logDir).kv
  {
    hide Neutral, Head, Pushes, ForcedFields, ExtractType;
    var forced := Resumed(task, logDir).extractor;
    var t := ExtractType(forced);
    var head, pushes := Head(task.dbTypeSource, "extract_type", t, forced, task.sourceEndpoint), Pushes(forced, ExtractorSpecs(t));
    forall i | 0 <= i < |head| ensures Neutral(head[i]) {
      HeadNeutral(task.dbTypeSource, t, forced, task.sourceEndpoint, i);
    }
    forall i | 0 <= i < |pushes| ensures Neutral(pushes[i]) {
      PushedNeutral(task.extractor, t, i);
    }
    TypeKept(task.extractor);
    SlotPushed(task.extractor);
  }

  lemma ExtractorOtherwiseSame(task: Task, logDir: string)
    ensures Without(ResumedExtractor(task, logDir).kv, FORCED_KEYS) ==
            Without(RenderExtractor(task.dbTypeSource, task.extractor, task.sourceEndpoint).kv, FORCED_KEYS)
  {
    hide Without, RenderExtractor, ForcedFields, AgreeOff;
    ForcedAgrees(task.extractor);
    ForcedKeysApart();
    TypeKept(task.extractor);
    SectionAgrees(task.dbTypeSource, Resumed(task, logDir).extractor, task.extractor, task.sourceEndpoint, FORCED_KEYS);
  }

  function FromLog(logDir: string): Section {
    Section("resumer", [("resume_type", "from_log"), ("log_dir", logDir)])
  }

  lemma ResumerIs(logDir: string, runtime: Json)
    ensures RenderResumer(ResumerFor(logDir), runtime) == FromLog(logDir)
  {
    var resumer := ResumerFor(logDir);
    assert Rendered(Text, Field(resumer, "config_file")) == None;
    assert Pushes(resumer, CONFIG_FILE) == [];
  }

  /**
   * The resumed file is the task's own file with [extractor] and [resumer] put in: the resumer reads the paused run's
   * directory and no second position log, no start marker survives, no slot is recreated, and every other line stays.
   */
  lemma ResumeRenders(task: Task, logDir: string)
    ensures Render(Resumed(task, logDir)) ==
            FirstSections(task)[1 := ResumedExtractor(task, logDir)] + [FromLog(logDir)] + LastSections(task)
    ensures forall i :: 0 <= i < |ResumedExtractor(task, logDir).kv| ==> Neutral(ResumedExtractor(task, logDir).kv[i])
    ensures Without(ResumedExtractor(task, logDir).kv, FORCED_KEYS) == Without(FirstSections(task)[1].kv, FORCED_KEYS)
  {
    hide RenderExtractor, RenderSinker, RenderFilter, RenderRouter, RenderParallelizer, RenderPipeline, RenderResumer,
         RenderRuntime, RenderProcessor, RenderMetrics, HasNonEmptyFields, Neutral, Without, ForcedFields, ResumerFor;
    ExtractorNeutral(task, logDir);
    ExtractorOtherwiseSame(task, logDir);
    ResumerIs(logDir, task.runtime);
    assert FirstSections(Resumed(task, logDir)) == FirstSections(task)[1 := ResumedExtractor(task, logDir)];
  }

  // Resuming what was already rewritten changes nothing and records only the resumer.
  lemma ResumeTwice(task: Task, logDir: string)
    ensures Resumed(Resumed(task, logDir), logDir) == Resumed(task, logDir)
    ensures Notes(Resumed(task, logDir), logDir) == [ResumerForced(logDir, ResumerFor(logDir))]
  {
    var once := Resumed(task, logDir);
    var fields := FieldsOf(task.extractor);
    ForcedTwice(fields);
    hide ForcedFields, ResumerFor;
    var notes := Notes(once, logDir);
    if |notes| > 1 {
      StartKeysApart();
      StartNotesTell(once.extractor, START_KEYS, "");
      var key := if notes[1].StartCleared? then notes[1].key else SLOT_KEY;
      assert About(notes[1], key);
      NotesTellChanges(once, logDir, key);
    }
  }

  lemma ForcedTwice(fields: map<string, Json>)
    ensures ForcedFields(ForcedFields(fields)) == ForcedFields(fields)
  {
    StartKeysApart();
  }
}
