/** Schema and table filtering, and the verdict cache. */
module Filter {
  import opened Wrappers
  import opened Glob

  // Parsed token sets. `engine` decides the regexes outside the modelled fragment.
  datatype Config = Config(
    doSchemas: set<string>, ignoreSchemas: set<string>,
    doTbs: set<(string, string)>, ignoreTbs: set<(string, string)>,
    escapes: seq<(char, char)>, engine: (string, string) -> bool)

  predicate IsEscaped(token: string, pair: (char, char)) {
    token != "" && token[0] == pair.0 && token[|token| - 1] == pair.1
  }

  function Escape(token: string, pair: (char, char)): string {
    if IsEscaped(token, pair) then token else [pair.0] + token + [pair.1]
  }

  // r#...#
  predicate IsRaw(pattern: string) {
    "r#" <= pattern && pattern[|pattern| - 1] == '#'
  }

  function RawText(pattern: string): string
    requires IsRaw(pattern)
  {
    if |pattern| < 3 then "" else pattern[2..|pattern| - 1]
  }

  predicate Verdict(cfg: Config, regex: string, name: string) {
    var items := ParseRegex(regex);
    if items.Some? then RegexMatches(items.value, name) else cfg.engine(regex, name)
  }

  function EscapeOf(pattern: string, escapes: seq<(char, char)>): Option<(char, char)> {
    if escapes == [] then None
    else if IsEscaped(pattern, escapes[0]) then Some(escapes[0])
    else EscapeOf(pattern, escapes[1..])
  }

  predicate MatchToken(cfg: Config, pattern: string, name: string) {
    match EscapeOf(pattern, cfg.escapes)
    case Some(pair) => pattern == Escape(name, pair)
    case None =>
      if IsRaw(pattern) then Verdict(cfg, RawText(pattern), name) else Verdict(cfg, Translate(pattern), name)
  }

  predicate ContainTb(cfg: Config, tbs: set<(string, string)>, schema: string, tb: string) {
    exists p :: p in tbs && MatchToken(cfg, p.0, schema) && MatchToken(cfg, p.1, tb)
  }

  predicate ContainSchema(cfg: Config, schemas: set<string>, schema: string) {
    exists p :: p in schemas && MatchToken(cfg, p, schema)
  }

  function DoTbSchemas(cfg: Config): set<string> {
    set p | p in cfg.doTbs :: p.0
  }

  predicate FilterSchema(cfg: Config, schema: string) {
    || ContainTb(cfg, cfg.ignoreTbs, schema, "*")
    || ContainSchema(cfg, cfg.ignoreSchemas, schema)
    || !(ContainSchema(cfg, cfg.doSchemas, schema) || ContainSchema(cfg, DoTbSchemas(cfg), schema))
  }

  // filter_tb without its cache
  predicate FilterTb(cfg: Config, schema: string, tb: string) {
    var keep :=
      if ContainSchema(cfg, DoTbSchemas(cfg), schema) then ContainTb(cfg, cfg.doTbs, schema, tb)
      else ContainTb(cfg, cfg.doTbs, schema, tb) || ContainSchema(cfg, cfg.doSchemas, schema);
    || ContainTb(cfg, cfg.ignoreTbs, schema, tb)
    || ContainSchema(cfg, cfg.ignoreSchemas, schema)
    || !keep
  }

  /******* The verdicts, entry by entry *******/

  // A name in escapes matches the table it quotes, and itself.
  lemma EscapedToken(cfg: Config, pair: (char, char), inner: string, name: string)
    requires EscapeOf([pair.0] + inner + [pair.1], cfg.escapes) == Some(pair)
    ensures MatchToken(cfg, [pair.0] + inner + [pair.1], name) <==>
            (name == inner && !IsEscaped(inner, pair)) || name == [pair.0] + inner + [pair.1]
  {
    var pattern := [pair.0] + inner + [pair.1];
    assert pattern[0] == pair.0 && pattern[|pattern| - 1] == pair.1;
    if !IsEscaped(name, pair) {
      var quoted := [pair.0] + name + [pair.1];
      assert quoted[1..|quoted| - 1] == name && pattern[1..|pattern| - 1] == inner;
    }
  }

  // What stands between `r#` and `#` is taken as a regex.
  lemma RawToken(cfg: Config, regex: string, name: string)
    requires EscapeOf("r#" + regex + "#", cfg.escapes).None?
    ensures MatchToken(cfg, "r#" + regex + "#", name) <==> Verdict(cfg, regex, name)
  {
    var pattern := "r#" + regex + "#";
    assert pattern[..2] == "r#" && pattern[|pattern| - 1] == '#' && pattern[2..|pattern| - 1] == regex;
    assert IsRaw(pattern);
    hide Verdict, ParseRegex;
  }

  ghost predicate Named(cfg: Config, entries: set<(string, string)>, schema: string) {
    exists e :: e in entries && MatchToken(cfg, e.0, schema)
  }

  // A schema is dropped when it is ignored, when an ignore entry for it takes the name `*`, and when nothing asks for it.
  lemma SchemaDroppedWhen(cfg: Config, schema: string)
    ensures FilterSchema(cfg, schema) <==>
            || (exists p :: p in cfg.ignoreSchemas && MatchToken(cfg, p, schema))
            || (exists e :: e in cfg.ignoreTbs && MatchToken(cfg, e.0, schema) && MatchToken(cfg, e.1, "*"))
            || ((forall p :: p in cfg.doSchemas ==> !MatchToken(cfg, p, schema)) && !Named(cfg, cfg.doTbs, schema))
  {
    hide MatchToken;
    NamedIsDoTb(cfg, schema);
  }

  lemma NamedIsDoTb(cfg: Config, schema: string)
    ensures ContainSchema(cfg, DoTbSchemas(cfg), schema) <==> Named(cfg, cfg.doTbs, schema)
  {
    hide MatchToken;
    if Named(cfg, cfg.doTbs, schema) {
      var e :| e in cfg.doTbs && MatchToken(cfg, e.0, schema);
      assert e.0 in DoTbSchemas(cfg);
    }
  }

  // A table is kept when nothing ignores it and it is asked for: by a do entry, or by its schema as long as no do entry
  // names that schema.
  lemma TableKeptWhen(cfg: Config, schema: string, tb: string)
    ensures !FilterTb(cfg, schema, tb) <==>
            && (forall p :: p in cfg.ignoreSchemas ==> !MatchToken(cfg, p, schema))
            && (forall e :: e in cfg.ignoreTbs ==> !MatchToken(cfg, e.0, schema) || !MatchToken(cfg, e.1, tb))
            && ((exists e :: e in cfg.doTbs && MatchToken(cfg, e.0, schema) && MatchToken(cfg, e.1, tb)) ||
                ((exists p :: p in cfg.doSchemas && MatchToken(cfg, p, schema)) && !Named(cfg, cfg.doTbs, schema)))
  {
    hide MatchToken;
    NamedIsDoTb(cfg, schema);
  }

  /******* Schema verdict implies table verdict *******/

  // Unescaped, no raw regex, no metacharacter.
  ghost predicate IsGlob(cfg: Config, pattern: string) {
    EscapeOf(pattern, cfg.escapes).None? && !IsRaw(pattern) && Plain(pattern)
  }

  // Escaped, and not the table called `*`; or a glob that is not all `?`.
  ghost predicate SoundEntry(cfg: Config, pattern: string) {
    match EscapeOf(pattern, cfg.escapes)
    case Some(pair) => pattern != Escape("*", pair)
    case None => IsGlob(cfg, pattern) && !OnlyOptional(pattern)
  }

  ghost predicate Hits(cfg: Config, entry: (string, string), schema: string, tb: string) {
    MatchToken(cfg, entry.0, schema) && MatchToken(cfg, entry.1, tb)
  }

  // Some sound entry of the list takes the whole schema.
  ghost predicate Covered(cfg: Config, entries: set<(string, string)>, schema: string) {
    exists p :: p in entries && Hits(cfg, p, schema, "*") && SoundEntry(cfg, p.1)
  }

  // If the ignore list's probe for `*` succeeds, a sound entry is behind it.
  ghost predicate ProbeCovered(cfg: Config, schema: string) {
    ContainTb(cfg, cfg.ignoreTbs, schema, "*") ==> Covered(cfg, cfg.ignoreTbs, schema)
  }

  lemma GlobToken(cfg: Config, pattern: string, name: string)
    requires IsGlob(cfg, pattern) && NewlineFree(name)
    ensures MatchToken(cfg, pattern, name) <==> GlobMatches(pattern, name)
  {
    TranslationPreservesMeaning(pattern, name);
  }

  // A sound entry that accepts the name `*` accepts every newline-free name, and no other.
  lemma StarEntryMatches(cfg: Config, pattern: string, tb: string)
    requires SoundEntry(cfg, pattern) && MatchToken(cfg, pattern, "*")
    ensures MatchToken(cfg, pattern, tb) <==> NewlineFree(tb)
  {
    hide GlobMatches, RegexMatches, ParseRegex, Translate;
    TranslationPreservesMeaning(pattern, "*");
    TranslationPreservesMeaning(pattern, tb);
    StarTestIsSound(pattern);
    UniformNeedsWild(pattern, "*", '*');
    TranslationParses(pattern);
    if MatchToken(cfg, pattern, tb) {
      WildStopsAtNewline(pattern, tb);
    }
  }

  lemma NoSchemaNoTable(cfg: Config, schema: string, tb: string)
    requires !ContainSchema(cfg, DoTbSchemas(cfg), schema)
    ensures !ContainTb(cfg, cfg.doTbs, schema, tb)
  {
    assert forall p :: p in cfg.doTbs ==> p.0 in DoTbSchemas(cfg);
  }

  lemma CoveredContains(cfg: Config, entries: set<(string, string)>, schema: string, tb: string)
    requires Covered(cfg, entries, schema) && NewlineFree(tb)
    ensures ContainTb(cfg, entries, schema, tb) && ContainTb(cfg, entries, schema, "*")
  {
    hide MatchToken;
    var p :| p in entries && Hits(cfg, p, schema, "*") && SoundEntry(cfg, p.1);
    StarEntryMatches(cfg, p.1, tb);
  }

  // Nothing is asked of entries for other schemas, nor of further entries beside the sound one.
  lemma SchemaImpliesTable(cfg: Config, schema: string, tb: string)
    requires ProbeCovered(cfg, schema) && NewlineFree(tb)
    ensures FilterSchema(cfg, schema) ==> FilterTb(cfg, schema, tb)
  {
    hide MatchToken, Covered;
    if ContainTb(cfg, cfg.ignoreTbs, schema, "*") {
      CoveredContains(cfg, cfg.ignoreTbs, schema, tb);
    } else if !ContainSchema(cfg, DoTbSchemas(cfg), schema) {
      NoSchemaNoTable(cfg, schema, tb);
    }
  }

  /******* Where every table of the schema is wanted, that condition is exact *******/

  // The do lists keep every newline-free table: by the schema alone, or by a sound entry for all of it.
  ghost predicate WantsAll(cfg: Config, schema: string) {
    || (ContainSchema(cfg, cfg.doSchemas, schema) && !ContainSchema(cfg, DoTbSchemas(cfg), schema))
    || Covered(cfg, cfg.doTbs, schema)
  }

  lemma WantedVerdict(cfg: Config, schema: string, tb: string)
    requires WantsAll(cfg, schema) && !ContainSchema(cfg, cfg.ignoreSchemas, schema) && NewlineFree(tb)
    ensures FilterSchema(cfg, schema) <==> ContainTb(cfg, cfg.ignoreTbs, schema, "*")
    ensures FilterTb(cfg, schema, tb) <==> ContainTb(cfg, cfg.ignoreTbs, schema, tb)
  {
    hide MatchToken, Covered;
    if Covered(cfg, cfg.doTbs, schema) {
      CoveredContains(cfg, cfg.doTbs, schema, tb);
      if !ContainSchema(cfg, DoTbSchemas(cfg), schema) {
        NoSchemaNoTable(cfg, schema, tb);
      }
    }
  }

  // Every ignore entry for the schema is escaped or a glob, and no such glob spells out `c`.
  ghost predicate Spare(cfg: Config, schema: string, c: char) {
    && c != '\n' && c != '*' && c != '?'
    && forall p :: p in cfg.ignoreTbs && MatchToken(cfg, p.0, schema) ==>
         EscapeOf(p.1, cfg.escapes).Some? || (IsGlob(cfg, p.1) && c !in p.1)
  }

  lemma {:induction false} LongerThanAll(entries: set<(string, string)>) returns (n: nat)
    ensures forall p :: p in entries ==> |p.1| < n
  {
    if entries == {} {
      n := 0;
    } else {
      var p :| p in entries;
      var m := LongerThanAll(entries - {p});
      n := if |p.1| < m then m else |p.1| + 1;
    }
  }

  // An entry that takes a long name of spare characters takes the whole schema, soundly.
  lemma SpareNameNeedsCover(cfg: Config, pattern: string, tb: string, c: char)
    requires EscapeOf(pattern, cfg.escapes).Some? || (IsGlob(cfg, pattern) && c !in pattern)
    requires c != '\n' && |tb| > |pattern| && forall i :: 0 <= i < |tb| ==> tb[i] == c
    requires MatchToken(cfg, pattern, tb)
    ensures MatchToken(cfg, pattern, "*") && SoundEntry(cfg, pattern)
  {
    hide GlobMatches, RegexMatches, ParseRegex, Translate;
    assert EscapeOf(pattern, cfg.escapes).None?;
    GlobToken(cfg, pattern, tb);
    GlobToken(cfg, pattern, "*");
    LongNeedsStar(pattern, tb, c);
    WildStarMatchesAll(pattern, "*");
  }

  /** For a schema all of whose tables are wanted, under any number of ignore entries: its verdict implies theirs
      exactly when a sound entry is behind a successful probe. */
  lemma SchemaLawExact(cfg: Config, schema: string, c: char)
    requires WantsAll(cfg, schema) && !ContainSchema(cfg, cfg.ignoreSchemas, schema) && Spare(cfg, schema, c)
    ensures (forall tb :: NewlineFree(tb) ==> (FilterSchema(cfg, schema) ==> FilterTb(cfg, schema, tb))) <==>
            ProbeCovered(cfg, schema)
  {
    hide MatchToken, FilterSchema, FilterTb, WantsAll, SoundEntry, IsGlob;
    if ProbeCovered(cfg, schema) {
      forall tb | NewlineFree(tb) ensures FilterSchema(cfg, schema) ==> FilterTb(cfg, schema, tb) {
        SchemaImpliesTable(cfg, schema, tb);
      }
    } else {
      var n := LongerThanAll(cfg.ignoreTbs);
      var tb := seq(n, _ => c);
      WantedVerdict(cfg, schema, tb);
      if ContainTb(cfg, cfg.ignoreTbs, schema, tb) {
        var p :| p in cfg.ignoreTbs && MatchToken(cfg, p.0, schema) && MatchToken(cfg, p.1, tb);
        SpareNameNeedsCover(cfg, p.1, tb, c);
      }
    }
  }

  // An ignore entry made only of `?` breaks the law: the schema is dropped, a long-named table kept.
  lemma OptionalIgnoreBreaks(engine: (string, string) -> bool)
    ensures var cfg := Config({"s"}, {}, {}, {("s", "?")}, [('`', '`')], engine);
            FilterSchema(cfg, "s") && !FilterTb(cfg, "s", "ab")
  {
    var cfg := Config({"s"}, {}, {}, {("s", "?")}, [('`', '`')], engine);
    assert cfg.escapes[1..] == [];
    assert IsGlob(cfg, "s") && IsGlob(cfg, "?");
    GlobToken(cfg, "s", "s");
    GlobToken(cfg, "?", "*");
    GlobToken(cfg, "?", "ab");
    OptionalBoundsLength("?", "*");
    OptionalBoundsLength("?", "ab");
    assert "s"[1..] == "";
    assert ("s", "?") in cfg.ignoreTbs;
    assert "s" in cfg.doSchemas;
  }

  // One ignore entry alone decides over a schema that is otherwise kept.
  ghost predicate LoneIgnore(cfg: Config, schema: string, entry: (string, string)) {
    && cfg.ignoreTbs == {entry} && MatchToken(cfg, entry.0, schema)
    && cfg.doTbs == {} && ContainSchema(cfg, cfg.doSchemas, schema)
    && !ContainSchema(cfg, cfg.ignoreSchemas, schema)
  }

  lemma LoneVerdict(cfg: Config, schema: string, entry: (string, string), tb: string)
    requires LoneIgnore(cfg, schema, entry)
    ensures FilterSchema(cfg, schema) <==> MatchToken(cfg, entry.1, "*")
    ensures FilterTb(cfg, schema, tb) <==> MatchToken(cfg, entry.1, tb)
  {
    hide MatchToken;
    assert entry in cfg.ignoreTbs;
  }

  // Where such a sound entry drops the schema, the tables still kept are those with a newline in their name.
  lemma LoneIgnoreKeeps(cfg: Config, schema: string, entry: (string, string), tb: string)
    requires LoneIgnore(cfg, schema, entry) && SoundEntry(cfg, entry.1)
    ensures FilterSchema(cfg, schema) ==> (FilterTb(cfg, schema, tb) <==> NewlineFree(tb))
  {
    hide MatchToken, FilterSchema, FilterTb, LoneIgnore, SoundEntry;
    LoneVerdict(cfg, schema, entry, tb);
    if MatchToken(cfg, entry.1, "*") {
      StarEntryMatches(cfg, entry.1, tb);
    }
  }

  // So does the escaped `*`: it names only the table called `*`.
  lemma EscapedIgnoreBreaks(engine: (string, string) -> bool)
    ensures var cfg := Config({"s"}, {}, {}, {("s", "`*`")}, [('`', '`')], engine);
            FilterSchema(cfg, "s") && !FilterTb(cfg, "s", "ab")
  {
    var cfg := Config({"s"}, {}, {}, {("s", "`*`")}, [('`', '`')], engine);
    assert cfg.escapes[1..] == [];
    assert IsGlob(cfg, "s");
    GlobToken(cfg, "s", "s");
    assert "s"[1..] == "";
    assert Escape("*", ('`', '`')) == "`*`";
    assert |Escape("ab", ('`', '`'))| == 4;
    assert ("s", "`*`") in cfg.ignoreTbs;
    assert "s" in cfg.doSchemas;
  }

  /******* The cache *******/

  type Cache = map<(string, string), bool>

  datatype Op = AddIgnore(schema: string, tb: string) | AddDo(schema: string, tb: string) | Ask(schema: string, tb: string)

  datatype State = State(cfg: Config, cache: Cache)

  function Apply(st: State, op: Op): (State, Option<bool>) {
    match op
    case AddIgnore(schema, tb) => (st.(cfg := st.cfg.(ignoreTbs := st.cfg.ignoreTbs + {(schema, tb)})), None)
    case AddDo(schema, tb) => (st.(cfg := st.cfg.(doTbs := st.cfg.doTbs + {(schema, tb)})), None)
    case Ask(schema, tb) =>
      if (schema, tb) in st.cache then (st, Some(st.cache[(schema, tb)]))
      else
        var answer := FilterTb(st.cfg, schema, tb);
        (st.(cache := st.cache[(schema, tb) := answer]), Some(answer))
  }

  function Run(st: State, ops: seq<Op>): (State, seq<Option<bool>>) {
    if ops == [] then (st, [])
    else
      var n := |ops| - 1;
      var (before, answers) := Run(st, ops[..n]);
      var (after, answer) := Apply(before, ops[n]);
      (after, answers + [answer])
  }

  lemma RunSnoc(st: State, ops: seq<Op>, op: Op)
    ensures Run(st, []) == (st, [])
    ensures var (before, answers) := Run(st, ops);
            Run(st, ops + [op]) == (Apply(before, op).0, answers + [Apply(before, op).1])
  {
    hide Apply;
    assert (ops + [op])[..|ops|] == ops;
  }

  ghost predicate Coherent(st: State) {
    forall k :: k in st.cache ==> st.cache[k] == FilterTb(st.cfg, k.0, k.1)
  }

  // Every add comes before the first lookup.
  ghost predicate AddsFirst(ops: seq<Op>) {
    forall i, j :: 0 <= i < j < |ops| && ops[i].Ask? ==> ops[j].Ask?
  }

  ghost predicate OnlyAdds(ops: seq<Op>) {
    forall i :: 0 <= i < |ops| ==> !ops[i].Ask?
  }

  lemma {:induction false} AddsFirstCoherent(cfg: Config, ops: seq<Op>)
    requires AddsFirst(ops)
    ensures var (st, answers) := Run(State(cfg, map[]), ops);
            && |answers| == |ops|
            && Coherent(st)
            && (OnlyAdds(ops) ==> st.cache == map[])
            && forall i :: 0 <= i < |ops| && ops[i].Ask? ==> answers[i] == Some(FilterTb(st.cfg, ops[i].schema, ops[i].tb))
  {
    hide FilterTb;
    if ops == [] {
    } else {
      var n := |ops| - 1;
      AddsFirstCoherent(cfg, ops[..n]);
      var (before, answers) := Run(State(cfg, map[]), ops[..n]);
      assert forall i :: 0 <= i < n ==> ops[..n][i] == ops[i];
      if !ops[n].Ask? {
        assert OnlyAdds(ops[..n]);
      }
    }
  }

  // In such a run every answer, cached or not, obeys the schema verdict.
  lemma SchemaImpliesEveryAnswer(cfg: Config, ops: seq<Op>, i: nat)
    requires AddsFirst(ops) && i < |ops| && ops[i].Ask? && NewlineFree(ops[i].tb)
    requires ProbeCovered(Run(State(cfg, map[]), ops).0.cfg, ops[i].schema)
    ensures var (st, answers) := Run(State(cfg, map[]), ops);
            |answers| == |ops| && (FilterSchema(st.cfg, ops[i].schema) ==> answers[i] == Some(true))
  {
    AddsFirstCoherent(cfg, ops);
    SchemaImpliesTable(Run(State(cfg, map[]), ops).0.cfg, ops[i].schema, ops[i].tb);
  }

  /******* Which adds leave stale answers behind *******/

  ghost predicate SameMatching(a: Config, b: Config) {
    forall p: string, n: string :: MatchToken(a, p, n) == MatchToken(b, p, n)
  }

  lemma AddKeepsMatching(st: State, op: Op)
    ensures SameMatching(st.cfg, Apply(st, op).0.cfg)
  {
    var after := Apply(st, op).0.cfg;
    forall p: string, n: string ensures MatchToken(st.cfg, p, n) == MatchToken(after, p, n) {
      assert forall regex: string :: Verdict(st.cfg, regex, n) == Verdict(after, regex, n);
    }
  }

  // Ignored whatever the do lists say.
  predicate Ignored(cfg: Config, schema: string, tb: string) {
    ContainTb(cfg, cfg.ignoreTbs, schema, tb) || ContainSchema(cfg, cfg.ignoreSchemas, schema)
  }

  // The verdict the cache holds for `k` survives the add.
  ghost predicate Survives(st: State, op: Op, k: (string, string))
    requires k in st.cache
  {
    match op
    case Ask(_, _) => true
    case AddIgnore(s, t) => MatchToken(st.cfg, s, k.0) && MatchToken(st.cfg, t, k.1) ==> st.cache[k]
    case AddDo(s, t) =>
      MatchToken(st.cfg, s, k.0) ==>
        if st.cache[k] then MatchToken(st.cfg, t, k.1) ==> Ignored(st.cfg, k.0, k.1)
        else MatchToken(st.cfg, t, k.1) || ContainSchema(st.cfg, DoTbSchemas(st.cfg), k.0)
  }

  lemma IgnoreEffect(st: State, s: string, t: string, k: (string, string))
    ensures var after := Apply(st, AddIgnore(s, t)).0.cfg;
            FilterTb(after, k.0, k.1) <==>
            FilterTb(st.cfg, k.0, k.1) || (MatchToken(st.cfg, s, k.0) && MatchToken(st.cfg, t, k.1))
  {
    hide MatchToken;
    var before, after := st.cfg, Apply(st, AddIgnore(s, t)).0.cfg;
    AddKeepsMatching(st, AddIgnore(s, t));
    assert (s, t) in after.ignoreTbs;
    assert DoTbSchemas(after) == DoTbSchemas(before);
    assert ContainTb(after, after.doTbs, k.0, k.1) == ContainTb(before, before.doTbs, k.0, k.1);
    assert ContainSchema(after, DoTbSchemas(after), k.0) == ContainSchema(before, DoTbSchemas(before), k.0);
    assert ContainSchema(after, after.doSchemas, k.0) == ContainSchema(before, before.doSchemas, k.0);
    assert ContainSchema(after, after.ignoreSchemas, k.0) == ContainSchema(before, before.ignoreSchemas, k.0);
    assert ContainTb(after, after.ignoreTbs, k.0, k.1) <==>
           ContainTb(before, before.ignoreTbs, k.0, k.1) || (MatchToken(before, s, k.0) && MatchToken(before, t, k.1));
  }

  lemma DoEffect(st: State, s: string, t: string, k: (string, string))
    ensures var after := Apply(st, AddDo(s, t)).0.cfg;
            && Ignored(after, k.0, k.1) == Ignored(st.cfg, k.0, k.1)
            && ContainSchema(after, after.doSchemas, k.0) == ContainSchema(st.cfg, st.cfg.doSchemas, k.0)
            && (ContainSchema(after, DoTbSchemas(after), k.0) <==>
                ContainSchema(st.cfg, DoTbSchemas(st.cfg), k.0) || MatchToken(st.cfg, s, k.0))
            && (ContainTb(after, after.doTbs, k.0, k.1) <==>
                || ContainTb(st.cfg, st.cfg.doTbs, k.0, k.1)
                || (MatchToken(st.cfg, s, k.0) && MatchToken(st.cfg, t, k.1)))
  {
    hide MatchToken;
    AddKeepsMatching(st, AddDo(s, t));
    var after := Apply(st, AddDo(s, t)).0.cfg;
    assert (s, t) in after.doTbs;
    assert DoTbSchemas(after) == DoTbSchemas(st.cfg) + {s};
  }

  lemma SurvivesExactly(st: State, op: Op, k: (string, string))
    requires k in st.cache && st.cache[k] == FilterTb(st.cfg, k.0, k.1)
    ensures Survives(st, op, k) <==> FilterTb(Apply(st, op).0.cfg, k.0, k.1) == st.cache[k]
  {
    match op
    case Ask(_, _) =>
    case AddIgnore(s, t) =>
      IgnoreEffect(st, s, t, k);
    case AddDo(s, t) =>
      DoEffect(st, s, t, k);
      if !ContainSchema(st.cfg, DoTbSchemas(st.cfg), k.0) {
        NoSchemaNoTable(st.cfg, k.0, k.1);
      }
      hide MatchToken, ContainTb, ContainSchema, DoTbSchemas;
  }

  /** An add leaves no stale answer exactly when it hits no cached table that it would decide otherwise: an ignore
      entry none that was kept, a do entry none that was dropped without being ignored, and none that was kept only
      because its schema had no do entry yet. */
  lemma AddStaleness(st: State, op: Op)
    requires Coherent(st)
    ensures Coherent(Apply(st, op).0) <==> forall k :: k in st.cache ==> Survives(st, op, k)
  {
    hide FilterTb, Survives;
    var after := Apply(st, op).0;
    assert forall k :: k in st.cache ==> k in after.cache && after.cache[k] == st.cache[k];
    forall k | k in st.cache
      ensures Survives(st, op, k) <==> FilterTb(after.cfg, k.0, k.1) == st.cache[k]
    {
      SurvivesExactly(st, op, k);
    }
  }

  // A kept table that is looked up, then ignored under its own name, goes on being kept.
  lemma StaleAfterAdd(cfg: Config, schema: string, tb: string)
    requires MatchToken(cfg, schema, schema) && MatchToken(cfg, tb, tb) && !FilterTb(cfg, schema, tb)
    ensures var (st, answers) := Run(State(cfg, map[]), [Ask(schema, tb), AddIgnore(schema, tb), Ask(schema, tb)]);
            answers == [Some(false), None, Some(false)] && FilterTb(st.cfg, schema, tb)
  {
    hide FilterTb, MatchToken;
    var start, ask, add := State(cfg, map[]), Ask(schema, tb), AddIgnore(schema, tb);
    var asked := Apply(start, ask).0;
    RunSnoc(start, [], ask);
    RunSnoc(start, [ask], add);
    RunSnoc(start, [ask, add], ask);
    assert [] + [ask] == [ask] && [ask] + [add] == [ask, add] && [ask, add] + [ask] == [ask, add, ask];
    hide Run;
    IgnoreEffect(asked, schema, tb, (schema, tb));
  }

  /******* As it runs *******/

  class RdbFilter {
    const doSchemas: set<string>
    const ignoreSchemas: set<string>
    const escapes: seq<(char, char)>
    const engine: (string, string) -> bool
    var doTbs: set<(string, string)>
    var ignoreTbs: set<(string, string)>
    var cache: Cache

    function Cfg(): Config
      reads this
    {
      Config(doSchemas, ignoreSchemas, doTbs, ignoreTbs, escapes, engine)
    }

    ghost function Now(): State
      reads this
    {
      State(Cfg(), cache)
    }

    constructor (cfg: Config)
      ensures Now() == State(cfg, map[])
    {
      doSchemas, ignoreSchemas, escapes, engine := cfg.doSchemas, cfg.ignoreSchemas, cfg.escapes, cfg.engine;
      doTbs, ignoreTbs, cache := cfg.doTbs, cfg.ignoreTbs, map[];
    }

    method AskTb(schema: string, tb: string) returns (filter: bool)
      modifies `cache
      ensures (Now(), Some(filter)) == Apply(old(Now()), Ask(schema, tb))
    {
      if (schema, tb) in cache { return cache[(schema, tb)]; }
      var cfg := Cfg();
      filter := ContainTb(cfg, ignoreTbs, schema, tb) || ContainSchema(cfg, ignoreSchemas, schema);
      var keep := ContainTb(cfg, doTbs, schema, tb);
      if !ContainSchema(cfg, DoTbSchemas(cfg), schema) {
        keep := keep || ContainSchema(cfg, doSchemas, schema);
      }
      filter := filter || !keep;
      cache := cache[(schema, tb) := filter];
    }

    method AddIgnoreTb(schema: string, tb: string)
      modifies `ignoreTbs
      ensures Now() == Apply(old(Now()), AddIgnore(schema, tb)).0
    {
      ignoreTbs := ignoreTbs + {(schema, tb)};
    }

    method AddDoTb(schema: string, tb: string)
      modifies `doTbs
      ensures Now() == Apply(old(Now()), AddDo(schema, tb)).0
    {
      doTbs := doTbs + {(schema, tb)};
    }
  }
}
