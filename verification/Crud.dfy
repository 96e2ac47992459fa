/**
 The demo CRUD plugin: examples/crud-plugin/src/index.ts.

 A handler runs without interruption up to its first await, and other handlers may run at each await.
 All work on the database and on the warm cache happens before the first await. After it come the calls
 of the key-value store, each of which takes effect, or fails, at some moment of its own.
 */
module Crud {
  import opened Wrappers
  import opened StringOrder

  type Path = string

  datatype Note = Note(id: string, title: string, body: string, version: int)

  type Table = map<string, Note>

  datatype Call =
    | Init(dbPath: Path)
    | CreateNote(id: string, title: string, body: string)
    | GetNote(id: string)
    | UpdateNote(id: string, title: string, body: string)
    | DeleteNote(id: string)
    | ListNotes

  datatype Reply =
    | Initialized
    | MissingDbPath
    | NotInitialized
    | NoteIs(note: Note)
    | NoteMissing(id: string)
    | NoteDeleted(id: string)
    | Notes(rows: seq<Note>, cacheHits: nat)
    | KvFailed

  /** What a handler still has to do with the key-value store. */
  datatype Phase =
    | MarkNote(id: string)
    | MarkDeleted(id: string)
    | ReadCount
    | WriteCount(read: nat)

  datatype Task = Task(phase: Phase, reply: Reply)

  /** Reading and writing of the mutation count, by call number. */
  datatype KvEvent = Read(i: nat) | Wrote(i: nat)

  // ---- A plugin without a cache

  function TableAt(disks: map<Path, Table>, path: Path): Table {
    if path in disks then disks[path] else map[]
  }

  datatype Plain = Plain(disks: map<Path, Table>, open: Option<Path>) {
    function Table(): Table {
      if open.Some? then TableAt(disks, open.value) else map[]
    }
  }

  predicate Writes(t: Table, c: Call) {
    c.CreateNote? || c.DeleteNote? || (c.UpdateNote? && c.id in t)
  }

  function TableStep(t: Table, c: Call): Table
    requires Writes(t, c)
  {
    match c
    case CreateNote(id, title, body) => t[id := Note(id, title, body, 1)]
    case UpdateNote(id, title, body) => t[id := Note(id, title, body, t[id].version + 1)]
    case DeleteNote(id) => t - {id}
  }

  function PlainStep(p: Plain, c: Call): Plain {
    if c.Init? then if c.dbPath == "" then p else p.(open := Some(c.dbPath))
    else if p.open.None? || !Writes(p.Table(), c) then p
    else p.(disks := p.disks[p.open.value := TableStep(p.Table(), c)])
  }

  function PlainAfter(disks: map<Path, Table>, calls: seq<Call>): Plain {
    if calls == [] then Plain(disks, None)
    else PlainStep(PlainAfter(disks, calls[..|calls| - 1]), calls[|calls| - 1])
  }

  /** The rows in ascending order of their ids. */
  ghost function Rows(t: Table): seq<Note> {
    ListedAreKeys(t);
    RowsOf(t, Listed(t.Keys))
  }

  function RowsOf(t: Table, ids: seq<string>): seq<Note>
    requires forall id <- ids :: id in t
  {
    seq(|ids|, i requires 0 <= i < |ids| => t[ids[i]])
  }

  ghost function PlainAnswer(p: Plain, c: Call, hits: nat): Reply {
    if c.Init? then if c.dbPath == "" then MissingDbPath else Initialized
    else if p.open.None? then NotInitialized
    else
      var t := p.Table();
      match c
      case CreateNote(id, title, body) => NoteIs(Note(id, title, body, 1))
      case GetNote(id) => if id in t then NoteIs(t[id]) else NoteMissing(id)
      case UpdateNote(id, title, body) =>
        if id in t then NoteIs(Note(id, title, body, t[id].version + 1)) else NoteMissing(id)
      case DeleteNote(id) => NoteDeleted(id)
      case _ => Notes(Rows(t), hits)
  }

  /** A note is warm once a call has written or found it, until it is deleted. */
  predicate Warm(disks: map<Path, Table>, calls: seq<Call>, id: string) {
    calls != [] &&
    var before, c := calls[..|calls| - 1], calls[|calls| - 1];
    var p := PlainAfter(disks, before);
    if p.open.None? || c.Init? then Warm(disks, before, id)
    else
      match c
      case CreateNote(i, _, _) => i == id || Warm(disks, before, id)
      case DeleteNote(i) => i != id && Warm(disks, before, id)
      case GetNote(i) => (i == id && id in p.Table()) || Warm(disks, before, id)
      case UpdateNote(i, _, _) => (i == id && id in p.Table()) || Warm(disks, before, id)
      case _ => id in p.Table() || Warm(disks, before, id)
  }

  /** How often a warm note has been asked for. */
  function Hits(disks: map<Path, Table>, calls: seq<Call>): nat {
    if calls == [] then 0
    else
      var before, c := calls[..|calls| - 1], calls[|calls| - 1];
      Hits(disks, before) + if c.GetNote? && Warm(disks, before, c.id) then 1 else 0
  }

  // ---- The plugin

  /** The database files, the one that is open, and the variables of the module. */
  datatype Memory = Memory(disks: map<Path, Table>, open: Option<Path>, cache: map<string, Note>, cacheHits: nat) {
    function Table(): Table {
      if open.Some? then TableAt(disks, open.value) else map[]
    }

    function Store(t: Table): Memory
      requires open.Some?
    {
      this.(disks := disks[open.value := t])
    }

    function Cached(note: Note): Memory {
      this.(cache := cache[note.id := note])
    }
  }

  datatype Outcome = Outcome(memory: Memory, reply: Reply, next: Option<Phase>)

  /** Changes the row with the note's id, if there is one. */
  function UpdateRow(t: Table, note: Note): Table {
    if note.id in t then t[note.id := note] else t
  }

  function UpdateWith(m: Memory, current: Note, title: string, body: string): Outcome {
    var next := current.(title := title, body := body, version := current.version + 1);
    if m.open.None? then Outcome(m, NotInitialized, None)
    else Outcome(m.Store(UpdateRow(m.Table(), next)).Cached(next), NoteIs(next), Some(MarkNote(next.id)))
  }

  /** A handler up to its first await, or to its end. */
  ghost function Segment(m: Memory, c: Call): Outcome {
    match c
    case Init(path) =>
      if path == "" then Outcome(m, MissingDbPath, None) else Outcome(m.(open := Some(path)), Initialized, None)
    case CreateNote(id, title, body) =>
      if m.open.None? then Outcome(m, NotInitialized, None)
      else
        var note := Note(id, title, body, 1);
        Outcome(m.Store(m.Table()[id := note]).Cached(note), NoteIs(note), Some(MarkNote(id)))
    case GetNote(id) =>
      if id in m.cache then Outcome(m.(cacheHits := m.cacheHits + 1), NoteIs(m.cache[id]), None)
      else if m.open.None? then Outcome(m, NotInitialized, None)
      else if id !in m.Table() then Outcome(m, NoteMissing(id), None)
      else Outcome(m.Cached(m.Table()[id]), NoteIs(m.Table()[id]), None)
    case UpdateNote(id, title, body) =>
      if id in m.cache then UpdateWith(m, m.cache[id], title, body)
      else if m.open.None? then Outcome(m, NotInitialized, None)
      else if id !in m.Table() then Outcome(m, NoteMissing(id), None)
      else UpdateWith(m.Cached(m.Table()[id]), m.Table()[id], title, body)
    case DeleteNote(id) =>
      if m.open.None? then Outcome(m, NotInitialized, None)
      else Outcome(m.Store(m.Table() - {id}).(cache := m.cache - {id}), NoteDeleted(id), Some(MarkDeleted(id)))
    case ListNotes =>
      if m.open.None? then Outcome(m, NotInitialized, None)
      else Outcome(m.(cache := m.cache + m.Table()), Notes(Rows(m.Table()), m.cacheHits), None)
  }

  datatype Kv = Kv(lastNote: Option<string>, lastDeleted: Option<string>, mutations: Option<nat>) {
    function Count(): nat {
      if mutations.Some? then mutations.value else 0
    }
  }

  /** Calls are numbered in the order they start; `calls` and `log` are history. */
  datatype State = State(
    memory: Memory,
    kv: Kv,
    tasks: map<nat, Task>,
    answered: map<nat, Reply>,
    calls: seq<Call>,
    log: seq<KvEvent>)

  datatype Step =
    | Start(call: Call)
    | Mark(i: nat)
    | ReadMutations(i: nat)
    | WriteMutations(i: nat)
    | Fail(i: nat)

  function Fresh(disks: map<Path, Table>, kv: Kv): State {
    State(Memory(disks, None, map[], 0), kv, map[], map[], [], [])
  }

  predicate Enabled(s: State, step: Step) {
    match step
    case Start(_) => true
    case Mark(i) => i in s.tasks && (s.tasks[i].phase.MarkNote? || s.tasks[i].phase.MarkDeleted?)
    case ReadMutations(i) => i in s.tasks && s.tasks[i].phase.ReadCount?
    case WriteMutations(i) => i in s.tasks && s.tasks[i].phase.WriteCount?
    case Fail(i) => i in s.tasks
  }

  ghost function Begin(s: State, c: Call): State {
    var out := Segment(s.memory, c);
    var i := |s.calls|;
    var s1 := s.(memory := out.memory, calls := s.calls + [c]);
    if out.next.Some? then s1.(tasks := s.tasks[i := Task(out.next.value, out.reply)])
    else s1.(answered := s.answered[i := out.reply])
  }

  ghost function Apply(s: State, step: Step): State
    requires Enabled(s, step)
  {
    match step
    case Start(c) => Begin(s, c)
    case Mark(i) =>
      s.(kv := if s.tasks[i].phase.MarkNote? then s.kv.(lastNote := Some(s.tasks[i].phase.id))
               else s.kv.(lastDeleted := Some(s.tasks[i].phase.id)),
         tasks := s.tasks[i := s.tasks[i].(phase := ReadCount)])
    case ReadMutations(i) =>
      s.(tasks := s.tasks[i := s.tasks[i].(phase := WriteCount(s.kv.Count()))], log := s.log + [Read(i)])
    case WriteMutations(i) =>
      s.(kv := s.kv.(mutations := Some(s.tasks[i].phase.read + 1)), log := s.log + [Wrote(i)],
         answered := s.answered[i := s.tasks[i].reply], tasks := s.tasks - {i})
    case Fail(i) =>
      s.(answered := s.answered[i := KvFailed], tasks := s.tasks - {i})
  }

  ghost predicate CanRun(s: State, steps: seq<Step>)
    decreases |steps|
  {
    steps == [] || (Enabled(s, steps[0]) && CanRun(Apply(s, steps[0]), steps[1..]))
  }

  ghost function Run(s: State, steps: seq<Step>): State
    requires CanRun(s, steps)
    decreases |steps|
  {
    if steps == [] then s else Run(Apply(s, steps[0]), steps[1..])
  }

  // ---- The cache makes no difference

  predicate Keyed(disks: map<Path, Table>) {
    forall path, id :: path in disks && id in disks[path] ==> disks[path][id].id == id
  }

  predicate CacheKeyed(cache: map<string, Note>) {
    forall id :: id in cache ==> cache[id].id == id
  }

  predicate Opens(c: Call, path: Path) {
    c.Init? && c.dbPath != "" ==> c.dbPath == path
  }

  /** Each cached note is its row. */
  predicate Coherent(m: Memory) {
    forall id :: id in m.cache ==> m.open.Some? && id in m.Table() && m.cache[id] == m.Table()[id]
  }

  ghost predicate MemoryKept(disks: map<Path, Table>, calls: seq<Call>, m: Memory) {
    Plain(m.disks, m.open) == PlainAfter(disks, calls) && Keyed(m.disks) && Coherent(m) &&
    (forall id :: id in m.cache <==> Warm(disks, calls, id)) && m.cacheHits == Hits(disks, calls)
  }

  lemma OneMoreCall(disks: map<Path, Table>, calls: seq<Call>, c: Call)
    ensures PlainAfter(disks, calls + [c]) == PlainStep(PlainAfter(disks, calls), c)
    ensures Hits(disks, calls + [c]) == Hits(disks, calls) + if c.GetNote? && Warm(disks, calls, c.id) then 1 else 0
  {
    assert (calls + [c])[..|calls|] == calls;
  }

  predicate WarmStep(p: Plain, c: Call, warm: bool, id: string) {
    if p.open.None? || c.Init? then warm
    else
      match c
      case CreateNote(i, _, _) => i == id || warm
      case DeleteNote(i) => i != id && warm
      case GetNote(i) => (i == id && id in p.Table()) || warm
      case UpdateNote(i, _, _) => (i == id && id in p.Table()) || warm
      case _ => id in p.Table() || warm
  }

  lemma WarmOneMore(disks: map<Path, Table>, calls: seq<Call>, c: Call)
    ensures forall id :: Warm(disks, calls + [c], id) == WarmStep(PlainAfter(disks, calls), c, Warm(disks, calls, id), id)
  {
    hide PlainAfter;
    assert (calls + [c])[..|calls|] == calls;
  }

  /** What a segment does to the database and answers, and that it keeps the cache coherent. */
  ghost predicate SegmentRight(m: Memory, c: Call) {
    var out, p := Segment(m, c), Plain(m.disks, m.open);
    out.reply == PlainAnswer(p, c, m.cacheHits) &&
    Plain(out.memory.disks, out.memory.open) == PlainStep(p, c) &&
    Keyed(out.memory.disks) && Coherent(out.memory)
  }

  lemma CreateIsPlain(m: Memory, c: Call)
    requires Keyed(m.disks) && Coherent(m) && c.CreateNote?
    ensures SegmentRight(m, c)
  {
  }

  lemma UpdateIsPlain(m: Memory, c: Call)
    requires Keyed(m.disks) && Coherent(m) && c.UpdateNote?
    ensures SegmentRight(m, c)
  {
    if m.open.Some? && c.id in m.Table() {
      var row := m.Table()[c.id];
      assert c.id in m.cache ==> m.cache[c.id] == row;
      assert row.id == c.id;
    }
  }

  lemma DeleteIsPlain(m: Memory, c: Call)
    requires Keyed(m.disks) && Coherent(m) && c.DeleteNote?
    ensures SegmentRight(m, c)
  {
  }

  lemma OtherIsPlain(m: Memory, c: Call)
    requires Keyed(m.disks) && Coherent(m) && (c.Init? || c.GetNote? || c.ListNotes?)
    requires m.open.Some? ==> Opens(c, m.open.value)
    ensures SegmentRight(m, c)
  {
  }

  /** Up to its first await, a handler does what it would do without the cache. */
  lemma SegmentIsPlain(m: Memory, c: Call)
    requires Keyed(m.disks) && Coherent(m) && (m.open.Some? ==> Opens(c, m.open.value))
    ensures SegmentRight(m, c)
  {
    hide SegmentRight, Keyed, Coherent;
    match c
    case CreateNote(_, _, _) => CreateIsPlain(m, c);
    case UpdateNote(_, _, _) => UpdateIsPlain(m, c);
    case DeleteNote(_) => DeleteIsPlain(m, c);
    case _ => OtherIsPlain(m, c);
  }

  lemma SegmentWarms(m: Memory, c: Call)
    requires Keyed(m.disks) && Coherent(m)
    ensures var out := Segment(m, c);
            (forall id :: id in out.memory.cache <==> WarmStep(Plain(m.disks, m.open), c, id in m.cache, id)) &&
            out.memory.cacheHits == m.cacheHits + if c.GetNote? && c.id in m.cache then 1 else 0
  {
  }

  lemma SegmentKeeps(disks: map<Path, Table>, calls: seq<Call>, m: Memory, c: Call)
    requires MemoryKept(disks, calls, m) && (m.open.Some? ==> Opens(c, m.open.value))
    ensures MemoryKept(disks, calls + [c], Segment(m, c).memory)
    ensures Segment(m, c).reply == PlainAnswer(PlainAfter(disks, calls), c, Hits(disks, calls))
  {
    hide Segment, PlainAnswer, PlainStep, PlainAfter, Warm, Hits, Coherent, Keyed, WarmStep;
    OneMoreCall(disks, calls, c);
    WarmOneMore(disks, calls, c);
    SegmentIsPlain(m, c);
    SegmentWarms(m, c);
  }

  /** The answer to call `i` of a plugin without a cache, which does one call after the other. */
  ghost function PlainReply(disks: map<Path, Table>, calls: seq<Call>, i: nat): Reply
    requires i < |calls|
  {
    PlainAnswer(PlainAfter(disks, calls[..i]), calls[i], Hits(disks, calls[..i]))
  }

  predicate Mutates(c: Call) {
    c.CreateNote? || c.UpdateNote? || c.DeleteNote?
  }

  /** Each call waits for the key-value store or has been answered; only mutations can fail there. */
  ghost predicate AnswersKept(disks: map<Path, Table>, s: State) {
    (forall i :: i in s.tasks ==>
      i < |s.calls| && i !in s.answered && Mutates(s.calls[i]) && s.tasks[i].reply == PlainReply(disks, s.calls, i)) &&
    (forall i :: i in s.answered ==>
      i < |s.calls| &&
      (s.answered[i] == PlainReply(disks, s.calls, i) || (s.answered[i] == KvFailed && Mutates(s.calls[i])))) &&
    (forall i :: 0 <= i < |s.calls| ==> i in s.tasks || i in s.answered)
  }

  ghost predicate StateKept(disks: map<Path, Table>, path: Path, s: State) {
    MemoryKept(disks, s.calls, s.memory) && AnswersKept(disks, s) &&
    (s.memory.open.Some? ==> s.memory.open.value == path)
  }

  predicate StepOpens(step: Step, path: Path) {
    step.Start? ==> Opens(step.call, path)
  }

  /** Every Init names the same database. */
  predicate OneDatabase(steps: seq<Step>, path: Path) {
    forall k :: 0 <= k < |steps| ==> StepOpens(steps[k], path)
  }

  lemma RepliesStay(disks: map<Path, Table>, calls: seq<Call>, c: Call, i: nat)
    requires i < |calls|
    ensures PlainReply(disks, calls + [c], i) == PlainReply(disks, calls, i)
  {
    assert (calls + [c])[..i] == calls[..i];
  }

  lemma OnlyMutationsWait(m: Memory, c: Call)
    ensures Segment(m, c).next.Some? ==> Mutates(c)
  {
  }

  lemma BeginKeepsAnswers(disks: map<Path, Table>, s: State, c: Call)
    requires AnswersKept(disks, s)
    requires Segment(s.memory, c).reply == PlainAnswer(PlainAfter(disks, s.calls), c, Hits(disks, s.calls))
    ensures AnswersKept(disks, Begin(s, c))
  {
    hide Segment, PlainAnswer, PlainAfter, Hits, PlainReply;
    OnlyMutationsWait(s.memory, c);
    forall i | 0 <= i < |s.calls| ensures PlainReply(disks, s.calls + [c], i) == PlainReply(disks, s.calls, i) {
      RepliesStay(disks, s.calls, c, i);
    }
    NewReply(disks, s.calls, c);
  }

  lemma NewReply(disks: map<Path, Table>, calls: seq<Call>, c: Call)
    ensures PlainReply(disks, calls + [c], |calls|) == PlainAnswer(PlainAfter(disks, calls), c, Hits(disks, calls))
  {
    assert (calls + [c])[..|calls|] == calls;
  }

  lemma SegmentOpens(m: Memory, c: Call, path: Path)
    requires Opens(c, path) && (m.open.Some? ==> m.open.value == path)
    ensures var out := Segment(m, c); out.memory.open.Some? ==> out.memory.open.value == path
  {
  }

  lemma StepKeeps(disks: map<Path, Table>, path: Path, s: State, step: Step)
    requires StateKept(disks, path, s) && Enabled(s, step) && StepOpens(step, path)
    ensures StateKept(disks, path, Apply(s, step))
  {
    hide MemoryKept, Segment, PlainReply, AnswersKept, Begin, PlainAnswer, PlainAfter, Hits, Coherent, Keyed;
    if step.Start? {
      MemoryIsCoherent(disks, s.calls, s.memory);
      SegmentKeeps(disks, s.calls, s.memory, step.call);
      SegmentOpens(s.memory, step.call, path);
      BeginKeepsAnswers(disks, s, step.call);
      BeginIsSegment(s, step.call);
    } else {
      OtherStepsKeepAnswers(disks, s, step);
    }
  }

  lemma BeginIsSegment(s: State, c: Call)
    ensures Begin(s, c).memory == Segment(s.memory, c).memory && Begin(s, c).calls == s.calls + [c]
  {
  }

  lemma OtherStepsKeepAnswers(disks: map<Path, Table>, s: State, step: Step)
    requires AnswersKept(disks, s) && Enabled(s, step) && !step.Start?
    ensures AnswersKept(disks, Apply(s, step))
    ensures Apply(s, step).memory == s.memory && Apply(s, step).calls == s.calls
  {
    hide PlainReply, Begin;
  }

  lemma MemoryIsCoherent(disks: map<Path, Table>, calls: seq<Call>, m: Memory)
    requires MemoryKept(disks, calls, m)
    ensures Keyed(m.disks) && Coherent(m)
  {
  }

  lemma {:induction false} RunKeeps(disks: map<Path, Table>, path: Path, s: State, steps: seq<Step>)
    requires StateKept(disks, path, s) && CanRun(s, steps) && OneDatabase(steps, path)
    ensures StateKept(disks, path, Run(s, steps))
    decreases |steps|
  {
    hide StateKept, Apply, Enabled, StepOpens;
    if steps != [] {
      assert StepOpens(steps[0], path);
      StepKeeps(disks, path, s, steps[0]);
      assert forall k :: 0 <= k < |steps| - 1 ==> steps[1..][k] == steps[k + 1];
      RunKeeps(disks, path, Apply(s, steps[0]), steps[1..]);
    }
  }

  /** However handlers interleave, each cached note is its row, as long as there is one database. */
  lemma CacheIsCoherent(disks: map<Path, Table>, kv: Kv, path: Path, steps: seq<Step>)
    requires Keyed(disks) && CanRun(Fresh(disks, kv), steps) && OneDatabase(steps, path)
    ensures StateKept(disks, path, Run(Fresh(disks, kv), steps))
    ensures Coherent(Run(Fresh(disks, kv), steps).memory)
  {
    RunKeeps(disks, path, Fresh(disks, kv), steps);
    var s := Run(Fresh(disks, kv), steps);
    MemoryIsCoherent(disks, s.calls, s.memory);
  }

  /**
   However handlers interleave, each call is answered as by a plugin without a cache that does the calls
   one after the other in the order in which they started.
   */
  lemma AnswersAreUncached(disks: map<Path, Table>, kv: Kv, path: Path, steps: seq<Step>, i: nat)
    requires Keyed(disks) && CanRun(Fresh(disks, kv), steps) && OneDatabase(steps, path)
    ensures var s := Run(Fresh(disks, kv), steps);
            (i in s.answered || i in s.tasks <==> i < |s.calls|) &&
            (i in s.answered ==>
              i < |s.calls| &&
              (s.answered[i] == PlainReply(disks, s.calls, i) || (s.answered[i] == KvFailed && Mutates(s.calls[i]))))
  {
    hide MemoryKept, PlainReply;
    CacheIsCoherent(disks, kv, path, steps);
  }

  /**
   What such a plugin answers, by the table that the call leaves: the row of the note that was created,
   updated or asked for, or that it is missing.
   */
  lemma AnswersTellTheTable(p: Plain, c: Call, hits: nat)
    requires p.open.Some?
    ensures c.CreateNote? || c.GetNote? || c.UpdateNote? ==>
              var t := PlainStep(p, c).Table();
              PlainAnswer(p, c, hits) == if c.id in t then NoteIs(t[c.id]) else NoteMissing(c.id)
    ensures c.DeleteNote? ==> PlainAnswer(p, c, hits) == NoteDeleted(c.id) && c.id !in PlainStep(p, c).Table()
    ensures c.ListNotes? ==> PlainAnswer(p, c, hits) == Notes(Rows(p.Table()), hits)
  {
  }

  lemma NothingBeforeInit(p: Plain, c: Call, hits: nat)
    requires p.open.None?
    ensures PlainAnswer(p, c, hits) ==
            if !c.Init? then NotInitialized else if c.dbPath == "" then MissingDbPath else Initialized
  {
  }

  /** Listing gives each row once, in ascending order of the ids. */
  lemma RowsAreTheTable(t: Table)
    requires forall id :: id in t ==> t[id].id == id
    ensures |Rows(t)| == |t|
    ensures forall j, k :: 0 <= j < k < |Rows(t)| ==> Before(Rows(t)[j].id, Rows(t)[k].id)
    ensures forall note :: note in Rows(t) <==> note.id in t && t[note.id] == note
  {
    hide Before;
    var ids := Listed(t.Keys);
    ListedAreKeys(t);
    assert |t.Keys| == |t|;
    assert forall k :: 0 <= k < |ids| ==> ids[k] in ids && Rows(t)[k] == t[ids[k]];
    forall note ensures note in Rows(t) <==> note.id in t && t[note.id] == note {
      if note.id in t && t[note.id] == note {
        assert note.id in Members(ids);
        var k :| 0 <= k < |ids| && ids[k] == note.id;
        assert Rows(t)[k] == note;
      }
    }
  }

  // ---- Versions

  predicate Renews(c: Call, id: string) {
    (c.CreateNote? || c.DeleteNote?) && c.id == id
  }

  predicate Updates(c: Call, id: string) {
    c.UpdateNote? && c.id == id
  }

  function UpdatesOf(calls: seq<Call>, id: string): nat {
    if calls == [] then 0
    else UpdatesOf(calls[..|calls| - 1], id) + if Updates(calls[|calls| - 1], id) then 1 else 0
  }

  /** The title and body that the last update left behind. */
  function LastText(title: string, body: string, calls: seq<Call>, id: string): (string, string) {
    if calls == [] then (title, body)
    else
      var c := calls[|calls| - 1];
      if Updates(c, id) then (c.title, c.body) else LastText(title, body, calls[..|calls| - 1], id)
  }

  function Revised(note: Note, calls: seq<Call>, id: string): Note {
    var (title, body) := LastText(note.title, note.body, calls, id);
    Note(note.id, title, body, note.version + UpdatesOf(calls, id))
  }

  lemma {:induction false} RowsAreRevised(disks: map<Path, Table>, before: seq<Call>, after: seq<Call>, id: string)
    requires Keyed(PlainAfter(disks, before).disks) && PlainAfter(disks, before).open.Some?
    requires forall k :: 0 <= k < |after| ==> Opens(after[k], PlainAfter(disks, before).open.value) && !Renews(after[k], id)
    ensures var p, q := PlainAfter(disks, before), PlainAfter(disks, before + after);
            q.open == p.open && (id in q.Table() <==> id in p.Table()) &&
            (id in q.Table() ==> q.Table()[id] == Revised(p.Table()[id], after, id))
    decreases |after|
  {
    hide PlainAfter, Keyed;
    if after == [] {
      assert before + after == before;
    } else {
      var rest, c := after[..|after| - 1], after[|after| - 1];
      assert before + after == before + rest + [c];
      RowsAreRevised(disks, before, rest, id);
      OneMoreCall(disks, before + rest, c);
      RowIsRevised(PlainAfter(disks, before + rest), c, id, PlainAfter(disks, before).disks, PlainAfter(disks, before).Table());
    }
  }

  lemma RowIsRevised(p: Plain, c: Call, id: string, disks: map<Path, Table>, t: Table)
    requires p.open.Some? && Opens(c, p.open.value) && !Renews(c, id)
    requires Keyed(disks) && t == TableAt(disks, p.open.value) && (id in p.Table() ==> id in t && p.Table()[id].id == t[id].id)
    ensures var q := PlainStep(p, c);
            q.open == p.open && (id in q.Table() <==> id in p.Table()) &&
            (id in q.Table() ==>
              q.Table()[id] == if Updates(c, id) then Note(p.Table()[id].id, c.title, c.body, p.Table()[id].version + 1)
                               else p.Table()[id])
  {
  }

  /**
   A note that was created and not deleted since has the text of its last update, and its version is 1 plus
   the number of updates since; this holds of the database and, by the coherence of the cache, of answers.
   */
  lemma VersionCountsUpdates(disks: map<Path, Table>, kv: Kv, path: Path, steps: seq<Step>,
                             before: seq<Call>, c: Call, after: seq<Call>)
    requires Keyed(disks) && CanRun(Fresh(disks, kv), steps) && OneDatabase(steps, path)
    requires Run(Fresh(disks, kv), steps).calls == before + [c] + after && c.CreateNote?
    requires PlainAfter(disks, before).open == Some(path)
    requires forall k :: 0 <= k < |after| ==> Opens(after[k], path) && !Renews(after[k], c.id)
    ensures var t := Run(Fresh(disks, kv), steps).memory.Table(); var (title, body) := LastText(c.title, c.body, after, c.id);
            c.id in t && t[c.id] == Note(c.id, title, body, 1 + UpdatesOf(after, c.id))
  {
    hide PlainAfter, CanRun, Run, Warm, Hits, Coherent, AnswersKept, LastText, UpdatesOf;
    CacheIsCoherent(disks, kv, path, steps);
    OneMoreCall(disks, before, c);
    PlainKeepsKeys(disks, before + [c]);
    RowsAreRevised(disks, before + [c], after, c.id);
  }

  lemma {:induction false} PlainKeepsKeys(disks: map<Path, Table>, calls: seq<Call>)
    requires Keyed(disks)
    ensures Keyed(PlainAfter(disks, calls).disks)
  {
    if calls != [] {
      PlainKeepsKeys(disks, calls[..|calls| - 1]);
    }
  }

  lemma {:induction false} DeletedStaysDeleted(disks: map<Path, Table>, before: seq<Call>, id: string, after: seq<Call>)
    requires PlainAfter(disks, before).open.Some?
    requires forall k :: 0 <= k < |after| ==> Opens(after[k], PlainAfter(disks, before).open.value) &&
                                              !(after[k].CreateNote? && after[k].id == id)
    ensures var q := PlainAfter(disks, before + [DeleteNote(id)] + after);
            q.open == PlainAfter(disks, before).open && id !in q.Table()
    decreases |after|
  {
    hide PlainAfter;
    if after == [] {
      assert before + [DeleteNote(id)] + after == before + [DeleteNote(id)];
      OneMoreCall(disks, before, DeleteNote(id));
    } else {
      var rest, c := after[..|after| - 1], after[|after| - 1];
      assert before + [DeleteNote(id)] + after == before + [DeleteNote(id)] + rest + [c];
      DeletedStaysDeleted(disks, before, id, rest);
      OneMoreCall(disks, before + [DeleteNote(id)] + rest, c);
    }
  }

  // ---- The last changed and the last deleted note

  predicate Rewrites(c: Call, id: string) {
    (c.CreateNote? || c.UpdateNote?) && c.id == id
  }

  /** What tasks will mark is what their calls were about. */
  ghost predicate MarksAhead(s: State) {
    forall i :: i in s.tasks ==>
      i < |s.calls| &&
      (s.tasks[i].phase.MarkNote? ==> Rewrites(s.calls[i], s.tasks[i].phase.id)) &&
      (s.tasks[i].phase.MarkDeleted? ==> s.calls[i] == DeleteNote(s.tasks[i].phase.id))
  }

  ghost predicate MarksKept(start: Kv, s: State) {
    (s.kv.lastNote == start.lastNote ||
     (s.kv.lastNote.Some? && exists i :: 0 <= i < |s.calls| && Rewrites(s.calls[i], s.kv.lastNote.value))) &&
    (s.kv.lastDeleted == start.lastDeleted ||
     (s.kv.lastDeleted.Some? && exists i :: 0 <= i < |s.calls| && s.calls[i] == DeleteNote(s.kv.lastDeleted.value)))
  }

  lemma SegmentMarks(m: Memory, c: Call)
    requires forall id :: id in m.cache ==> m.cache[id].id == id
    requires Keyed(m.disks)
    ensures var next := Segment(m, c).next;
            next.Some? ==>
              if c.DeleteNote? then next.value == MarkDeleted(c.id)
              else (c.CreateNote? || c.UpdateNote?) && next.value == MarkNote(c.id)
  {
  }

  lemma MarksStep(start: Kv, s: State, step: Step)
    requires MarksAhead(s) && MarksKept(start, s) && Enabled(s, step)
    requires Keyed(s.memory.disks) && Coherent(s.memory)
    ensures MarksAhead(Apply(s, step)) && MarksKept(start, Apply(s, step))
  {
    hide Segment, Keyed;
    var t := Apply(s, step);
    assert |t.calls| >= |s.calls| && forall i :: 0 <= i < |s.calls| ==> t.calls[i] == s.calls[i];
    if step.Start? {
      CachedUnderOwnId(s.memory);
      SegmentMarks(s.memory, step.call);
    }
  }

  lemma CachedUnderOwnId(m: Memory)
    requires Keyed(m.disks) && Coherent(m)
    ensures forall id :: id in m.cache ==> m.cache[id].id == id
  {
  }

  lemma {:induction false} MarksRun(start: Kv, disks: map<Path, Table>, path: Path, s: State, steps: seq<Step>)
    requires MarksAhead(s) && MarksKept(start, s) && StateKept(disks, path, s)
    requires CanRun(s, steps) && OneDatabase(steps, path)
    ensures MarksAhead(Run(s, steps)) && MarksKept(start, Run(s, steps))
    decreases |steps|
  {
    hide MarksAhead, MarksKept, Apply, Enabled, StepOpens, MemoryKept, AnswersKept;
    if steps != [] {
      assert StepOpens(steps[0], path);
      MemoryIsCoherent(disks, s.calls, s.memory);
      MarksStep(start, s, steps[0]);
      StepKeeps(disks, path, s, steps[0]);
      assert forall k :: 0 <= k < |steps| - 1 ==> steps[1..][k] == steps[k + 1];
      MarksRun(start, disks, path, Apply(s, steps[0]), steps[1..]);
    }
  }

  /** `last_note_id` names a note that some call created or updated, `last_deleted_id` one that a call deleted. */
  lemma MarksNameTheirCalls(disks: map<Path, Table>, kv: Kv, path: Path, steps: seq<Step>)
    requires Keyed(disks) && CanRun(Fresh(disks, kv), steps) && OneDatabase(steps, path)
    ensures MarksKept(kv, Run(Fresh(disks, kv), steps))
  {
    MarksRun(kv, disks, path, Fresh(disks, kv), steps);
  }

  // ---- The mutation count

  /** The last time call `i` read the count. */
  function LastRead(log: seq<KvEvent>, i: nat): (r: Option<nat>)
    ensures r.Some? ==> r.value < |log| && log[r.value] == Read(i)
  {
    if log == [] then None
    else if log[|log| - 1] == Read(i) then Some(|log| - 1)
    else LastRead(log[..|log| - 1], i)
  }

  /** The number of completed bumps. */
  function Bumps(log: seq<KvEvent>): nat {
    if log == [] then 0 else Bumps(log[..|log| - 1]) + if log[|log| - 1].Wrote? then 1 else 0
  }

  /** The count is 1 more than it was when the last bump read it. */
  function CountAfter(start: nat, log: seq<KvEvent>): nat {
    if log == [] then start
    else
      var before, e := log[..|log| - 1], log[|log| - 1];
      if e.Wrote? && LastRead(before, e.i).Some? then CountAfter(start, log[..LastRead(before, e.i).value]) + 1
      else CountAfter(start, before)
  }

  /** The `k`-th event is a write, and another write came between it and the read it goes back to. */
  ghost predicate Stale(log: seq<KvEvent>, k: nat) {
    k < |log| && log[k].Wrote? && LastRead(log[..k], log[k].i).Some? &&
    exists j :: LastRead(log[..k], log[k].i).value < j < k && log[j].Wrote?
  }

  ghost predicate NoneStale(log: seq<KvEvent>) {
    forall k :: 0 <= k < |log| ==> !Stale(log, k)
  }

  ghost predicate ReadsFirst(log: seq<KvEvent>) {
    forall k :: 0 <= k < |log| && log[k].Wrote? ==> LastRead(log[..k], log[k].i).Some?
  }

  predicate NoWrites(log: seq<KvEvent>, from: nat) {
    forall j :: from <= j < |log| ==> !log[j].Wrote?
  }

  lemma {:induction false} BumpsSince(log: seq<KvEvent>, r: nat)
    requires r <= |log|
    ensures Bumps(log[..r]) <= Bumps(log)
    ensures Bumps(log[..r]) == Bumps(log) <==> NoWrites(log, r)
    decreases |log|
  {
    var n := |log| - 1;
    if r == |log| {
      assert log[..r] == log;
    } else {
      assert log[..n][..r] == log[..r];
      BumpsSince(log[..n], r);
      assert NoWrites(log, r) <==> NoWrites(log[..n], r) && !log[n].Wrote?;
    }
  }

  lemma {:induction false} CountSince(start: nat, log: seq<KvEvent>, r: nat)
    requires r <= |log| && NoWrites(log, r)
    ensures CountAfter(start, log) == CountAfter(start, log[..r])
    decreases |log|
  {
    if r == |log| {
      assert log[..r] == log;
    } else {
      assert log[..|log| - 1][..r] == log[..r];
      CountSince(start, log[..|log| - 1], r);
    }
  }

  lemma LogFront(log: seq<KvEvent>)
    requires log != []
    ensures NoneStale(log) <==> NoneStale(log[..|log| - 1]) && !Stale(log, |log| - 1)
    ensures ReadsFirst(log) ==> ReadsFirst(log[..|log| - 1])
  {
    hide LastRead;
    var front := log[..|log| - 1];
    assert forall k :: 0 <= k < |front| ==> front[k] == log[k] && front[..k] == log[..k];
    assert forall k :: 0 <= k < |front| ==> Stale(front, k) == Stale(log, k);
  }

  lemma NothingIsStale()
    ensures NoneStale([])
  {
  }

  /** The count never exceeds the completed bumps, and reaches them exactly when no write was stale. */
  lemma {:induction false} LostBumps(start: nat, log: seq<KvEvent>)
    requires ReadsFirst(log)
    ensures CountAfter(start, log) <= start + Bumps(log)
    ensures CountAfter(start, log) == start + Bumps(log) <==> NoneStale(log)
    decreases |log|
  {
    hide NoneStale, ReadsFirst;
    if log == [] {
      NothingIsStale();
    } else {
      var n := |log| - 1;
      var front, e := log[..n], log[n];
      LogFront(log);
      LostBumps(start, front);
      if e.Wrote? {
        assert LastRead(front, e.i).Some? by { ReadComesFirst(log); }
        var r := LastRead(front, e.i).value;
        assert front[..r] == log[..r];
        assert ReadsFirst(log[..r]) by { ReadsFirstUpTo(log, r); }
        LostBumps(start, log[..r]);
        BumpsSince(front, r);
        assert Stale(log, n) <==> !NoWrites(front, r) by { StaleMeans(log); }
        if NoWrites(front, r) {
          CountSince(start, front, r);
        }
      }
    }
  }

  lemma ReadComesFirst(log: seq<KvEvent>)
    requires ReadsFirst(log) && log != [] && log[|log| - 1].Wrote?
    ensures LastRead(log[..|log| - 1], log[|log| - 1].i).Some?
  {
  }

  lemma ReadsFirstUpTo(log: seq<KvEvent>, r: nat)
    requires ReadsFirst(log) && r <= |log|
    ensures ReadsFirst(log[..r])
  {
    hide LastRead;
    assert forall k :: 0 <= k < r ==> log[..r][k] == log[k] && log[..r][..k] == log[..k];
  }

  lemma StaleMeans(log: seq<KvEvent>)
    requires log != [] && log[|log| - 1].Wrote? && LastRead(log[..|log| - 1], log[|log| - 1].i).Some?
    ensures Stale(log, |log| - 1) <==>
              !NoWrites(log[..|log| - 1], LastRead(log[..|log| - 1], log[|log| - 1].i).value)
  {
    var front := log[..|log| - 1];
    var r := LastRead(front, log[|log| - 1].i).value;
    assert !front[r].Wrote?;
    assert forall j :: 0 <= j < |front| ==> front[j] == log[j];
  }

  /** Mutating calls that have been answered with success. */
  function Finished(s: State): set<nat> {
    set i <- s.answered | i < |s.calls| && Succeeded(s.calls[i], s.answered[i])
  }

  predicate Succeeded(c: Call, r: Reply) {
    Mutates(c) && (r.NoteIs? || r.NoteDeleted?)
  }

  /** The read of call `i` is in the log, and nothing but its age makes it wrong. */
  ghost predicate ReadKept(start: nat, log: seq<KvEvent>, i: nat, read: nat) {
    LastRead(log, i).Some? && read == CountAfter(start, log[..LastRead(log, i).value])
  }

  ghost predicate CountKept(start: nat, s: State) {
    s.kv.Count() == CountAfter(start, s.log) && ReadsFirst(s.log) &&
    (forall i :: i in s.tasks && s.tasks[i].phase.WriteCount? ==> ReadKept(start, s.log, i, s.tasks[i].phase.read)) &&
    Bumps(s.log) == |Finished(s)|
  }

  ghost predicate TasksKept(s: State) {
    (forall i :: i in s.tasks ==> i < |s.calls| && i !in s.answered && Succeeded(s.calls[i], s.tasks[i].reply)) &&
    (forall i :: i in s.answered ==> i < |s.calls|)
  }

  lemma SegmentSucceeds(m: Memory, c: Call)
    ensures Segment(m, c).next.Some? <==> Succeeded(c, Segment(m, c).reply)
    ensures Segment(m, c).next.Some? ==> !Segment(m, c).next.value.WriteCount?
  {
  }

  lemma TasksStep(s: State, step: Step)
    requires TasksKept(s) && Enabled(s, step)
    ensures TasksKept(Apply(s, step))
    ensures Finished(Apply(s, step)) == if step.WriteMutations? then Finished(s) + {step.i} else Finished(s)
    ensures step.WriteMutations? ==> step.i !in Finished(s)
  {
    hide Segment, Succeeded, Begin;
    if step.Start? {
      BeginTasks(s, step.call);
    }
    if step.Fail? {
      FailuresDoNotCount(s.calls[step.i]);
    }
  }

  lemma BeginTasks(s: State, c: Call)
    requires TasksKept(s)
    ensures TasksKept(Begin(s, c)) && Finished(Begin(s, c)) == Finished(s)
  {
    hide Segment, Succeeded;
    SegmentSucceeds(s.memory, c);
  }

  lemma FailuresDoNotCount(c: Call)
    ensures !Succeeded(c, KvFailed)
  {
  }

  lemma LogGrows(start: nat, log: seq<KvEvent>, e: KvEvent)
    ensures Bumps(log + [e]) == Bumps(log) + if e.Wrote? then 1 else 0
    ensures e.Read? ==> CountAfter(start, log + [e]) == CountAfter(start, log)
    ensures e.Wrote? && LastRead(log, e.i).Some? ==>
              CountAfter(start, log + [e]) == CountAfter(start, log[..LastRead(log, e.i).value]) + 1
  {
    hide LastRead;
    assert (log + [e])[..|log|] == log;
    if e.Wrote? && LastRead(log, e.i).Some? {
      assert (log + [e])[..LastRead(log, e.i).value] == log[..LastRead(log, e.i).value];
    }
  }

  lemma LastReadGrows(log: seq<KvEvent>, e: KvEvent, i: nat)
    ensures LastRead(log + [e], i) == if e == Read(i) then Some(|log|) else LastRead(log, i)
  {
    assert (log + [e])[..|log|] == log;
  }

  lemma ReadKeptGrows(start: nat, log: seq<KvEvent>, e: KvEvent, i: nat, read: nat)
    requires if e == Read(i) then read == CountAfter(start, log) else ReadKept(start, log, i, read)
    ensures ReadKept(start, log + [e], i, read)
  {
    hide LastRead, CountAfter;
    LastReadGrows(log, e, i);
    if e == Read(i) {
      assert (log + [e])[..|log|] == log;
    } else {
      assert (log + [e])[..LastRead(log, i).value] == log[..LastRead(log, i).value];
    }
  }

  lemma ReadsFirstGrows(log: seq<KvEvent>, e: KvEvent)
    requires ReadsFirst(log) && (e.Wrote? ==> LastRead(log, e.i).Some?)
    ensures ReadsFirst(log + [e])
  {
    hide LastRead;
    var more := log + [e];
    assert more[..|log|] == log;
    assert forall k :: 0 <= k < |log| ==> more[k] == log[k] && more[..k] == log[..k];
  }

  lemma CountStep(start: nat, s: State, step: Step)
    requires CountKept(start, s) && TasksKept(s) && Enabled(s, step)
    ensures CountKept(start, Apply(s, step))
  {
    hide Segment, Finished, ReadKept, ReadsFirst, Bumps, CountAfter, TasksKept;
    TasksStep(s, step);
    if step.Start? {
      SegmentSucceeds(s.memory, step.call);
    }
    if step.ReadMutations? || step.WriteMutations? {
      var e := if step.ReadMutations? then Read(step.i) else Wrote(step.i);
      LogGrows(start, s.log, e);
      if e.Wrote? {
        ReadIsLogged(start, s.log, step.i, s.tasks[step.i].phase.read);
      }
      ReadsFirstGrows(s.log, e);
      var t := Apply(s, step);
      forall i | i in t.tasks && t.tasks[i].phase.WriteCount?
        ensures ReadKept(start, t.log, i, t.tasks[i].phase.read)
      {
        ReadKeptGrows(start, s.log, e, i, t.tasks[i].phase.read);
      }
    }
  }

  lemma ReadIsLogged(start: nat, log: seq<KvEvent>, i: nat, read: nat)
    requires ReadKept(start, log, i, read)
    ensures LastRead(log, i).Some? && read == CountAfter(start, log[..LastRead(log, i).value])
  {
  }

  lemma {:induction false} CountRun(start: nat, s: State, steps: seq<Step>)
    requires CountKept(start, s) && TasksKept(s) && CanRun(s, steps)
    ensures CountKept(start, Run(s, steps)) && TasksKept(Run(s, steps))
    decreases |steps|
  {
    hide CountKept, TasksKept, Apply, Enabled;
    if steps != [] {
      TasksStep(s, steps[0]);
      CountStep(start, s, steps[0]);
      CountRun(start, Apply(s, steps[0]), steps[1..]);
    }
  }

  lemma {:induction false} TasksRun(s: State, steps: seq<Step>)
    requires TasksKept(s) && CanRun(s, steps)
    ensures TasksKept(Run(s, steps))
    decreases |steps|
  {
    hide TasksKept, Apply, Enabled;
    if steps != [] {
      TasksStep(s, steps[0]);
      TasksRun(Apply(s, steps[0]), steps[1..]);
    }
  }

  /**
   Over every run, `mutation_count` is at most its first value plus the mutations answered with success,
   and it is equal to that exactly when no bump wrote back a count that another bump had replaced.
   */
  lemma MutationCount(disks: map<Path, Table>, kv: Kv, steps: seq<Step>)
    requires CanRun(Fresh(disks, kv), steps)
    ensures var s := Run(Fresh(disks, kv), steps);
            s.kv.Count() <= kv.Count() + |Finished(s)| &&
            (s.kv.Count() == kv.Count() + |Finished(s)| <==> NoneStale(s.log))
  {
    var s0 := Fresh(disks, kv);
    assert Finished(s0) == {};
    CountRun(kv.Count(), s0, steps);
    LostBumps(kv.Count(), Run(s0, steps).log);
  }

  /** From a store without a count, the count is at most the mutations answered with success. */
  lemma CountsFromNothing(disks: map<Path, Table>, steps: seq<Step>)
    requires CanRun(Fresh(disks, Kv(None, None, None)), steps)
    ensures var s := Run(Fresh(disks, Kv(None, None, None)), steps);
            if s.kv.mutations.None? then NoneStale(s.log) <==> Finished(s) == {}
            else s.kv.mutations.value <= |Finished(s)| &&
                 (s.kv.mutations.value == |Finished(s)| <==> NoneStale(s.log))
  {
    hide Run, CanRun, NoneStale;
    MutationCount(disks, Kv(None, None, None), steps);
  }

  /** A handler starts only when no other is waiting. */
  ghost predicate Serial(s: State, steps: seq<Step>)
    requires CanRun(s, steps)
    decreases |steps|
  {
    steps == [] ||
    ((steps[0].Start? ==> s.tasks == map[]) && Serial(Apply(s, steps[0]), steps[1..]))
  }

  ghost predicate SerialKept(s: State) {
    (forall i, j :: i in s.tasks && j in s.tasks ==> i == j) && NoneStale(s.log) &&
    (forall i :: i in s.tasks && s.tasks[i].phase.WriteCount? ==> s.log != [] && s.log[|s.log| - 1] == Read(i))
  }

  lemma FreshWriteIsNotStale(log: seq<KvEvent>, e: KvEvent)
    requires NoneStale(log) && (e.Wrote? ==> log != [] && log[|log| - 1] == Read(e.i))
    ensures NoneStale(log + [e])
  {
    hide LastRead, NoneStale;
    LogFront(log + [e]);
    assert (log + [e])[..|log|] == log;
    if e.Wrote? {
      assert log == log[..|log| - 1] + [Read(e.i)];
      LastReadGrows(log[..|log| - 1], Read(e.i), e.i);
    }
  }

  lemma SerialStep(s: State, step: Step)
    requires SerialKept(s) && Enabled(s, step) && (step.Start? ==> s.tasks == map[])
    ensures SerialKept(Apply(s, step))
  {
    hide Segment, NoneStale;
    match step
    case Start(c) => SegmentSucceeds(s.memory, c);
    case ReadMutations(i) => FreshWriteIsNotStale(s.log, Read(i));
    case WriteMutations(i) => FreshWriteIsNotStale(s.log, Wrote(i));
    case _ =>
  }

  lemma {:induction false} SerialRun(s: State, steps: seq<Step>)
    requires SerialKept(s) && CanRun(s, steps) && Serial(s, steps)
    ensures SerialKept(Run(s, steps))
    decreases |steps|
  {
    hide SerialKept, Apply, Enabled;
    if steps != [] {
      SerialStep(s, steps[0]);
      SerialRun(Apply(s, steps[0]), steps[1..]);
    }
  }

  /** When handlers run one after the other, every mutation answered with success is counted. */
  lemma SerialRunsCount(disks: map<Path, Table>, kv: Kv, steps: seq<Step>)
    requires CanRun(Fresh(disks, kv), steps) && Serial(Fresh(disks, kv), steps)
    ensures var s := Run(Fresh(disks, kv), steps); s.kv.Count() == kv.Count() + |Finished(s)|
  {
    SerialRun(Fresh(disks, kv), steps);
    MutationCount(disks, kv, steps);
  }

  /** Two bumps that both read the count before either writes it add 1 between them. */
  lemma RacingBumpsLoseOne(s: State, i: nat, j: nat)
    requires TasksKept(s) && i != j && i in s.tasks && j in s.tasks
    requires s.tasks[i].phase.ReadCount? && s.tasks[j].phase.ReadCount?
    ensures var steps := [ReadMutations(i), ReadMutations(j), WriteMutations(i), WriteMutations(j)];
            CanRun(s, steps) &&
            Run(s, steps).kv.Count() == s.kv.Count() + 1 &&
            Finished(Run(s, steps)) == Finished(s) + {i, j} && i !in Finished(s) && j !in Finished(s)
  {
    hide Finished, TasksKept;
    var s1 := Apply(s, ReadMutations(i));
    var s2 := Apply(s1, ReadMutations(j));
    var s3 := Apply(s2, WriteMutations(i));
    var s4 := Apply(s3, WriteMutations(j));
    TasksStep(s, ReadMutations(i));
    TasksStep(s1, ReadMutations(j));
    TasksStep(s2, WriteMutations(i));
    TasksStep(s3, WriteMutations(j));
    RunsStep(s3, WriteMutations(j), []);
    RunsStep(s2, WriteMutations(i), [WriteMutations(j)]);
    RunsStep(s1, ReadMutations(j), [WriteMutations(i), WriteMutations(j)]);
    RunsStep(s, ReadMutations(i), [ReadMutations(j), WriteMutations(i), WriteMutations(j)]);
  }

  lemma RunsStep(s: State, step: Step, rest: seq<Step>)
    requires Enabled(s, step) && CanRun(Apply(s, step), rest)
    ensures CanRun(s, [step] + rest) && Run(s, [step] + rest) == Run(Apply(s, step), rest)
  {
    hide Enabled, Apply;
    assert ([step] + rest)[1..] == rest;
  }

  lemma NoTasksYet(disks: map<Path, Table>, kv: Kv)
    ensures TasksKept(Fresh(disks, kv))
  {
  }

  /** Such a state is reached by creating two notes at the same time. */
  lemma TwoBumpsCanRace()
    ensures var s := Fresh(map[], Kv(None, None, None));
            var steps := [Start(Init("db")), Start(CreateNote("a", "", "")), Start(CreateNote("b", "", "")), Mark(1), Mark(2)];
            CanRun(s, steps) &&
            var t := Run(s, steps);
            TasksKept(t) && t.tasks.Keys == {1, 2} && t.tasks[1].phase.ReadCount? && t.tasks[2].phase.ReadCount?
  {
    hide TasksKept;
    var s0 := Fresh(map[], Kv(None, None, None));
    var s1 := Apply(s0, Start(Init("db")));
    var s2 := Apply(s1, Start(CreateNote("a", "", "")));
    var s3 := Apply(s2, Start(CreateNote("b", "", "")));
    var s4 := Apply(s3, Mark(1));
    var s5 := Apply(s4, Mark(2));
    NoTasksYet(map[], Kv(None, None, None));
    RunsStep(s4, Mark(2), []);
    RunsStep(s3, Mark(1), [Mark(2)]);
    RunsStep(s2, Start(CreateNote("b", "", "")), [Mark(1), Mark(2)]);
    RunsStep(s1, Start(CreateNote("a", "", "")), [Start(CreateNote("b", "", "")), Mark(1), Mark(2)]);
    RunsStep(s0, Start(Init("db")), [Start(CreateNote("a", "", "")), Start(CreateNote("b", "", "")), Mark(1), Mark(2)]);
    TasksRun(s0, [Start(Init("db")), Start(CreateNote("a", "", "")), Start(CreateNote("b", "", "")), Mark(1), Mark(2)]);
  }

  // ---- Opening another database

  /** From the memory `m` on, the calls are answered as by the plugin `p` without a cache. */
  ghost predicate ServesAs(m: Memory, p: Plain, calls: seq<Call>)
    decreases |calls|
  {
    calls == [] ||
    (Segment(m, calls[0]).reply == PlainAnswer(p, calls[0], m.cacheHits) &&
     ServesAs(Segment(m, calls[0]).memory, PlainStep(p, calls[0]), calls[1..]))
  }

  predicate StayOpen(calls: seq<Call>, path: Path) {
    forall k :: 0 <= k < |calls| ==> Opens(calls[k], path)
  }

  lemma {:induction false} CoherentServes(m: Memory, calls: seq<Call>, path: Path)
    requires Keyed(m.disks) && Coherent(m) && m.open == Some(path) && StayOpen(calls, path)
    ensures ServesAs(m, Plain(m.disks, m.open), calls)
    decreases |calls|
  {
    hide Segment, PlainAnswer, PlainStep, Keyed, Coherent;
    if calls != [] {
      SegmentIsPlain(m, calls[0]);
      SegmentStaysOpen(m, calls[0], path);
      assert forall k :: 0 <= k < |calls| - 1 ==> calls[1..][k] == calls[k + 1];
      CoherentServes(Segment(m, calls[0]).memory, calls[1..], path);
    }
  }

  lemma SegmentStaysOpen(m: Memory, c: Call, path: Path)
    requires m.open == Some(path) && Opens(c, path)
    ensures Segment(m, c).memory.open == Some(path)
  {
  }

  /**
   Init does not clear the cache. All calls on the database it opens, whatever they are, are answered as
   without a cache exactly when each cached note is a row of that database.
   */
  lemma ReopeningIsSafeExactly(m: Memory, path: Path)
    requires Keyed(m.disks) && path != ""
    ensures var after := Segment(m, Init(path)).memory;
            (forall calls :: StayOpen(calls, path) ==> ServesAs(after, Plain(after.disks, after.open), calls)) <==>
            forall id :: id in m.cache ==> id in TableAt(m.disks, path) && m.cache[id] == TableAt(m.disks, path)[id]
  {
    hide ServesAs, StayOpen;
    var after := Segment(m, Init(path)).memory;
    if forall id :: id in m.cache ==> id in TableAt(m.disks, path) && m.cache[id] == TableAt(m.disks, path)[id] {
      forall calls | StayOpen(calls, path) ensures ServesAs(after, Plain(after.disks, after.open), calls) {
        CoherentServes(after, calls, path);
      }
    } else {
      var id :| id in m.cache && !(id in TableAt(m.disks, path) && m.cache[id] == TableAt(m.disks, path)[id]);
      StaleGetShows(m, path, id);
    }
  }

  /** The call that shows it: the stale note itself is asked for. */
  lemma StaleGetShows(m: Memory, path: Path, id: string)
    requires path != "" && id in m.cache && !(id in TableAt(m.disks, path) && m.cache[id] == TableAt(m.disks, path)[id])
    ensures var after := Segment(m, Init(path)).memory;
            StayOpen([GetNote(id)], path) && !ServesAs(after, Plain(after.disks, after.open), [GetNote(id)])
  {
  }

  /** A note of one database is served from the cache after another, empty one was opened. */
  lemma StaleAfterReopening()
    ensures var m0 := Memory(map[], None, map[], 0);
            var m1 := Segment(m0, Init("a")).memory;
            var m2 := Segment(m1, CreateNote("n", "t", "b")).memory;
            var m3 := Segment(m2, Init("b")).memory;
            Segment(m3, GetNote("n")).reply == NoteIs(Note("n", "t", "b", 1)) &&
            PlainAnswer(Plain(m3.disks, m3.open), GetNote("n"), 0) == NoteMissing("n")
  {
  }

  // ---- The module

  datatype Loaded = Found(note: Note) | NoRow | NoDatabase

  /**
   The module variables, the database files and the plugin's keys in the store. A handler's method runs it
   up to its first await; the Kv methods are what happens at the awaits.
   */
  class CrudPlugin {
    var disks: map<Path, Table>
    var database: Option<Path>
    var cache: map<string, Note>
    var cacheHits: nat
    var kv: Kv
    var tasks: map<nat, Task>
    var answered: map<nat, Reply>
    var started: nat
    ghost var calls: seq<Call>
    ghost var log: seq<KvEvent>

    ghost function View(): State
      reads this
    {
      State(Memory(disks, database, cache, cacheHits), kv, tasks, answered, calls, log)
    }

    /** Rows and cached notes are found under their own ids. */
    ghost predicate Valid()
      reads this
    {
      started == |calls| && Keyed(disks) && CacheKeyed(cache)
    }

    constructor (disks: map<Path, Table>, kv: Kv)
      requires Keyed(disks)
      ensures Valid() && View() == Fresh(disks, kv)
    {
      this.disks := disks;
      database := None;
      cache := map[];
      cacheHits := 0;
      this.kv := kv;
      tasks := map[];
      answered := map[];
      started := 0;
      calls := [];
      log := [];
    }

    method Answer(ghost c: Call, reply: Reply) returns (i: nat)
      requires Valid()
      modifies this`answered, this`started, this`calls
      ensures Valid() && i == old(started)
      ensures View() == old(View()).(calls := old(calls) + [c], answered := old(answered)[i := reply])
    {
      i := started;
      answered := answered[i := reply];
      calls := calls + [c];
      started := started + 1;
    }

    method Await(ghost c: Call, phase: Phase, reply: Reply) returns (i: nat)
      requires Valid()
      modifies this`tasks, this`started, this`calls
      ensures Valid() && i == old(started)
      ensures View() == old(View()).(calls := old(calls) + [c], tasks := old(tasks)[i := Task(phase, reply)])
    {
      i := started;
      tasks := tasks[i := Task(phase, reply)];
      calls := calls + [c];
      started := started + 1;
    }

    method Initialize(dbPath: Path) returns (i: nat)
      requires Valid()
      modifies this
      ensures Valid() && View() == Begin(old(View()), Init(dbPath))
      ensures i == old(started) && cache == old(cache) && disks == old(disks)
      ensures database == if dbPath == "" then old(database) else Some(dbPath)
      ensures answered == old(answered)[i := if dbPath == "" then MissingDbPath else Initialized]
    {
      if dbPath == "" {
        i := Answer(Init(dbPath), MissingDbPath);
        return;
      }
      database := Some(dbPath);
      i := Answer(Init(dbPath), Initialized);
    }

    method Create(id: string, title: string, body: string) returns (i: nat)
      requires Valid()
      modifies this
      ensures Valid() && View() == Begin(old(View()), CreateNote(id, title, body))
      ensures i == old(started)
      ensures database.None? ==> answered == old(answered)[i := NotInitialized] && cache == old(cache) && disks == old(disks)
      ensures database.Some? ==>
                var note := Note(id, title, body, 1);
                tasks == old(tasks)[i := Task(MarkNote(id), NoteIs(note))] && cache == old(cache)[id := note] &&
                disks == old(disks)[database.value := TableAt(old(disks), database.value)[id := note]]
    {
      if database.None? {
        i := Answer(CreateNote(id, title, body), NotInitialized);
        return;
      }
      var note := Note(id, title, body, 1);
      disks := disks[database.value := TableAt(disks, database.value)[id := note]];
      cache := cache[note.id := note];
      i := Await(CreateNote(id, title, body), MarkNote(note.id), NoteIs(note));
    }

    method Get(id: string) returns (i: nat)
      requires Valid()
      modifies this
      ensures Valid() && View() == Begin(old(View()), GetNote(id))
      ensures i == old(started) && disks == old(disks) && tasks == old(tasks)
      ensures cacheHits == old(cacheHits) + if id in old(cache) then 1 else 0
      ensures id in old(cache) ==> answered == old(answered)[i := NoteIs(old(cache)[id])] && cache == old(cache)
      ensures id !in old(cache) && database.None? ==> answered == old(answered)[i := NotInitialized] && cache == old(cache)
      ensures id !in old(cache) && database.Some? ==>
                var rows := TableAt(disks, database.value);
                if id in rows then answered == old(answered)[i := NoteIs(rows[id])] && cache == old(cache)[id := rows[id]]
                else answered == old(answered)[i := NoteMissing(id)] && cache == old(cache)
    {
      if id in cache {
        cacheHits := cacheHits + 1;
        i := Answer(GetNote(id), NoteIs(cache[id]));
        return;
      }
      if database.None? {
        i := Answer(GetNote(id), NotInitialized);
        return;
      }
      var rows := TableAt(disks, database.value);
      if id !in rows {
        i := Answer(GetNote(id), NoteMissing(id));
        return;
      }
      cache := cache[rows[id].id := rows[id]];
      i := Answer(GetNote(id), NoteIs(rows[id]));
    }

    method LoadNote(id: string, countCacheHit: bool) returns (loaded: Loaded)
      requires Valid()
      modifies this`cache, this`cacheHits
      ensures Valid()
      ensures loaded == if id in old(cache) then Found(old(cache)[id])
                        else if database.None? then NoDatabase
                        else if id !in TableAt(disks, database.value) then NoRow
                        else Found(TableAt(disks, database.value)[id])
      ensures cache == if loaded.Found? then old(cache)[id := loaded.note] else old(cache)
      ensures cacheHits == old(cacheHits) + if id in old(cache) && countCacheHit then 1 else 0
      ensures loaded.Found? ==> loaded.note.id == id
    {
      if id in cache {
        if countCacheHit {
          cacheHits := cacheHits + 1;
        }
        assert cache == cache[id := cache[id]];
        return Found(cache[id]);
      }
      if database.None? {
        return NoDatabase;
      }
      var rows := TableAt(disks, database.value);
      if id !in rows {
        return NoRow;
      }
      cache := cache[rows[id].id := rows[id]];
      return Found(rows[id]);
    }

    method Update(id: string, title: string, body: string) returns (i: nat)
      requires Valid()
      modifies this
      ensures Valid() && View() == Begin(old(View()), UpdateNote(id, title, body))
      ensures i == old(started) && cacheHits == old(cacheHits)
      ensures database.None? ==> answered == old(answered)[i := NotInitialized] && disks == old(disks)
      ensures database.Some? ==>
                var rows := TableAt(old(disks), database.value);
                if id !in old(cache) && id !in rows then
                  answered == old(answered)[i := NoteMissing(id)] && cache == old(cache) && disks == old(disks)
                else
                  var version := if id in old(cache) then old(cache)[id].version else rows[id].version;
                  var next := Note(id, title, body, version + 1);
                  tasks == old(tasks)[i := Task(MarkNote(id), NoteIs(next))] && cache == old(cache)[id := next] &&
                  disks == old(disks)[database.value := if id in rows then rows[id := next] else rows]
    {
      hide Keyed, CacheKeyed, UpdateRow, Segment, TableAt, Begin;
      UpdateSegment(View().memory, id, title, body);
      BeginRunsSegment(View(), UpdateNote(id, title, body));
      var current := LoadNote(id, false);
      if current.NoDatabase? {
        i := Answer(UpdateNote(id, title, body), NotInitialized);
        return;
      }
      if current.NoRow? {
        i := Answer(UpdateNote(id, title, body), NoteMissing(id));
        return;
      }
      var next := current.note.(title := title, body := body, version := current.note.version + 1);
      if database.None? {
        assert cache == old(cache);
        i := Answer(UpdateNote(id, title, body), NotInitialized);
        return;
      }
      UpdatesTheRow(TableAt(disks, database.value), next);
      i := Save(UpdateNote(id, title, body), next);
    }

    /** Writes the changed note to its row, if there is one, and to the cache. */
    method Save(ghost c: Call, next: Note) returns (i: nat)
      requires Valid() && database.Some?
      modifies this`disks, this`cache, this`tasks, this`started, this`calls
      ensures Valid() && i == old(started) && calls == old(calls) + [c]
      ensures disks == old(disks)[database.value := UpdateRow(TableAt(old(disks), database.value), next)]
      ensures cache == old(cache)[next.id := next] && tasks == old(tasks)[i := Task(MarkNote(next.id), NoteIs(next))]
    {
      hide Keyed, UpdateRow;
      UpdateKeepsKeys(disks, database.value, next);
      disks := disks[database.value := UpdateRow(TableAt(disks, database.value), next)];
      cache := cache[next.id := next];
      i := Await(c, MarkNote(next.id), NoteIs(next));
    }

    method Delete(id: string) returns (i: nat)
      requires Valid()
      modifies this
      ensures Valid() && View() == Begin(old(View()), DeleteNote(id))
      ensures i == old(started)
      ensures database.None? ==> answered == old(answered)[i := NotInitialized] && cache == old(cache) && disks == old(disks)
      ensures database.Some? ==>
                tasks == old(tasks)[i := Task(MarkDeleted(id), NoteDeleted(id))] && cache == old(cache) - {id} &&
                disks == old(disks)[database.value := TableAt(old(disks), database.value) - {id}]
    {
      if database.None? {
        i := Answer(DeleteNote(id), NotInitialized);
        return;
      }
      disks := disks[database.value := TableAt(disks, database.value) - {id}];
      cache := cache - {id};
      i := Await(DeleteNote(id), MarkDeleted(id), NoteDeleted(id));
    }

    method List() returns (i: nat)
      requires Valid()
      modifies this
      ensures Valid() && View() == Begin(old(View()), ListNotes)
      ensures i == old(started) && disks == old(disks) && cacheHits == old(cacheHits)
      ensures database.None? ==> answered == old(answered)[i := NotInitialized] && cache == old(cache)
      ensures database.Some? ==>
                var table := TableAt(disks, database.value);
                answered == old(answered)[i := Notes(Rows(table), cacheHits)] && cache == old(cache) + table
    {
      hide Rows, CacheRows;
      if database.None? {
        i := Answer(ListNotes, NotInitialized);
        return;
      }
      var table := TableAt(disks, database.value);
      var rows := SelectRows(table);
      ghost var cacheBefore := cache;
      CacheAll(rows);
      CacheRowsMerges(cacheBefore, table);
      i := Answer(ListNotes, Notes(rows, cacheHits));
    }

    method CacheAll(rows: seq<Note>)
      modifies this`cache
      ensures cache == CacheRows(old(cache), rows)
    {
      var k := 0;
      while k < |rows|
        invariant 0 <= k <= |rows|
        invariant cache == CacheRows(old(cache), rows[..k])
      {
        assert rows[..k + 1][..k] == rows[..k];
        cache := cache[rows[k].id := rows[k]];
        k := k + 1;
      }
      assert rows[..k] == rows;
    }

    method KvMarks(i: nat)
      requires Valid() && Enabled(View(), Mark(i))
      modifies this`kv, this`tasks
      ensures Valid() && View() == Apply(old(View()), Mark(i))
      ensures tasks == old(tasks)[i := Task(ReadCount, old(tasks)[i].reply)] && kv.mutations == old(kv).mutations
      ensures kv.lastNote == if old(tasks)[i].phase.MarkNote? then Some(old(tasks)[i].phase.id) else old(kv).lastNote
      ensures kv.lastDeleted == if old(tasks)[i].phase.MarkDeleted? then Some(old(tasks)[i].phase.id) else old(kv).lastDeleted
    {
      var task := tasks[i];
      kv := if task.phase.MarkNote? then kv.(lastNote := Some(task.phase.id)) else kv.(lastDeleted := Some(task.phase.id));
      tasks := tasks[i := task.(phase := ReadCount)];
    }

    method KvReadsCount(i: nat)
      requires Valid() && Enabled(View(), ReadMutations(i))
      modifies this`tasks, this`log
      ensures Valid() && View() == Apply(old(View()), ReadMutations(i))
      ensures tasks == old(tasks)[i :=
                Task(WriteCount(if kv.mutations.Some? then kv.mutations.value else 0), old(tasks)[i].reply)]
    {
      var current := if kv.mutations.Some? then kv.mutations.value else 0;
      tasks := tasks[i := tasks[i].(phase := WriteCount(current))];
      log := log + [Read(i)];
    }

    method KvWritesCount(i: nat) returns (reply: Reply)
      requires Valid() && Enabled(View(), WriteMutations(i))
      modifies this`kv, this`tasks, this`answered, this`log
      ensures Valid() && View() == Apply(old(View()), WriteMutations(i)) && reply == old(tasks)[i].reply
      ensures kv.mutations == Some(old(tasks)[i].phase.read + 1) && kv.lastNote == old(kv).lastNote
      ensures answered == old(answered)[i := reply] && tasks == old(tasks) - {i}
    {
      var task := tasks[i];
      kv := kv.(mutations := Some(task.phase.read + 1));
      log := log + [Wrote(i)];
      reply := task.reply;
      answered := answered[i := reply];
      tasks := tasks - {i};
    }

    method KvFails(i: nat)
      requires Valid() && Enabled(View(), Fail(i))
      modifies this`tasks, this`answered
      ensures Valid() && View() == Apply(old(View()), Fail(i))
      ensures answered == old(answered)[i := KvFailed] && tasks == old(tasks) - {i} && kv == old(kv)
    {
      answered := answered[i := KvFailed];
      tasks := tasks - {i};
    }
  }

  lemma BeginRunsSegment(s: State, c: Call)
    ensures var out := Segment(s.memory, c);
            Begin(s, c) == State(out.memory, s.kv,
              if out.next.Some? then s.tasks[|s.calls| := Task(out.next.value, out.reply)] else s.tasks,
              if out.next.Some? then s.answered else s.answered[|s.calls| := out.reply], s.calls + [c], s.log)
  {
    hide Segment;
  }

  lemma UpdateSegment(m: Memory, id: string, title: string, body: string)
    requires Keyed(m.disks) && CacheKeyed(m.cache)
    ensures Segment(m, UpdateNote(id, title, body)) ==
            if m.open.None? then Outcome(m, NotInitialized, None)
            else if id !in m.cache && id !in m.Table() then Outcome(m, NoteMissing(id), None)
            else
              var current := if id in m.cache then m.cache[id] else m.Table()[id];
              var next := Note(id, title, body, current.version + 1);
              Outcome(Memory(m.disks[m.open.value := UpdateRow(m.Table(), next)], m.open, m.cache[id := next], m.cacheHits),
                      NoteIs(next), Some(MarkNote(id)))
  {
    hide UpdateRow;
    if m.open.Some? && id !in m.cache && id in m.Table() {
      var row := m.Table()[id];
      var next := row.(title := title, body := body, version := row.version + 1);
      assert row.id == id;
      assert m.cache[id := row][id := next] == m.cache[id := next];
    }
  }

  lemma UpdatesTheRow(t: Table, note: Note)
    ensures UpdateRow(t, note) == if note.id in t then t[note.id := note] else t
  {
  }

  lemma UpdateKeepsKeys(disks: map<Path, Table>, path: Path, note: Note)
    requires Keyed(disks)
    ensures Keyed(disks[path := UpdateRow(TableAt(disks, path), note)])
  {
  }

  /** All rows, in ascending order of their ids. */
  method SelectRows(t: Table) returns (rows: seq<Note>)
    ensures rows == Rows(t)
  {
    hide StrictlyAscending, Before, Members;
    var ids := ListSet(t.Keys);
    ListedAreKeys(t);
    rows := [];
    for k := 0 to |ids|
      invariant rows == RowsOf(t, ids[..k])
    {
      assert ids[..k + 1] == ids[..k] + [ids[k]];
      rows := rows + [t[ids[k]]];
    }
    assert ids[..|ids|] == ids;
  }

  lemma ListedAreKeys(t: Table)
    ensures forall id <- Listed(t.Keys) :: id in t
  {
    forall id <- Listed(t.Keys) ensures id in t {
      assert id in Members(Listed(t.Keys));
    }
  }

  function CacheRows(cache: map<string, Note>, rows: seq<Note>): map<string, Note> {
    if rows == [] then cache
    else CacheRows(cache, rows[..|rows| - 1])[rows[|rows| - 1].id := rows[|rows| - 1]]
  }

  lemma {:induction false} CachedRow(cache: map<string, Note>, rows: seq<Note>, k: nat)
    requires k < |rows| && forall j :: k < j < |rows| ==> rows[j].id != rows[k].id
    ensures rows[k].id in CacheRows(cache, rows) && CacheRows(cache, rows)[rows[k].id] == rows[k]
  {
    if k < |rows| - 1 {
      CachedRow(cache, rows[..|rows| - 1], k);
    }
  }

  lemma {:induction false} OtherRow(cache: map<string, Note>, rows: seq<Note>, id: string)
    requires forall k :: 0 <= k < |rows| ==> rows[k].id != id
    ensures id in CacheRows(cache, rows) <==> id in cache
    ensures id in cache ==> CacheRows(cache, rows)[id] == cache[id]
  {
    if rows != [] {
      OtherRow(cache, rows[..|rows| - 1], id);
    }
  }

  lemma ListedDiffer(ids: seq<string>)
    requires StrictlyAscending(ids)
    ensures forall i, j :: 0 <= i < j < |ids| ==> ids[i] != ids[j]
  {
    hide Before;
    forall i, j | 0 <= i < j < |ids| ensures ids[i] != ids[j] {
      Irreflexive(ids[i]);
    }
  }

  lemma RowAt(t: Table, k: nat)
    requires k < |Rows(t)|
    ensures |Rows(t)| == |Listed(t.Keys)| && Listed(t.Keys)[k] in t && Rows(t)[k] == t[Listed(t.Keys)[k]]
  {
    assert Listed(t.Keys)[k] in Members(Listed(t.Keys));
  }

  lemma CacheRowsAt(cache: map<string, Note>, t: Table, id: string)
    requires forall id :: id in t ==> t[id].id == id
    ensures id in CacheRows(cache, Rows(t)) <==> id in cache || id in t
    ensures id in CacheRows(cache, Rows(t)) ==> CacheRows(cache, Rows(t))[id] == if id in t then t[id] else cache[id]
  {
    hide StrictlyAscending, CacheRows;
    var ids, rows := Listed(t.Keys), Rows(t);
    ListedDiffer(ids);
    forall k | 0 <= k < |rows| ensures rows[k].id == ids[k] && ids[k] in t {
      RowAt(t, k);
    }
    if id in t {
      assert id in Members(ids);
      var k :| 0 <= k < |ids| && ids[k] == id;
      CachedRow(cache, rows, k);
    } else {
      OtherRow(cache, rows, id);
    }
  }

  lemma CacheRowsMerges(cache: map<string, Note>, t: Table)
    requires forall id :: id in t ==> t[id].id == id
    ensures CacheRows(cache, Rows(t)) == cache + t
  {
    hide StrictlyAscending, Rows, Members, CacheRows;
    forall id ensures
      (id in CacheRows(cache, Rows(t)) <==> id in cache + t) &&
      (id in cache + t ==> CacheRows(cache, Rows(t))[id] == (cache + t)[id])
    {
      CacheRowsAt(cache, t, id);
    }
  }
}