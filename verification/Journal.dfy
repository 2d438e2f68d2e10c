/** The write side of a transactional collection: one writer at a time publishes a
    `writing` generation, changes captured records, writes a commit marker and publishes
    the next `stable` generation.  Every durable effect is its own step, a crash may fall
    between any two of them, and recovery runs as further steps. */
module Journal {
  import opened Common

  const MAX_U64: nat := 0xFFFF_FFFF_FFFF_FFFF

  function SaturatingAdd(a: nat, b: nat): nat {
    if a + b <= MAX_U64 then a + b else MAX_U64
  }

  type Key = string
  type Record = string
  type Records = map<Key, Record>

  function Lookup(records: Records, key: Key): Option<Record> {
    if key in records then Some(records[key]) else None
  }

  function Store(records: Records, key: Key, value: Option<Record>): Records {
    if value.Some? then records[key := value.value] else records - {key}
  }

  datatype Phase = Active | Committed

  /** A before-image: `None` records that the path was absent. */
  datatype Capture = Capture(key: Key, before: Option<Record>)

  /** The durable journal of the transaction started last. */
  datatype Manifest = Manifest(generationBefore: nat, phase: Phase, captures: seq<Capture>)

  /** What the process holding the write lock is doing; `NoWriter` after a crash. */
  datatype Writer =
    | NoWriter
    | Opening               // manifest durable, writing generation not yet published
    | Started               // writing generation published, nothing captured or changed
    | Editing
    | Marked                // commit marker durable
    | Undoing(left: nat)    // in-process rollback, captures[..left] still to be restored
    | Recovering(left: nat) // recovery by a later process

  /** Durable state plus the writer's progress.  `index` is the derived index catalog. */
  datatype System = System(
    number: nat,
    writing: bool,
    manifest: Option<Manifest>,
    records: Records,
    index: Record,
    writer: Writer)

  datatype Step =
    | Open
    | PublishWriting
    | Abandon
    | TakeCapture(key: Key)
    | Change(key: Key, value: Option<Record>)
    | Reindex(index: Record)
    | Mark
    | PublishCommit
    | Fail
    | Restore
    | PublishRestored
    | Crash
    | Recover
    | Idle

  predicate Captured(captures: seq<Capture>, key: Key) {
    exists i :: 0 <= i < |captures| && captures[i].key == key
  }

  function Publish(s: System, number: nat): System {
    s.(number := number, writing := false, writer := NoWriter)
  }

  /** Whether `step` is enabled in `s`. */
  predicate Enabled(s: System, step: Step) {
    match step
    case Open => s.writer.NoWriter? && !s.writing
    case PublishWriting => s.writer.Opening? && s.manifest.Some?
    case Abandon => s.writer.Started? && s.manifest.Some?
    case TakeCapture(key) =>
      (s.writer.Started? || s.writer.Editing?) && s.manifest.Some?
      && !Captured(s.manifest.value.captures, key)
    case Change(key, _) =>
      s.writer.Editing? && s.manifest.Some? && Captured(s.manifest.value.captures, key)
    case Reindex(_) => s.writer.Editing? || s.writer.Undoing? || s.writer.Recovering?
    case Mark => (s.writer.Started? || s.writer.Editing?) && s.manifest.Some?
    case PublishCommit => s.writer.Marked? && s.manifest.Some?
    case Fail => (s.writer.Started? || s.writer.Editing? || s.writer.Marked?) && s.manifest.Some?
    case Restore =>
      (s.writer.Undoing? || s.writer.Recovering?) && s.manifest.Some?
      && 0 < s.writer.left <= |s.manifest.value.captures|
    case PublishRestored =>
      (s.writer.Undoing? || s.writer.Recovering?) && s.manifest.Some? && s.writer.left == 0
    case Crash => true
    case Recover => s.writer.NoWriter? && s.writing && s.manifest.Some?
    case Idle => true
  }

  /** The state after an enabled step. */
  function Apply(s: System, step: Step): System
    requires Enabled(s, step)
  {
    match step
    case Open => s.(manifest := Some(Manifest(s.number, Active, [])), writer := Opening)
    case PublishWriting =>
      s.(number := SaturatingAdd(s.manifest.value.generationBefore, 1), writing := true, writer := Started)
    case Abandon => Publish(s, s.manifest.value.generationBefore)
    case TakeCapture(key) =>
      var m := s.manifest.value;
      s.(manifest := Some(m.(captures := m.captures + [Capture(key, Lookup(s.records, key))])),
         writer := Editing)
    case Change(key, value) => s.(records := Store(s.records, key, value))
    case Reindex(index) => s.(index := index)
    case Mark => s.(manifest := Some(s.manifest.value.(phase := Committed)), writer := Marked)
    case PublishCommit => Publish(s, SaturatingAdd(s.manifest.value.generationBefore, 2))
    case Fail => s.(writer := Undoing(|s.manifest.value.captures|))
    case Restore =>
      var c := s.manifest.value.captures[s.writer.left - 1];
      var left := s.writer.left - 1;
      s.(records := Store(s.records, c.key, c.before),
         writer := if s.writer.Undoing? then Undoing(left) else Recovering(left))
    case PublishRestored => Publish(s, SaturatingAdd(s.manifest.value.generationBefore, 2))
    case Crash => s.(writer := NoWriter)
    case Recover =>
      // Only an active transaction is rolled back; a committed one is rolled forward.
      var m := s.manifest.value;
      s.(writer := Recovering(if m.phase.Active? then |m.captures| else 0))
    case Idle => s
  }

  predicate Next(s: System, step: Step, s': System) {
    Enabled(s, step) && s' == Apply(s, step)
  }

  /** An endless run of the write side, starting between transactions. */
  ghost predicate IsRun(run: nat -> System, steps: nat -> Step) {
    && Quiet(run(0))
    && forall i: nat :: Next(run(i), steps(i), run(i + 1))
  }

  predicate Quiet(s: System) {
    s.writer.NoWriter? && !s.writing
  }

  /** The relation between the generation marker, the journal and the writer's progress. */
  predicate Consistent(s: System) {
    && (s.writing ==> s.manifest.Some? && s.number == SaturatingAdd(s.manifest.value.generationBefore, 1))
    && (s.writer.Opening? ==>
          !s.writing && s.manifest.Some? && s.manifest.value == Manifest(s.number, Active, []))
    && (!s.writer.NoWriter? && !s.writer.Opening? ==> s.writing)
    && (s.writer.Started? ==> s.manifest.value.captures == [])
  }

  lemma ConsistentPreserved(s: System, step: Step, s': System)
    requires Consistent(s) && Next(s, step, s')
    ensures Consistent(s')
  {
  }

  lemma {:induction false} ConsistentAlways(run: nat -> System, steps: nat -> Step, t: nat)
    requires IsRun(run, steps)
    ensures Consistent(run(t))
  {
    if t > 0 {
      ConsistentAlways(run, steps, t - 1);
      ConsistentPreserved(run(t - 1), steps(t - 1), run(t));
    }
  }

  /** An odd number marks a writing generation, an even one a stable generation, as long
      as the numbers have not saturated. */
  predicate Parity(s: System) {
    && (s.number < MAX_U64 ==> (s.number % 2 == 1 <==> s.writing))
    && ((s.writing && s.manifest.Some? && s.manifest.value.generationBefore < MAX_U64)
          ==> s.manifest.value.generationBefore % 2 == 0)
  }

  lemma {:induction false} ParityAlways(run: nat -> System, steps: nat -> Step, t: nat)
    requires IsRun(run, steps) && run(0).number % 2 == 0
    ensures Parity(run(t))
  {
    if t > 0 {
      ParityAlways(run, steps, t - 1);
      ConsistentAlways(run, steps, t - 1);
      assert Next(run(t - 1), steps(t - 1), run(t));
    }
  }

  // ---------- scripted runs ----------

  function ScriptStep(script: seq<Step>, s: System, t: nat): Step {
    if t < |script| && Enabled(s, script[t]) then script[t] else Idle
  }

  /** The state after `t` steps of `script`; idle once it is exhausted or not enabled. */
  function Play(s: System, script: seq<Step>, t: nat): System {
    if t == 0 then s else
      var previous := Play(s, script, t - 1);
      Apply(previous, ScriptStep(script, previous, t - 1))
  }

  /** One more scripted step. */
  lemma PlayNext(s: System, script: seq<Step>, t: nat, here: System)
    requires Play(s, script, t) == here && t < |script| && Enabled(here, script[t])
    ensures Play(s, script, t + 1) == Apply(here, script[t])
  {
  }

  lemma PlayAdvances(s: System, script: seq<Step>, t: nat)
    ensures
      var here := Play(s, script, t);
      Next(here, ScriptStep(script, here, t), Play(s, script, t + 1))
  {
  }

  lemma PlayIsRun(s: System, script: seq<Step>) returns (run: nat -> System, steps: nat -> Step)
    requires Quiet(s)
    ensures IsRun(run, steps) && forall t: nat :: run(t) == Play(s, script, t)
  {
    run := (t: nat) => Play(s, script, t);
    steps := (t: nat) => ScriptStep(script, Play(s, script, t), t);
    forall i: nat
      ensures Next(run(i), steps(i), run(i + 1))
    {
      PlayAdvances(s, script, i);
    }
  }
}
