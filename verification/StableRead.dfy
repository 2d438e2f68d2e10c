/** Lock-free readers of a transactional collection: check the generation, read many
    files one at a time, check the generation again, and retry when it moved. */
module StableRead {
  import opened Common
  import opened Journal

  const MAX_STABLE_READ_ATTEMPTS := 3

  datatype Target = RecordFile(key: Key) | IndexFile

  function Contents(s: System, target: Target): Option<Record> {
    match target
    case RecordFile(key) => Lookup(s.records, key)
    case IndexFile => Some(s.index)
  }

  type History = seq<Option<Record>>

  /** What a read closure does next, given everything it has read so far. */
  datatype Action<T> = Access(target: Target) | Return(value: T) | Raise

  /** A read closure that makes at most `bound` file accesses. */
  datatype Program<!T> = Program(next: History -> Action<T>, bound: nat)
  {
    ghost predicate Valid() {
      forall h: History :: |h| >= bound ==> !next(h).Access?
    }
  }

  /** The closure run atomically on one system state, continuing first `h`. */
  ghost function Evaluate<T>(program: Program<T>, s: System, h: History): Action<T>
    requires program.Valid()
    ensures !Evaluate(program, s, h).Access?
    decreases if |h| < program.bound then program.bound - |h| else 0
  {
    var action := program.next(h);
    if action.Access? then Evaluate(program, s, h + [Contents(s, action.target)]) else action
  }

  datatype Outcome<+T> = Success(value: T) | Failure | ConcurrentWrite

  /** What the collection looks like at a reader's i-th access. */
  function At(run: nat -> System, clock: nat -> nat, i: nat): System {
    run(clock(i))
  }

  /** `clock(i)` is the time of the i-th access. */
  ghost predicate Monotone(clock: nat -> nat) {
    forall i: nat :: clock(i) <= clock(i + 1)
  }

  /** Disjoint windows, in order and ending by `ended`, each with a writer active in it. */
  ghost predicate Overlapped(run: nat -> System, begun: nat, windows: seq<(nat, nat)>, ended: nat) {
    && (forall i :: 0 <= i < |windows| ==> WriterActive(run, windows[i].0, windows[i].1))
    && (forall i, j :: 0 <= i < j < |windows| ==> windows[i].1 <= windows[j].0)
    && (forall i :: 0 <= i < |windows| ==> begun <= windows[i].0 && windows[i].1 <= ended)
  }

  lemma OverlappedStart(run: nat -> System, begun: nat)
    ensures Overlapped(run, begun, [], begun)
  {
  }

  lemma OverlappedExtend(
    run: nat -> System, begun: nat, windows: seq<(nat, nat)>, ended: nat, first: nat, last: nat)
    requires Overlapped(run, begun, windows, ended) && begun <= first && ended <= first <= last
    requires WriterActive(run, first, last)
    ensures Overlapped(run, begun, windows + [(first, last)], last)
  {
  }

  ghost predicate WriterActive(run: nat -> System, first: nat, last: nat) {
    exists t: nat :: first <= t <= last && run(t).writing
  }

  /** One stable generation, held by the collection at `t`, on which the closure run
      atomically gives `action`. */
  ghost predicate Snapshot<T>(run: nat -> System, program: Program<T>, t: nat, action: Action<T>)
    requires program.Valid()
  {
    !run(t).writing && Evaluate(program, run(t), []) == action
  }

  // ---------- the generation a system state belongs to ----------

  /** The number of the stable generation in force when the current transaction began. */
  function Base(s: System): nat {
    if s.writing && s.manifest.Some? then s.manifest.value.generationBefore else s.number
  }

  predicate SameFiles(s: System, s': System) {
    s.records == s'.records && s.index == s'.index
  }

  /** Still in generation `s0`: nothing has been captured, so nothing can have changed. */
  predicate Undisturbed(s0: System, s: System) {
    Base(s) == s0.number && SameFiles(s0, s) && (s.writing ==> s.writer.Started?)
  }

  /** `s` follows `s0`: undisturbed, or inside a transaction that can only publish a
      later number, or in a later generation. */
  predicate Follows(s0: System, s: System) {
    || Undisturbed(s0, s)
    || (Base(s) == s0.number && s.writing && !s.writer.Started?)
    || Base(s) > s0.number
  }

  lemma FollowsStep(s0: System, s: System, step: Step, s': System)
    requires s0.number < MAX_U64
    requires Consistent(s) && Next(s, step, s') && Follows(s0, s)
    ensures Follows(s0, s')
    ensures Undisturbed(s0, s') ==> Undisturbed(s0, s)
  {
  }

  lemma {:induction false} FollowsThroughout(run: nat -> System, steps: nat -> Step, first: nat, t: nat)
    requires IsRun(run, steps) && first <= t
    requires !run(first).writing && run(first).number < MAX_U64
    ensures Follows(run(first), run(t))
  {
    ConsistentAlways(run, steps, first);
    if first < t {
      FollowsThroughout(run, steps, first, t - 1);
      ConsistentAlways(run, steps, t - 1);
      FollowsStep(run(first), run(t - 1), steps(t - 1), run(t));
    }
  }

  /** If the same stable number is in force at both ends of a window, no file changed
      anywhere inside it, even when abandoned transactions republished that number. */
  lemma {:induction false} WindowFrozen(run: nat -> System, steps: nat -> Step, first: nat, t: nat, last: nat)
    requires IsRun(run, steps) && first <= t <= last
    requires !run(first).writing && !run(last).writing
    requires run(first).number == run(last).number < MAX_U64
    ensures SameFiles(run(first), run(t))
  {
    UndisturbedBackwards(run, steps, first, t, last);
  }

  lemma {:induction false} UndisturbedBackwards(
    run: nat -> System, steps: nat -> Step, first: nat, t: nat, last: nat)
    requires IsRun(run, steps) && first <= t <= last
    requires !run(first).writing && !run(last).writing
    requires run(first).number == run(last).number < MAX_U64
    ensures Undisturbed(run(first), run(t))
    decreases last - t
  {
    FollowsThroughout(run, steps, first, t);
    if t < last {
      UndisturbedBackwards(run, steps, first, t + 1, last);
      ConsistentAlways(run, steps, t);
      FollowsStep(run(first), run(t), steps(t), run(t + 1));
    }
  }

  /** A stable number only changes through a writing generation. */
  lemma {:induction false} ChangeNeedsWriter(run: nat -> System, steps: nat -> Step, first: nat, last: nat)
    requires IsRun(run, steps) && first <= last
    requires run(first).number != run(last).number || run(last).writing
    ensures WriterActive(run, first, last)
    decreases last - first
  {
    if !run(first).writing {
      assert first < last;
      ConsistentAlways(run, steps, first);
      assert Next(run(first), steps(first), run(first + 1));
      if !run(first + 1).writing {
        ChangeNeedsWriter(run, steps, first + 1, last);
        var t :| first + 1 <= t <= last && run(t).writing;
      }
    }
  }

  // ---------- the reader ----------

  /** Each entry of `h` is what the file the closure asked for held at that tick. */
  ghost predicate ReadAt<T>(
    run: nat -> System, clock: nat -> nat, program: Program<T>, tick: nat, h: History)
  {
    forall j: nat :: j < |h| ==>
      var action := program.next(h[..j]);
      action.Access? && h[j] == Contents(At(run, clock, tick + j), action.target)
  }

  /** The closure raises its error on the files it was given in an attempt begun at `at`. */
  ghost predicate RaisedOn<T>(run: nat -> System, clock: nat -> nat, program: Program<T>, at: nat) {
    !run(at).writing
    && exists tick: nat, h: History ::
         clock(tick) == at && ReadAt(run, clock, program, tick + 1, h) && program.next(h).Raise?
  }

  ghost predicate BrokenAt(clock: nat -> nat, broken: nat -> bool, t: nat) {
    exists tick: nat :: broken(tick) && clock(tick) == t
  }

  lemma RaisedIntro<T>(run: nat -> System, clock: nat -> nat, program: Program<T>, tick: nat, h: History)
    requires !run(clock(tick)).writing && ReadAt(run, clock, program, tick + 1, h) && program.next(h).Raise?
    ensures RaisedOn(run, clock, program, clock(tick))
  {
  }

  lemma MonotoneBetween(clock: nat -> nat, i: nat, j: nat)
    requires Monotone(clock) && i <= j
    ensures clock(i) <= clock(j)
    decreases j - i
  {
    if i < j {
      MonotoneBetween(clock, i + 1, j);
    }
  }

  lemma ReadAtStart<T>(run: nat -> System, clock: nat -> nat, program: Program<T>, tick: nat)
    ensures ReadAt(run, clock, program, tick, [])
  {
  }

  lemma ReadAtExtend<T>(
    run: nat -> System, clock: nat -> nat, program: Program<T>, tick: nat, h: History)
    requires ReadAt(run, clock, program, tick, h) && program.next(h).Access?
    ensures
      ReadAt(run, clock, program, tick, h + [Contents(At(run, clock, tick + |h|), program.next(h).target)])
  {
    var h' := h + [Contents(At(run, clock, tick + |h|), program.next(h).target)];
    assert forall j: nat :: j <= |h| ==> h'[..j] == h[..j];
    assert h[..|h|] == h;
  }

  /** Reads spread over a frozen window give what one atomic evaluation gives. */
  lemma {:induction false} SpreadReadsAreAtomic<T>(
    run: nat -> System, clock: nat -> nat, program: Program<T>, s: System, tick: nat, h: History, n: nat)
    requires program.Valid() && ReadAt(run, clock, program, tick, h) && n <= |h|
    requires forall i: nat :: tick <= i < tick + |h| ==> SameFiles(s, At(run, clock, i))
    ensures Evaluate(program, s, h[..n]) == Evaluate(program, s, [])
  {
    if n > 0 {
      SpreadReadsAreAtomic(run, clock, program, s, tick, h, n - 1);
      assert h[..n - 1] + [h[n - 1]] == h[..n];
      assert SameFiles(s, At(run, clock, tick + (n - 1)));
      assert program.next(h[..n - 1]).Access?;
    }
  }

  lemma {:induction false} AcceptedReadIsSnapshot<T>(
    run: nat -> System, steps: nat -> Step, clock: nat -> nat, program: Program<T>, tick: nat, h: History)
    requires IsRun(run, steps) && Monotone(clock) && program.Valid()
    requires ReadAt(run, clock, program, tick + 1, h) && !program.next(h).Access?
    requires
      var first, last := run(clock(tick)), run(clock(tick + 1 + |h|));
      !first.writing && !last.writing && first.number == last.number < MAX_U64
    ensures Snapshot(run, program, clock(tick), program.next(h))
  {
    var s := run(clock(tick));
    forall i: nat | tick + 1 <= i < tick + 1 + |h|
      ensures SameFiles(s, At(run, clock, i))
    {
      MonotoneBetween(clock, tick, i);
      MonotoneBetween(clock, i, tick + 1 + |h|);
      WindowFrozen(run, steps, clock(tick), clock(i), clock(tick + 1 + |h|));
    }
    SpreadReadsAreAtomic(run, clock, program, s, tick + 1, h, |h|);
    assert h[..|h|] == h;
  }

  /** A read-only operation.  The i-th access to the collection happens at time `clock(i)`
      of `run`, so writers interleave in any way the run allows; if it looks at the
      generation, it fails where `broken(i)` holds. */
  method ReadStable<T>(
    run: nat -> System, ghost steps: nat -> Step, clock: nat -> nat, broken: nat -> bool, program: Program<T>)
    returns (out: Outcome<T>, ghost at: nat, ghost ended: nat, ghost windows: seq<(nat, nat)>)
    requires IsRun(run, steps) && Monotone(clock) && program.Valid()
    ensures clock(0) <= at <= ended
    // A result is the closure's value on one stable generation of the run.
    ensures out.Success? && run(at).number < MAX_U64 ==> Snapshot(run, program, at, Return(out.value))
    // Errors come from a failed look at the generation, or are the closure's own, on what an
    // attempt begun at a stable generation had read.
    ensures out.Failure? ==> BrokenAt(clock, broken, ended) || RaisedOn(run, clock, program, at)
    // Giving up means a writer was active during each of three successive attempts.
    ensures out.ConcurrentWrite? ==>
      |windows| == MAX_STABLE_READ_ATTEMPTS && Overlapped(run, clock(0), windows, ended)
  {
    hide IsRun, Snapshot, ReadAt, RaisedOn, Overlapped, WriterActive, Monotone, Contents;
    OverlappedStart(run, clock(0));
    var tick := 0;
    var attempt := 0;
    windows, at, ended := [], clock(0), clock(0);
    while attempt < MAX_STABLE_READ_ATTEMPTS
      invariant 0 <= attempt == |windows| <= MAX_STABLE_READ_ATTEMPTS
      invariant at == clock(0) <= ended <= clock(tick)
      invariant Overlapped(run, clock(0), windows, ended)
    {
      attempt := attempt + 1;
      ghost var entry := tick;
      MonotoneBetween(clock, 0, entry);
      if broken(tick) {
        return Failure, clock(entry), clock(entry), windows;
      }
      var before := run(clock(tick));
      tick := tick + 1;
      MonotoneBetween(clock, entry, tick);
      if before.writing {
        OverlappedExtend(run, clock(0), windows, ended, clock(entry), clock(entry));
        windows, ended := windows + [(clock(entry), clock(entry))], clock(entry);
        continue;
      }
      var h: History := [];
      ReadAtStart(run, clock, program, entry + 1);
      var action := program.next(h);
      while action.Access?
        invariant action == program.next(h)
        invariant tick == entry + 1 + |h|
        invariant ReadAt(run, clock, program, entry + 1, h)
        decreases program.bound - |h|
      {
        ReadAtExtend(run, clock, program, entry + 1, h);
        h := h + [Contents(At(run, clock, tick), action.target)];
        tick := tick + 1;
        action := program.next(h);
      }
      MonotoneBetween(clock, entry, tick);
      if action.Raise? {
        RaisedIntro(run, clock, program, entry, h);
        return Failure, clock(entry), clock(entry), windows;
      }
      if broken(tick) {
        return Failure, clock(entry), clock(tick), windows;
      }
      var after := run(clock(tick));
      tick := tick + 1;
      if !after.writing && after.number == before.number {
        if before.number < MAX_U64 {
          AcceptedReadIsSnapshot(run, steps, clock, program, entry, h);
        }
        return Success(action.value), clock(entry), clock(tick - 1), windows;
      }
      MonotoneBetween(clock, tick - 1, tick);
      ChangeNeedsWriter(run, steps, clock(entry), clock(tick - 1));
      OverlappedExtend(run, clock(0), windows, ended, clock(entry), clock(tick - 1));
      windows, ended := windows + [(clock(entry), clock(tick - 1))], clock(tick - 1);
    }
    return ConcurrentWrite, at, ended, windows;
  }

  // ---------- exactly when the generation check is sound ----------

  /** Seeing stable number `g` twice is proof that no file changed in between. */
  ghost predicate CheckIsSound(g: nat) {
    forall run: nat -> System, steps: nat -> Step, first: nat, last: nat ::
      IsRun(run, steps) && first <= last
      && !run(first).writing && !run(last).writing && run(first).number == run(last).number == g
      ==> SameFiles(run(first), run(last))
  }

  /** A collection of one record at the largest generation number. */
  function AtLastNumber(): System {
    System(MAX_U64, false, None, map["k" := "old"], "", NoWriter)
  }

  function FullTransaction(): seq<Step> {
    [Open, PublishWriting, TakeCapture("k"), Change("k", Some("new")), Mark, PublishCommit]
  }

  function FullManifest(): Manifest {
    Manifest(MAX_U64, Active, [Capture("k", Some("old"))])
  }

  lemma SaturatedCapture()
    ensures Play(AtLastNumber(), FullTransaction(), 3)
         == AtLastNumber().(manifest := Some(FullManifest()), writing := true, writer := Editing)
  {
    var s0, script := AtLastNumber(), FullTransaction();
    var m := Manifest(MAX_U64, Active, []);
    PlayNext(s0, script, 0, s0);
    var s1 := s0.(manifest := Some(m), writer := Opening);
    PlayNext(s0, script, 1, s1);
    var s2 := s1.(writing := true, writer := Started);
    PlayNext(s0, script, 2, s2);
    assert m.captures + [Capture("k", Some("old"))] == FullManifest().captures;
  }

  lemma SaturatedPlay()
    ensures Play(AtLastNumber(), FullTransaction(), 0) == AtLastNumber()
    ensures
      var last := Play(AtLastNumber(), FullTransaction(), 6);
      !last.writing && last.number == MAX_U64 && last.records == map["k" := "new"]
  {
    var s0, script := AtLastNumber(), FullTransaction();
    SaturatedCapture();
    var s3 := s0.(manifest := Some(FullManifest()), writing := true, writer := Editing);
    assert Captured(FullManifest().captures, "k") by { assert FullManifest().captures[0].key == "k"; }
    PlayNext(s0, script, 3, s3);
    var s4 := s3.(records := map["k" := "new"]);
    assert s3.records["k" := "new"] == s4.records;
    PlayNext(s0, script, 4, s4);
    PlayNext(s0, script, 5, s4.(manifest := Some(FullManifest().(phase := Committed)), writer := Marked));
  }

  lemma SaturatedWrite() returns (run: nat -> System, steps: nat -> Step)
    ensures IsRun(run, steps)
    ensures !run(0).writing && !run(6).writing && run(0).number == run(6).number == MAX_U64
    ensures run(0).records["k" := "new"] == run(6).records && !SameFiles(run(0), run(6))
  {
    hide Play, IsRun;
    SaturatedPlay();
    run, steps := PlayIsRun(AtLastNumber(), FullTransaction());
    assert run(0) == Play(AtLastNumber(), FullTransaction(), 0);
    assert run(6) == Play(AtLastNumber(), FullTransaction(), 6);
    assert run(0).records["k"] != run(6).records["k"];
  }

  /** Generation numbers saturate, so the check is sound below the largest number and
      only there: at the largest number a committed write leaves no trace. */
  lemma CheckIsSoundExactly(g: nat)
    requires g <= MAX_U64
    ensures CheckIsSound(g) <==> g < MAX_U64
  {
    if g < MAX_U64 {
      forall run: nat -> System, steps: nat -> Step, first: nat, last: nat |
        IsRun(run, steps) && first <= last
        && !run(first).writing && !run(last).writing && run(first).number == run(last).number == g
        ensures SameFiles(run(first), run(last))
      {
        WindowFrozen(run, steps, first, last, last);
      }
    } else {
      var run, steps := SaturatedWrite();
      assert !SameFiles(run(0), run(6));
    }
  }
}
