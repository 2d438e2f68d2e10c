/** The exclusive root lease: a kernel lock on a sentinel file and an owner record beside it. */
module Lease {
  import opened Common

  /** Owner names are unique: the n-th attempt to acquire is owner n. */
  type Owner = nat

  /** The identity of a sentinel file, which a replacement at the same path changes. */
  type Inode = nat

  /** How far an attempt has come. */
  datatype Stage = Opened | Locked | Truncated | Held

  datatype Attempt = Attempt(inode: Inode, stage: Stage)

  /** `attempts` holds the live ones; `record` is the owner that the metadata file names,
      if it names one; `disturbed` are attempts whose metadata file another attempt has
      truncated or written since they truncated it themselves. */
  datatype State = State(
    enforced: bool,
    sentinel: Option<Inode>,
    locks: map<Inode, Owner>,
    record: Option<Owner>,
    disturbed: set<Owner>,
    attempts: map<Owner, Attempt>,
    nextOwner: Owner,
    nextInode: Inode)

  datatype Step =
    | Open                             // open the sentinel, creating it if there is none
    | TryLock(p: Owner)                // refused when another owner holds the lock
    | Truncate(p: Owner)               // open the metadata file for writing
    | Record(p: Owner, intact: bool)   // write the owner; torn only where writers collided
    | Release(p: Owner)                // drop or crash: the kernel releases the lock
    | ReplaceSentinel                  // the file at the sentinel's path is removed

  function Fresh(enforced: bool): State {
    State(enforced, None, map[], None, {}, map[], 0, 0)
  }

  predicate AtStage(s: State, p: Owner, stage: Stage) {
    p in s.attempts && s.attempts[p].stage == stage
  }

  predicate Enabled(s: State, step: Step) {
    match step
    case Open => true
    case TryLock(p) => AtStage(s, p, Opened)
    case Truncate(p) => AtStage(s, p, Locked)
    case Record(p, intact) => AtStage(s, p, Truncated) && (intact || p in s.disturbed)
    case Release(p) => p in s.attempts
    case ReplaceSentinel => s.sentinel.Some?
  }

  function Advance(s: State, p: Owner, stage: Stage): State
    requires p in s.attempts
  {
    s.(attempts := s.attempts[p := s.attempts[p].(stage := stage)])
  }

  /** The attempts another attempt disturbs by touching the metadata file now. */
  function DisturbedBy(s: State, p: Owner): set<Owner> {
    s.disturbed + (set q | q in s.attempts && s.attempts[q].stage == Truncated) - {p}
  }

  function Unlocked(s: State, p: Owner): map<Inode, Owner> {
    map inode | inode in s.locks && s.locks[inode] != p :: s.locks[inode]
  }

  function Apply(s: State, step: Step): State
    requires Enabled(s, step)
  {
    match step
    case Open =>
      var inode := if s.sentinel.Some? then s.sentinel.value else s.nextInode;
      s.(sentinel := Some(inode),
         nextInode := if s.sentinel.Some? then s.nextInode else s.nextInode + 1,
         attempts := s.attempts[s.nextOwner := Attempt(inode, Opened)],
         nextOwner := s.nextOwner + 1)
    case TryLock(p) =>
      var inode := s.attempts[p].inode;
      if !s.enforced then Advance(s, p, Locked)
      else if inode in s.locks then s.(attempts := s.attempts - {p})
      else Advance(s.(locks := s.locks[inode := p]), p, Locked)
    case Truncate(p) => Advance(s.(record := None, disturbed := DisturbedBy(s, p)), p, Truncated)
    case Record(p, intact) =>
      Advance(s.(record := if intact then Some(p) else None, disturbed := DisturbedBy(s, p)), p, Held)
    case Release(p) => s.(attempts := s.attempts - {p}, locks := Unlocked(s, p))
    case ReplaceSentinel => s.(sentinel := None)
  }

  /** `assert_owned` */
  predicate Owned(s: State, p: Owner) {
    AtStage(s, p, Held) && s.record == Some(p)
  }

  predicate HoldsLease(s: State, p: Owner) {
    AtStage(s, p, Held)
  }

  /** A whole undisturbed acquisition, as far as it gets. */
  function Acquired(s: State): State {
    var p := s.nextOwner;
    var tried := Apply(s, Open);
    var locked := Apply(tried, TryLock(p));
    if p in locked.attempts then Apply(Apply(locked, Truncate(p)), Record(p, true)) else locked
  }

  /** One root as the host sees it. */
  class Host {
    const enforced: bool
    var sentinel: Option<Inode>
    var locks: map<Inode, Owner>
    var record: Option<Owner>
    var disturbed: set<Owner>
    var attempts: map<Owner, Attempt>
    var nextOwner: Owner
    var nextInode: Inode

    constructor (enforced: bool)
      ensures Current() == Fresh(enforced)
    {
      this.enforced := enforced;
      sentinel, locks, record, disturbed := None, map[], None, {};
      attempts, nextOwner, nextInode := map[], 0, 0;
    }

    function Current(): State reads this {
      State(enforced, sentinel, locks, record, disturbed, attempts, nextOwner, nextInode)
    }

    /** `RootLease::acquire`: the new owner, or nothing when the root is locked. */
    method Acquire() returns (lease: Option<Owner>)
      requires Inv(Current())
      modifies this
      ensures Current() == Acquired(old(Current())) && Inv(Current())
      ensures lease.Some? ==> lease.value == old(nextOwner) && Owned(Current(), lease.value)
      ensures lease.None? <==> old(enforced && sentinel.Some? && sentinel.value in locks)
    {
      hide Acquired, Inv;
      AcquiredKeeps(Current());
      AcquiredIs(Current());
      var owner := nextOwner;
      if sentinel.None? {
        sentinel := Some(nextInode);
        nextInode := nextInode + 1;
      }
      var inode := sentinel.value;
      nextOwner := nextOwner + 1;
      if enforced {
        if inode in locks {
          return None;
        }
        locks := locks[inode := owner];
      }
      disturbed := DisturbedBy(Current(), owner);
      attempts := attempts[owner := Attempt(inode, Held)];
      record := Some(owner);
      return Some(owner);
    }

    method AssertOwned(lease: Owner) returns (owned: bool)
      requires HoldsLease(Current(), lease)
      ensures owned <==> Owned(Current(), lease)
    {
      owned := record == Some(lease);
    }

    method Drop(lease: Owner)
      requires HoldsLease(Current(), lease)
      modifies this
      ensures Current() == Apply(old(Current()), Release(lease))
    {
      locks := Unlocked(Current(), lease);
      attempts := attempts - {lease};
    }
  }

  // ---------- runs ----------

  ghost predicate IsRun(run: seq<State>, steps: seq<Step>) {
    && |run| == |steps| + 1
    && forall i :: 0 <= i < |steps| ==> Enabled(run[i], steps[i]) && run[i + 1] == Apply(run[i], steps[i])
  }

  /** Names and inodes in use have been given out. */
  ghost predicate Inv(s: State) {
    && (forall p :: p in s.attempts ==> p < s.nextOwner && s.attempts[p].inode < s.nextInode)
    && (s.sentinel.Some? ==> s.sentinel.value < s.nextInode)
    && (forall inode :: inode in s.locks ==> inode < s.nextInode)
    && (s.record.Some? ==> s.record.value < s.nextOwner)
    && (s.record.Some? && s.record.value in s.attempts ==> s.attempts[s.record.value].stage == Held)
  }

  lemma StepKeeps(s: State, step: Step)
    requires Inv(s) && Enabled(s, step)
    ensures Inv(Apply(s, step))
  {
  }

  lemma {:induction false} RunKeeps(run: seq<State>, steps: seq<Step>, n: nat)
    requires IsRun(run, steps) && n < |run| && Inv(run[0])
    ensures Inv(run[n])
    decreases n
  {
    if n > 0 {
      RunKeeps(run, steps, n - 1);
      StepKeeps(run[n - 1], steps[n - 1]);
    }
  }

  /** The outcome of an acquisition at one stroke. */
  lemma AcquiredIs(s: State)
    requires Inv(s)
    ensures
      var p := s.nextOwner;
      var inode := if s.sentinel.Some? then s.sentinel.value else s.nextInode;
      var tried := s.(sentinel := Some(inode), nextOwner := p + 1,
                      nextInode := if s.sentinel.Some? then s.nextInode else s.nextInode + 1);
      var taken := tried.(record := Some(p), disturbed := DisturbedBy(s, p),
                          attempts := s.attempts[p := Attempt(inode, Held)]);
      && Acquired(s) == (if !s.enforced then taken
                         else if inode in s.locks then tried
                         else taken.(locks := s.locks[inode := p]))
      && (inode in s.locks ==> s.sentinel.Some?)
  {
    hide DisturbedBy;
    var p := s.nextOwner;
    assert p !in s.attempts;
    var inode := if s.sentinel.Some? then s.sentinel.value else s.nextInode;
    assert s.attempts[p := Attempt(inode, Opened)] - {p} == s.attempts;
    var locked := Apply(Apply(s, Open), TryLock(p));
    if p in locked.attempts {
      assert locked.attempts == s.attempts[p := Attempt(inode, Locked)];
      RecordedIs(locked, p);
      SameDisturbed(s, locked, p);
      PutTwice(s.attempts, p, Attempt(inode, Locked), Attempt(inode, Held));
    }
  }

  lemma PutTwice(attempts: map<Owner, Attempt>, p: Owner, first: Attempt, second: Attempt)
    ensures attempts[p := first][p := second] == attempts[p := second]
  {
  }

  lemma SameDisturbed(s: State, t: State, p: Owner)
    requires s.disturbed == t.disturbed && t.attempts.Keys == s.attempts.Keys + {p}
    requires forall q :: q in s.attempts && q != p ==> s.attempts[q] == t.attempts[q]
    ensures DisturbedBy(s, p) == DisturbedBy(t, p)
  {
  }

  /** Truncating and writing the metadata file with nobody in between. */
  lemma RecordedIs(s: State, p: Owner)
    requires AtStage(s, p, Locked)
    ensures
      Apply(Apply(s, Truncate(p)), Record(p, true)) ==
        s.(record := Some(p), disturbed := DisturbedBy(s, p), attempts := s.attempts[p := s.attempts[p].(stage := Held)])
  {
    var truncated := Apply(s, Truncate(p));
    assert DisturbedBy(truncated, p) == DisturbedBy(s, p);
    assert truncated.attempts[p := s.attempts[p].(stage := Held)] == s.attempts[p := s.attempts[p].(stage := Held)];
  }

  lemma AcquiredKeeps(s: State)
    requires Inv(s)
    ensures Inv(Acquired(s))
  {
    var p := s.nextOwner;
    StepKeeps(s, Open);
    var tried := Apply(s, Open);
    StepKeeps(tried, TryLock(p));
    var locked := Apply(tried, TryLock(p));
    if p in locked.attempts {
      StepKeeps(locked, Truncate(p));
      StepKeeps(Apply(locked, Truncate(p)), Record(p, true));
    }
  }

  /** At any moment at most one lease's assertion succeeds, whatever happens to the files. */
  lemma OwnerIsUnique(s: State, p: Owner, q: Owner)
    requires Owned(s, p) && Owned(s, q)
    ensures p == q
  {
  }

  /** A lease no longer named: released, or overwritten after it was recorded. */
  predicate Lost(s: State, p: Owner) {
    && p < s.nextOwner && s.record != Some(p)
    && (p in s.attempts ==> s.attempts[p].stage == Held)
  }

  lemma LostStep(s: State, step: Step, p: Owner)
    requires Inv(s) && Enabled(s, step) && Lost(s, p)
    ensures Lost(Apply(s, step), p)
  {
  }

  /** An overwritten owner never succeeds again, for the rest of any run. */
  lemma {:induction false} LostForever(run: seq<State>, steps: seq<Step>, i: nat, j: nat, p: Owner)
    requires IsRun(run, steps) && Inv(run[0]) && i <= j < |run|
    requires HoldsLease(run[i], p) && !Owned(run[i], p)
    ensures !Owned(run[j], p) && Lost(run[j], p)
    decreases j
  {
    RunKeeps(run, steps, i);
    if i < j {
      LostForever(run, steps, i, j - 1, p);
      RunKeeps(run, steps, j - 1);
      LostStep(run[j - 1], steps[j - 1], p);
    }
  }

  // ---------- exclusion ----------

  ghost predicate KeepsSentinel(steps: seq<Step>) {
    forall i :: 0 <= i < |steps| ==> steps[i] != ReplaceSentinel
  }

  /** Everyone opened the one sentinel; past the lock, an attempt holds it, so that none
      disturbs another; and the record names the lease that is held. */
  ghost predicate Exclusive(s: State) {
    && s.enforced && Inv(s) && s.disturbed == {}
    && (s.attempts != map[] ==> s.sentinel.Some?)
    && (s.sentinel.None? ==> s.locks == map[])
    && (forall p :: p in s.attempts ==> s.attempts[p].inode == s.sentinel.value)
    && (forall inode :: inode in s.locks ==> s.sentinel == Some(inode))
    && (forall p :: p in s.attempts && s.attempts[p].stage != Opened ==>
          s.attempts[p].inode in s.locks && s.locks[s.attempts[p].inode] == p)
    && (forall p: Owner :: AtStage(s, p, Held) ==> s.record == Some(p))
  }

  /** Whoever may touch the metadata file is the only one past the lock. */
  lemma NobodyDisturbed(s: State, p: Owner)
    requires Exclusive(s) && p in s.attempts && s.attempts[p].stage != Opened
    ensures DisturbedBy(s, p) == {}
  {
    forall q | q in s.attempts && s.attempts[q].stage == Truncated
      ensures q == p
    {
      assert s.attempts[q].inode == s.attempts[p].inode;
    }
  }

  lemma ExclusiveStep(s: State, step: Step)
    requires Exclusive(s) && Enabled(s, step) && step != ReplaceSentinel
    ensures Exclusive(Apply(s, step))
  {
    StepKeeps(s, step);
    if step.Truncate? || step.Record? {
      NobodyDisturbed(s, step.p);
    }
  }

  lemma {:induction false} ExclusiveRun(run: seq<State>, steps: seq<Step>, n: nat)
    requires IsRun(run, steps) && KeepsSentinel(steps) && n < |run| && run[0] == Fresh(true)
    ensures Exclusive(run[n])
    decreases n
  {
    if n > 0 {
      ExclusiveRun(run, steps, n - 1);
      ExclusiveStep(run[n - 1], steps[n - 1]);
    }
  }

  /** While the kernel enforces the lock and nobody replaces the sentinel, at most one lease
      is held, and its assertion always succeeds. */
  lemma LeaseIsExclusive(run: seq<State>, steps: seq<Step>, n: nat, p: Owner, q: Owner)
    requires IsRun(run, steps) && KeepsSentinel(steps) && n < |run| && run[0] == Fresh(true)
    requires HoldsLease(run[n], p)
    ensures Owned(run[n], p)
    ensures HoldsLease(run[n], q) ==> p == q
  {
    ExclusiveRun(run, steps, n);
  }

  /** Either hypothesis can fail the exclusion: with the sentinel replaced, or without
      enforcement, a second owner acquires while the first still holds its lease.  Only the
      second one's assertion succeeds. */
  lemma TwoLeases(enforced: bool)
    ensures
      var first := Acquired(Fresh(enforced));
      var between := if enforced then Apply(first, ReplaceSentinel) else first;
      var second := Acquired(between);
      HoldsLease(second, 0) && HoldsLease(second, 1) && !Owned(second, 0) && Owned(second, 1)
  {
    var first := Acquired(Fresh(enforced));
    assert first.attempts == map[0 := Attempt(0, Held)] && first.record == Some(0) && first.sentinel == Some(0);
    assert first.nextOwner == 1 && first.nextInode == 1;
    assert first.locks == if enforced then map[0 := 0] else map[];
  }
}
