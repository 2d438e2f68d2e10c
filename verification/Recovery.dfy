/** What a transaction leaves behind, whatever crashes and recoveries it goes through. */
module Recovery {
  import opened Common
  import opened Journal

  /** A system state with what the proofs remember of the transaction in progress:
      the records when it began, the records when its commit marker became durable, and
      whether it failed in process after that. */
  datatype Traced = Traced(sys: System, base: Records, target: Records, lateFailure: bool)

  predicate TracedNext(t: Traced, step: Step, t': Traced) {
    && Next(t.sys, step, t'.sys)
    && t'.base == (if step.Open? then t.sys.records else t.base)
    && t'.target == (if step.Mark? then t.sys.records else t.target)
    && t'.lateFailure == (!step.Open? && (t.lateFailure || (step.Fail? && t.sys.writer.Marked?)))
  }

  ghost predicate IsTracedRun(run: nat -> Traced, steps: nat -> Step) {
    && Quiet(run(0).sys)
    && forall i: nat :: TracedNext(run(i), steps(i), run(i + 1))
  }

  predicate DistinctKeys(captures: seq<Capture>) {
    forall i, j :: 0 <= i < j < |captures| ==> captures[i].key != captures[j].key
  }

  /** Captures hold the base value of their key; a key that is not captured is unchanged. */
  ghost predicate Covered(t: Traced) {
    && t.sys.manifest.Some?
    && var captures := t.sys.manifest.value.captures;
    && DistinctKeys(captures)
    && (forall i :: 0 <= i < |captures| ==> captures[i].before == Lookup(t.base, captures[i].key))
    && (forall key :: !Captured(captures, key) ==> Lookup(t.sys.records, key) == Lookup(t.base, key))
  }

  /** The captures from `left` on have been restored. */
  ghost predicate RestoredFrom(t: Traced, left: nat) {
    && t.sys.manifest.Some?
    && var captures := t.sys.manifest.value.captures;
    && left <= |captures|
    && forall i :: left <= i < |captures| ==>
         Lookup(t.sys.records, captures[i].key) == captures[i].before
  }

  ghost predicate Sound(t: Traced) {
    && Consistent(t.sys)
    && (t.sys.writer.Opening? ==> t.sys.records == t.base && !t.lateFailure)
    && (t.sys.writing ==>
          && Covered(t)
          && (t.sys.writer.Undoing? ==> RestoredFrom(t, t.sys.writer.left))
          && (t.sys.manifest.value.phase.Active? ==>
                && !t.sys.writer.Marked? && !t.lateFailure
                && (t.sys.writer.Recovering? ==> RestoredFrom(t, t.sys.writer.left)))
          && (t.sys.manifest.value.phase.Committed? ==>
                && (t.sys.writer.Recovering? ==> t.sys.writer.left == 0)
                && !t.sys.writer.Started? && !t.sys.writer.Editing?
                && (!t.lateFailure ==> t.sys.records == t.target && !t.sys.writer.Undoing?)))
  }

  lemma SameLookups(a: Records, b: Records)
    requires forall key :: Lookup(a, key) == Lookup(b, key)
    ensures a == b
  {
    forall key
      ensures key in a <==> key in b
      ensures key in a ==> a[key] == b[key]
    {
      assert Lookup(a, key) == Lookup(b, key);
    }
  }

  lemma CaptureStep(t: Traced, key: Key, t': Traced)
    requires Sound(t) && TracedNext(t, TakeCapture(key), t')
    ensures Covered(t')
  {
    var captures, captures' := t.sys.manifest.value.captures, t'.sys.manifest.value.captures;
    assert captures' == captures + [Capture(key, Lookup(t.sys.records, key))];
    forall k | Captured(captures, k)
      ensures Captured(captures', k)
    {
      var i :| 0 <= i < |captures| && captures[i].key == k;
      assert captures'[i].key == k;
    }
  }

  lemma RestoreStep(t: Traced, t': Traced)
    requires Sound(t) && TracedNext(t, Restore, t')
    requires t.sys.writer.Undoing? || t.sys.manifest.value.phase.Active?
    ensures Covered(t') && RestoredFrom(t', t.sys.writer.left - 1)
  {
    var captures := t.sys.manifest.value.captures;
    var c := captures[t.sys.writer.left - 1];
    forall key | !Captured(captures, key)
      ensures Lookup(t'.sys.records, key) == Lookup(t.sys.records, key)
    {
      assert key != c.key;
    }
  }

  lemma SoundPreserved(t: Traced, step: Step, t': Traced)
    requires Sound(t) && TracedNext(t, step, t')
    ensures Sound(t')
  {
    ConsistentPreserved(t.sys, step, t'.sys);
    match step
    case TakeCapture(key) => CaptureStep(t, key, t');
    case Restore =>
      if t.sys.writer.Undoing? || t.sys.manifest.value.phase.Active? {
        RestoreStep(t, t');
      }
    case Change(key, value) =>
      var captures := t.sys.manifest.value.captures;
      assert forall k :: !Captured(captures, k) ==> Lookup(t'.sys.records, k) == Lookup(t.sys.records, k);
    case _ =>
  }

  lemma {:induction false} SoundAlways(run: nat -> Traced, steps: nat -> Step, i: nat)
    requires IsTracedRun(run, steps)
    ensures Sound(run(i))
  {
    if i > 0 {
      SoundAlways(run, steps, i - 1);
      SoundPreserved(run(i - 1), steps(i - 1), run(i));
    }
  }

  /** Restoring every capture gives back exactly the records of the previous generation. */
  lemma FullyRestored(t: Traced)
    requires Covered(t) && RestoredFrom(t, 0)
    ensures t.sys.records == t.base
  {
    var captures := t.sys.manifest.value.captures;
    forall key
      ensures Lookup(t.sys.records, key) == Lookup(t.base, key)
    {
      if Captured(captures, key) {
        var i :| 0 <= i < |captures| && captures[i].key == key;
      }
    }
    SameLookups(t.sys.records, t.base);
  }

  predicate Publishes(step: Step) {
    step.PublishCommit? || step.PublishRestored? || step.Abandon?
  }

  /** Whatever crashes and interrupted recoveries happened, the generation that ends a
      transaction holds all of it when its commit marker was durable and none of it
      otherwise, unless the transaction failed in process after the marker. */
  lemma TransactionsAreAtomic(run: nat -> Traced, steps: nat -> Step, i: nat)
    requires IsTracedRun(run, steps)
    requires Publishes(steps(i)) && !run(i).lateFailure
    ensures !run(i + 1).sys.writing
    ensures run(i + 1).sys.records ==
            if run(i).sys.manifest.value.phase.Committed? then run(i).target else run(i).base
  {
    SoundAlways(run, steps, i);
    var t := run(i);
    assert TracedNext(t, steps(i), run(i + 1));
    if t.sys.manifest.value.phase.Active? {
      match steps(i)
      case Abandon =>
        assert RestoredFrom(t, 0);
        FullyRestored(t);
      case PublishRestored => FullyRestored(t);
      case PublishCommit =>
    }
  }

  // ---------- failing after the commit marker ----------

  ghost predicate IsPath(states: seq<System>, steps: seq<Step>) {
    && |states| == |steps| + 1
    && forall i :: 0 <= i < |steps| ==> Next(states[i], steps[i], states[i + 1])
  }

  lemma Extend(states: seq<System>, steps: seq<Step>, step: Step)
    returns (states': seq<System>, steps': seq<Step>)
    requires IsPath(states, steps) && Enabled(states[|steps|], step)
    ensures IsPath(states', steps') && steps' == steps + [step]
    ensures states'[0] == states[0] && states'[|steps'|] == Apply(states[|steps|], step)
  {
    steps' := steps + [step];
    states' := states + [Apply(states[|steps|], step)];
  }

  /** Records after the captures from `left` on have been written back over `records`. */
  function WrittenBack(records: Records, captures: seq<Capture>, left: nat): Records
    requires left <= |captures|
    decreases |captures| - left
  {
    if left == |captures| then records
    else Store(WrittenBack(records, captures, left + 1), captures[left].key, captures[left].before)
  }

  lemma {:induction false} WrittenBackAt(records: Records, captures: seq<Capture>, left: nat, key: Key)
    requires left <= |captures| && DistinctKeys(captures)
    ensures !Captured(captures[left..], key) ==> Lookup(WrittenBack(records, captures, left), key) == Lookup(records, key)
    ensures forall i :: left <= i < |captures| ==>
      Lookup(WrittenBack(records, captures, left), captures[i].key) == captures[i].before
    decreases |captures| - left
  {
    if left < |captures| {
      WrittenBackAt(records, captures, left + 1, key);
      if Captured(captures[left + 1..], key) {
        var i :| 0 <= i < |captures[left + 1..]| && captures[left + 1..][i].key == key;
        assert captures[left..][i + 1].key == key;
      }
      assert captures[left..][0].key == captures[left].key;
    }
  }

  /** A path on which nothing is published yet. */
  ghost predicate IsPending(states: seq<System>, steps: seq<Step>) {
    IsPath(states, steps) && forall i :: 0 <= i < |steps| ==> !Publishes(steps[i])
  }

  lemma {:induction false} UndoPath(states: seq<System>, steps: seq<Step>, n: nat)
    returns (states': seq<System>, steps': seq<Step>)
    requires IsPending(states, steps)
    requires
      var s := states[|steps|];
      s.manifest.Some? && s.writer.Undoing? && n <= s.writer.left == |s.manifest.value.captures|
    ensures IsPending(states', steps') && states'[0] == states[0]
    ensures
      var s, s' := states[|steps|], states'[|steps'|];
      s' == s.(writer := Undoing(n), records := WrittenBack(s.records, s.manifest.value.captures, n))
    decreases |states[|steps|].manifest.value.captures| - n
  {
    var s := states[|steps|];
    if n == |s.manifest.value.captures| {
      states', steps' := states, steps;
    } else {
      var states1, steps1 := UndoPath(states, steps, n + 1);
      states', steps' := Extend(states1, steps1, Restore);
    }
  }

  /** A path that ends with the publication that ends the transaction of its first state. */
  ghost predicate Ends(states: seq<System>, steps: seq<Step>) {
    && IsPath(states, steps) && steps != [] && Publishes(steps[|steps| - 1])
    && forall i :: 0 <= i < |steps| - 1 ==> !Publishes(steps[i])
  }

  /** The captured record at `i` was changed by the transaction. */
  predicate Changed(t: Traced, i: nat)
    requires t.sys.manifest.Some? && i < |t.sys.manifest.value.captures|
  {
    var key := t.sys.manifest.value.captures[i].key;
    Lookup(t.base, key) != Lookup(t.target, key)
  }

  /** A failure after the durable commit marker makes the same process write the
      before-images back; a crash after any number of them leaves recovery to roll the
      rest forward.  So for every split point `n` there is a continuation that publishes
      the before-images of `captures[n..]` next to the new values of `captures[..n]`,
      although the marker says the transaction committed: neither all of it nor none of
      it exactly when something changed on both sides of the split. */
  lemma LateFailureTears(t: Traced, n: nat)
    returns (states: seq<System>, steps: seq<Step>)
    requires Sound(t) && t.sys.writer.Marked? && !t.lateFailure
    requires n <= |t.sys.manifest.value.captures|
    ensures Ends(states, steps) && states[0] == t.sys
    ensures
      var published, captures := states[|steps|], t.sys.manifest.value.captures;
      && !published.writing && published.manifest.Some? && published.manifest.value.phase.Committed?
      && (forall i :: 0 <= i < n ==>
            Lookup(published.records, captures[i].key) == Lookup(t.target, captures[i].key))
      && (forall i :: n <= i < |captures| ==>
            Lookup(published.records, captures[i].key) == Lookup(t.base, captures[i].key))
      && (published.records != t.base <==> exists i :: 0 <= i < n && Changed(t, i))
      && (published.records != t.target <==> exists i :: n <= i < |captures| && Changed(t, i))
  {
    var captures := t.sys.manifest.value.captures;
    states, steps := TornPath(t, n);
    var records := states[|steps|].records;
    WrittenBackAt(t.target, captures, n, "");
    forall i | 0 <= i < n
      ensures Lookup(records, captures[i].key) == Lookup(t.target, captures[i].key)
    {
      assert !Captured(captures[n..], captures[i].key);
      WrittenBackAt(t.target, captures, n, captures[i].key);
    }
    forall key | !Captured(captures, key)
      ensures Lookup(records, key) == Lookup(t.base, key) == Lookup(t.target, key)
    {
      assert !Captured(captures[n..], key);
      WrittenBackAt(t.target, captures, n, key);
    }
    SplitDiffers(t, n, records);
  }

  lemma TornPath(t: Traced, n: nat) returns (states: seq<System>, steps: seq<Step>)
    requires Sound(t) && t.sys.writer.Marked? && !t.lateFailure
    requires n <= |t.sys.manifest.value.captures|
    ensures Ends(states, steps) && states[0] == t.sys
    ensures
      var published := states[|steps|];
      && !published.writing && published.manifest.Some? && published.manifest.value.phase.Committed?
      && published.records == WrittenBack(t.target, t.sys.manifest.value.captures, n)
  {
    states, steps := Extend([t.sys], [], Fail);
    states, steps := UndoPath(states, steps, n);
    states, steps := Extend(states, steps, Crash);
    states, steps := Extend(states, steps, Recover);
    states, steps := Extend(states, steps, PublishRestored);
  }

  /** Records split at `n` are the base or the target as far as nothing changed on one side. */
  lemma SplitDiffers(t: Traced, n: nat, records: Records)
    requires t.sys.manifest.Some? && n <= |t.sys.manifest.value.captures|
    requires
      var captures := t.sys.manifest.value.captures;
      && (forall i :: 0 <= i < n ==> Lookup(records, captures[i].key) == Lookup(t.target, captures[i].key))
      && (forall i :: n <= i < |captures| ==> Lookup(records, captures[i].key) == Lookup(t.base, captures[i].key))
      && (forall key :: !Captured(captures, key) ==> Lookup(records, key) == Lookup(t.base, key) == Lookup(t.target, key))
    ensures records != t.base <==> exists i :: 0 <= i < n && Changed(t, i)
    ensures records != t.target <==> exists i :: n <= i < |t.sys.manifest.value.captures| && Changed(t, i)
  {
    var captures := t.sys.manifest.value.captures;
    if forall i :: 0 <= i < n ==> !Changed(t, i) {
      forall key
        ensures Lookup(records, key) == Lookup(t.base, key)
      {
        if Captured(captures, key) {
          var i :| 0 <= i < |captures| && captures[i].key == key;
          assert i < n ==> !Changed(t, i);
        }
      }
      SameLookups(records, t.base);
    }
    if forall i :: n <= i < |captures| ==> !Changed(t, i) {
      forall key
        ensures Lookup(records, key) == Lookup(t.target, key)
      {
        if Captured(captures, key) {
          var i :| 0 <= i < |captures| && captures[i].key == key;
          assert n <= i ==> !Changed(t, i);
        }
      }
      SameLookups(records, t.target);
    }
  }

  // ---------- exactly when a late failure is harmless ----------

  predicate AtMostOneChanged(t: Traced)
    requires t.sys.manifest.Some?
  {
    forall i, j :: 0 <= i < j < |t.sys.manifest.value.captures| ==> !(Changed(t, i) && Changed(t, j))
  }

  /** The transaction of `t` is still under its commit marker, and every record has its
      value from before it or from its end. */
  ghost predicate Pending(t: Traced, s: System) {
    && s.writing && s.manifest == t.sys.manifest && s.manifest.Some? && s.manifest.value.phase.Committed?
    && (s.writer.Marked? || s.writer.NoWriter? || s.writer.Undoing? || s.writer.Recovering?)
    && forall key :: Lookup(s.records, key) == Lookup(t.base, key) || Lookup(s.records, key) == Lookup(t.target, key)
  }

  lemma PendingStep(t: Traced, s: System, step: Step, s': System)
    requires Covered(t) && Pending(t, s) && Next(s, step, s')
    ensures if Publishes(step) then s'.records == s.records else Pending(t, s')
  {
    if step.Restore? {
      var c := s.manifest.value.captures[s.writer.left - 1];
      forall key
        ensures Lookup(s'.records, key) == Lookup(t.base, key) || Lookup(s'.records, key) == Lookup(t.target, key)
      {
        assert key != c.key ==> Lookup(s'.records, key) == Lookup(s.records, key);
      }
    }
  }

  lemma {:induction false} PendingUntil(t: Traced, states: seq<System>, steps: seq<Step>, n: nat)
    requires Ends(states, steps) && n < |steps| && Covered(t) && Pending(t, states[0])
    ensures Pending(t, states[n])
  {
    if n > 0 {
      PendingUntil(t, states, steps, n - 1);
      PendingStep(t, states[n - 1], steps[n - 1], states[n]);
    }
  }

  /** Records mixed from both sides are one of the two when at most one record changed. */
  lemma MixedIsOneSide(t: Traced, records: Records)
    requires Covered(t) && AtMostOneChanged(t) && t.sys.records == t.target
    requires forall key :: Lookup(records, key) == Lookup(t.base, key) || Lookup(records, key) == Lookup(t.target, key)
    ensures records == t.base || records == t.target
  {
    var captures := t.sys.manifest.value.captures;
    if key :| Lookup(records, key) != Lookup(t.base, key) {
      assert Captured(captures, key);
      var i :| 0 <= i < |captures| && captures[i].key == key;
      assert Changed(t, i);
      forall k
        ensures Lookup(records, k) == Lookup(t.target, k)
      {
        if k != key && Captured(captures, k) {
          var j :| 0 <= j < |captures| && captures[j].key == k;
          assert !Changed(t, j);
        }
      }
      SameLookups(records, t.target);
    } else {
      SameLookups(records, t.base);
    }
  }

  /** From a durable commit marker every continuation publishes all of the transaction or
      none of it exactly when the transaction changed at most one record. */
  lemma AtomicFromMarkerExactly(t: Traced)
    requires Sound(t) && t.sys.writer.Marked? && !t.lateFailure
    ensures
      (forall states: seq<System>, steps: seq<Step> :: Ends(states, steps) && states[0] == t.sys ==>
         states[|steps|].records == t.base || states[|steps|].records == t.target)
      <==> AtMostOneChanged(t)
  {
    if AtMostOneChanged(t) {
      forall states: seq<System>, steps: seq<Step> | Ends(states, steps) && states[0] == t.sys
        ensures states[|steps|].records == t.base || states[|steps|].records == t.target
      {
        var last := |steps| - 1;
        PendingUntil(t, states, steps, last);
        PendingStep(t, states[last], steps[last], states[last + 1]);
        MixedIsOneSide(t, states[|steps|].records);
      }
    } else {
      var i, j :| 0 <= i < j < |t.sys.manifest.value.captures| && Changed(t, i) && Changed(t, j);
      var states, steps := LateFailureTears(t, j);
    }
  }
}
