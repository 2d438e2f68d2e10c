/** Shard directories: where a record lies, and resharding that may stop at any move. */
module Shards {
  import opened Common

  type Id = string

  const MIN_SHARD_WIDTH := 1
  const MAX_SHARD_WIDTH := 4
  const PREVIOUS_DEFAULT_SHARD_WIDTH := 2

  predicate ValidWidth(width: nat) {
    MIN_SHARD_WIDTH <= width <= MAX_SHARD_WIDTH
  }

  // ---------- deriving a shard ----------

  /** The identifier up to its first `-`. */
  function Creation(id: Id): string {
    if id == "" || id[0] == '-' then "" else [id[0]] + Creation(id[1..])
  }

  function Zeros(n: nat): string {
    seq(n, _ => '0')
  }

  /** The last `width` characters of the creation segment, padded with zeros. */
  function ShardOf(id: Id, width: nat): string {
    var created := Creation(id);
    if |created| >= width then created[|created| - width..] else Zeros(width - |created|) + created
  }

  /** The superseded layout: the first two characters. */
  function LegacyShardOf(id: Id): string {
    var created := Creation(id);
    if |created| >= 2 then created[..2] else created
  }

  lemma {:induction false} CreationKept(id: Id, rest: string)
    ensures Creation(id + "-" + rest) == Creation(id)
    decreases |id|
  {
    if id == "" {
      assert (id + "-" + rest)[0] == '-';
    } else {
      assert (id + "-" + rest)[1..] == id[1..] + "-" + rest;
      CreationKept(id[1..], rest);
    }
  }

  /** A lifecycle segment added by an update or a deletion moves a record nowhere. */
  lemma LifecycleKeepsShards(id: Id, segment: string, width: nat, previous: seq<nat>)
    ensures ShardOf(id + "-" + segment, width) == ShardOf(id, width)
    ensures forall engine ::
      Candidates(id + "-" + segment, width, previous, engine) == Candidates(id, width, previous, engine)
  {
    CreationKept(id, segment);
    var other := id + "-" + segment;
    assert forall w :: ShardOf(other, w) == ShardOf(id, w);
    assert ShardsOf(other, [width] + previous) == ShardsOf(id, [width] + previous);
    assert forall engine :: Fallbacks(other, engine) == Fallbacks(id, engine);
  }

  // ---------- candidates ----------

  function PushNew(list: seq<string>, item: string): seq<string> {
    if item in list then list else list + [item]
  }

  function PushAll(list: seq<string>, items: seq<string>): seq<string>
    decreases |items|
  {
    if items == [] then list else PushAll(PushNew(list, items[0]), items[1..])
  }

  function ShardsOf(id: Id, widths: seq<nat>): seq<string> {
    seq(|widths|, i requires 0 <= i < |widths| => ShardOf(id, widths[i]))
  }

  /** The superseded layout; the engine also tries the width that was once the default. */
  function Fallbacks(id: Id, engine: bool): seq<string> {
    (if engine then [ShardOf(id, PREVIOUS_DEFAULT_SHARD_WIDTH)] else []) + [LegacyShardOf(id)]
  }

  /** Every directory a record may occupy, most likely first: the recorded width, those
      being left, and the fallbacks, of the engine or of the script core. */
  function Candidates(id: Id, width: nat, previous: seq<nat>, engine: bool): seq<string> {
    PushAll([], ShardsOf(id, [width] + previous) + Fallbacks(id, engine))
  }

  lemma {:induction false} PushAllContents(list: seq<string>, items: seq<string>)
    ensures forall c :: c in PushAll(list, items) <==> c in list || c in items
    ensures list <= PushAll(list, items)
    ensures Distinct(list) ==> Distinct(PushAll(list, items))
    decreases |items|
  {
    if items != [] {
      PushAllContents(PushNew(list, items[0]), items[1..]);
      assert forall c :: c in items <==> c == items[0] || c in items[1..];
    }
  }

  predicate Distinct(list: seq<string>) {
    forall i, j :: 0 <= i < j < |list| ==> list[i] != list[j]
  }

  /** A directory of one of the widths. */
  ghost predicate OfWidths(id: Id, widths: seq<nat>, c: string) {
    exists w :: w in widths && c == ShardOf(id, w)
  }

  lemma ShardsOfContents(id: Id, widths: seq<nat>, c: string)
    ensures c in ShardsOf(id, widths) <==> OfWidths(id, widths, c)
  {
    if c in ShardsOf(id, widths) {
      var i :| 0 <= i < |widths| && ShardsOf(id, widths)[i] == c;
      assert widths[i] in widths;
    }
    if OfWidths(id, widths, c) {
      var w :| w in widths && c == ShardOf(id, w);
      var i :| 0 <= i < |widths| && widths[i] == w;
      assert ShardsOf(id, widths)[i] == c;
    }
  }

  /** A directory of the recorded widths or of the superseded layout: tried by both lists. */
  ghost predicate Recorded(id: Id, width: nat, previous: seq<nat>, c: string) {
    OfWidths(id, [width] + previous, c) || c == LegacyShardOf(id)
  }

  /** No directory is tried twice, the canonical one is tried first, and those tried are
      exactly the ones of the recorded widths and the fallbacks. */
  lemma CandidatesAre(id: Id, width: nat, previous: seq<nat>, engine: bool)
    ensures
      var candidates := Candidates(id, width, previous, engine);
      && Distinct(candidates) && candidates != [] && candidates[0] == ShardOf(id, width)
      && forall c :: c in candidates <==>
           Recorded(id, width, previous, c) || (engine && c == ShardOf(id, PREVIOUS_DEFAULT_SHARD_WIDTH))
  {
    hide ShardOf, LegacyShardOf;
    var widths := [width] + previous;
    var shards := ShardsOf(id, widths);
    var items := shards + Fallbacks(id, engine);
    assert items[0] == ShardOf(id, width);
    PushAllContents([], items);
    PushAllContents([items[0]], items[1..]);
    assert PushNew([], items[0]) == [items[0]];
    forall c
      ensures c in items <==>
        Recorded(id, width, previous, c) || (engine && c == ShardOf(id, PREVIOUS_DEFAULT_SHARD_WIDTH))
    {
      ShardsOfContents(id, widths, c);
    }
  }

  method ShardCandidates(id: Id, width: nat, previous: seq<nat>, engine: bool) returns (candidates: seq<string>)
    ensures candidates == Candidates(id, width, previous, engine)
  {
    hide PushNew, ShardOf, LegacyShardOf;
    var widths := [width] + previous;
    ghost var all := ShardsOf(id, widths) + Fallbacks(id, engine);
    candidates := [];
    var i := 0;
    assert all[0..] == all;
    while i < |widths|
      invariant i <= |widths| && PushAll(candidates, all[i..]) == PushAll([], all)
    {
      var shard := ShardOf(id, widths[i]);
      assert all[i] == shard && all[i..][1..] == all[i + 1..];
      candidates := Push(candidates, shard);
      i := i + 1;
    }
    assert all[i..] == Fallbacks(id, engine);
    PushFallbacks(candidates, id, engine);
    if engine {
      candidates := Push(candidates, ShardOf(id, PREVIOUS_DEFAULT_SHARD_WIDTH));
    }
    candidates := Push(candidates, LegacyShardOf(id));
  }

  lemma PushFallbacks(list: seq<string>, id: Id, engine: bool)
    ensures PushAll(list, Fallbacks(id, engine)) ==
      PushNew(if engine then PushNew(list, ShardOf(id, PREVIOUS_DEFAULT_SHARD_WIDTH)) else list, LegacyShardOf(id))
  {
    hide PushNew, ShardOf, LegacyShardOf;
    var second, legacy := ShardOf(id, PREVIOUS_DEFAULT_SHARD_WIDTH), LegacyShardOf(id);
    if engine {
      assert Fallbacks(id, engine) == [second, legacy];
      PushTwo(list, second, legacy);
    } else {
      assert Fallbacks(id, engine) == [legacy] && [legacy][1..] == [];
      assert PushAll(list, [legacy]) == PushAll(PushNew(list, legacy), []);
    }
  }

  lemma PushTwo(list: seq<string>, a: string, b: string)
    ensures PushAll(list, [a, b]) == PushNew(PushNew(list, a), b)
  {
    var one := PushNew(list, a);
    assert [a, b][1..] == [b] && [b][1..] == [];
    assert PushAll(list, [a, b]) == PushAll(one, [b]);
    assert PushAll(one, [b]) == PushAll(PushNew(one, b), []);
  }

  method Push(list: seq<string>, item: string) returns (pushed: seq<string>)
    ensures pushed == PushNew(list, item)
  {
    pushed := list;
    if item !in list {
      pushed := pushed + [item];
    }
  }

  // ---------- a collection being resharded ----------

  /** `records` says where each record's one file lies, `dirs` which shard directories
      exist; `saved` is the journal of an open transaction. */
  datatype State = State(
    width: nat,
    previous: seq<nat>,
    records: map<Id, string>,
    dirs: set<string>,
    saved: Option<map<Id, string>>)

  datatype Step =
    | Announce(width: nat)     // record the destination and the widths left
    | Open                     // begin the transaction
    | Rename(id: Id)           // one record's rename
    | Prune(dir: string)       // drop an emptied directory
    | Commit
    | Forget                   // a completed reshard leaves no width behind
    | Withdraw(id: Id)         // recovery removes a renamed record from its new directory
    | Reinstate(id: Id)        // recovery copies its before-image back
    | Recover                  // everything is back: close the transaction
    | Create(id: Id)

  function Without(widths: seq<nat>, width: nat): seq<nat> {
    if widths == [] then []
    else (if widths[0] == width then [] else [widths[0]]) + Without(widths[1..], width)
  }

  lemma {:induction false} WithoutContents(widths: seq<nat>, width: nat)
    ensures forall w :: w in Without(widths, width) <==> w in widths && w != width
    decreases |widths|
  {
    if widths != [] {
      WithoutContents(widths[1..], width);
      assert forall w :: w in widths <==> w == widths[0] || w in widths[1..];
    }
  }

  function Leaving(s: State, width: nat): seq<nat> {
    Without(if s.width != width && s.width !in s.previous then s.previous + [s.width] else s.previous, width)
  }

  function RolledBack(s: State): State {
    if s.saved.Some? then s.(records := s.saved.value, dirs := s.dirs + s.saved.value.Values, saved := None) else s
  }

  function Canonical(s: State, id: Id): string {
    ShardOf(id, s.width)
  }

  predicate AllMoved(s: State) {
    forall id :: id in s.records ==> s.records[id] == Canonical(s, id)
  }

  predicate Enabled(s: State, step: Step) {
    match step
    case Announce(width) => ValidWidth(width) && s.saved.None?
    case Open => s.saved.None?
    case Rename(id) => s.saved.Some? && id in s.records
    case Prune(dir) => dir !in s.records.Values
    case Commit => s.saved.Some? && s.records.Keys == s.saved.value.Keys && AllMoved(s)
    case Forget => s.saved.None? && AllMoved(s)
    case Withdraw(id) =>
      s.saved.Some? && id in s.records && id in s.saved.value && s.records[id] != s.saved.value[id]
    case Reinstate(id) => s.saved.Some? && id in s.saved.value && id !in s.records
    case Recover => s.saved.Some? && s.records == s.saved.value
    case Create(id) => s.saved.None? && id !in s.records
  }

  function Put(s: State, id: Id): State {
    s.(records := s.records[id := Canonical(s, id)], dirs := s.dirs + {Canonical(s, id)})
  }

  function Apply(s: State, step: Step): State
    requires Enabled(s, step)
  {
    match step
    case Announce(width) => s.(width := width, previous := Leaving(s, width))
    case Open => s.(saved := Some(s.records))
    case Rename(id) => Put(s, id)
    case Prune(dir) => s.(dirs := s.dirs - {dir})
    case Commit => s.(saved := None)
    case Forget => s.(previous := [])
    case Withdraw(id) => s.(records := s.records - {id})
    case Reinstate(id) =>
      s.(records := s.records[id := s.saved.value[id]], dirs := s.dirs + {s.saved.value[id]})
    case Recover => s.(saved := None)
    case Create(id) => Put(s, id)
  }

  ghost predicate Placed(s: State, records: map<Id, string>) {
    forall id :: id in records ==> Recorded(id, s.width, s.previous, records[id])
  }

  /** Every record lies in an existing directory among its candidates, and so would it
      after a rollback, which loses none. */
  ghost predicate Inv(s: State) {
    && ValidWidth(s.width) && Placed(s, s.records) && s.records.Values <= s.dirs
    && (s.saved.Some? ==> s.records.Keys <= s.saved.value.Keys && Placed(s, s.saved.value))
  }

  /** The widths left and the new one cover the old ones. */
  lemma LeavingCovers(s: State, width: nat, id: Id, c: string)
    requires Recorded(id, s.width, s.previous, c)
    ensures Recorded(id, width, Leaving(s, width), c)
  {
    hide ShardOf, LegacyShardOf;
    var left := if s.width != width && s.width !in s.previous then s.previous + [s.width] else s.previous;
    WithoutContents(left, width);
    assert forall w :: w in [s.width] + s.previous ==> w in [width] + Leaving(s, width);
  }

  lemma AnnounceKeeps(s: State, width: nat, records: map<Id, string>)
    requires Placed(s, records)
    ensures Placed(s.(width := width, previous := Leaving(s, width)), records)
  {
    hide Recorded, Leaving;
    forall id | id in records
      ensures Recorded(id, width, Leaving(s, width), records[id])
    {
      LeavingCovers(s, width, id, records[id]);
    }
  }

  lemma CanonicalIsCandidate(s: State, id: Id)
    ensures Recorded(id, s.width, s.previous, Canonical(s, id))
  {
    assert s.width in [s.width] + s.previous;
  }

  lemma PutKeeps(s: State, id: Id)
    requires Inv(s) && (id in s.records || s.saved.None?)
    ensures Inv(Put(s, id))
  {
    hide Recorded, Canonical;
    CanonicalIsCandidate(s, id);
    assert Put(s, id).records.Keys == s.records.Keys + {id};
  }

  lemma SameWidth(s: State, t: State, id: Id)
    requires s.width == t.width
    ensures Canonical(s, id) == Canonical(t, id)
  {
  }

  lemma StepKeeps(s: State, step: Step)
    requires Inv(s) && Enabled(s, step)
    ensures Inv(Apply(s, step))
  {
    hide Recorded, Canonical, Leaving;
    match step
    case Announce(width) => AnnounceKeeps(s, width, s.records);
    case Rename(id) => PutKeeps(s, id);
    case Create(id) => PutKeeps(s, id);
    case Forget =>
      var after := Apply(s, step);
      forall id | id in after.records
        ensures Recorded(id, after.width, after.previous, after.records[id])
      {
        CanonicalIsCandidate(after, id);
        assert after.records[id] == Canonical(s, id) == Canonical(after, id) by {
          SameWidth(s, after, id);
        }
      }
    case _ =>
  }

  /** Every record there is, in a directory or in the journal. */
  function Ids(s: State): set<Id> {
    s.records.Keys + if s.saved.Some? then s.saved.value.Keys else {}
  }

  /** No step loses a record; only a creation adds one. */
  lemma StepConserves(s: State, step: Step)
    requires Inv(s) && Enabled(s, step)
    ensures Ids(Apply(s, step)) == Ids(s) + if step.Create? then {step.id} else {}
  {
    hide Recorded, Canonical, Leaving;
    var after := Apply(s, step);
    if step.Rename? || step.Create? {
      assert after.records.Keys == s.records.Keys + {step.id};
    }
  }

  /** The states of a run: each step enabled where it is taken. */
  ghost predicate IsRun(run: seq<State>, steps: seq<Step>) {
    && |run| == |steps| + 1
    && forall i :: 0 <= i < |steps| ==> Enabled(run[i], steps[i]) && run[i + 1] == Apply(run[i], steps[i])
  }

  lemma {:induction false} RunKeeps(run: seq<State>, steps: seq<Step>, n: nat)
    requires IsRun(run, steps) && n < |run| && Inv(run[0])
    ensures Inv(run[n])
    decreases n
  {
    if n > 0 {
      RunKeeps(run, steps, n - 1);
      StepKeeps(run[n - 1], steps[n - 1]);
    }
  }

  // ---------- the reshard itself ----------

  datatype Progress = Unsupported | NothingToDo | Interrupted | Moved(count: nat)

  class Collection {
    var width: nat
    var previous: seq<nat>
    var records: map<Id, string>
    var dirs: set<string>
    var saved: Option<map<Id, string>>

    constructor (s: State)
      ensures Current() == s
    {
      width, previous, records, dirs, saved := s.width, s.previous, s.records, s.dirs, s.saved;
    }

    function Current(): State reads this {
      State(width, previous, records, dirs, saved)
    }

    /** One record's before-images, the later one first. */
    method RestoreRecord(id: Id)
      requires Inv(Current()) && saved.Some? && id in saved.value
      modifies this`records, this`dirs
      ensures Inv(Current())
      ensures records == old(records)[id := saved.value[id]]
      ensures old(dirs) <= dirs <= old(dirs) + {saved.value[id]} && saved.value[id] in dirs
    {
      hide Recorded;
      if id in records && records[id] != saved.value[id] {
        StepKeeps(Current(), Withdraw(id));
        records := records - {id};
      }
      if id !in records {
        StepKeeps(Current(), Reinstate(id));
        dirs := dirs + {saved.value[id]};
        records := records[id := saved.value[id]];
      } else {
        assert records[id] in records.Values;
      }
    }

    /** Put every record of an interrupted transaction back, one after the other. */
    method RecoverLocked()
      requires Inv(Current())
      modifies this`records, this`dirs, this`saved
      ensures Inv(Current()) && Current() == RolledBack(old(Current()))
    {
      hide Recorded;
      if saved.None? {
        return;
      }
      ghost var before, images := Current(), saved.value;
      var rest := saved.value.Keys;
      while rest != {}
        invariant Inv(Current()) && saved == Some(images) && rest <= images.Keys
        invariant forall id :: id in images && id !in rest ==>
          id in records && records[id] == images[id] && images[id] in dirs
        invariant before.dirs <= dirs <= before.dirs + images.Values
        decreases rest
      {
        var id :| id in rest;
        assert images[id] in images.Values;
        RestoreRecord(id);
        rest := rest - {id};
      }
      assert records == images;
      assert dirs == before.dirs + images.Values;
      StepKeeps(Current(), Recover);
      saved := None;
    }

    /** `reshard_collection`, cut off after `budget` renames. */
    method ReshardCollection(target: nat, budget: nat) returns (progress: Progress)
      requires Inv(Current())
      modifies this
      ensures Inv(Current())
      ensures progress.Unsupported? <==> !ValidWidth(target)
      ensures progress.NothingToDo? <==> ValidWidth(target) && old(width) == target && old(previous) == []
      ensures progress.Unsupported? || progress.NothingToDo? ==> Current() == old(Current())
      ensures progress.Moved? || progress.Interrupted? ==>
        width == target && records.Keys == RolledBack(old(Current())).records.Keys
      // A finished run has moved every record home and remembers no other width.
      ensures progress.Moved? ==>
        previous == [] && saved.None? && AllMoved(Current()) && progress.count <= budget
      // An interrupted one has moved some, can be undone, and records what it leaves.
      ensures progress.Interrupted? ==>
        var was := RolledBack(old(Current()));
        && previous == Leaving(was, target) && saved == Some(was.records) && !AllMoved(Current())
        && forall id :: id in records ==> records[id] == was.records[id] || records[id] == ShardOf(id, target)
    {
      hide Recorded, Leaving, ShardOf, Inv, Apply;
      if !ValidWidth(target) {
        return Unsupported;
      }
      if width == target && previous == [] {
        return NothingToDo;
      }
      BeginReshard(target);
      ghost var was := RolledBack(old(Current()));
      var moved := 0;
      var pending := set id | id in records && records[id] != ShardOf(id, target);
      while pending != {}
        invariant Inv(Current()) && width == target && previous == Leaving(was, target)
        invariant saved == Some(was.records) && records.Keys == was.records.Keys
        invariant pending == set id | id in records && records[id] != ShardOf(id, target)
        invariant forall id :: id in records ==>
          records[id] == was.records[id] || records[id] == ShardOf(id, target)
        invariant moved <= budget
        decreases pending
      {
        var id :| id in pending;
        if moved == budget {
          return Interrupted;
        }
        MoveRecord(id);
        pending := pending - {id};
        moved := moved + 1;
      }
      assert AllMoved(Current()) by {
        assert forall id :: id in records ==> id !in pending;
      }
      FinishReshard();
      return Moved(moved);
    }

    /** Recover, record the destination, open the transaction. */
    method BeginReshard(target: nat)
      requires Inv(Current()) && ValidWidth(target)
      modifies this
      ensures Inv(Current())
      ensures
        var was := RolledBack(old(Current()));
        Current() == State(target, Leaving(was, target), was.records, was.dirs, Some(was.records))
    {
      hide Recorded, Leaving;
      RecoverLocked();
      StepKeeps(Current(), Announce(target));
      previous := Leaving(Current(), target);
      width := target;
      StepKeeps(Current(), Open);
      saved := Some(records);
    }

    method MoveRecord(id: Id)
      requires Inv(Current()) && saved.Some? && id in records
      modifies this`records, this`dirs
      ensures Inv(Current())
      ensures records == old(records)[id := ShardOf(id, width)] && dirs == old(dirs) + {ShardOf(id, width)}
      ensures records.Keys == old(records.Keys)
    {
      hide Recorded, ShardOf;
      StepKeeps(Current(), Rename(id));
      dirs := dirs + {ShardOf(id, width)};
      records := records[id := ShardOf(id, width)];
    }

    /** Drop the emptied directories, commit, and forget the widths left. */
    method FinishReshard()
      requires Inv(Current()) && saved.Some? && AllMoved(Current())
      modifies this`dirs, this`saved, this`previous
      ensures Inv(Current()) && AllMoved(Current())
      ensures previous == [] && saved.None?
      ensures dirs == set dir | dir in old(dirs) && dir in records.Values
    {
      hide Recorded, ShardOf;
      dirs := set dir | dir in dirs && dir in records.Values;
      saved := None;
      StepKeeps(Current(), Forget);
      previous := [];
    }
  }

  // ---------- looking a record up ----------

  /** `existing_shard_path`: the first candidate that holds the file, else the canonical one. */
  function FirstHolding(s: State, id: Id, candidates: seq<string>): string {
    if candidates == [] then Canonical(s, id)
    else if id in s.records && s.records[id] == candidates[0] then candidates[0]
    else FirstHolding(s, id, candidates[1..])
  }

  function FindDocument(s: State, id: Id, engine: bool): string {
    FirstHolding(s, id, Candidates(id, s.width, s.previous, engine))
  }

  lemma DocumentFound(s: State, id: Id, engine: bool)
    requires Inv(s) && id in s.records
    ensures s.records[id] in Candidates(id, s.width, s.previous, engine)
    ensures FindDocument(s, id, engine) == s.records[id]
  {
    hide Candidates, Recorded;
    CandidatesAre(id, s.width, s.previous, engine);
    HoldingFound(s, id, Candidates(id, s.width, s.previous, engine));
  }

  lemma {:induction false} HoldingFound(s: State, id: Id, candidates: seq<string>)
    requires id in s.records && s.records[id] in candidates
    ensures FirstHolding(s, id, candidates) == s.records[id]
    decreases |candidates|
  {
    if s.records[id] != candidates[0] {
      assert s.records[id] in candidates[1..];
      HoldingFound(s, id, candidates[1..]);
    }
  }

  /** Over any sequence of reshards, each stopped after any rename, rolled back or resumed,
      perhaps towards another width, every record is found where it lies. */
  lemma AlwaysFound(run: seq<State>, steps: seq<Step>, n: nat, id: Id, engine: bool)
    requires IsRun(run, steps) && n < |run| && Inv(run[0]) && id in run[n].records
    ensures FindDocument(run[n], id, engine) == run[n].records[id]
    ensures run[n].records[id] in run[n].dirs
  {
    RunKeeps(run, steps, n);
    DocumentFound(run[n], id, engine);
    assert run[n].records[id] in run[n].records.Values;
  }

  /** At every moment of every run, inside recoveries too, a record of the collection either
      is found where it lies or is about to be put back, and then is found there. */
  lemma FoundOrReinstated(run: seq<State>, steps: seq<Step>, n: nat, id: Id, engine: bool)
    requires IsRun(run, steps) && n < |run| && Inv(run[0]) && id in Ids(run[n])
    ensures if id in run[n].records then FindDocument(run[n], id, engine) == run[n].records[id]
            else Enabled(run[n], Reinstate(id))
                 && FindDocument(Apply(run[n], Reinstate(id)), id, engine) == run[n].saved.value[id]
  {
    RunKeeps(run, steps, n);
    if id in run[n].records {
      DocumentFound(run[n], id, engine);
    } else {
      StepKeeps(run[n], Reinstate(id));
      DocumentFound(Apply(run[n], Reinstate(id)), id, engine);
    }
  }

  /** `find_raw_file_path`: the first candidate directory that exists is the only one
      searched. */
  function FirstExisting(s: State, id: Id, candidates: seq<string>): string {
    if candidates == [] then Canonical(s, id)
    else if candidates[0] in s.dirs then candidates[0]
    else FirstExisting(s, id, candidates[1..])
  }

  function FindRaw(s: State, id: Id): Option<string> {
    var dir := FirstExisting(s, id, Candidates(id, s.width, s.previous, true));
    if id in s.records && s.records[id] == dir then Some(dir) else None
  }

  /** Where a list first holds an item. */
  function Position(list: seq<string>, item: string): (n: nat)
    ensures n <= |list|
  {
    if list == [] || list[0] == item then 0 else 1 + Position(list[1..], item)
  }

  /** No directory listed before `item` exists. */
  predicate NoneBefore(list: seq<string>, item: string, dirs: set<string>) {
    forall k :: 0 <= k < Position(list, item) ==> list[k] !in dirs
  }

  lemma NoneBeforeNext(list: seq<string>, item: string, dirs: set<string>)
    requires list != [] && list[0] != item
    ensures NoneBefore(list, item, dirs) <==> list[0] !in dirs && NoneBefore(list[1..], item, dirs)
  {
    assert Position(list, item) == 1 + Position(list[1..], item);
    assert forall k :: 1 <= k < |list| ==> list[k] == list[1..][k - 1];
    assert forall k :: 0 <= k < |list| - 1 ==> list[1..][k] == list[k + 1];
  }

  lemma {:induction false} FirstExistingExactly(s: State, id: Id, candidates: seq<string>, dir: string)
    requires dir in candidates && dir in s.dirs
    ensures FirstExisting(s, id, candidates) == dir <==> NoneBefore(candidates, dir, s.dirs)
    decreases |candidates|
  {
    if candidates[0] != dir {
      assert dir in candidates[1..];
      FirstExistingExactly(s, id, candidates[1..], dir);
      NoneBeforeNext(candidates, dir, s.dirs);
    }
  }

  /** A raw file is found exactly when no directory tried before its own exists. */
  lemma RawFoundExactly(s: State, id: Id)
    requires Inv(s) && id in s.records
    ensures FindRaw(s, id).Some? <==>
      NoneBefore(Candidates(id, s.width, s.previous, true), s.records[id], s.dirs)
  {
    hide Candidates;
    assert s.records[id] in s.records.Values;
    DocumentFound(s, id, true);
    FirstExistingExactly(s, id, Candidates(id, s.width, s.previous, true), s.records[id]);
  }

  lemma CanonicalFirst(s: State, id: Id)
    requires id in s.records && Canonical(s, id) in s.dirs
    ensures FindRaw(s, id) == if s.records[id] == Canonical(s, id) then Some(s.records[id]) else None
  {
    hide Candidates, Recorded;
    CandidatesAre(id, s.width, s.previous, true);
  }

  /** A reshard of two raw files from width 3 to width 2, stopped after the first rename:
      the new directory exists, so the second file, still in its old one, is reported
      missing, although it can be found. */
  lemma InterruptedReshardHidesRawFile()
    ensures
      var start := State(3, [], map["X01" := "X01", "Y01" := "Y01"], {"X01", "Y01"}, None);
      var stopped := Apply(Apply(Apply(start, Announce(2)), Open), Rename("X01"));
      && Inv(start) && FindRaw(start, "Y01") == Some("Y01")
      && Enabled(start, Announce(2)) && Enabled(Apply(start, Announce(2)), Open)
      && Enabled(Apply(Apply(start, Announce(2)), Open), Rename("X01"))
      && (forall engine :: FindDocument(stopped, "Y01", engine) == "Y01") && FindRaw(stopped, "Y01") == None
  {
    hide Candidates, Recorded, ShardOf;
    var start := State(3, [], map["X01" := "X01", "Y01" := "Y01"], {"X01", "Y01"}, None);
    var begun := Apply(Apply(start, Announce(2)), Open);
    var stopped := Apply(begun, Rename("X01"));
    ExampleShards();
    forall id | id in start.records
      ensures Recorded(id, 3, [], start.records[id])
    {
      CanonicalIsCandidate(start, id);
    }
    StepKeeps(start, Announce(2));
    StepKeeps(Apply(start, Announce(2)), Open);
    StepKeeps(begun, Rename("X01"));
    CanonicalFirst(start, "Y01");
    CanonicalFirst(stopped, "Y01");
    DocumentFound(stopped, "Y01", true);
    DocumentFound(stopped, "Y01", false);
  }

  lemma ExampleShards()
    ensures ShardOf("X01", 2) == "01" == ShardOf("Y01", 2)
    ensures ShardOf("X01", 3) == "X01" && ShardOf("Y01", 3) == "Y01"
  {
    WholeCreation("X01");
    WholeCreation("Y01");
    assert "X01"[1..] == "01" == "Y01"[1..];
  }

  lemma {:induction false} WholeCreation(id: Id)
    requires '-' !in id
    ensures Creation(id) == id
    decreases |id|
  {
    if id != "" {
      WholeCreation(id[1..]);
    }
  }

  /** A completed reshard leaves every record in its canonical directory, where both
      lookups find it at once. */
  lemma CompletedIsCanonical(s: State, id: Id)
    requires Inv(s) && Enabled(s, Forget) && id in s.records
    ensures
      var after := Apply(s, Forget);
      && after.previous == [] && after.records[id] == ShardOf(id, after.width)
      && (forall engine :: FindDocument(after, id, engine) == ShardOf(id, after.width))
      && FindRaw(after, id) == Some(ShardOf(id, after.width))
  {
    hide Candidates, Recorded;
    var after := Apply(s, Forget);
    StepKeeps(s, Forget);
    DocumentFound(after, id, true);
    DocumentFound(after, id, false);
    assert after.records[id] in after.records.Values;
    CanonicalFirst(after, id);
  }
}
