/** The overlay against a plain file system on every operation, allowed or not: exactly when
    a step shows what a plain file system would show. */
module OverlayExact {
  import opened Common
  import opened Overlay

  // ---------- what the layer refuses ----------

  lemma {:induction false} PrefixesRefused(tree: Tree, parent: Path, k: nat, j: nat)
    requires ValidTree(tree) && k < j <= |parent| && parent[..j] in tree.files
    ensures AddPrefixes(tree, parent, k) == (tree.dirs, false)
    decreases |parent| - k
  {
    hide ValidTree;
    var cursor := parent[..k + 1];
    if cursor !in tree.files {
      AboveAreDirs(tree, parent[..j], k + 1);
      assert parent[..j][..k + 1] == cursor;
      assert tree.dirs + {cursor} == tree.dirs;
      assert tree.(dirs := tree.dirs + {cursor}) == tree;
      PrefixesRefused(tree, parent, k + 1, j);
    }
  }

  /** Where there is no room a put fails and changes nothing. */
  lemma PutRefused(tree: Tree, path: Path, data: Bytes)
    requires ValidTree(tree) && !Free(tree, path)
    ensures PutFile(tree, path, data).error.Some? && PutFile(tree, path, data).tree == tree
  {
    if path !in tree.dirs {
      var k :| 0 <= k < |path| && path[..k] in tree.files;
      var parent := Parent(path);
      assert parent[..k] == path[..k];
      if parent in tree.files {
      } else {
        assert k < |parent|;
        if parent in tree.dirs {
          AboveAreDirs(tree, parent, k);
        } else {
          assert k > 0;
          PrefixesRefused(tree, parent, 0, k);
        }
      }
    }
  }

  /** A path the overlay forgets to be removed, so that the base's file shows again. */
  predicate Reappears(base: Tree, s: State, path: Path) {
    path in s.removed && path in base.files
  }

  /** What a write, refused or not, does where a plain file system has no room. */
  lemma BlockedWrite(base: Tree, s: State, path: Path, data: Bytes)
    requires Inv(base, s) && !Free(View(base, s), path)
    ensures
      var out := Write(s, path, data);
      && (out.error.Some? <==> !Free(s.layer, path))
      && (View(base, out.s) == View(base, s) <==> !Free(s.layer, path) && !Reappears(base, s, path))
      && (View(base, out.s) == View(base, s) ==> Inv(base, out.s))
  {
    var out := Write(s, path, data);
    NotVisible(base, s, path);
    if Free(s.layer, path) {
      PutAtFree(s.layer, path, data);
      assert path in View(base, out.s).files;
    } else {
      PutRefused(s.layer, path, data);
      assert out.s == State(s.layer, s.removed - {path});
      Unmarked(base, s, path);
    }
  }

  /** Where there is no room, no file is visible. */
  lemma NotVisible(base: Tree, s: State, path: Path)
    requires Inv(base, s) && !Free(View(base, s), path)
    ensures path !in Files(base, s)
  {
    if path in Files(base, s) {
      FilesAreFree(View(base, s), path);
    }
  }

  lemma Unmarked(base: Tree, s: State, path: Path)
    requires Inv(base, s) && path !in Files(base, s)
    ensures
      var after := State(s.layer, s.removed - {path});
      && (View(base, after) == View(base, s) <==> !Reappears(base, s, path))
      && (!Reappears(base, s, path) ==> Inv(base, after))
  {
    var after := State(s.layer, s.removed - {path});
    SameDirs(base.dirs, s.removed, path);
    if Reappears(base, s, path) {
      assert path in Files(base, after);
    } else {
      SameFiles(base, s, path);
    }
  }

  lemma SameDirs(dirs: set<Path>, removed: set<Path>, path: Path)
    ensures removed !! dirs ==> dirs - removed == dirs - (removed - {path})
  {
  }

  lemma SameFiles(base: Tree, s: State, path: Path)
    requires !Reappears(base, s, path)
    ensures Files(base, State(s.layer, s.removed - {path})) == Files(base, s)
  {
    assert forall p :: p in base.files ==> (p in s.removed <==> p in s.removed - {path});
  }

  /** An append first looks for something to copy up, which a directory is not. */
  lemma BlockedAppend(base: Tree, s: State, path: Path, data: Bytes)
    requires Inv(base, s) && !Free(View(base, s), path)
    ensures
      var out := Append(base, s, path, data);
      && (out.error.Some? <==> path in base.dirs || !Free(s.layer, path))
      && (View(base, out.s) == View(base, s) <==>
            path in base.dirs || (!Free(s.layer, path) && !Reappears(base, s, path)))
      && (View(base, out.s) == View(base, s) ==> Inv(base, out.s))
  {
    NotVisible(base, s, path);
    BlockedWrite(base, s, path, data);
    if path in base.dirs {
      assert !Reappears(base, s, path) && path !in s.layer.files;
    }
    hide Free, View, Reappears, ValidTree;
    if !Has(s.layer, path) && InBase(base, s, path) {
      assert CopyUp(base, s, path) == Outcome(s, Some(NotFound));
    } else {
      assert CopyUp(base, s, path) == Outcome(s, None);
      assert [] + data == data;
      assert Append(base, s, path, data) == Write(s, path, data);
    }
  }

  /** Removing a directory never fails; it hides a directory that only the base has. */
  lemma RemovedDirectory(base: Tree, s: State, path: Path)
    requires Inv(base, s) && path in Dirs(base, s)
    ensures
      var out := Remove(s, path);
      out.error.None? && (View(base, out.s) == View(base, s) <==> path in s.layer.dirs)
  {
    var out := Remove(s, path);
    assert path !in Files(base, s);
    assert out.s.layer == s.layer;
    assert Files(base, out.s) == Files(base, s);
    if path in s.layer.dirs {
      assert Dirs(base, out.s) == Dirs(base, s);
    } else {
      assert path !in Dirs(base, out.s);
    }
  }

  /** The layer holding the source of a move. */
  function WithSource(s: State, source: Path): Tree {
    PutPlain(s.layer, source, [])
  }

  lemma MissingSource(base: Tree, s: State, source: Path, target: Path)
    requires Inv(base, s) && source !in Files(base, s)
    ensures Move(base, s, source, target) == Outcome(s, Some(NotFound))
  {
    assert source !in s.layer.files;
    if !Has(s.layer, source) && InBase(base, s, source) {
      assert source !in base.files;
    }
  }

  lemma CopiedRoom(base: Tree, s: State, source: Path, target: Path)
    requires Inv(base, s) && source in Files(base, s)
    ensures
      var copied := CopyUp(base, s, source).s.layer;
      Free(copied, target) <==> Free(WithSource(s, source), target)
  {
    var copied, held := CopyUp(base, s, source).s.layer, WithSource(s, source);
    CopyUpKeepsView(base, s, source);
    if source in s.layer.files {
      forall p | p in Prefixes(source)
        ensures p in s.layer.dirs
      {
        var k :| 0 <= k < |source| && p == source[..k];
        AboveAreDirs(s.layer, source, k);
      }
      assert held.dirs == s.layer.dirs;
    } else {
      FilesAreFree(View(base, s), source);
      FreeInLayer(base, s, source);
      FileIsNoDir(View(base, s), source);
      PutAtFree(s.layer, source, base.files[source]);
      assert copied.dirs == held.dirs;
    }
    assert copied.files.Keys == held.files.Keys;
  }

  lemma BlockedMove(base: Tree, s: State, source: Path, target: Path)
    requires Inv(base, s) && source != target && source in Files(base, s) && !Free(View(base, s), target)
    ensures
      var out := Move(base, s, source, target);
      && (out.error.Some? <==> !Free(WithSource(s, source), target))
      && (View(base, out.s) == View(base, s) <==> !Free(WithSource(s, source), target))
      && (View(base, out.s) == View(base, s) ==> Inv(base, out.s))
  {
    CopyUpKeepsView(base, s, source);
    CopiedRoom(base, s, source, target);
    NotVisible(base, s, target);
    var copied := CopyUp(base, s, source).s;
    var data := copied.layer.files[source];
    var out := Move(base, s, source, target);
    hide CopyUp, Free, WithSource;
    if Free(copied.layer, target) {
      PutAtFree(copied.layer, target, data);
      assert target in View(base, out.s).files;
    } else {
      PutRefused(copied.layer, target, data);
      assert out.s == copied;
    }
  }

  // ---------- moving onto itself ----------

  lemma SelfMoved(base: Tree, s: State, path: Path)
    requires Inv(base, s) && path in Files(base, s)
    ensures
      var out := Move(base, s, path, path);
      && out.error.None?
      && Files(base, out.s) == (if path in base.files then Files(base, s)[path := base.files[path]] else Files(base, s) - {path})
      && Dirs(base, out.s) == Dirs(base, s)
  {
    CopyUpKeepsView(base, s, path);
    var copied := CopyUp(base, s, path).s;
    var data := copied.layer.files[path];
    FilesAreFree(View(base, copied), path);
    FreeInLayer(base, copied, path);
    PutAtFree(copied.layer, path, data);
    PutPlainSame(copied.layer, path);
    hide CopyUp;
    var out := Move(base, s, path, path);
    assert copied.removed + {path} - {path} == copied.removed - {path};
    assert out.s == WithoutOwn(copied, path);
    assert Files(base, copied) == Files(base, s) && Dirs(base, copied) == Dirs(base, s);
    Dropped(base, copied, path);
  }

  lemma PutPlainSame(tree: Tree, path: Path)
    requires ValidTree(tree) && path in tree.files
    ensures PutPlain(tree, path, tree.files[path]) == tree
  {
    forall p | p in Prefixes(path)
      ensures p in tree.dirs
    {
      var k :| 0 <= k < |path| && p == path[..k];
      AboveAreDirs(tree, path, k);
    }
    assert tree.dirs + Prefixes(path) == tree.dirs;
    assert tree.files[path := tree.files[path]] == tree.files;
  }

  /** The state in which the layer's file is gone and nothing is marked removed. */
  function WithoutOwn(s: State, path: Path): State {
    State(s.layer.(files := s.layer.files - {path}), s.removed - {path})
  }

  lemma Dropped(base: Tree, s: State, path: Path)
    requires path !in base.dirs && path in s.layer.files
    ensures
      Files(base, WithoutOwn(s, path)) ==
        if path in base.files then Files(base, s)[path := base.files[path]] else Files(base, s) - {path}
    ensures Dirs(base, WithoutOwn(s, path)) == Dirs(base, s)
  {
    var files, after := Files(base, s), Files(base, WithoutOwn(s, path));
    assert base.dirs - s.removed == base.dirs - (s.removed - {path});
    forall p | p != path
      ensures p in after <==> p in files
      ensures p in after ==> after[p] == files[p]
    {
    }
    if path in base.files {
      assert after == files[path := base.files[path]];
    } else {
      assert after == files - {path};
    }
  }

  predicate SameInBase(base: Tree, s: State, path: Path) {
    path in base.files && path in Files(base, s) && base.files[path] == Files(base, s)[path]
  }

  /** Moving a visible file onto itself changes nothing exactly when the base holds the same
      bytes there. */
  lemma SelfMoveExactly(base: Tree, s: State, path: Path)
    requires Inv(base, s) && path in Files(base, s)
    ensures
      var out := Move(base, s, path, path);
      && out.error.None?
      && (View(base, out.s) == View(base, s) <==> SameInBase(base, s, path))
      && (SameInBase(base, s, path) ==> Inv(base, out.s))
  {
    hide Inv, Move, Files, Dirs;
    SelfMoved(base, s, path);
    var files, out := Files(base, s), Move(base, s, path, path);
    ViewFiles(base, s);
    ViewFiles(base, out.s);
    if SameInBase(base, s, path) {
      assert files[path := base.files[path]] == files;
      assert View(base, out.s) == View(base, s);
      SelfMoveKeeps(base, s, path);
    } else if path in base.files {
      assert files[path := base.files[path]][path] != files[path];
    } else {
      assert path !in files - {path};
    }
  }

  lemma SelfMoveKeeps(base: Tree, s: State, path: Path)
    requires Inv(base, s) && path in Files(base, s) && View(base, Move(base, s, path, path).s) == View(base, s)
    ensures Inv(base, Move(base, s, path, path).s)
  {
    CopyUpKeepsView(base, s, path);
    var copied := CopyUp(base, s, path).s;
    FilesAreFree(View(base, copied), path);
    FreeInLayer(base, copied, path);
    PutAtFree(copied.layer, path, copied.layer.files[path]);
    PutPlainSame(copied.layer, path);
    RemovePlainValid(copied.layer, path);
  }

  // ---------- every operation ----------

  predicate SelfMove(tree: Tree, op: Op) {
    op.MoveOp? && op.source == op.target && op.source in tree.files
  }

  /** A plain file system: the tree after an operation, and whether it was carried out.
      Moving a file onto itself changes nothing. */
  function PlainStep(tree: Tree, op: Op): (Tree, bool) {
    if Legal(tree, op) then (Plain(tree, op), true)
    else (tree, SelfMove(tree, op))
  }

  /** The overlay does what a plain file system does on the tree it shows. */
  predicate Agrees(base: Tree, s: State, op: Op) {
    var out := Perform(base, s, op);
    (View(base, out.s), out.error.None?) == PlainStep(View(base, s), op)
  }

  /** An operation a plain file system refuses, refused by the overlay without a trace:
      the layer has no room either and no removed base file comes back. */
  predicate CleanlyRefused(base: Tree, s: State, op: Op) {
    match op
    case WriteOp(path, _) => !Free(s.layer, path) && !Reappears(base, s, path)
    case AppendOp(path, _) => path in base.dirs || (!Free(s.layer, path) && !Reappears(base, s, path))
    case RemoveOp(_) => false
    case MoveOp(source, target) =>
      source !in Files(base, s) || (source != target && !Free(WithSource(s, source), target))
  }

  predicate Harmless(base: Tree, s: State, op: Op) {
    if Legal(View(base, s), op) then true
    else if SelfMove(View(base, s), op) then SameInBase(base, s, op.source)
    else CleanlyRefused(base, s, op)
  }

  /** A step of the overlay agrees with the plain file system exactly for the harmless
      operations: those it allows, those refused cleanly, and self-moves of files the base
      holds unchanged. */
  lemma StepAgreesExactly(base: Tree, s: State, op: Op)
    requires Inv(base, s)
    ensures Agrees(base, s, op) <==> Harmless(base, s, op)
    ensures Harmless(base, s, op) ==> Inv(base, Perform(base, s, op).s)
  {
    hide Inv, Free, Reappears, SameInBase, WithSource, Write, Append, Move, Remove, Files, Dirs, Plain;
    ViewFiles(base, s);
    if Legal(View(base, s), op) {
      StepRefines(base, s, op);
    } else {
      match op
      case WriteOp(path, data) => BlockedWrite(base, s, path, data);
      case AppendOp(path, data) => BlockedAppend(base, s, path, data);
      case RemoveOp(path) => RemovedDirectory(base, s, path);
      case MoveOp(source, target) =>
        if source !in Files(base, s) {
          MissingSource(base, s, source, target);
        } else if source == target {
          SelfMoveExactly(base, s, source);
        } else {
          BlockedMove(base, s, source, target);
        }
    }
  }

  // ---------- runs ----------

  /** The plain file system after the first operations of a run. */
  function PlainAfter(base: Tree, ops: seq<Op>): Tree {
    if ops == [] then base else PlainStep(PlainAfter(base, ops[..|ops| - 1]), ops[|ops| - 1]).0
  }

  function OverlayAfter(base: Tree, ops: seq<Op>): State {
    if ops == [] then Fresh() else Perform(base, OverlayAfter(base, ops[..|ops| - 1]), ops[|ops| - 1]).s
  }

  /** The n-th operation is carried out or refused as in the plain file system, and the
      same tree is seen after it. */
  predicate ShowsStep(base: Tree, ops: seq<Op>, n: nat)
    requires n < |ops|
  {
    && Perform(base, OverlayAfter(base, ops[..n]), ops[n]).error.None? == PlainStep(PlainAfter(base, ops[..n]), ops[n]).1
    && View(base, OverlayAfter(base, ops[..n + 1])) == PlainAfter(base, ops[..n + 1])
  }

  predicate ShowsPlain(base: Tree, ops: seq<Op>) {
    forall n :: 0 <= n < |ops| ==> ShowsStep(base, ops, n)
  }

  predicate AllHarmless(base: Tree, ops: seq<Op>) {
    forall n :: 0 <= n < |ops| ==> Harmless(base, OverlayAfter(base, ops[..n]), ops[n])
  }

  lemma NextStep(base: Tree, ops: seq<Op>, n: nat)
    requires n < |ops|
    ensures OverlayAfter(base, ops[..n + 1]) == Perform(base, OverlayAfter(base, ops[..n]), ops[n]).s
    ensures PlainAfter(base, ops[..n + 1]) == PlainStep(PlainAfter(base, ops[..n]), ops[n]).0
  {
    assert ops[..n + 1][..n] == ops[..n];
  }

  lemma {:induction false} HarmlessSoFar(base: Tree, ops: seq<Op>, n: nat)
    requires ValidTree(base) && n <= |ops|
    requires forall k :: 0 <= k < n ==> Harmless(base, OverlayAfter(base, ops[..k]), ops[k])
    ensures Inv(base, OverlayAfter(base, ops[..n])) && View(base, OverlayAfter(base, ops[..n])) == PlainAfter(base, ops[..n])
    decreases n
  {
    hide Inv, Harmless, View, PlainStep, Perform;
    if n == 0 {
      FreshInv(base);
    } else {
      HarmlessSoFar(base, ops, n - 1);
      NextStep(base, ops, n - 1);
      StepAgreesExactly(base, OverlayAfter(base, ops[..n - 1]), ops[n - 1]);
    }
  }

  lemma {:induction false} ShownIsHarmless(base: Tree, ops: seq<Op>, n: nat)
    requires ValidTree(base) && ShowsPlain(base, ops) && n <= |ops|
    ensures forall k :: 0 <= k < n ==> Harmless(base, OverlayAfter(base, ops[..k]), ops[k])
    decreases n
  {
    hide Inv, Harmless, View, PlainStep, Perform;
    if n > 0 {
      ShownIsHarmless(base, ops, n - 1);
      HarmlessSoFar(base, ops, n - 1);
      NextStep(base, ops, n - 1);
      assert ShowsStep(base, ops, n - 1);
      StepAgreesExactly(base, OverlayAfter(base, ops[..n - 1]), ops[n - 1]);
    }
  }

  /** Over any run of operations whatever, from a fresh overlay, each step carries out or
      refuses what a plain file system seeded with the base would, and shows its tree,
      exactly when every operation is harmless where it happens. */
  lemma RunAgreesExactly(base: Tree, ops: seq<Op>)
    requires ValidTree(base)
    ensures ShowsPlain(base, ops) <==> AllHarmless(base, ops)
  {
    hide Inv, Harmless, View, PlainStep, Perform;
    if ShowsPlain(base, ops) {
      ShownIsHarmless(base, ops, |ops|);
    }
    if AllHarmless(base, ops) {
      forall n | 0 <= n < |ops|
        ensures ShowsStep(base, ops, n)
      {
        HarmlessSoFar(base, ops, n);
        HarmlessSoFar(base, ops, n + 1);
        StepAgreesExactly(base, OverlayAfter(base, ops[..n]), ops[n]);
      }
    }
  }

  /** Base file `a`: removed, replaced by a directory through a write to `a/b`, then written
      to.  The write is refused, yet the base's file shows again beside the directory. */
  lemma RefusedWriteRestores(data: Bytes)
    ensures
      var base := Tree(map[["a"] := data], {[]});
      var removed := Remove(Fresh(), ["a"]).s;
      var inside := Write(removed, ["a", "b"], []);
      var again := Write(inside.s, ["a"], []);
      && ValidTree(base) && Legal(View(base, Fresh()), RemoveOp(["a"]))
      && Legal(View(base, removed), WriteOp(["a", "b"], [])) && inside.error.None?
      && again.error.Some?
      && ["a"] !in Files(base, inside.s) && ["a"] in Files(base, again.s) && ["a"] in Dirs(base, again.s)
  {
    var base := Tree(map[["a"] := data], {[]});
    assert Parent(["a"]) == [];
    FreshInv(base);
    var removed := Remove(Fresh(), ["a"]).s;
    StepRefines(base, Fresh(), RemoveOp(["a"]));
    assert Files(base, removed) == map[];
    assert Free(View(base, removed), ["a", "b"]);
    WriteRefines(base, removed, ["a", "b"], []);
    var inside := Write(removed, ["a", "b"], []).s;
    PutAtFree(removed.layer, ["a", "b"], []);
    assert ["a", "b"][..1] == ["a"];
    assert ["a"] in Prefixes(["a", "b"]);
    assert ["a"] in inside.layer.dirs;
    BlockedWrite(base, inside, ["a"], []);
  }
}
