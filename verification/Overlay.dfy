/** The copy-on-write overlay: reads fall through to a read-only base, writes stay in a
    memory layer, removals are remembered per path. */
module Overlay {
  import opened Common

  /** A normalized absolute path, segment by segment; the root is empty. */
  type Path = seq<string>

  type Bytes = seq<Byte>

  datatype FsError = NotFound | NotDirectory | IsDirectory

  datatype Tree = Tree(files: map<Path, Bytes>, dirs: set<Path>)

  function Parent(path: Path): Path
    requires path != []
  {
    path[..|path| - 1]
  }

  predicate InDirectory(path: Path, dirs: set<Path>) {
    path == [] || Parent(path) in dirs
  }

  /** A file system tree: the root is a directory, and everything lies in a directory. */
  ghost predicate ValidTree(tree: Tree) {
    && [] in tree.dirs
    && (forall p :: p in tree.files ==> p !in tree.dirs && InDirectory(p, tree.dirs))
    && (forall p :: p in tree.dirs ==> InDirectory(p, tree.dirs))
  }

  // ---------- the memory layer ----------

  /** The directory set after the loop over `parent`'s segments from the k-th on, and
      whether it met no file. */
  function AddPrefixes(tree: Tree, parent: Path, k: nat): (set<Path>, bool)
    requires k <= |parent|
    decreases |parent| - k
  {
    if k == |parent| then (tree.dirs, true)
    else
      var cursor := parent[..k + 1];
      if cursor in tree.files then (tree.dirs, false)
      else AddPrefixes(tree.(dirs := tree.dirs + {cursor}), parent, k + 1)
  }

  /** `ensureParents` */
  function EnsureParents(tree: Tree, path: Path): (set<Path>, bool)
    requires path != []
  {
    var parent := Parent(path);
    if parent in tree.files then (tree.dirs, false)
    else if parent in tree.dirs then (tree.dirs, true)
    else AddPrefixes(tree, parent, 0)
  }

  /** The layer after an operation, changed or not, and the error if it threw. */
  datatype Effect = Effect(tree: Tree, error: Option<FsError>)

  function PutFile(tree: Tree, path: Path, data: Bytes): Effect {
    if path == [] || path in tree.dirs then Effect(tree, Some(NotDirectory))
    else
      var (dirs, ok) := EnsureParents(tree, path);
      if !ok then Effect(tree.(dirs := dirs), Some(NotDirectory))
      else Effect(Tree(tree.files[path := data], dirs), None)
  }

  function AppendFile(tree: Tree, path: Path, data: Bytes): Effect {
    PutFile(tree, path, (if path in tree.files then tree.files[path] else []) + data)
  }

  function RemoveFile(tree: Tree, path: Path): Effect {
    if path in tree.files then Effect(tree.(files := tree.files - {path}), None)
    else Effect(tree, if path in tree.dirs then Some(IsDirectory) else None)
  }

  function MoveFile(tree: Tree, source: Path, target: Path): Effect {
    if source !in tree.files then Effect(tree, Some(NotFound))
    else
      var put := PutFile(tree, target, tree.files[source]);
      if put.error.Some? then put else Effect(put.tree.(files := put.tree.files - {source}), None)
  }

  // ---------- the overlay ----------

  datatype State = State(layer: Tree, removed: set<Path>)

  predicate Has(tree: Tree, path: Path) {
    path in tree.files || path in tree.dirs
  }

  predicate InBase(base: Tree, s: State, path: Path) {
    path !in s.removed && Has(base, path)
  }

  predicate Exists(base: Tree, s: State, path: Path) {
    Has(s.layer, path) || InBase(base, s, path)
  }

  function Read(base: Tree, s: State, path: Path): Result<Bytes, FsError> {
    if Has(s.layer, path) then
      if path in s.layer.files then Ok(s.layer.files[path]) else Err(NotFound)
    else if path in base.files then Ok(base.files[path])
    else Err(NotFound)
  }

  /** The overlay after an operation, and the error if it threw. */
  datatype Outcome = Outcome(s: State, error: Option<FsError>)

  function CopyUp(base: Tree, s: State, path: Path): Outcome {
    if !Has(s.layer, path) && InBase(base, s, path) then
      if path !in base.files then Outcome(s, Some(NotFound))
      else
        var put := PutFile(s.layer, path, base.files[path]);
        Outcome(s.(layer := put.tree), put.error)
    else Outcome(s, None)
  }

  function Write(s: State, path: Path, data: Bytes): Outcome {
    var put := PutFile(s.layer, path, data);
    Outcome(State(put.tree, s.removed - {path}), put.error)
  }

  function Append(base: Tree, s: State, path: Path, data: Bytes): Outcome {
    var copied := CopyUp(base, s, path);
    if copied.error.Some? then copied
    else
      var put := AppendFile(copied.s.layer, path, data);
      Outcome(State(put.tree, copied.s.removed - {path}), put.error)
  }

  /** Errors of the layer's own removal are swallowed. */
  function Remove(s: State, path: Path): Outcome {
    Outcome(State(RemoveFile(s.layer, path).tree, s.removed + {path}), None)
  }

  function Move(base: Tree, s: State, source: Path, target: Path): Outcome {
    var copied := CopyUp(base, s, source);
    if copied.error.Some? then copied
    else
      var moved := MoveFile(copied.s.layer, source, target);
      if moved.error.Some? then Outcome(copied.s.(layer := moved.tree), moved.error)
      else Outcome(State(moved.tree, copied.s.removed + {source} - {target}), None)
  }

  class OverlayFilesystem {
    const base: Tree
    var files: map<Path, Bytes>
    var dirs: set<Path>
    var removed: set<Path>

    constructor (base: Tree)
      ensures this.base == base && Current() == Fresh()
    {
      this.base := base;
      files, dirs, removed := map[], {[]}, {};
    }

    function Layer(): Tree reads this { Tree(files, dirs) }

    function Current(): State reads this { State(Layer(), removed) }

    method MakeParents(path: Path) returns (ok: bool)
      requires path != []
      modifies this`dirs
      ensures (dirs, ok) == EnsureParents(old(Layer()), path)
    {
      var parent := Parent(path);
      if parent in files {
        return false;
      }
      if parent in dirs {
        return true;
      }
      var k := 0;
      while k < |parent|
        invariant k <= |parent|
        invariant AddPrefixes(Layer(), parent, k) == AddPrefixes(old(Layer()), parent, 0)
      {
        var cursor := parent[..k + 1];
        if cursor in files {
          return false;
        }
        dirs := dirs + {cursor};
        k := k + 1;
      }
      return true;
    }

    method PutInLayer(path: Path, data: Bytes) returns (error: Option<FsError>)
      modifies this`files, this`dirs
      ensures Effect(Layer(), error) == PutFile(old(Layer()), path, data)
    {
      if path == [] || path in dirs {
        return Some(NotDirectory);
      }
      var ok := MakeParents(path);
      if !ok {
        return Some(NotDirectory);
      }
      files := files[path := data];
      return None;
    }

    method CopyUpFromBase(path: Path) returns (error: Option<FsError>)
      modifies this`files, this`dirs
      ensures Outcome(Current(), error) == CopyUp(base, old(Current()), path)
    {
      if !Has(Layer(), path) && InBase(base, Current(), path) {
        if path !in base.files {
          return Some(NotFound);
        }
        error := PutInLayer(path, base.files[path]);
      } else {
        error := None;
      }
    }

    method WriteBytes(path: Path, data: Bytes) returns (error: Option<FsError>)
      modifies this
      ensures Outcome(Current(), error) == Write(old(Current()), path, data)
    {
      removed := removed - {path};
      error := PutInLayer(path, data);
    }

    method AppendBytes(path: Path, data: Bytes) returns (error: Option<FsError>)
      modifies this
      ensures Outcome(Current(), error) == Append(base, old(Current()), path, data)
    {
      error := CopyUpFromBase(path);
      if error.Some? {
        return;
      }
      removed := removed - {path};
      error := PutInLayer(path, (if path in files then files[path] else []) + data);
    }

    method RemovePath(path: Path)
      modifies this
      ensures Outcome(Current(), None) == Remove(old(Current()), path)
    {
      removed := removed + {path};
      if path in files {
        files := files - {path};
      }
    }

    method MovePath(source: Path, target: Path) returns (error: Option<FsError>)
      modifies this
      ensures Outcome(Current(), error) == Move(base, old(Current()), source, target)
    {
      error := CopyUpFromBase(source);
      if error.Some? {
        return;
      }
      if source !in files {
        return Some(NotFound);
      }
      error := PutInLayer(target, files[source]);
      if error.Some? {
        return;
      }
      files := files - {source};
      removed := removed + {source};
      removed := removed - {target};
    }
  }

  function Fresh(): State {
    State(Tree(map[], {[]}), {})
  }

  // ---------- the plain file system it stands for ----------

  /** The files one sees: the base's, less the removed ones, under the layer's. */
  function Files(base: Tree, s: State): map<Path, Bytes> {
    (map p | p in base.files && p !in s.removed :: base.files[p]) + s.layer.files
  }

  function Dirs(base: Tree, s: State): set<Path> {
    s.layer.dirs + (base.dirs - s.removed)
  }

  function View(base: Tree, s: State): Tree {
    Tree(Files(base, s), Dirs(base, s))
  }

  predicate FileAbove(path: Path, files: map<Path, Bytes>) {
    exists k :: 0 <= k < |path| && path[..k] in files
  }

  /** A file may be put here: no directory stands here and no file above. */
  predicate Free(tree: Tree, path: Path) {
    path !in tree.dirs && !FileAbove(path, tree.files)
  }

  /** What the overlay keeps while it is used like a file system. */
  ghost predicate Inv(base: Tree, s: State) {
    && ValidTree(base) && ValidTree(s.layer) && ValidTree(View(base, s))
    && s.removed !! base.dirs
  }

  function Prefixes(path: Path): set<Path> {
    set k | 0 <= k < |path| :: path[..k]
  }

  /** Directories above an entry of a tree are directories all the way up. */
  lemma {:induction false} AboveAreDirs(tree: Tree, path: Path, k: nat)
    requires ValidTree(tree) && k < |path| && (path in tree.files || path in tree.dirs)
    ensures path[..k] in tree.dirs
    decreases |path|
  {
    assert InDirectory(path, tree.dirs);
    if k < |path| - 1 {
      AboveAreDirs(tree, Parent(path), k);
      assert Parent(path)[..k] == path[..k];
    } else {
      assert path[..k] == Parent(path);
    }
  }

  /** The directories on the way down to `parent`, below its first `k` segments. */
  function Between(parent: Path, k: nat): set<Path> {
    set j | k < j <= |parent| :: parent[..j]
  }

  lemma BetweenNext(parent: Path, k: nat)
    requires k < |parent|
    ensures Between(parent, k) == {parent[..k + 1]} + Between(parent, k + 1)
  {
  }

  lemma {:induction false} PrefixesAdded(tree: Tree, parent: Path, k: nat)
    requires k <= |parent| && !FileAbove(parent, tree.files) && parent !in tree.files
    ensures AddPrefixes(tree, parent, k) == (tree.dirs + Between(parent, k), true)
    decreases |parent| - k
  {
    if k < |parent| {
      var cursor := parent[..k + 1];
      assert cursor !in tree.files by {
        if k + 1 == |parent| {
          assert cursor == parent;
        }
      }
      var next := tree.(dirs := tree.dirs + {cursor});
      PrefixesAdded(next, parent, k + 1);
      BetweenNext(parent, k);
      assert tree.dirs + {cursor} + Between(parent, k + 1) == tree.dirs + ({cursor} + Between(parent, k + 1));
    } else {
      assert tree.dirs + Between(parent, k) == tree.dirs;
    }
  }

  /** On a valid layer, putting a file at a free place adds the missing directories only. */
  lemma PutFileFree(tree: Tree, path: Path, data: Bytes)
    requires ValidTree(tree) && path !in tree.dirs && !FileAbove(path, tree.files)
    ensures PutFile(tree, path, data) == Effect(Tree(tree.files[path := data], tree.dirs + Prefixes(path)), None)
  {
    assert path != [];
    var parent := Parent(path);
    assert path[..|path| - 1] == parent;
    assert parent !in tree.files;
    if parent in tree.dirs {
      forall k | 0 <= k < |path|
        ensures path[..k] in tree.dirs
      {
        if k < |path| - 1 {
          AboveAreDirs(tree, parent, k);
          assert parent[..k] == path[..k];
        }
      }
      assert tree.dirs + Prefixes(path) == tree.dirs;
    } else {
      assert forall k :: 0 <= k < |parent| ==> parent[..k] == path[..k];
      PrefixesAdded(tree, parent, 0);
      forall p | p in Prefixes(path)
        ensures p in tree.dirs + Between(parent, 0)
      {
        var k :| 0 <= k < |path| && p == path[..k];
        assert p == parent[..k];
        assert k == 0 ==> p == [];
      }
      forall p | p in Between(parent, 0)
        ensures p in Prefixes(path)
      {
        var j :| 0 < j <= |parent| && p == parent[..j];
        assert p == path[..j];
      }
      assert tree.dirs + Between(parent, 0) == tree.dirs + Prefixes(path);
    }
  }

  /** The plain file system after putting a file. */
  function PutPlain(tree: Tree, path: Path, data: Bytes): Tree {
    Tree(tree.files[path := data], tree.dirs + Prefixes(path))
  }

  lemma PutPlainValid(tree: Tree, path: Path, data: Bytes)
    requires ValidTree(tree) && Free(tree, path)
    ensures ValidTree(PutPlain(tree, path, data))
  {
    var after := PutPlain(tree, path, data);
    forall p | p in after.dirs
      ensures InDirectory(p, after.dirs) && p !in after.files
    {
      if p in Prefixes(path) {
        var k :| 0 <= k < |path| && p == path[..k];
        if k > 0 {
          assert Parent(p) == path[..k - 1];
        }
        assert p != path;
      }
    }
    assert path != [];
    assert Parent(path) == path[..|path| - 1];
  }

  lemma RemovePlainValid(tree: Tree, path: Path)
    requires ValidTree(tree)
    ensures ValidTree(tree.(files := tree.files - {path}))
  {
  }

  // ---------- every operation refines the plain one ----------

  lemma FreeInLayer(base: Tree, s: State, path: Path)
    requires Inv(base, s) && Free(View(base, s), path)
    ensures Free(s.layer, path) && path !in base.dirs
  {
    forall k | 0 <= k < |path|
      ensures path[..k] !in s.layer.files
    {
      assert path[..k] !in Files(base, s);
    }
  }

  /** A visible file is at a free place: a write may replace it. */
  lemma FilesAreFree(tree: Tree, path: Path)
    requires ValidTree(tree) && path in tree.files
    ensures Free(tree, path)
  {
    forall k | 0 <= k < |path|
      ensures path[..k] !in tree.files
    {
      AboveAreDirs(tree, path, k);
    }
  }

  lemma ViewAfterPut(base: Tree, s: State, path: Path, data: Bytes)
    requires path !in base.dirs
    ensures View(base, State(PutPlain(s.layer, path, data), s.removed - {path})) == PutPlain(View(base, s), path, data)
  {
    var after := State(PutPlain(s.layer, path, data), s.removed - {path});
    assert Files(base, after) == Files(base, s)[path := data];
    assert Dirs(base, after) == Dirs(base, s) + Prefixes(path);
  }

  lemma WriteRefines(base: Tree, s: State, path: Path, data: Bytes)
    requires Inv(base, s) && Free(View(base, s), path)
    ensures
      var out := Write(s, path, data);
      out.error.None? && Inv(base, out.s) && View(base, out.s) == PutPlain(View(base, s), path, data)
  {
    FreeInLayer(base, s, path);
    hide ValidTree, Free, View, Prefixes, FileAbove;
    PutAtFree(s.layer, path, data);
    PutPlainValid(s.layer, path, data);
    PutPlainValid(View(base, s), path, data);
    ViewAfterPut(base, s, path, data);
  }

  lemma PutAtFree(tree: Tree, path: Path, data: Bytes)
    requires ValidTree(tree) && Free(tree, path)
    ensures PutFile(tree, path, data) == Effect(PutPlain(tree, path, data), None)
  {
    PutFileFree(tree, path, data);
  }

  lemma ViewAfterCopy(base: Tree, s: State, path: Path)
    requires Inv(base, s) && path in Files(base, s) && path in base.files && path !in s.layer.files
    ensures View(base, s.(layer := PutPlain(s.layer, path, base.files[path]))) == View(base, s)
  {
    hide ValidTree, Files;
    FilesAfterCopy(base, s, path);
    DirsAbove(base, s, path);
    assert s.layer.dirs + Prefixes(path) + (base.dirs - s.removed) == Dirs(base, s) + Prefixes(path);
  }

  lemma FilesAfterCopy(base: Tree, s: State, path: Path)
    requires path in Files(base, s) && path in base.files && path !in s.layer.files
    ensures
      var after := s.(layer := PutPlain(s.layer, path, base.files[path]));
      Files(base, after) == Files(base, s)
  {
    var visible := map p | p in base.files && p !in s.removed :: base.files[p];
    assert path in visible && visible[path] == base.files[path];
    OverlaidTwice(visible, s.layer.files, path);
  }

  lemma OverlaidTwice(under: map<Path, Bytes>, over: map<Path, Bytes>, path: Path)
    requires path in under && path !in over
    ensures under + over[path := under[path]] == under + over
  {
  }

  /** The directories above a visible file are visible. */
  lemma DirsAbove(base: Tree, s: State, path: Path)
    requires Inv(base, s) && path in Files(base, s)
    ensures Dirs(base, s) + Prefixes(path) == Dirs(base, s)
  {
    hide Files, Dirs;
    ViewFiles(base, s);
    forall p | p in Prefixes(path)
      ensures p in Dirs(base, s)
    {
      var k :| 0 <= k < |path| && p == path[..k];
      AboveAreDirs(View(base, s), path, k);
    }
  }

  lemma CopyUpKeepsView(base: Tree, s: State, path: Path)
    requires Inv(base, s) && path in Files(base, s)
    ensures
      var out := CopyUp(base, s, path);
      out.error.None? && Inv(base, out.s) && View(base, out.s) == View(base, s)
      && path in out.s.layer.files && out.s.removed == s.removed
      && out.s.layer.files[path] == Files(base, s)[path]
  {
    FileIsNoDir(View(base, s), path);
    if !Has(s.layer, path) {
      assert path in base.files && InBase(base, s, path) && path !in s.layer.files;
      FilesAreFree(View(base, s), path);
      FreeInLayer(base, s, path);
      hide ValidTree, Free, View, InBase, Prefixes;
      PutAtFree(s.layer, path, base.files[path]);
      PutPlainValid(s.layer, path, base.files[path]);
      ViewAfterCopy(base, s, path);
    }
  }

  function Contents(tree: Tree, path: Path): Bytes {
    if path in tree.files then tree.files[path] else []
  }

  lemma NoCopy(base: Tree, s: State, path: Path)
    requires Inv(base, s) && Free(View(base, s), path) && path !in Files(base, s)
    ensures CopyUp(base, s, path) == Outcome(s, None) && path !in s.layer.files
  {
  }

  lemma AppendRefines(base: Tree, s: State, path: Path, data: Bytes)
    requires Inv(base, s) && Free(View(base, s), path)
    ensures
      var out := Append(base, s, path, data);
      out.error.None? && Inv(base, out.s)
      && View(base, out.s) == PutPlain(View(base, s), path, Contents(View(base, s), path) + data)
  {
    if path in Files(base, s) {
      CopyUpKeepsView(base, s, path);
    } else {
      NoCopy(base, s, path);
    }
    var copied := CopyUp(base, s, path).s;
    var all := Contents(View(base, s), path) + data;
    assert Contents(copied.layer, path) == Contents(View(base, s), path);
    assert Append(base, s, path, data) == Write(copied, path, all);
    WriteRefines(base, copied, path, all);
  }

  lemma ViewAfterRemove(base: Tree, s: State, path: Path)
    requires path !in base.dirs
    ensures View(base, State(s.layer.(files := s.layer.files - {path}), s.removed + {path}))
         == View(base, s).(files := Files(base, s) - {path})
  {
    var after := State(s.layer.(files := s.layer.files - {path}), s.removed + {path});
    assert Files(base, after) == Files(base, s) - {path};
    assert Dirs(base, after) == Dirs(base, s);
  }

  lemma RemoveRefines(base: Tree, s: State, path: Path)
    requires Inv(base, s) && path !in Dirs(base, s)
    ensures
      var out := Remove(s, path);
      Inv(base, out.s) && View(base, out.s) == View(base, s).(files := Files(base, s) - {path})
  {
    assert RemoveFile(s.layer, path).tree == s.layer.(files := s.layer.files - {path});
    assert path !in base.dirs;
    hide ValidTree, View, Files, Dirs, RemoveFile;
    RemovePlainValid(s.layer, path);
    ViewAfterRemove(base, s, path);
    ViewFiles(base, s);
    RemovePlainValid(View(base, s), path);
  }

  lemma ViewFiles(base: Tree, s: State)
    ensures View(base, s).files == Files(base, s) && View(base, s).dirs == Dirs(base, s)
  {
  }

  /** Moving is copying up, writing the target and removing the source. */
  lemma MoveSteps(base: Tree, s: State, copied: State, source: Path, target: Path)
    requires CopyUp(base, s, source) == Outcome(copied, None) && source in copied.layer.files && source != target
    requires Write(copied, target, copied.layer.files[source]).error.None?
    ensures Move(base, s, source, target)
         == Outcome(Remove(Write(copied, target, copied.layer.files[source]).s, source).s, None)
  {
    var put := PutFile(copied.layer, target, copied.layer.files[source]);
    var written := Write(copied, target, copied.layer.files[source]).s;
    assert written.removed + {source} == copied.removed + {source} - {target};
    PutKeepsFile(copied.layer, target, copied.layer.files[source], source);
  }

  lemma PutKeepsFile(tree: Tree, path: Path, data: Bytes, other: Path)
    requires other in tree.files && PutFile(tree, path, data).error.None?
    ensures other in PutFile(tree, path, data).tree.files
  {
  }

  lemma MoveRefines(base: Tree, s: State, source: Path, target: Path)
    requires Inv(base, s) && source in Files(base, s) && Free(View(base, s), target) && source != target
    ensures
      var out := Move(base, s, source, target);
      var put := PutPlain(View(base, s), target, Files(base, s)[source]);
      out.error.None? && Inv(base, out.s) && View(base, out.s) == put.(files := put.files - {source})
  {
    CopyUpKeepsView(base, s, source);
    hide CopyUp, Write, Move, Remove, Free, ValidTree, Files, Dirs;
    var copied := CopyUp(base, s, source).s;
    var data := Files(base, s)[source];
    WriteRefines(base, copied, target, data);
    var written := Write(copied, target, data).s;
    ViewFiles(base, written);
    ViewFiles(base, s);
    FileIsNoDir(View(base, written), source);
    RemoveRefines(base, written, source);
    MoveSteps(base, s, copied, source, target);
  }

  lemma FileIsNoDir(tree: Tree, path: Path)
    requires ValidTree(tree) && path in tree.files
    ensures path !in tree.dirs
  {
  }

  // ---------- runs ----------

  datatype Op =
    | WriteOp(path: Path, data: Bytes)
    | AppendOp(path: Path, data: Bytes)
    | RemoveOp(path: Path)
    | MoveOp(source: Path, target: Path)

  function Perform(base: Tree, s: State, op: Op): Outcome {
    match op
    case WriteOp(path, data) => Write(s, path, data)
    case AppendOp(path, data) => Append(base, s, path, data)
    case RemoveOp(path) => Remove(s, path)
    case MoveOp(source, target) => Move(base, s, source, target)
  }

  /** What a plain file system allows. */
  predicate Legal(tree: Tree, op: Op) {
    match op
    case WriteOp(path, _) => Free(tree, path)
    case AppendOp(path, _) => Free(tree, path)
    case RemoveOp(path) => path !in tree.dirs
    case MoveOp(source, target) => source in tree.files && Free(tree, target) && source != target
  }

  function Plain(tree: Tree, op: Op): Tree
    requires Legal(tree, op)
  {
    match op
    case WriteOp(path, data) => PutPlain(tree, path, data)
    case AppendOp(path, data) => PutPlain(tree, path, Contents(tree, path) + data)
    case RemoveOp(path) => tree.(files := tree.files - {path})
    case MoveOp(source, target) =>
      var put := PutPlain(tree, target, tree.files[source]);
      put.(files := put.files - {source})
  }

  /** The plain file system after a run of legal operations, or none. */
  function PlainRun(base: Tree, ops: seq<Op>): Option<Tree> {
    if ops == [] then Some(base)
    else
      var tree := PlainRun(base, ops[..|ops| - 1]);
      if tree.Some? && Legal(tree.value, ops[|ops| - 1]) then Some(Plain(tree.value, ops[|ops| - 1])) else None
  }

  /** The overlay after the run, and whether every operation succeeded. */
  function OverlayRun(base: Tree, ops: seq<Op>): (State, bool) {
    if ops == [] then (Fresh(), true)
    else
      var (s, ok) := OverlayRun(base, ops[..|ops| - 1]);
      var out := Perform(base, s, ops[|ops| - 1]);
      (out.s, ok && out.error.None?)
  }

  lemma StepRefines(base: Tree, s: State, op: Op)
    requires Inv(base, s) && Legal(View(base, s), op)
    ensures
      var out := Perform(base, s, op);
      out.error.None? && Inv(base, out.s) && View(base, out.s) == Plain(View(base, s), op)
  {
    match op
    case WriteOp(path, data) => WriteRefines(base, s, path, data);
    case AppendOp(path, data) => AppendRefines(base, s, path, data);
    case RemoveOp(path) => RemoveRefines(base, s, path);
    case MoveOp(source, target) => MoveRefines(base, s, source, target);
  }

  lemma FreshInv(base: Tree)
    requires ValidTree(base)
    ensures Inv(base, Fresh()) && View(base, Fresh()) == base
  {
    assert Files(base, Fresh()) == base.files;
    assert Dirs(base, Fresh()) == base.dirs;
  }

  /** Over every run a plain file system would allow, the overlay succeeds at every step
      and shows exactly the plain tree seeded with the base. */
  lemma {:induction false} RunRefines(base: Tree, ops: seq<Op>)
    requires ValidTree(base) && PlainRun(base, ops).Some?
    ensures
      var (s, ok) := OverlayRun(base, ops);
      ok && Inv(base, s) && View(base, s) == PlainRun(base, ops).value
    decreases |ops|
  {
    if ops == [] {
      FreshInv(base);
    } else {
      RunRefines(base, ops[..|ops| - 1]);
      StepRefines(base, OverlayRun(base, ops[..|ops| - 1]).0, ops[|ops| - 1]);
    }
  }

  // ---------- what can be observed ----------

  predicate Below(path: Path, entry: Path) {
    |path| < |entry| && path <= entry
  }

  /** The names under a directory of the layer: the next segment of everything below it. */
  function LayerNames(layer: Tree, path: Path): set<string> {
    (set p | p in layer.files && Below(path, p) :: p[|path|])
    + (set p | p in layer.dirs && Below(path, p) :: p[|path|])
  }

  function BaseNames(base: Tree, path: Path): set<string> {
    (set p | p in base.files && |p| == |path| + 1 && path <= p :: p[|path|])
    + (set p | p in base.dirs && |p| == |path| + 1 && path <= p :: p[|path|])
  }

  function List(base: Tree, s: State, path: Path): set<string> {
    (if path !in s.removed && path in base.dirs
     then set name | name in BaseNames(base, path) && path + [name] !in s.removed
     else {})
    + (if path in s.layer.dirs then LayerNames(s.layer, path) else {})
  }

  /** Existence agrees with the view at every path, and reads do at every file. */
  lemma ViewObserved(base: Tree, s: State, path: Path)
    requires Inv(base, s)
    ensures Exists(base, s, path) <==> Has(View(base, s), path)
    ensures path in Files(base, s) ==> Read(base, s, path) == Ok(Files(base, s)[path])
  {
  }

  lemma BaseNamesAre(base: Tree, path: Path, name: string)
    ensures name in BaseNames(base, path) <==> Has(base, path + [name])
  {
    var entry := path + [name];
    assert path <= entry && entry[|path|] == name;
    if name in BaseNames(base, path) {
      var p :| Has(base, p) && |p| == |path| + 1 && path <= p && p[|path|] == name;
      assert p == entry;
    }
  }

  /** What stands above an entry, one step below `path`. */
  lemma StepBelow(layer: Tree, path: Path, p: Path)
    requires ValidTree(layer) && Has(layer, p) && Below(path, p)
    ensures Has(layer, path + [p[|path|]])
  {
    var entry := path + [p[|path|]];
    assert p[..|path| + 1] == entry;
    if |p| == |path| + 1 {
      assert p == entry;
    } else {
      AboveAreDirs(layer, p, |path| + 1);
    }
  }

  lemma LayerNamesAre(layer: Tree, path: Path, name: string)
    requires ValidTree(layer)
    ensures name in LayerNames(layer, path) <==> Has(layer, path + [name])
  {
    var entry := path + [name];
    assert Below(path, entry) && entry[|path|] == name;
    if name in LayerNames(layer, path) {
      hide ValidTree;
      var p :| (p in layer.files || p in layer.dirs) && Below(path, p) && p[|path|] == name;
      StepBelow(layer, path, p);
    }
  }

  /** A directory listing names exactly the entries that exist. */
  lemma ListShowsWhatExists(base: Tree, s: State, path: Path, name: string)
    requires Inv(base, s)
    ensures name in List(base, s, path) <==> Exists(base, s, path + [name])
  {
    var entry := path + [name];
    BaseNamesAre(base, path, name);
    LayerNamesAre(s.layer, path, name);
    assert Parent(entry) == path;
    if Has(base, entry) {
      assert InDirectory(entry, base.dirs);
    }
    if Has(s.layer, entry) {
      assert InDirectory(entry, s.layer.dirs);
    }
  }

  // ---------- where it is not a plain file system ----------

  /** A removed base file can still be read: reads look at the layer and the base only. */
  lemma ReadableExactly(base: Tree, s: State, path: Path)
    requires Inv(base, s)
    ensures Read(base, s, path).Ok? <==>
      path in Files(base, s) || (path in s.removed && path in base.files && !Has(s.layer, path))
  {
  }

  /** Moving a file onto itself discards what the layer held: the base's file shows again,
      or nothing. */
  lemma MoveOntoItselfReverts(base: Tree, s: State, path: Path)
    requires Inv(base, s) && path in Files(base, s)
    ensures
      var out := Move(base, s, path, path);
      out.error.None?
      && (if path in base.files
          then path in Files(base, out.s) && Files(base, out.s)[path] == base.files[path]
          else path !in Files(base, out.s))
  {
    CopyUpKeepsView(base, s, path);
    var copied := CopyUp(base, s, path).s;
    FilesAreFree(View(base, copied), path);
    FreeInLayer(base, copied, path);
    PutFileFree(copied.layer, path, copied.layer.files[path]);
  }

  lemma {:induction false} PrefixesBlocked(tree: Tree, parent: Path, k: nat, j: nat)
    requires k < j <= |parent| && parent[..j] in tree.files
    ensures !AddPrefixes(tree, parent, k).1
    decreases |parent| - k
  {
    if k + 1 < j && parent[..k + 1] !in tree.files {
      PrefixesBlocked(tree.(dirs := tree.dirs + {parent[..k + 1]}), parent, k + 1, j);
    }
  }

  /** A write succeeds exactly when the layer alone has room for it: directories and files
      of the base that a plain file system would refuse to write over are not consulted. */
  lemma WriteAcceptedExactly(s: State, path: Path, data: Bytes)
    requires ValidTree(s.layer)
    ensures Write(s, path, data).error.None? <==> Free(s.layer, path)
  {
    if Free(s.layer, path) {
      PutFileFree(s.layer, path, data);
    } else if path !in s.layer.dirs {
      var k :| 0 <= k < |path| && path[..k] in s.layer.files;
      var parent := Parent(path);
      if k == |path| - 1 {
        assert path[..k] == parent;
      } else {
        assert parent[..k] == path[..k];
        if parent in s.layer.files || parent in s.layer.dirs {
          AboveAreDirs(s.layer, parent, k);
        } else {
          PrefixesBlocked(s.layer, parent, 0, k);
        }
      }
    }
  }
}
