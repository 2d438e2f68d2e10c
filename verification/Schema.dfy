/** Lazy schema upgrades: a document is carried through the manifest's ordered upgraders
    when it is read. */
module Schema {
  import opened Common
  import opened Documents

  const VERSION_FIELD := "_v"

  type Document = map<string, Value>

  datatype Manifest = Manifest(current: string, versions: seq<string>)

  datatype SchemaError = NoVersions | UnknownVersion | UnknownHead | AheadOfHead | UpgradeFailed

  /** The upgrader from one version to the next; a module that is missing or throws fails. */
  type Upgrader = (string, string, Document) -> Result<Document, SchemaError>

  /** `position`: the first entry with the label. */
  function Position(versions: seq<string>, v: string): Option<nat> {
    if versions == [] then None
    else if versions[0] == v then Some(0)
    else
      var rest := Position(versions[1..], v);
      if rest.Some? then Some(rest.value + 1) else None
  }

  /** The version a document says it has; without a string stamp, the first one. */
  function VersionOf(document: Document, versions: seq<string>): string
    requires versions != []
  {
    if VERSION_FIELD in document && document[VERSION_FIELD].Str? then document[VERSION_FIELD].s else versions[0]
  }

  /** The upgraders from one index to another, in order. */
  function Chain(upgrade: Upgrader, versions: seq<string>, i: nat, head: nat, document: Document)
    : Result<Document, SchemaError>
    requires i <= head < |versions|
    decreases head - i
  {
    if i == head then Ok(document)
    else
      var next := upgrade(versions[i], versions[i + 1], document);
      if next.Err? then next else Chain(upgrade, versions, i + 1, head, next.value)
  }

  lemma {:induction false} PositionHolds(versions: seq<string>, v: string)
    ensures
      var p := Position(versions, v);
      && (p.Some? ==>
            && p.value < |versions| && versions[p.value] == v
            && forall k :: 0 <= k < p.value ==> versions[k] != v)
      && (p.None? ==> v !in versions)
    decreases |versions|
  {
    if versions != [] && versions[0] != v {
      PositionHolds(versions[1..], v);
    }
  }

  function Materialize(manifest: Option<Manifest>, upgrade: Upgrader, document: Document): Result<Document, SchemaError> {
    if manifest.None? then Ok(document)
    else if manifest.value.versions == [] then Err(NoVersions)
    else
      var m := manifest.value;
      var start := Position(m.versions, VersionOf(document, m.versions));
      var head := Position(m.versions, m.current);
      if start.None? then Err(UnknownVersion)
      else if head.None? then Err(UnknownHead)
      else if start.value > head.value then Err(AheadOfHead)
      else if start.value == head.value then Ok(document)
      else
        PositionHolds(m.versions, m.current);
        var next := Chain(upgrade, m.versions, start.value, head.value, document - {VERSION_FIELD});
        if next.Err? then next else Ok(next.value[VERSION_FIELD := Str(m.current)])
  }

  method FindPosition(versions: seq<string>, v: string) returns (p: Option<nat>)
    ensures p == Position(versions, v)
  {
    PositionHolds(versions, v);
    for i := 0 to |versions|
      invariant forall k :: 0 <= k < i ==> versions[k] != v
    {
      if versions[i] == v {
        return Some(i);
      }
    }
    return None;
  }

  method MaterializeDocument(manifest: Option<Manifest>, upgrade: Upgrader, document: Document)
    returns (result: Result<Document, SchemaError>)
    ensures result == Materialize(manifest, upgrade, document)
  {
    if manifest.None? {
      return Ok(document);
    }
    var m := manifest.value;
    if m.versions == [] {
      return Err(NoVersions);
    }
    var start := FindPosition(m.versions, VersionOf(document, m.versions));
    if start.None? {
      return Err(UnknownVersion);
    }
    var head := FindPosition(m.versions, m.current);
    if head.None? {
      return Err(UnknownHead);
    }
    if start.value > head.value {
      return Err(AheadOfHead);
    }
    if start.value == head.value {
      return Ok(document);
    }
    PositionHolds(m.versions, m.current);
    var next := document - {VERSION_FIELD};
    for index := start.value to head.value
      invariant Chain(upgrade, m.versions, index, head.value, next)
             == Chain(upgrade, m.versions, start.value, head.value, document - {VERSION_FIELD})
    {
      var upgraded := upgrade(m.versions[index], m.versions[index + 1], next);
      if upgraded.Err? {
        return upgraded;
      }
      next := upgraded.value;
    }
    return Ok(next[VERSION_FIELD := Str(m.current)]);
  }

  // ---------- what an upgraded document is ----------

  /** A materialized document is at the head, and materializing it again changes nothing. */
  lemma MaterializeIsIdempotent(m: Manifest, upgrade: Upgrader, document: Document)
    requires Materialize(Some(m), upgrade, document).Ok?
    ensures
      var result := Materialize(Some(m), upgrade, document).value;
      VersionOf(result, m.versions) == m.current && Materialize(Some(m), upgrade, result) == Ok(result)
  {
    PositionHolds(m.versions, m.current);
    PositionHolds(m.versions, VersionOf(document, m.versions));
  }

  predicate Stamped(document: Document, v: string) {
    VERSION_FIELD in document && document[VERSION_FIELD] == Str(v)
  }

  /** The result carries the head's stamp exactly when it was upgraded or came with it: an
      unstamped document of a collection whose first version is the head stays unstamped. */
  lemma StampedExactly(m: Manifest, upgrade: Upgrader, document: Document)
    requires Materialize(Some(m), upgrade, document).Ok?
    ensures Stamped(Materialize(Some(m), upgrade, document).value, m.current) <==>
      VersionOf(document, m.versions) != m.current || Stamped(document, m.current)
  {
    PositionHolds(m.versions, m.current);
    PositionHolds(m.versions, VersionOf(document, m.versions));
  }

  /** A document upgraded under a later head is refused under an earlier one. */
  lemma RollbackIsRefused(earlier: Manifest, later: Manifest, upgrade: Upgrader, document: Document)
    requires earlier.versions == later.versions
    requires Materialize(Some(later), upgrade, document).Ok?
    requires
      var e, l := Position(earlier.versions, earlier.current), Position(later.versions, later.current);
      e.Some? && l.Some? && e.value < l.value
    ensures Materialize(Some(earlier), upgrade, Materialize(Some(later), upgrade, document).value) == Err(AheadOfHead)
  {
    MaterializeIsIdempotent(later, upgrade, document);
  }

  // ---------- upgrading in stages ----------

  /** What the upgraders leave at the manifest's head carries no version field. */
  predicate Unstamped(m: Manifest, upgrade: Upgrader, document: Document)
    requires m.versions != []
  {
    var from, head := Position(m.versions, VersionOf(document, m.versions)), Position(m.versions, m.current);
    PositionHolds(m.versions, m.current);
    from.Some? && head.Some? && from.value < head.value ==>
      var result := Chain(upgrade, m.versions, from.value, head.value, document - {VERSION_FIELD});
      result.Ok? ==> VERSION_FIELD !in result.value
  }

  lemma {:induction false} ChainSplits(
    upgrade: Upgrader, versions: seq<string>, i: nat, mid: nat, head: nat, document: Document)
    requires i <= mid <= head < |versions|
    ensures
      var first := Chain(upgrade, versions, i, mid, document);
      Chain(upgrade, versions, i, head, document) ==
        if first.Err? then first else Chain(upgrade, versions, mid, head, first.value)
    decreases mid - i
  {
    if i < mid {
      var next := upgrade(versions[i], versions[i + 1], document);
      if next.Ok? {
        ChainSplits(upgrade, versions, i + 1, mid, head, next.value);
      }
    }
  }

  /** Later manifests append versions: what the earlier one reads stays the same. */
  lemma {:induction false} PositionKept(versions: seq<string>, more: seq<string>, v: string)
    requires Position(versions, v).Some?
    ensures Position(versions + more, v) == Position(versions, v)
    decreases |versions|
  {
    assert (versions + more)[1..] == versions[1..] + more;
    if versions[0] != v {
      PositionKept(versions[1..], more, v);
    }
  }

  lemma {:induction false} ChainKept(
    upgrade: Upgrader, versions: seq<string>, more: seq<string>, i: nat, head: nat, document: Document)
    requires i <= head < |versions|
    ensures Chain(upgrade, versions + more, i, head, document) == Chain(upgrade, versions, i, head, document)
    decreases head - i
  {
    if i < head {
      var next := upgrade(versions[i], versions[i + 1], document);
      assert (versions + more)[i] == versions[i] && (versions + more)[i + 1] == versions[i + 1];
      if next.Ok? {
        ChainKept(upgrade, versions, more, i + 1, head, next.value);
      }
    }
  }

  /** Upgrading to an intermediate head and later to a new one gives what upgrading at once
      gives, provided the document at the intermediate head carries no stamp of the
      upgraders' own. */
  lemma StagesCompose(
    m: Manifest, more: seq<string>, current: string, upgrade: Upgrader, document: Document)
    requires Materialize(Some(m), upgrade, document).Ok?
    requires
      var mid, head := Position(m.versions, m.current), Position(m.versions + more, current);
      mid.Some? && head.Some? && mid.value <= head.value
      && (mid.value < head.value ==> Unstamped(m, upgrade, document))
    ensures
      var later := Some(Manifest(current, m.versions + more));
      Materialize(later, upgrade, Materialize(Some(m), upgrade, document).value) == Materialize(later, upgrade, document)
  {
    var versions := m.versions + more;
    var result := Materialize(Some(m), upgrade, document).value;
    var from, mid, head :=
      Position(m.versions, VersionOf(document, m.versions)), Position(m.versions, m.current), Position(versions, current);
    PositionKept(m.versions, more, m.current);
    PositionKept(m.versions, more, VersionOf(document, m.versions));
    PositionHolds(m.versions, m.current);
    PositionHolds(versions, current);
    assert versions[0] == m.versions[0];
    if from.value < mid.value {
      var bare := document - {VERSION_FIELD};
      ChainSplits(upgrade, versions, from.value, mid.value, head.value, bare);
      ChainKept(upgrade, m.versions, more, from.value, mid.value, bare);
      var first := Chain(upgrade, m.versions, from.value, mid.value, bare).value;
      if mid.value < head.value {
        assert result - {VERSION_FIELD} == first;
      }
      if mid.value == head.value {
        assert current == m.current by {
          assert versions[head.value] == current && versions[mid.value] == m.versions[mid.value];
        }
      }
    }
  }

  /** An upgrader that stamps its result shows the difference: the next one sees the stamp
      when the stages run at once and not when they run apart. */
  function StampingUpgrade(v: string, w: string, document: Document): Result<Document, SchemaError> {
    if VERSION_FIELD in document then Ok(map["seen" := Bool(true)]) else Ok(map[VERSION_FIELD := Str(w)])
  }

  lemma StampsBreakStages()
    ensures
      var one, two := Manifest("2", ["1", "2"]), Manifest("3", ["1", "2", "3"]);
      var empty: Document := map[];
      var mid := Materialize(Some(one), StampingUpgrade, empty);
      && mid.Ok?
      && Materialize(Some(two), StampingUpgrade, mid.value) != Materialize(Some(two), StampingUpgrade, empty)
  {
    var one, two := Manifest("2", ["1", "2"]), Manifest("3", ["1", "2", "3"]);
    var empty: Document := map[];
    assert empty - {VERSION_FIELD} == empty;
    ThreeLabels();
    var first: Document := map[VERSION_FIELD := Str("2")];
    assert StampingUpgrade("1", "2", empty) == Ok(first);
    assert Chain(StampingUpgrade, one.versions, 1, 1, first) == Ok(first);
    assert Chain(StampingUpgrade, one.versions, 0, 1, empty) == Ok(first);
    var mid := Materialize(Some(one), StampingUpgrade, empty);
    assert mid.value == first[VERSION_FIELD := Str("2")] == first;
    assert first - {VERSION_FIELD} == empty;
    var third: Document := map[VERSION_FIELD := Str("3")];
    var seen: Document := map["seen" := Bool(true)];
    assert StampingUpgrade("2", "3", empty) == Ok(third) && StampingUpgrade("2", "3", first) == Ok(seen);
    assert Chain(StampingUpgrade, two.versions, 2, 2, third) == Ok(third);
    assert Chain(StampingUpgrade, two.versions, 1, 2, empty) == Ok(third);
    assert Chain(StampingUpgrade, two.versions, 2, 2, seen) == Ok(seen);
    assert Chain(StampingUpgrade, two.versions, 1, 2, first) == Ok(seen);
    assert Chain(StampingUpgrade, two.versions, 0, 2, empty) == Ok(seen);
    assert "seen" in Materialize(Some(two), StampingUpgrade, empty).value;
    assert "seen" !in Materialize(Some(two), StampingUpgrade, first).value;
  }

  lemma ThreeLabels()
    ensures Position(["1", "2"], "1") == Some(0) && Position(["1", "2"], "2") == Some(1)
    ensures Position(["1", "2", "3"], "1") == Some(0) && Position(["1", "2", "3"], "2") == Some(1)
    ensures Position(["1", "2", "3"], "3") == Some(2)
  {
    assert ["1", "2"][1..] == ["2"] && ["1", "2", "3"][1..] == ["2", "3"] && ["2", "3"][1..] == ["3"];
    assert "1" != "2" && "2" != "3" && "1" != "3";
  }
}
