/** `buildJsonDiff`: the rows it lists, read as a patch. Paths are lists of keys. */
module JsonDiff {
  import opened Outcomes
  import opened FirstUses

  /** A JSON value. An object is its keys in order and their values. `Native` is a member that an object
      only inherits, such as `toString`: a function, which JSON cannot hold. */
  datatype Json =
    | Null
    | Bool(b: bool)
    | Num(n: real)
    | Str(s: string)
    | Arr(items: seq<Json>)
    | Obj(keys: seq<string>, at: map<string, Json>)
    | Native(name: string)

  /** What `k in object` finds on every object besides its own keys. */
  const INHERITED := {
    "constructor", "hasOwnProperty", "isPrototypeOf", "propertyIsEnumerable", "toLocaleString", "toString",
    "valueOf", "__defineGetter__", "__defineSetter__", "__lookupGetter__", "__lookupSetter__"
  }

  /** A row; `None` stands for `undefined`. */
  datatype Row = Row(path: seq<string>, before: Option<Json>, after: Option<Json>)

  /** Objects list each of their keys once, and nothing is `Native`. */
  ghost predicate IsJson(v: Json) {
    match v
    case Arr(items) => forall x | x in items :: IsJson(x)
    case Obj(keys, at) =>
      && (forall k :: k in keys <==> k in at)
      && (forall i, j | 0 <= i < j < |keys| :: keys[i] != keys[j])
      && (forall k | k in at :: IsJson(at[k]))
    case Native(_) => false
    case _ => true
  }

  /** Equal up to the order of keys in objects that the walk descends into. */
  ghost predicate Same(a: Json, b: Json)
    decreases a
  {
    if a.Obj? && b.Obj? then a.at.Keys == b.at.Keys && forall k | k in a.at :: k in b.at && Same(a.at[k], b.at[k])
    else a == b
  }

  // ----- the walk -----

  predicate In(k: string, v: Json)
    requires v.Obj?
  {
    k in v.at || k in INHERITED
  }

  function Get(v: Json, k: string): Json
    requires v.Obj?
  {
    if k in v.at then v.at[k] else Native(k)
  }

  /** The keys of both, each once, those of `a` first. */
  function UnionKeys(a: seq<string>, b: seq<string>): (keys: seq<string>)
    ensures forall k :: k in keys <==> k in a || k in b
    ensures forall i, j | 0 <= i < j < |keys| :: keys[i] != keys[j]
  {
    Distinct(a + b)
  }

  function Under(k: string, rows: seq<Row>): (under: seq<Row>)
    ensures |under| == |rows|
  {
    if rows == [] then []
    else [rows[0].(path := [k] + rows[0].path)] + Under(k, rows[1..])
  }

  /** At least one side is no object: one row, unless both print the same. */
  function LeafDiff(a: Json, b: Json): seq<Row> {
    if a == b then [] else [Row([], Some(a), Some(b))]
  }

  function Diff(a: Json, b: Json): seq<Row>
    decreases a, 2, 0
  {
    if !a.Obj? || !b.Obj? then LeafDiff(a, b)
    else DiffKeys(a, b, UnionKeys(a.keys, b.keys))
  }

  function DiffKeys(a: Json, b: Json, keys: seq<string>): seq<Row>
    requires a.Obj? && b.Obj?
    decreases a, 1, |keys|
  {
    if keys == [] then []
    else DiffKey(a, b, keys[0]) + DiffKeys(a, b, keys[1..])
  }

  function DiffKey(a: Json, b: Json, k: string): seq<Row>
    requires a.Obj? && b.Obj?
    decreases a, 0, 0
  {
    if !In(k, a) then [Row([k], None, Some(Get(b, k)))]
    else if !In(k, b) then [Row([k], Some(Get(a, k)), None)]
    else if k in a.at then Under(k, Diff(a.at[k], Get(b, k)))
    else Under(k, LeafDiff(Native(k), Get(b, k)))
  }

  // ----- the rows as a patch -----

  function Set(v: Json, k: string, x: Json): Json
    requires v.Obj?
  {
    Obj(if k in v.at then v.keys else v.keys + [k], v.at[k := x])
  }

  function Without(keys: seq<string>, k: string): seq<string> {
    if keys == [] then []
    else (if keys[0] == k then [] else [keys[0]]) + Without(keys[1..], k)
  }

  function Remove(v: Json, k: string): Json
    requires v.Obj?
  {
    Obj(Without(v.keys, k), v.at - {k})
  }

  /** Put the row's new value at its path; `undefined` removes the key. */
  function ApplyRow(v: Json, path: seq<string>, x: Option<Json>): Json
    decreases |path|
  {
    if path == [] then (if x.Some? then x.value else v)
    else if !v.Obj? then v
    else if |path| == 1 then (if x.Some? then Set(v, path[0], x.value) else Remove(v, path[0]))
    else if path[0] in v.at then Set(v, path[0], ApplyRow(v.at[path[0]], path[1..], x))
    else v
  }

  function Apply(v: Json, rows: seq<Row>): Json
    decreases |rows|
  {
    if rows == [] then v else Apply(ApplyRow(v, rows[0].path, rows[0].after), rows[1..])
  }

  lemma {:induction false} ApplyConcat(v: Json, x: seq<Row>, y: seq<Row>)
    ensures Apply(v, x + y) == Apply(Apply(v, x), y)
    decreases |x|
  {
    if x == [] {
      assert x + y == y;
    } else {
      assert (x + y)[1..] == x[1..] + y;
      ApplyConcat(ApplyRow(v, x[0].path, x[0].after), x[1..], y);
    }
  }

  ghost predicate NeverRemovesRoot(rows: seq<Row>) {
    forall row | row in rows :: row.path == [] ==> row.after.Some?
  }

  /** Rows under a key change that key alone, as they would change its value. */
  lemma {:induction false} ApplyUnder(v: Json, k: string, rows: seq<Row>)
    requires v.Obj? && k in v.at && NeverRemovesRoot(rows)
    ensures var after := Apply(v, Under(k, rows));
            after.Obj? && after.at == v.at[k := Apply(v.at[k], rows)]
    decreases |rows|
  {
    if rows != [] {
      assert rows[0] in rows;
      assert ([k] + rows[0].path)[1..] == rows[0].path;
      var next := ApplyRow(v, [k] + rows[0].path, rows[0].after);
      assert next.Obj? && next.at == v.at[k := ApplyRow(v.at[k], rows[0].path, rows[0].after)];
      ApplyUnder(next, k, rows[1..]);
    }
  }

  /** The patch would leave a function behind: a removed key that every object inherits. */
  ghost predicate LeavesNative(a: Json, b: Json)
    decreases a
  {
    && a.Obj? && b.Obj?
    && exists k :: k in a.at && ((k !in b.at && k in INHERITED) || (k in b.at && LeavesNative(a.at[k], b.at[k])))
  }

  /** What the patch leaves at one key. */
  function Patched(a: Json, b: Json, k: string): Option<Json>
    requires a.Obj? && b.Obj?
  {
    if k in b.at then Some(if k in a.at then Apply(a.at[k], Diff(a.at[k], b.at[k])) else b.at[k])
    else if k in a.at && k in INHERITED then Some(Native(k))
    else None
  }

  lemma {:induction false} DiffKeepsRoot(a: Json, b: Json)
    ensures NeverRemovesRoot(Diff(a, b))
  {
    if a.Obj? && b.Obj? {
      PathsOfKeys(a, b, UnionKeys(a.keys, b.keys));
    }
  }

  lemma {:induction false} PathsUnder(k: string, rows: seq<Row>)
    ensures forall i | 0 <= i < |rows| :: Under(k, rows)[i] == rows[i].(path := [k] + rows[i].path)
  {
    if rows != [] {
      PathsUnder(k, rows[1..]);
    }
  }

  /** The rows of an object start with one of its keys. */
  lemma {:induction false} PathsOfKeys(a: Json, b: Json, keys: seq<string>)
    requires a.Obj? && b.Obj?
    ensures forall row | row in DiffKeys(a, b, keys) :: row.path != [] && row.path[0] in keys
    decreases |keys|
  {
    if keys != [] {
      PathsOfKeys(a, b, keys[1..]);
      PathsOfKey(a, b, keys[0]);
    }
  }

  lemma PathsOfKey(a: Json, b: Json, k: string)
    requires a.Obj? && b.Obj?
    ensures forall row | row in DiffKey(a, b, k) :: row.path != [] && row.path[0] == k
  {
    if In(k, a) && In(k, b) {
      PathsUnder(k, if k in a.at then Diff(a.at[k], Get(b, k)) else LeafDiff(Native(k), Get(b, k)));
    }
  }

  lemma ApplyKey(v: Json, a: Json, b: Json, k: string)
    requires v.Obj? && a.Obj? && b.Obj? && IsJson(a) && IsJson(b) && (k in a.at || k in b.at)
    requires (k in v.at <==> k in a.at) && (k in a.at ==> v.at[k] == a.at[k])
    ensures var after := Apply(v, DiffKey(a, b, k));
            && after.Obj?
            && after.at == match Patched(a, b, k)
                           case Some(x) => v.at[k := x]
                           case None => v.at - {k}
  {
    if k in a.at && In(k, b) {
      DiffKeepsRoot(a.at[k], Get(b, k));
      ApplyUnder(v, k, Diff(a.at[k], Get(b, k)));
      if k !in b.at {
        assert Diff(a.at[k], Native(k)) == [Row([], Some(a.at[k]), Some(Native(k)))];
      }
    } else if k !in a.at && k in INHERITED {
      var row := Row([k], Some(Native(k)), Some(b.at[k]));
      assert LeafDiff(Native(k), b.at[k]) == [Row([], Some(Native(k)), Some(b.at[k]))];
      assert [k] + [] == [k];
      assert DiffKey(a, b, k) == [row];
    }
  }

  lemma {:induction false} ApplyKeys(v: Json, a: Json, b: Json, keys: seq<string>)
    requires v.Obj? && a.Obj? && b.Obj? && IsJson(a) && IsJson(b)
    requires forall i, j | 0 <= i < j < |keys| :: keys[i] != keys[j]
    requires forall k | k in keys ::
               (k in a.at || k in b.at) && (k in v.at <==> k in a.at) && (k in a.at ==> v.at[k] == a.at[k])
    ensures var after := Apply(v, DiffKeys(a, b, keys));
            && after.Obj?
            && (forall k | k in keys ::
                  (k in after.at <==> Patched(a, b, k).Some?) && (k in after.at ==> after.at[k] == Patched(a, b, k).value))
            && (forall k | k !in keys :: (k in after.at <==> k in v.at) && (k in v.at ==> after.at[k] == v.at[k]))
    decreases |keys|
  {
    if keys != [] {
      var k := keys[0];
      assert k in keys;
      ApplyConcat(v, DiffKey(a, b, k), DiffKeys(a, b, keys[1..]));
      ApplyKey(v, a, b, k);
      ApplyKeys(Apply(v, DiffKey(a, b, k)), a, b, keys[1..]);
    }
  }

  lemma PatchedEverywhere(a: Json, b: Json, k: string)
    requires a.Obj? && b.Obj? && IsJson(a) && IsJson(b)
    ensures var after := Apply(a, Diff(a, b));
            && after.Obj?
            && (k in after.at <==> Patched(a, b, k).Some?)
            && (k in after.at ==> after.at[k] == Patched(a, b, k).value)
  {
    ApplyKeys(a, a, b, UnionKeys(a.keys, b.keys));
  }

  /** Applying the rows to the old value gives the new one, up to key order, exactly when no key that
      every object inherits has been removed. */
  lemma {:induction false} DiffIsAPatchUnlessAnInheritedKeyIsRemoved(a: Json, b: Json)
    requires IsJson(a) && IsJson(b)
    ensures Same(Apply(a, Diff(a, b)), b) <==> !LeavesNative(a, b)
    decreases a
  {
    if a.Obj? && b.Obj? {
      var after := Apply(a, Diff(a, b));
      PatchedEverywhere(a, b, "");
      forall k
        ensures && (k in after.at <==> k in b.at || (k in a.at && k in INHERITED))
                && (k in b.at && k in a.at ==> (Same(after.at[k], b.at[k]) <==> !LeavesNative(a.at[k], b.at[k])))
                && (k in b.at && k !in a.at ==> Same(after.at[k], b.at[k]))
      {
        PatchedEverywhere(a, b, k);
        if k in b.at {
          SameAsItself(b.at[k]);
          if k in a.at {
            DiffIsAPatchUnlessAnInheritedKeyIsRemoved(a.at[k], b.at[k]);
          }
        }
      }
      SameExactlyWithoutNative(a, b, after);
    } else {
      SameAsItself(b);
    }
  }

  lemma SameExactlyWithoutNative(a: Json, b: Json, after: Json)
    requires a.Obj? && b.Obj? && after.Obj?
    requires forall k ::
               && (k in after.at <==> k in b.at || (k in a.at && k in INHERITED))
               && (k in b.at && k in a.at ==> (Same(after.at[k], b.at[k]) <==> !LeavesNative(a.at[k], b.at[k])))
               && (k in b.at && k !in a.at ==> Same(after.at[k], b.at[k]))
    ensures Same(after, b) <==> !LeavesNative(a, b)
  {}

  lemma {:induction false} SameAsItself(v: Json)
    ensures Same(v, v)
    decreases v
  {
    if v.Obj? {
      forall k | k in v.at
        ensures Same(v.at[k], v.at[k])
      {
        SameAsItself(v.at[k]);
      }
    }
  }

  /** There are no rows exactly when nothing differs. */
  lemma {:induction false} NoRowsExactlyWhenSame(a: Json, b: Json)
    requires IsJson(a) && IsJson(b)
    ensures Diff(a, b) == [] <==> Same(a, b)
    decreases a
  {
    if a.Obj? && b.Obj? {
      hide Diff, DiffKeys, Distinct, Under;
      var keys := UnionKeys(a.keys, b.keys);
      forall k | k in keys
        ensures DiffKey(a, b, k) == [] <==> k in a.at && k in b.at && Same(a.at[k], b.at[k])
      {
        if k in a.at && k in b.at {
          NoRowsExactlyWhenSame(a.at[k], b.at[k]);
        } else {
          OneSidedKeyHasARow(a, b, k);
        }
      }
      DiffOfObjects(a, b);
      NoRowsForKeys(a, b, keys);
    }
  }

  lemma OneSidedKeyHasARow(a: Json, b: Json, k: string)
    requires a.Obj? && b.Obj? && IsJson(a) && IsJson(b) && (k in a.at <==> k !in b.at)
    ensures DiffKey(a, b, k) != []
  {
    if k in a.at {
      DiffOfLeaf(a.at[k], Native(k));
    }
    hide INHERITED, Diff;
  }

  lemma {:induction false} NoRowsForKeys(a: Json, b: Json, keys: seq<string>)
    requires a.Obj? && b.Obj?
    ensures DiffKeys(a, b, keys) == [] <==> forall k | k in keys :: DiffKey(a, b, k) == []
    decreases |keys|
  {
    if keys != [] {
      var rest := keys[1..];
      NoRowsForKeys(a, b, rest);
      assert keys[0] in keys && forall k | k in rest :: k in keys;
      assert DiffKeys(a, b, keys) == [] <==> DiffKey(a, b, keys[0]) == [] && DiffKeys(a, b, rest) == [];
      assert forall k | k in keys :: k == keys[0] || k in rest;
    }
  }

  /** Removing `toString` is recorded as changing it to the inherited function. */
  lemma RemovedInheritedKeyIsNotRemovedByThePatch()
    ensures var a, b := Obj(["toString"], map["toString" := Null]), Obj([], map[]);
            && IsJson(a) && IsJson(b)
            && Diff(a, b) == [Row(["toString"], Some(Null), Some(Native("toString")))]
            && !Same(Apply(a, Diff(a, b)), b)
  {
    hide Diff, DiffKey, Apply, Same;
    var a, b := Obj(["toString"], map["toString" := Null]), Obj([], map[]);
    OneKeyDiff(a, b, "toString");
    RemovedInheritedKeyRow(a, b, "toString");
    assert "toString" in a.at && "toString" !in b.at && "toString" in INHERITED;
    DiffIsAPatchUnlessAnInheritedKeyIsRemoved(a, b);
  }

  lemma RemovedInheritedKeyRow(a: Json, b: Json, k: string)
    requires a.Obj? && b.Obj? && k in a.at && k !in b.at && k in INHERITED && IsJson(a.at[k])
    ensures DiffKey(a, b, k) == [Row([k], Some(a.at[k]), Some(Native(k)))]
  {
    DiffOfLeaf(a.at[k], Native(k));
    assert [k] + [] == [k];
    hide INHERITED, Diff;
  }

  lemma OneKeyDiff(a: Json, b: Json, k: string)
    requires a.Obj? && b.Obj? && a.keys == [k] && b.keys == []
    ensures Diff(a, b) == DiffKey(a, b, k)
  {
    hide DiffKey, Diff, DiffKeys;
    DistinctOfAppended([], k);
    assert a.keys + b.keys == [] + [k];
    DiffOfObjects(a, b);
    DiffKeysStep(a, b, [k], 0);
    assert [k][0..] == [k];
    NoKeysNoRows(a, b, [], [k]);
  }

  // ----- the shape of the rows -----

  ghost predicate PrefixFree(rows: seq<Row>) {
    forall i, j | 0 <= i < |rows| && 0 <= j < |rows| && i != j :: !(rows[i].path <= rows[j].path)
  }

  lemma UnderIsPrefixFree(k: string, rows: seq<Row>)
    requires PrefixFree(rows)
    ensures PrefixFree(Under(k, rows))
  {
    PathsUnder(k, rows);
    var under := Under(k, rows);
    forall i, j | 0 <= i < |under| && 0 <= j < |under| && i != j
      ensures !(under[i].path <= under[j].path)
    {
      assert under[i].path[1..] == rows[i].path && under[j].path[1..] == rows[j].path;
      assert !(rows[i].path <= rows[j].path);
    }
  }

  /** No row lies above another. */
  lemma {:induction false} RowsDoNotOverlap(a: Json, b: Json)
    requires IsJson(a) && IsJson(b)
    ensures PrefixFree(Diff(a, b))
    decreases a, 2, 0
  {
    if a.Obj? && b.Obj? {
      RowsOfKeysDoNotOverlap(a, b, UnionKeys(a.keys, b.keys));
    }
  }

  lemma {:induction false} RowsOfKeysDoNotOverlap(a: Json, b: Json, keys: seq<string>)
    requires a.Obj? && b.Obj? && IsJson(a) && IsJson(b)
    requires forall i, j | 0 <= i < j < |keys| :: keys[i] != keys[j]
    ensures PrefixFree(DiffKeys(a, b, keys))
    decreases a, 1, |keys|
  {
    if keys != [] {
      var k := keys[0];
      RowsOfKeysDoNotOverlap(a, b, keys[1..]);
      RowsOfKeyDoNotOverlap(a, b, k);
      PathsOfKey(a, b, k);
      PathsOfKeys(a, b, keys[1..]);
      ConcatPrefixFree(DiffKey(a, b, k), DiffKeys(a, b, keys[1..]), k);
    }
  }

  lemma {:induction false} RowsOfKeyDoNotOverlap(a: Json, b: Json, k: string)
    requires a.Obj? && b.Obj? && IsJson(a) && IsJson(b)
    ensures PrefixFree(DiffKey(a, b, k))
    decreases a, 0, 0
  {
    if k in a.at && In(k, b) {
      if k in b.at {
        RowsDoNotOverlap(a.at[k], b.at[k]);
      }
      UnderIsPrefixFree(k, Diff(a.at[k], Get(b, k)));
    }
  }

  lemma ConcatPrefixFree(x: seq<Row>, y: seq<Row>, k: string)
    requires PrefixFree(x) && PrefixFree(y)
    requires forall row | row in x :: row.path != [] && row.path[0] == k
    requires forall row | row in y :: row.path != [] && row.path[0] != k
    ensures PrefixFree(x + y)
  {}

  function Swapped(row: Row): Row { Row(row.path, row.after, row.before) }

  /** Comparing the other way round gives the same paths with old and new values swapped. */
  lemma {:induction false} DiffBackwardsSwapsRows(a: Json, b: Json, row: Row)
    requires IsJson(a) && IsJson(b)
    ensures row in Diff(a, b) <==> Swapped(row) in Diff(b, a)
    decreases a
  {
    if a.Obj? && b.Obj? {
      var keys, back := UnionKeys(a.keys, b.keys), UnionKeys(b.keys, a.keys);
      RowInKeys(a, b, keys, row);
      RowInKeys(b, a, back, Swapped(row));
      forall k | k in keys
        ensures row in DiffKey(a, b, k) <==> Swapped(row) in DiffKey(b, a, k)
      {
        DiffKeyBackwards(a, b, k, row);
      }
    }
  }

  lemma {:induction false} RowInKeys(a: Json, b: Json, keys: seq<string>, row: Row)
    requires a.Obj? && b.Obj?
    ensures row in DiffKeys(a, b, keys) <==> exists k :: k in keys && row in DiffKey(a, b, k)
    decreases |keys|
  {
    if keys != [] {
      var rest := keys[1..];
      RowInKeys(a, b, rest, row);
      DiffKeysStep(a, b, keys, 0);
      assert keys[0..] == keys;
      hide DiffKey, DiffKeys;
      if row in DiffKey(a, b, keys[0]) {
        assert keys[0] in keys;
      }
      if k :| k in rest && row in DiffKey(a, b, k) {
        assert k in keys;
      }
      assert forall k | k in keys :: k == keys[0] || k in rest;
    }
  }

  lemma {:induction false} RowUnder(k: string, rows: seq<Row>, row: Row)
    ensures row in Under(k, rows) <==>
              row.path != [] && row.path[0] == k && row.(path := row.path[1..]) in rows
  {
    PathsUnder(k, rows);
    if row in Under(k, rows) {
      var i :| 0 <= i < |rows| && Under(k, rows)[i] == row;
      assert row.path[1..] == rows[i].path;
      assert rows[i] == row.(path := row.path[1..]);
    }
    if row.path != [] && row.path[0] == k && row.(path := row.path[1..]) in rows {
      var i :| 0 <= i < |rows| && rows[i] == row.(path := row.path[1..]);
      assert [k] + rows[i].path == row.path;
      assert Under(k, rows)[i] == row;
    }
  }

  lemma {:induction false} DiffKeyBackwards(a: Json, b: Json, k: string, row: Row)
    requires a.Obj? && b.Obj? && IsJson(a) && IsJson(b) && (k in a.at || k in b.at)
    ensures row in DiffKey(a, b, k) <==> Swapped(row) in DiffKey(b, a, k)
    decreases a, 0
  {
    if In(k, a) && In(k, b) {
      var rows := if k in a.at then Diff(a.at[k], Get(b, k)) else LeafDiff(Native(k), Get(b, k));
      var back := if k in b.at then Diff(b.at[k], Get(a, k)) else LeafDiff(Native(k), Get(a, k));
      RowUnder(k, rows, row);
      RowUnder(k, back, Swapped(row));
      if row.path != [] && k in a.at && k in b.at {
        DiffBackwardsSwapsRows(a.at[k], b.at[k], row.(path := row.path[1..]));
      }
    }
  }

  // ----- which rows there are -----

  /** What a path leads to; a key that every object inherits leads somewhere in every object. */
  function Look(v: Json, path: seq<string>): Option<Json>
    decreases |path|
  {
    if path == [] then Some(v)
    else if !v.Obj? then None
    else if path[0] in v.at then Look(v.at[path[0]], path[1..])
    else if path[0] in INHERITED then Look(Native(path[0]), path[1..])
    else None
  }

  ghost predicate BothObjects(x: Option<Json>, y: Option<Json>) {
    x.Some? && y.Some? && x.value.Obj? && y.value.Obj?
  }

  /** The two values differ at the path, and the walk ends there: above it both have objects, one of which has
      the last key, and at it one side has nothing, or the two are not both objects. */
  ghost predicate WalkEndsAt(a: Json, b: Json, path: seq<string>) {
    var x, y, last := Look(a, path), Look(b, path), |path| - 1;
    && x != y && !BothObjects(x, y)
    && (forall i | 0 <= i <= last :: BothObjects(Look(a, path[..i]), Look(b, path[..i])))
    && (path != [] ==>
          path[last] in Look(a, path[..last]).value.at || path[last] in Look(b, path[..last]).value.at)
  }

  lemma LookUnder(v: Json, k: string, rest: seq<string>)
    requires v.Obj?
    ensures Look(v, [k] + rest) == if k in v.at || k in INHERITED then Look(Get(v, k), rest) else None
  {
    assert ([k] + rest)[1..] == rest;
  }

  /** Below a key of both values the walk ends where it ends in the values of that key. */
  lemma WalkEndsUnder(a: Json, b: Json, k: string, rest: seq<string>)
    requires a.Obj? && b.Obj? && (k in a.at || k in b.at) && In(k, a) && In(k, b)
    ensures WalkEndsAt(a, b, [k] + rest) <==> WalkEndsAt(Get(a, k), Get(b, k), rest)
  {
    hide INHERITED;
    var path := [k] + rest;
    LookUnder(a, k, rest);
    LookUnder(b, k, rest);
    forall i | 0 <= i <= |rest|
      ensures path[..i + 1] == [k] + rest[..i]
      ensures Look(a, path[..i + 1]) == Look(Get(a, k), rest[..i])
      ensures Look(b, path[..i + 1]) == Look(Get(b, k), rest[..i])
    {
      LookUnder(a, k, rest[..i]);
      LookUnder(b, k, rest[..i]);
      assert path[..i + 1] == [k] + rest[..i];
    }
    assert path[..0] == [] && path[..1] == [k] + rest[..0];
    hide Look;
    if rest != [] {
      assert path[|path| - 1] == rest[|rest| - 1] && path[..|rest|] == [k] + rest[..|rest| - 1];
    }
    forall i | 0 <= i < |path|
      ensures i > 0 ==> Look(a, path[..i]) == Look(Get(a, k), rest[..i - 1])
      ensures i > 0 ==> Look(b, path[..i]) == Look(Get(b, k), rest[..i - 1])
    {
      if i > 0 {
        assert path[..(i - 1) + 1] == path[..i];
      }
    }
  }

  /** What a row should say, in terms of the two values alone. */
  ghost predicate Reports(a: Json, b: Json, row: Row) {
    WalkEndsAt(a, b, row.path) && row.before == Look(a, row.path) && row.after == Look(b, row.path)
  }

  lemma LeafRows(a: Json, b: Json, row: Row)
    requires !a.Obj? || !b.Obj?
    ensures row in Diff(a, b) <==> Reports(a, b, row)
  {
    DiffOfLeaf(a, b);
    if row.path != [] {
      assert row.path[..0] == [];
      assert !BothObjects(Look(a, row.path[..0]), Look(b, row.path[..0]));
    }
    hide INHERITED, Diff;
  }

  lemma WalkEndsInside(a: Json, b: Json, path: seq<string>)
    requires a.Obj? && b.Obj? && WalkEndsAt(a, b, path)
    ensures path != [] && (path[0] in a.at || path[0] in b.at)
  {
    hide INHERITED;
    if |path| > 1 {
      assert path[..1] == [path[0]];
      assert BothObjects(Look(a, path[..1]), Look(b, path[..1]));
      LookUnder(a, path[0], []);
      assert [path[0]] + [] == path[..1];
    } else if |path| == 1 {
      assert path[..0] == [];
    }
  }

  /** A key that one of two objects lacks. */
  lemma OneSidedRow(a: Json, b: Json, k: string, row: Row)
    requires a.Obj? && b.Obj? && (k in a.at || k in b.at) && !(In(k, a) && In(k, b))
    requires row.path != [] && row.path[0] == k
    ensures row in DiffKey(a, b, k) <==> Reports(a, b, row)
  {
    hide INHERITED;
    assert row.path == [k] + row.path[1..];
    LookUnder(a, k, []);
    LookUnder(b, k, []);
    assert [k] + [] == [k];
    if |row.path| == 1 {
      assert row.path == [k] && row.path[..0] == [];
    } else {
      assert row.path[..1] == [k];
      assert !BothObjects(Look(a, row.path[..1]), Look(b, row.path[..1]));
    }
    hide Look, Diff;
  }

  lemma {:induction false} KeyRows(a: Json, b: Json, k: string, row: Row)
    requires a.Obj? && b.Obj? && IsJson(a) && IsJson(b) && (k in a.at || k in b.at)
    requires row.path != [] && row.path[0] == k
    ensures row in DiffKey(a, b, k) <==> Reports(a, b, row)
    decreases a, 0
  {
    if In(k, a) && In(k, b) {
      var rest := row.(path := row.path[1..]);
      assert [k] + rest.path == row.path;
      RowUnder(k, Diff(Get(a, k), Get(b, k)), row);
      WalkEndsUnder(a, b, k, rest.path);
      LookUnder(a, k, rest.path);
      LookUnder(b, k, rest.path);
      KeyOfBoth(a, b, k);
      if k in a.at && a.at[k].Obj? && k in b.at && b.at[k].Obj? {
        RowsReportExactlyWhereTheWalkEnds(a.at[k], b.at[k], rest);
      } else {
        LeafRows(Get(a, k), Get(b, k), rest);
      }
      hide INHERITED, Diff, Look, WalkEndsAt, DiffKey, Under;
    } else {
      OneSidedRow(a, b, k, row);
    }
  }

  lemma KeyOfBoth(a: Json, b: Json, k: string)
    requires a.Obj? && b.Obj? && (k in a.at || k in b.at) && In(k, a) && In(k, b)
    ensures DiffKey(a, b, k) == Under(k, Diff(Get(a, k), Get(b, k)))
  {
    hide INHERITED, Under;
  }

  /** The rows are exactly these: as deep as both sides have objects, and no deeper. */
  lemma {:induction false} RowsReportExactlyWhereTheWalkEnds(a: Json, b: Json, row: Row)
    requires IsJson(a) && IsJson(b)
    ensures row in Diff(a, b) <==> Reports(a, b, row)
    decreases a
  {
    if a.Obj? && b.Obj? {
      var keys := UnionKeys(a.keys, b.keys);
      DiffOfObjects(a, b);
      RowInKeys(a, b, keys, row);
      forall k | k in keys && row in DiffKey(a, b, k)
        ensures row.path != [] && row.path[0] == k
      {
        PathsOfKey(a, b, k);
      }
      if Reports(a, b, row) {
        WalkEndsInside(a, b, row.path);
      }
      if row.path != [] && row.path[0] in keys {
        KeyRows(a, b, row.path[0], row);
      }
      hide Diff, DiffKey, Reports, Look;
    } else {
      LeafRows(a, b, row);
    }
  }

  /** In particular no row has an object on both sides. */
  lemma NoRowHasTwoObjects(a: Json, b: Json, row: Row)
    requires IsJson(a) && IsJson(b) && row in Diff(a, b)
    ensures !(row.before.Some? && row.before.value.Obj? && row.after.Some? && row.after.value.Obj?)
  {
    hide Diff, Look;
    RowsReportExactlyWhereTheWalkEnds(a, b, row);
  }

  ghost predicate UsedBefore(keys: seq<string>, k: string, l: string) {
    exists i: nat :: i < |keys| && keys[i] == k && l !in keys[..i + 1]
  }

  /** Where two paths part, the key of the first is used before that of the second, keys of the old object
      coming before those of the new one. */
  ghost predicate Precedes(a: Json, b: Json, p: seq<string>, q: seq<string>)
    decreases |p|
  {
    && a.Obj? && b.Obj? && p != [] && q != []
    && if p[0] == q[0] then Precedes(Get(a, p[0]), Get(b, p[0]), p[1..], q[1..])
       else UsedBefore(a.keys + b.keys, p[0], q[0])
  }

  /** Keys of the two objects in the order of their first use. */
  ghost predicate InOrderOfUse(a: Json, b: Json, keys: seq<string>)
    requires a.Obj? && b.Obj?
  {
    && (forall x, y | 0 <= x < y < |keys| :: keys[x] != keys[y] && UsedBefore(a.keys + b.keys, keys[x], keys[y]))
    && (forall x | 0 <= x < |keys| :: keys[x] in a.at || keys[x] in b.at)
  }

  lemma UnionKeysAreInOrderOfUse(a: Json, b: Json)
    requires a.Obj? && b.Obj? && IsJson(a) && IsJson(b)
    ensures InOrderOfUse(a, b, UnionKeys(a.keys, b.keys))
  {
    var keys := UnionKeys(a.keys, b.keys);
    forall x, y | 0 <= x < y < |keys|
      ensures UsedBefore(a.keys + b.keys, keys[x], keys[y])
    {
      DistinctInOrderOfFirstUse(a.keys + b.keys, x, y);
    }
    forall x | 0 <= x < |keys|
      ensures keys[x] in a.at || keys[x] in b.at
    {
      assert keys[x] in keys;
    }
  }

  lemma RestIsInOrderOfUse(a: Json, b: Json, keys: seq<string>)
    requires a.Obj? && b.Obj? && keys != [] && InOrderOfUse(a, b, keys)
    ensures keys[0] in a.at || keys[0] in b.at
    ensures InOrderOfUse(a, b, keys[1..])
    ensures forall k | k in keys[1..] :: k != keys[0] && UsedBefore(a.keys + b.keys, keys[0], k)
  {
    hide UsedBefore;
  }

  /** A row of the first key comes before those of the keys after it. */
  lemma RowBeforeThoseOfLaterKeys(a: Json, b: Json, keys: seq<string>, x: Row, y: Row)
    requires a.Obj? && b.Obj? && keys != [] && InOrderOfUse(a, b, keys)
    requires x in DiffKey(a, b, keys[0]) && y in DiffKeys(a, b, keys[1..])
    ensures Precedes(a, b, x.path, y.path)
  {
    PathsOfKey(a, b, keys[0]);
    PathsOfKeys(a, b, keys[1..]);
    RestIsInOrderOfUse(a, b, keys);
    hide DiffKeys, DiffKey, InOrderOfUse, UsedBefore;
  }

  lemma {:induction false} KeyRowsInOrder(a: Json, b: Json, keys: seq<string>, i: nat, j: nat)
    requires a.Obj? && b.Obj? && IsJson(a) && IsJson(b) && InOrderOfUse(a, b, keys)
    requires i < j < |DiffKeys(a, b, keys)|
    ensures Precedes(a, b, DiffKeys(a, b, keys)[i].path, DiffKeys(a, b, keys)[j].path)
    decreases a, 1, |keys|
  {
    hide DiffKeys, DiffKey, Diff, IsJson, Precedes, InOrderOfUse, UsedBefore;
    if keys == [] {
      NoKeysNoRows(a, b, [], keys);
    } else {
      DiffKeysStep(a, b, keys, 0);
      RestIsInOrderOfUse(a, b, keys);
      assert keys[0..] == keys;
      var first, rest := DiffKey(a, b, keys[0]), DiffKeys(a, b, keys[1..]);
      if j < |first| {
        RowsOfOneKeyInOrder(a, b, keys[0], i, j);
      } else if i >= |first| {
        KeyRowsInOrder(a, b, keys[1..], i - |first|, j - |first|);
      } else {
        RowBeforeThoseOfLaterKeys(a, b, keys, first[i], rest[j - |first|]);
      }
    }
  }

  lemma {:induction false} RowsOfOneKeyInOrder(a: Json, b: Json, k: string, i: nat, j: nat)
    requires a.Obj? && b.Obj? && IsJson(a) && IsJson(b) && (k in a.at || k in b.at)
    requires i < j < |DiffKey(a, b, k)|
    ensures Precedes(a, b, DiffKey(a, b, k)[i].path, DiffKey(a, b, k)[j].path)
    decreases a, 0
  {
    hide INHERITED;
    OneRowUnlessObjects(a, b, k);
    var rows := Diff(a.at[k], b.at[k]);
    KeyOfBoth(a, b, k);
    PathsUnder(k, rows);
    RowsComeInKeyOrder(a.at[k], b.at[k], i, j);
    assert ([k] + rows[i].path)[1..] == rows[i].path && ([k] + rows[j].path)[1..] == rows[j].path;
  }

  lemma OneRowUnlessObjects(a: Json, b: Json, k: string)
    requires a.Obj? && b.Obj? && (k in a.at || k in b.at)
    ensures |DiffKey(a, b, k)| > 1 ==> k in a.at && k in b.at && a.at[k].Obj? && b.at[k].Obj?
  {
    hide INHERITED;
    if In(k, a) && In(k, b) && !(Get(a, k).Obj? && Get(b, k).Obj?) {
      KeyOfBoth(a, b, k);
      DiffOfLeaf(Get(a, k), Get(b, k));
    }
  }

  /** The rows come in the order of the keys, at every depth. */
  lemma {:induction false} RowsComeInKeyOrder(a: Json, b: Json, i: nat, j: nat)
    requires IsJson(a) && IsJson(b) && i < j < |Diff(a, b)|
    ensures Precedes(a, b, Diff(a, b)[i].path, Diff(a, b)[j].path)
    decreases a, 2
  {
    if a.Obj? && b.Obj? {
      DiffOfObjects(a, b);
      UnionKeysAreInOrderOfUse(a, b);
      KeyRowsInOrder(a, b, UnionKeys(a.keys, b.keys), i, j);
    } else {
      DiffOfLeaf(a, b);
    }
  }

  // ----- the walk, statement by statement -----

  /** Rows moved below a path. */
  function Below(path: seq<string>, rows: seq<Row>): (below: seq<Row>)
    ensures |below| == |rows|
  {
    if rows == [] then []
    else [rows[0].(path := path + rows[0].path)] + Below(path, rows[1..])
  }

  lemma {:induction false} BelowConcat(path: seq<string>, x: seq<Row>, y: seq<Row>)
    ensures Below(path, x + y) == Below(path, x) + Below(path, y)
  {
    if x == [] {
      assert x + y == y;
    } else {
      assert (x + y)[1..] == x[1..] + y;
      BelowConcat(path, x[1..], y);
    }
  }

  lemma {:induction false} BelowUnder(path: seq<string>, k: string, rows: seq<Row>)
    ensures Below(path, Under(k, rows)) == Below(path + [k], rows)
  {
    if rows != [] {
      BelowUnder(path, k, rows[1..]);
      assert path + ([k] + rows[0].path) == (path + [k]) + rows[0].path;
      assert Under(k, rows)[1..] == Under(k, rows[1..]);
    }
  }

  lemma {:induction false} BelowNothing(rows: seq<Row>)
    ensures Below([], rows) == rows
  {
    if rows != [] {
      BelowNothing(rows[1..]);
      assert [] + rows[0].path == rows[0].path;
    }
  }

  lemma DiffKeysStep(a: Json, b: Json, keys: seq<string>, i: nat)
    requires a.Obj? && b.Obj? && i < |keys|
    ensures DiffKeys(a, b, keys[i..]) == DiffKey(a, b, keys[i]) + DiffKeys(a, b, keys[i + 1..])
  {}

  lemma DiffOfLeaf(a: Json, b: Json)
    requires !a.Obj? || !b.Obj?
    ensures Diff(a, b) == LeafDiff(a, b)
  {}

  lemma DiffOfObjects(a: Json, b: Json)
    requires a.Obj? && b.Obj?
    ensures Diff(a, b) == DiffKeys(a, b, UnionKeys(a.keys, b.keys))
  {}

  lemma NoKeysNoRows(a: Json, b: Json, path: seq<string>, keys: seq<string>)
    requires a.Obj? && b.Obj?
    ensures Below(path, DiffKeys(a, b, keys[|keys|..])) == []
  {}

  /** The array the inner function pushes to. */
  class RowList {
    var rows: seq<Row>

    constructor ()
      ensures rows == []
    {
      rows := [];
    }

    method Push(path: seq<string>, before: Option<Json>, after: Option<Json>)
      modifies this
      ensures rows == old(rows) + [Row(path, before, after)]
    {
      rows := rows + [Row(path, before, after)];
    }

    method WalkLeaf(a: Json, b: Json, path: seq<string>)
      modifies this
      ensures rows == old(rows) + Below(path, LeafDiff(a, b))
    {
      if a != b {
        assert path + [] == path;
        assert Below(path, LeafDiff(a, b)) == [Row(path, Some(a), Some(b))];
        Push(path, Some(a), Some(b));
      }
    }

    /** The rows of `a` against `b` are pushed, each below `path`. Two objects that are one and the same
        are walked here as well; `NoRowsExactlyWhenSame` shows that this pushes nothing. */
    method Walk(a: Json, b: Json, path: seq<string>)
      requires IsJson(a)
      modifies this
      ensures rows == old(rows) + Below(path, Diff(a, b))
      decreases a, 1
    {
      hide Diff, DiffKeys, DiffKey, LeafDiff, Below, IsJson;
      if !a.Obj? || !b.Obj? {
        DiffOfLeaf(a, b);
        WalkLeaf(a, b, path);
        return;
      }
      var keys := UnionKeys(a.keys, b.keys);
      ghost var start := rows;
      DiffOfObjects(a, b);
      assert keys[0..] == keys;
      for i := 0 to |keys|
        invariant start + Below(path, Diff(a, b)) == rows + Below(path, DiffKeys(a, b, keys[i..]))
      {
        WalkKey(a, b, keys[i], path);
        DiffKeysStep(a, b, keys, i);
        BelowConcat(path, DiffKey(a, b, keys[i]), DiffKeys(a, b, keys[i + 1..]));
      }
      NoKeysNoRows(a, b, path, keys);
    }

    method WalkKey(a: Json, b: Json, k: string, path: seq<string>)
      requires a.Obj? && b.Obj? && IsJson(a)
      modifies this
      ensures rows == old(rows) + Below(path, DiffKey(a, b, k))
      decreases a, 0
    {
      hide Diff;
      var p := path + [k];
      if !In(k, a) {
        Push(p, None, Some(Get(b, k)));
      } else if !In(k, b) {
        Push(p, Some(Get(a, k)), None);
      } else if k in a.at {
        Walk(a.at[k], Get(b, k), p);
        BelowUnder(path, k, Diff(a.at[k], Get(b, k)));
      } else {
        WalkLeaf(Get(a, k), Get(b, k), p);
        BelowUnder(path, k, LeafDiff(Native(k), Get(b, k)));
      }
    }
  }

  method BuildJsonDiff(oldValues: Json, newValues: Json) returns (rows: seq<Row>)
    requires IsJson(oldValues)
    ensures rows == Diff(oldValues, newValues)
    ensures IsJson(newValues) ==> forall row :: row in rows <==> Reports(oldValues, newValues, row)
  {
    hide Diff, Reports;
    var list := new RowList();
    list.Walk(oldValues, newValues, []);
    BelowNothing(Diff(oldValues, newValues));
    rows := list.rows;
    if IsJson(newValues) {
      forall row {
        RowsReportExactlyWhereTheWalkEnds(oldValues, newValues, row);
      }
    }
  }
}
