/** Translation trees: the deep merge, the flat index of their strings, and the lookup by dotted key. */
module Translations {
  import opened Outcomes
  import opened Splitting

  /** A string, `null`, some other value that is no object and no array, or an object. */
  datatype Tree =
    | Text(s: string)
    | Null
    | Scalar(tag: nat)
    | Node(at: map<string, Tree>)

  // ----- paths as key lists -----

  /** The strings of a tree by the keys leading to them. */
  function Flat(t: Tree): (flat: map<seq<string>, string>)
    decreases t
  {
    match t
    case Text(s) => map[[] := s]
    case Null => map[]
    case Scalar(_) => map[]
    case Node(at) =>
      map path | path in (set k, rest | k in at && rest in Flat(at[k]).Keys :: [k] + rest)
        :: if path != [] && path[0] in at && path[1..] in Flat(at[path[0]]) then Flat(at[path[0]])[path[1..]] else ""
  }

  /** What stands at the end of a key list. */
  function At(t: Tree, path: seq<string>): Option<Tree>
    decreases |path|
  {
    if path == [] then Some(t)
    else if t.Node? && path[0] in t.at then At(t.at[path[0]], path[1..])
    else None
  }

  lemma FlatOfNode(t: Tree, path: seq<string>)
    requires t.Node?
    ensures path in Flat(t) <==> path != [] && path[0] in t.at && path[1..] in Flat(t.at[path[0]])
    ensures path in Flat(t) ==> Flat(t)[path] == Flat(t.at[path[0]])[path[1..]]
  {
    if path in Flat(t) {
      var k, rest :| k in t.at && rest in Flat(t.at[k]).Keys && path == [k] + rest;
      assert path[1..] == rest;
    }
    if path != [] && path[0] in t.at && path[1..] in Flat(t.at[path[0]]) {
      assert path == [path[0]] + path[1..];
    }
  }

  /** The flat index and the lookup agree. */
  lemma {:induction false} FlatIsLookup(t: Tree, path: seq<string>, s: string)
    ensures path in Flat(t) && Flat(t)[path] == s <==> At(t, path) == Some(Text(s))
    decreases |path|
  {
    if t.Node? {
      FlatOfNode(t, path);
      if path != [] && path[0] in t.at {
        FlatIsLookup(t.at[path[0]], path[1..], s);
      }
    }
  }

  // ----- the merge -----

  /** `merge`: objects are merged key by key, anything else of `b` replaces what `a` has. */
  function Merge(a: map<string, Tree>, b: map<string, Tree>): map<string, Tree>
    decreases Node(a)
  {
    map k | k in a.Keys + b.Keys ::
      if k !in b then a[k]
      else if k in a && a[k].Node? && b[k].Node? then Node(Merge(a[k].at, b[k].at))
      else b[k]
  }

  /** Somewhere on the way the second tree has something, and the two do not both have objects. */
  ghost predicate SecondDecides(a: map<string, Tree>, b: map<string, Tree>, path: seq<string>) {
    exists i :: 0 < i <= |path| && Replaces(At(Node(a), path[..i]), At(Node(b), path[..i]))
  }

  ghost predicate Replaces(x: Option<Tree>, y: Option<Tree>) {
    y.Some? && !(x.Some? && x.value.Node? && y.value.Node?)
  }

  lemma AtUnder(at: map<string, Tree>, k: string, rest: seq<string>)
    ensures At(Node(at), [k] + rest) == if k in at then At(at[k], rest) else None
  {
    assert ([k] + rest)[1..] == rest;
  }

  lemma SecondDecidesUnder(a: map<string, Tree>, b: map<string, Tree>, k: string, rest: seq<string>)
    requires k in a && k in b && a[k].Node? && b[k].Node?
    ensures SecondDecides(a, b, [k] + rest) <==> SecondDecides(a[k].at, b[k].at, rest)
  {
    var path := [k] + rest;
    forall i | 0 <= i <= |rest|
      ensures At(Node(a), path[..i + 1]) == At(a[k], rest[..i]) && At(Node(b), path[..i + 1]) == At(b[k], rest[..i])
    {
      assert path[..i + 1] == [k] + rest[..i];
      AtUnder(a, k, rest[..i]);
      AtUnder(b, k, rest[..i]);
    }
    NothingReplaced(a[k], b[k]);
    hide At;
    if SecondDecides(a, b, path) {
      var i :| 0 < i <= |path| && Replaces(At(Node(a), path[..i]), At(Node(b), path[..i]));
      assert At(Node(a), path[..(i - 1) + 1]) == At(a[k], rest[..i - 1]);
      assert rest[..0] == [];
      assert i != 1;
      assert Replaces(At(Node(a[k].at), rest[..i - 1]), At(Node(b[k].at), rest[..i - 1]));
    }
    if SecondDecides(a[k].at, b[k].at, rest) {
      var i :| 0 < i <= |rest| && Replaces(At(Node(a[k].at), rest[..i]), At(Node(b[k].at), rest[..i]));
      assert Replaces(At(Node(a), path[..i + 1]), At(Node(b), path[..i + 1]));
    }
  }

  lemma NothingReplaced(x: Tree, y: Tree)
    requires x.Node? && y.Node?
    ensures !Replaces(At(x, []), At(y, []))
  {}

  /** What a lookup in the merge finds: what the second tree has, once it has replaced something on the way;
      until then what the first has, and the merge of the two objects where both have one. */
  lemma {:induction false} MergeLookup(a: map<string, Tree>, b: map<string, Tree>, path: seq<string>)
    requires path != []
    ensures var x, y, found := At(Node(a), path), At(Node(b), path), At(Node(Merge(a, b)), path);
            if SecondDecides(a, b, path) then found == y
            else if y.None? then found == x
            else x.Some? && x.value.Node? && y.value.Node? && found == Some(Node(Merge(x.value.at, y.value.at)))
    decreases |path|
  {
    var k, rest := path[0], path[1..];
    assert path == [k] + rest && [k] + [] == [k] && path[..1] == [k];
    AtUnder(a, k, rest);
    AtUnder(b, k, rest);
    AtUnder(Merge(a, b), k, rest);
    AtUnder(a, k, []);
    AtUnder(b, k, []);
    if k !in b {
      forall i | 0 < i <= |path|
        ensures At(Node(b), path[..i]).None?
      {
        assert path[..i] == [k] + path[1..i];
        AtUnder(b, k, path[1..i]);
      }
    } else if k in a && a[k].Node? && b[k].Node? {
      SecondDecidesUnder(a, b, k, rest);
      if rest != [] {
        MergeLookup(a[k].at, b[k].at, rest);
      }
      hide SecondDecides;
    } else {
      assert Replaces(At(Node(a), path[..1]), At(Node(b), path[..1]));
    }
  }

  predicate HasStrings(t: Tree)
    decreases t
  {
    match t
    case Text(_) => true
    case Null => false
    case Scalar(_) => false
    case Node(at) => exists k :: k in at && HasStrings(at[k])
  }

  lemma {:induction false} HasStringsExactlyWhenFlatHasRows(t: Tree)
    ensures HasStrings(t) <==> Flat(t).Keys != {}
    decreases t
  {
    if t.Node? {
      forall k | k in t.at
        ensures HasStrings(t.at[k]) <==> Flat(t.at[k]).Keys != {}
      {
        HasStringsExactlyWhenFlatHasRows(t.at[k]);
      }
      if k :| k in t.at && HasStrings(t.at[k]) {
        var rest :| rest in Flat(t.at[k]).Keys;
        assert ([k] + rest)[1..] == rest;
        FlatOfNode(t, [k] + rest);
      }
      if path :| path in Flat(t) {
        FlatOfNode(t, path);
      }
    } else if t.Text? {
      assert [] in Flat(t);
    }
  }

  /** Where the merge replaces a value, it loses no string, except to another string. */
  ghost predicate Compatible(a: map<string, Tree>, b: map<string, Tree>)
    decreases Node(a)
  {
    forall k | k in a && k in b ::
      if a[k].Node? && b[k].Node? then Compatible(a[k].at, b[k].at)
      else HasStrings(a[k]) ==> a[k].Text? && b[k].Text?
  }

  /** Flattening a merge is overriding the first index by the second, exactly for compatible trees. */
  lemma {:induction false} FlatOfMergeIsOverrideExactlyWhenCompatible(a: map<string, Tree>, b: map<string, Tree>)
    ensures Flat(Node(Merge(a, b))) == Flat(Node(a)) + Flat(Node(b)) <==> Compatible(a, b)
    decreases Node(a)
  {
    var m := Merge(a, b);
    forall k | k in m
      ensures (forall rest :: SameUnder(a, b, k, rest)) <==> CompatibleAt(a, b, k)
    {
      OverrideAt(a, b, k);
    }
    if Compatible(a, b) {
      forall path
        ensures path in Flat(Node(m)) <==> path in Flat(Node(a)) + Flat(Node(b))
        ensures path in Flat(Node(m)) ==> Flat(Node(m))[path] == (Flat(Node(a)) + Flat(Node(b)))[path]
      {
        PathInMerge(a, b, path);
        if path != [] && path[0] in m {
          assert CompatibleAt(a, b, path[0]);
          assert SameUnder(a, b, path[0], path[1..]);
        }
      }
    } else {
      var k :| k in a && k in b && !CompatibleAt(a, b, k);
      var rest :| !SameUnder(a, b, k, rest);
      var path := [k] + rest;
      assert path[1..] == rest;
      PathInMerge(a, b, path);
    }
  }

  /** A text that meets an object is lost from the merge, while the override keeps it. */
  lemma TextUnderAnObjectIsLost()
    ensures var a, b := map["k" := Text("x")], map["k" := Node(map[])];
            && !Compatible(a, b)
            && ["k"] in Flat(Node(a)) + Flat(Node(b)) && ["k"] !in Flat(Node(Merge(a, b)))
  {
    var a, b := map["k" := Text("x")], map["k" := Node(map[])];
    assert HasStrings(a["k"]) && Merge(a, b)["k"] == Node(map[]);
    assert ["k"][1..] == [] && At(Node(a), ["k"]) == Some(Text("x"));
    hide Flat, At, Merge;
    FlatIsLookup(Node(a), ["k"], "x");
    FlatOfNode(Node(Merge(a, b)), ["k"]);
    FlatOfNode(Node(map[]), []);
  }

  ghost predicate CompatibleAt(a: map<string, Tree>, b: map<string, Tree>, k: string) {
    k in a && k in b ==>
      if a[k].Node? && b[k].Node? then Compatible(a[k].at, b[k].at)
      else HasStrings(a[k]) ==> a[k].Text? && b[k].Text?
  }

  function FlatAt(m: map<string, Tree>, k: string): map<seq<string>, string> {
    if k in m then Flat(m[k]) else map[]
  }

  /** Below key `k`, the merge and the override agree on `rest`. */
  ghost predicate SameUnder(a: map<string, Tree>, b: map<string, Tree>, k: string, rest: seq<string>) {
    var merged, override := FlatAt(Merge(a, b), k), FlatAt(a, k) + FlatAt(b, k);
    (rest in merged <==> rest in override) && (rest in merged ==> merged[rest] == override[rest])
  }

  /** A value that replaces another one covers its strings only if both are strings or there are none. */
  lemma LostStrings(x: Tree, y: Tree)
    requires !x.Node? || !y.Node?
    ensures Flat(x) + Flat(y) == Flat(y) <==> (HasStrings(x) ==> x.Text? && y.Text?)
  {
    HasStringsExactlyWhenFlatHasRows(x);
    if x.Text? && y.Node? {
      FlatOfNode(y, []);
      assert [] in Flat(x) + Flat(y) && [] !in Flat(y);
    }
    if x.Node? && HasStrings(x) {
      var path :| path in Flat(x);
      FlatOfNode(x, path);
      assert path in Flat(x) + Flat(y) && path !in Flat(y);
    }
    if x.Text? && !y.Text? && !y.Node? {
      assert [] in Flat(x) + Flat(y);
    }
  }

  lemma {:induction false} OverrideAt(a: map<string, Tree>, b: map<string, Tree>, k: string)
    requires k in Merge(a, b)
    ensures (forall rest :: SameUnder(a, b, k, rest)) <==> CompatibleAt(a, b, k)
    decreases Node(a), 0
  {
    var merged, override := FlatAt(Merge(a, b), k), FlatAt(a, k) + FlatAt(b, k);
    if k in a && k in b {
      if a[k].Node? && b[k].Node? {
        FlatOfMergeIsOverrideExactlyWhenCompatible(a[k].at, b[k].at);
      } else {
        LostStrings(a[k], b[k]);
      }
    }
    if forall rest :: SameUnder(a, b, k, rest) {
      forall rest
        ensures rest in merged <==> rest in override
        ensures rest in merged ==> merged[rest] == override[rest]
      {
        assert SameUnder(a, b, k, rest);
      }
      assert merged == override;
    }
    if merged == override {
      assert forall rest :: SameUnder(a, b, k, rest);
    }
  }

  lemma PathInMerge(a: map<string, Tree>, b: map<string, Tree>, path: seq<string>)
    ensures var merged, override := Flat(Node(Merge(a, b))), Flat(Node(a)) + Flat(Node(b));
            && (path in merged <==> path != [] && path[1..] in FlatAt(Merge(a, b), path[0]))
            && (path in merged ==> merged[path] == FlatAt(Merge(a, b), path[0])[path[1..]])
            && (path in override <==> path != [] && path[1..] in FlatAt(a, path[0]) + FlatAt(b, path[0]))
            && (path in override ==> override[path] == (FlatAt(a, path[0]) + FlatAt(b, path[0]))[path[1..]])
  {
    FlatOfNode(Node(Merge(a, b)), path);
    FlatOfNode(Node(a), path);
    FlatOfNode(Node(b), path);
  }

  // ----- dotted keys -----

  predicate DotFree(k: string) { k != "" && Free(k, '.') }

  /** Keys are nonempty and dot-free throughout. */
  ghost predicate WellKeyed(t: Tree)
    decreases t
  {
    t.Node? ==> forall k | k in t.at :: DotFree(k) && WellKeyed(t.at[k])
  }

  /** The key built up on the way down, as the prefix grows. */
  function Dotted(prefix: string, path: seq<string>): string
    decreases |path|
  {
    if path == [] then prefix
    else Dotted(Longer(prefix, path[0]), path[1..])
  }

  ghost predicate GoodPath(path: seq<string>) { forall k | k in path :: DotFree(k) }

  function Longer(prefix: string, k: string): string {
    if prefix != "" then prefix + "." + k else k
  }

  function SplitOf(prefix: string): seq<string> {
    if prefix == "" then [] else Split(prefix, '.')
  }

  lemma SplitLonger(prefix: string, k: string)
    requires DotFree(k)
    ensures Split(Longer(prefix, k), '.') == SplitOf(prefix) + [k]
    ensures Longer(prefix, k) != "" && SplitOf(Longer(prefix, k)) == SplitOf(prefix) + [k]
  {
    SplitPart(k, "", '.');
    if prefix != "" {
      SplitLast(prefix, k, '.');
    }
  }

  lemma RestIsGood(path: seq<string>)
    requires GoodPath(path) && path != []
    ensures DotFree(path[0]) && GoodPath(path[1..])
  {
    assert forall x | x in path[1..] :: x in path;
  }

  /** Splitting takes a dotted key apart again, whatever prefix it was built on. */
  lemma {:induction false} SplitDotted(prefix: string, path: seq<string>)
    requires GoodPath(path) && (prefix != "" || path != [])
    ensures Split(Dotted(prefix, path), '.') == SplitOf(prefix) + path
    decreases |path|
  {
    hide Split, Free;
    if path != [] {
      var k := path[0];
      RestIsGood(path);
      hide SplitOf, Longer, GoodPath;
      SplitLonger(prefix, k);
      SplitDotted(Longer(prefix, k), path[1..]);
      assert (SplitOf(prefix) + [k]) + path[1..] == SplitOf(prefix) + path;
    }
  }

  /** A key that splits into good parts is the dotted form of those parts. */
  lemma {:induction false} DottedOfSplit(s: string)
    requires GoodPath(Split(s, '.'))
    ensures Dotted("", Split(s, '.')) == s
  {
    var path := Split(s, '.');
    JoinOfSplit(s, '.');
    DottedIsJoin("", path);
  }

  lemma {:induction false} DottedIsJoin(prefix: string, path: seq<string>)
    requires GoodPath(path) && path != []
    ensures Dotted(prefix, path) == if prefix == "" then Join(path, '.') else prefix + "." + Join(path, '.')
    decreases |path|
  {
    assert path[0] in path && forall x | x in path[1..] :: x in path;
    if |path| > 1 {
      DottedIsJoin(Longer(prefix, path[0]), path[1..]);
      if prefix != "" {
        assert (prefix + "." + path[0]) + "." + Join(path[1..], '.') == prefix + "." + (path[0] + "." + Join(path[1..], '.'));
      }
    }
  }

  lemma {:induction false} PathsAreGood(t: Tree, path: seq<string>)
    requires WellKeyed(t) && At(t, path).Some?
    ensures GoodPath(path)
    decreases |path|
  {
    if path != [] {
      PathsAreGood(t.at[path[0]], path[1..]);
      assert path == [path[0]] + path[1..];
    }
  }

  /** `out` lists exactly the strings of the tree, by dotted key. */
  ghost predicate IsIndexOf(out: map<string, string>, t: Tree, prefix: string) {
    && (forall path, s :: Leads(t, prefix, path, s) ==> Dotted(prefix, path) in out && out[Dotted(prefix, path)] == s)
    && (forall key | key in out :: exists path :: Leads(t, prefix, path, out[key]) && Dotted(prefix, path) == key)
  }

  ghost predicate Leads(t: Tree, prefix: string, path: seq<string>, s: string) { At(t, path) == Some(Text(s)) }

  /** `getLeaf`. */
  function Leaf(t: Tree, key: string): Option<Tree> { At(t, Split(key, '.')) }

  /** The flat catalog and the audit's lookup agree on every key. */
  lemma IndexAgreesWithLookup(t: Tree, out: map<string, string>, key: string, s: string)
    requires t.Node? && WellKeyed(t) && IsIndexOf(out, t, "")
    ensures key in out && out[key] == s <==> Leaf(t, key) == Some(Text(s))
  {
    if key in out {
      var path :| Leads(t, "", path, out[key]) && Dotted("", path) == key;
      PathsAreGood(t, path);
      SplitDotted("", path);
      assert [] + path == path;
    }
    if Leaf(t, key) == Some(Text(s)) {
      PathsAreGood(t, Split(key, '.'));
      DottedOfSplit(key);
      assert Leads(t, "", Split(key, '.'), s);
    }
  }

  lemma IndexIsFlat(t: Tree, out: map<string, string>, path: seq<string>)
    requires t.Node? && WellKeyed(t) && IsIndexOf(out, t, "") && GoodPath(path) && path != []
    ensures path in Flat(t) <==> Dotted("", path) in out
    ensures path in Flat(t) ==> Flat(t)[path] == out[Dotted("", path)]
  {
    SplitDotted("", path);
    assert [] + path == path;
    var key := Dotted("", path);
    if path in Flat(t) {
      FlatIsLookup(t, path, Flat(t)[path]);
      assert Leads(t, "", path, Flat(t)[path]);
    }
    if key in out {
      IndexAgreesWithLookup(t, out, key, out[key]);
      FlatIsLookup(t, path, out[key]);
    }
  }

  lemma FlatPathsAreGood(t: Tree, path: seq<string>)
    requires t.Node? && WellKeyed(t) && path in Flat(t)
    ensures GoodPath(path) && path != []
  {
    FlatIsLookup(t, path, Flat(t)[path]);
    PathsAreGood(t, path);
    FlatOfNode(t, path);
  }

  lemma IndexKeysAreGood(t: Tree, out: map<string, string>, key: string)
    requires t.Node? && WellKeyed(t) && IsIndexOf(out, t, "") && key in out
    ensures GoodPath(Split(key, '.')) && Dotted("", Split(key, '.')) == key
  {
    IndexAgreesWithLookup(t, out, key, out[key]);
    PathsAreGood(t, Split(key, '.'));
    DottedOfSplit(key);
  }

  lemma {:induction false} MergeIsWellKeyed(a: map<string, Tree>, b: map<string, Tree>)
    requires WellKeyed(Node(a)) && WellKeyed(Node(b))
    ensures WellKeyed(Node(Merge(a, b)))
    decreases Node(a)
  {
    forall k | k in Merge(a, b)
      ensures WellKeyed(Merge(a, b)[k])
    {
      if k in a && k in b && a[k].Node? && b[k].Node? {
        MergeIsWellKeyed(a[k].at, b[k].at);
      }
    }
  }

  /** For the dotted catalogs: the catalog of a merge is the first overridden by the second, exactly for
      compatible trees. */
  lemma CatalogOfMergeIsOverrideExactlyWhenCompatible(
    a: map<string, Tree>, b: map<string, Tree>,
    outA: map<string, string>, outB: map<string, string>, outM: map<string, string>)
    requires WellKeyed(Node(a)) && WellKeyed(Node(b))
    requires IsIndexOf(outA, Node(a), "") && IsIndexOf(outB, Node(b), "") && IsIndexOf(outM, Node(Merge(a, b)), "")
    ensures outM == outA + outB <==> Compatible(a, b)
  {
    hide Flat, Merge, IsIndexOf, WellKeyed, Compatible;
    var ta, tb, tm := Node(a), Node(b), Node(Merge(a, b));
    MergeIsWellKeyed(a, b);
    FlatOfMergeIsOverrideExactlyWhenCompatible(a, b);
    if outM == outA + outB {
      forall path
        ensures path in Flat(tm) <==> path in Flat(ta) + Flat(tb)
        ensures path in Flat(tm) ==> Flat(tm)[path] == (Flat(ta) + Flat(tb))[path]
      {
        PathInIndexes(ta, tb, tm, outA, outB, outM, path);
      }
      assert Flat(tm) == Flat(ta) + Flat(tb);
    }
    if Flat(tm) == Flat(ta) + Flat(tb) {
      forall key
        ensures key in outM <==> key in outA + outB
        ensures key in outM ==> outM[key] == (outA + outB)[key]
      {
        KeyInIndexes(ta, tb, tm, outA, outB, outM, key);
      }
    }
  }

  lemma PathInIndexes(
    ta: Tree, tb: Tree, tm: Tree,
    outA: map<string, string>, outB: map<string, string>, outM: map<string, string>, path: seq<string>)
    requires ta.Node? && tb.Node? && tm.Node? && WellKeyed(ta) && WellKeyed(tb) && WellKeyed(tm)
    requires IsIndexOf(outA, ta, "") && IsIndexOf(outB, tb, "") && IsIndexOf(outM, tm, "")
    requires outM == outA + outB
    ensures path in Flat(tm) <==> path in Flat(ta) + Flat(tb)
    ensures path in Flat(tm) ==> Flat(tm)[path] == (Flat(ta) + Flat(tb))[path]
  {
    hide Flat, IsIndexOf, WellKeyed, GoodPath;
    if path in Flat(ta) {
      FlatPathsAreGood(ta, path);
    }
    if path in Flat(tb) {
      FlatPathsAreGood(tb, path);
    }
    if path in Flat(tm) {
      FlatPathsAreGood(tm, path);
    }
    if GoodPath(path) && path != [] {
      IndexIsFlat(ta, outA, path);
      IndexIsFlat(tb, outB, path);
      IndexIsFlat(tm, outM, path);
    }
  }

  lemma KeyInIndexes(
    ta: Tree, tb: Tree, tm: Tree,
    outA: map<string, string>, outB: map<string, string>, outM: map<string, string>, key: string)
    requires ta.Node? && tb.Node? && tm.Node? && WellKeyed(ta) && WellKeyed(tb) && WellKeyed(tm)
    requires IsIndexOf(outA, ta, "") && IsIndexOf(outB, tb, "") && IsIndexOf(outM, tm, "")
    requires Flat(tm) == Flat(ta) + Flat(tb)
    ensures key in outM <==> key in outA + outB
    ensures key in outM ==> outM[key] == (outA + outB)[key]
  {
    hide Flat, IsIndexOf, WellKeyed, GoodPath, Split;
    if key in outA {
      IndexKeysAreGood(ta, outA, key);
    }
    if key in outB {
      IndexKeysAreGood(tb, outB, key);
    }
    if key in outM {
      IndexKeysAreGood(tm, outM, key);
    }
    if GoodPath(Split(key, '.')) {
      DottedOfSplit(key);
      IndexIsFlat(ta, outA, Split(key, '.'));
      IndexIsFlat(tb, outB, Split(key, '.'));
      IndexIsFlat(tm, outM, Split(key, '.'));
    }
  }

  // ----- the three loops -----

  /** `flattenStrings`: whatever order the keys come in. */
  method FlattenStrings(obj: map<string, Tree>, prefix: string) returns (out: map<string, string>)
    requires WellKeyed(Node(obj))
    ensures IsIndexOf(out, Node(obj), prefix)
    decreases Node(obj)
  {
    out := map[];
    var todo := obj.Keys;
    while todo != {}
      invariant todo <= obj.Keys
      invariant IsIndexOf(out, Node(obj - todo), prefix)
      decreases todo
    {
      var k :| k in todo;
      var key := if prefix != "" then prefix + "." + k else k;
      var found: map<string, string> := map[];
      match obj[k] {
        case Node(at) =>
          found := FlattenStrings(at, key);
        case Text(s) =>
          found := map[key := s];
          LeafIndex(obj[k], key);
        case Null =>
          LeafIndex(obj[k], key);
        case Scalar(_) =>
          LeafIndex(obj[k], key);
      }
      AddKey(obj - todo, k, obj[k], out, found, prefix);
      assert (obj - todo)[k := obj[k]] == obj - (todo - {k});
      out := out + found;
      todo := todo - {k};
    }
    assert obj - {} == obj;
  }

  lemma LeafIndex(t: Tree, key: string)
    requires !t.Node?
    ensures IsIndexOf(if t.Text? then map[key := t.s] else map[], t, key)
  {
    assert t.Text? ==> Leads(t, key, [], t.s);
  }

  lemma AtAdded(done: map<string, Tree>, k: string, t: Tree, path: seq<string>)
    requires k !in done && path != []
    ensures At(Node(done[k := t]), path) == if path[0] == k then At(t, path[1..]) else At(Node(done), path)
  {}

  lemma AddedIsFound(
    done: map<string, Tree>, k: string, t: Tree, out: map<string, string>, found: map<string, string>,
    prefix: string, path: seq<string>, s: string)
    requires k !in done && WellKeyed(Node(done)) && DotFree(k) && WellKeyed(t)
    requires IsIndexOf(out, Node(done), prefix) && IsIndexOf(found, t, Longer(prefix, k))
    requires Leads(Node(done[k := t]), prefix, path, s)
    ensures Dotted(prefix, path) in out + found && (out + found)[Dotted(prefix, path)] == s
  {
    hide WellKeyed, Split, At;
    AtOfNode(Node(done[k := t]), path, s);
    AtAdded(done, k, t, path);
    if path[0] == k {
      assert Leads(t, Longer(prefix, k), path[1..], s);
    } else {
      assert Leads(Node(done), prefix, path, s);
      var key := Dotted(prefix, path);
      if key in found {
        var other :| Leads(t, Longer(prefix, k), other, found[key]) && Dotted(Longer(prefix, k), other) == key;
        PathsAreGood(t, other);
        PathsAreGood(Node(done), path);
        assert ([k] + other)[1..] == other;
        DottedIsInjective(prefix, path, [k] + other);
      }
    }
  }

  lemma AtOfNode(t: Tree, path: seq<string>, s: string)
    requires t.Node? && At(t, path) == Some(Text(s))
    ensures path != []
  {}

  lemma FoundIsAdded(
    done: map<string, Tree>, k: string, t: Tree, out: map<string, string>, found: map<string, string>,
    prefix: string, x: string)
    returns (path: seq<string>)
    requires k !in done
    requires IsIndexOf(out, Node(done), prefix) && IsIndexOf(found, t, Longer(prefix, k))
    requires x in out + found
    ensures Leads(Node(done[k := t]), prefix, path, (out + found)[x]) && Dotted(prefix, path) == x
  {
    hide At;
    if x in found {
      var other :| Leads(t, Longer(prefix, k), other, found[x]) && Dotted(Longer(prefix, k), other) == x;
      path := [k] + other;
      assert path[1..] == other;
    } else {
      path :| Leads(Node(done), prefix, path, out[x]) && Dotted(prefix, path) == x;
      AtOfNode(Node(done), path, out[x]);
      KeyOfPath(done, path, out[x]);
    }
    AtAdded(done, k, t, path);
  }

  lemma KeyOfPath(at: map<string, Tree>, path: seq<string>, s: string)
    requires path != [] && At(Node(at), path) == Some(Text(s))
    ensures path[0] in at
  {}

  lemma AddKey(
    done: map<string, Tree>, k: string, t: Tree, out: map<string, string>, found: map<string, string>, prefix: string)
    requires k !in done && WellKeyed(Node(done)) && DotFree(k) && WellKeyed(t)
    requires IsIndexOf(out, Node(done), prefix) && IsIndexOf(found, t, Longer(prefix, k))
    ensures IsIndexOf(out + found, Node(done[k := t]), prefix)
  {
    hide WellKeyed, Dotted, Leads;
    var all := Node(done[k := t]);
    forall path, s | Leads(all, prefix, path, s)
      ensures Dotted(prefix, path) in out + found && (out + found)[Dotted(prefix, path)] == s
    {
      AddedIsFound(done, k, t, out, found, prefix, path, s);
    }
    forall x | x in out + found
      ensures exists path :: Leads(all, prefix, path, (out + found)[x]) && Dotted(prefix, path) == x
    {
      var path := FoundIsAdded(done, k, t, out, found, prefix, x);
    }
  }

  lemma DottedIsInjective(prefix: string, x: seq<string>, y: seq<string>)
    requires GoodPath(x) && GoodPath(y) && x != [] && y != [] && Dotted(prefix, x) == Dotted(prefix, y)
    ensures x == y
  {
    SplitDotted(prefix, x);
    SplitDotted(prefix, y);
    var head := SplitOf(prefix);
    assert (head + x)[|head|..] == x && (head + y)[|head|..] == y;
  }

  /** `getLeaf`: down the parts of the key, as long as there is an object to go into. */
  method GetLeaf(tree: Tree, keyPath: string) returns (leaf: Option<Tree>)
    ensures leaf == Leaf(tree, keyPath)
  {
    var parts := Split(keyPath, '.');
    var cur := Some(tree);
    assert parts[0..] == parts;
    for i := 0 to |parts|
      invariant Leaf(tree, keyPath) == if cur.None? then None else At(cur.value, parts[i..])
    {
      if cur.None? || !cur.value.Node? {
        return None;
      }
      assert parts[i..][1..] == parts[i + 1..];
      cur := if parts[i] in cur.value.at then Some(cur.value.at[parts[i]]) else None;
    }
    leaf := cur;
  }

  /** `merge`: the copy of `a` is overwritten key by key. */
  method MergeTrees(a: map<string, Tree>, b: map<string, Tree>) returns (out: map<string, Tree>)
    ensures out == Merge(a, b)
    decreases Node(a)
  {
    out := a;
    var todo := b.Keys;
    while todo != {}
      invariant todo <= b.Keys
      invariant out.Keys == a.Keys + (b.Keys - todo)
      invariant forall k | k in out :: out[k] == if k in b && k !in todo then Merge(a, b)[k] else a[k]
      decreases todo
    {
      var k :| k in todo;
      if k in out && out[k].Node? && b[k].Node? {
        var merged := MergeTrees(out[k].at, b[k].at);
        out := out[k := Node(merged)];
      } else {
        out := out[k := b[k]];
      }
      todo := todo - {k};
    }
  }

  // ----- the audit -----

  predicate IsRenderable(leaf: Option<Tree>) {
    leaf.Some? && leaf.value.Text? && leaf.value.s != ""
  }

  /** Present, not `null`, and no string. */
  predicate IsNoString(leaf: Option<Tree>) {
    leaf.Some? && !leaf.value.Null? && !leaf.value.Text?
  }

  /** The keys used in the sources, sorted into the lists of complaints. */
  method Audit(ru: Tree, az: Tree, keys: seq<string>)
    returns (missingRu: seq<string>, missingAz: seq<string>, notString: seq<string>)
    ensures forall k ::
              k in missingRu
              <==> k in keys && !(Leaf(ru, k).Some? && Leaf(ru, k).value.Text? && Leaf(ru, k).value.s != "")
    ensures forall k ::
              k in missingAz
              <==> k in keys && !(Leaf(az, k).Some? && Leaf(az, k).value.Text? && Leaf(az, k).value.s != "")
    ensures forall k ::
              k in notString
              <==> k in keys
                   && ((Leaf(ru, k).Some? && (Leaf(ru, k).value.Scalar? || Leaf(ru, k).value.Node?))
                       || (Leaf(az, k).Some? && (Leaf(az, k).value.Scalar? || Leaf(az, k).value.Node?)))
  {
    missingRu, missingAz, notString := [], [], [];
    for i := 0 to |keys|
      invariant forall k :: k in missingRu <==> k in keys[..i] && !IsRenderable(Leaf(ru, k))
      invariant forall k :: k in missingAz <==> k in keys[..i] && !IsRenderable(Leaf(az, k))
      invariant forall k ::
                  k in notString <==> k in keys[..i] && (IsNoString(Leaf(ru, k)) || IsNoString(Leaf(az, k)))
    {
      var key := keys[i];
      assert keys[..i + 1] == keys[..i] + [key];
      var ruVal := GetLeaf(ru, key);
      var azVal := GetLeaf(az, key);
      if !IsRenderable(ruVal) {
        missingRu := missingRu + [key];
      }
      if !IsRenderable(azVal) {
        missingAz := missingAz + [key];
      }
      if IsNoString(ruVal) || IsNoString(azVal) {
        notString := notString + [key];
      }
    }
    assert keys[..|keys|] == keys;
  }

  /** The audit of two trees has nothing to complain about exactly when the indexes of those trees hold a
      nonempty text for every key. */
  lemma AuditPassesExactlyWhenCatalogsAreComplete(
    ru: Tree, az: Tree, outRu: map<string, string>, outAz: map<string, string>, keys: seq<string>)
    requires ru.Node? && az.Node? && WellKeyed(ru) && WellKeyed(az)
    requires IsIndexOf(outRu, ru, "") && IsIndexOf(outAz, az, "")
    ensures (forall k | k in keys ::
               && IsRenderable(Leaf(ru, k)) && IsRenderable(Leaf(az, k))
               && !IsNoString(Leaf(ru, k)) && !IsNoString(Leaf(az, k)))
            <==> forall k | k in keys :: k in outRu && outRu[k] != "" && k in outAz && outAz[k] != ""
  {
    hide IsIndexOf, WellKeyed, Leaf;
    forall k | k in keys
      ensures IsRenderable(Leaf(ru, k)) <==> k in outRu && outRu[k] != ""
      ensures IsRenderable(Leaf(az, k)) <==> k in outAz && outAz[k] != ""
    {
      RenderableIsListed(ru, outRu, k);
      RenderableIsListed(az, outAz, k);
    }
  }

  /** The trees audited are merges, while the catalog is the index of the first tree alone. For compatible trees
      the audit of a key reads the first index overridden by the second; so it is a check of the catalog for
      the keys that the second tree has no text for. */
  lemma AuditOfMergeReadsTheOverride(
    a: map<string, Tree>, b: map<string, Tree>, outA: map<string, string>, outB: map<string, string>, key: string)
    requires WellKeyed(Node(a)) && WellKeyed(Node(b)) && Compatible(a, b)
    requires IsIndexOf(outA, Node(a), "") && IsIndexOf(outB, Node(b), "")
    ensures IsRenderable(Leaf(Node(Merge(a, b)), key)) <==> key in outA + outB && (outA + outB)[key] != ""
    ensures key !in outB ==> (IsRenderable(Leaf(Node(Merge(a, b)), key)) <==> key in outA && outA[key] != "")
  {
    hide IsIndexOf, WellKeyed, Leaf, Merge, Compatible;
    MergeIsWellKeyed(a, b);
    var outM := TreeHasAnIndex(Node(Merge(a, b)));
    CatalogOfMergeIsOverrideExactlyWhenCompatible(a, b, outA, outB, outM);
    RenderableIsListed(Node(Merge(a, b)), outM, key);
  }

  /** Every well-keyed tree has an index. */
  lemma TreeHasAnIndex(t: Tree) returns (out: map<string, string>)
    requires t.Node? && WellKeyed(t)
    ensures IsIndexOf(out, t, "")
  {
    var flat := Flat(t);
    var keys := set path | path in flat.Keys :: Dotted("", path);
    out := map key | key in keys :: if Split(key, '.') in flat then flat[Split(key, '.')] else "";
    forall path | path in flat
      ensures Split(Dotted("", path), '.') == path
    {
      FlatPathsAreGood(t, path);
      SplitDotted("", path);
    }
    forall path, s | Leads(t, "", path, s)
      ensures Dotted("", path) in out && out[Dotted("", path)] == s
    {
      FlatIsLookup(t, path, s);
    }
    forall key | key in out
      ensures exists path :: Leads(t, "", path, out[key]) && Dotted("", path) == key
    {
      var path :| path in flat && Dotted("", path) == key;
      FlatIsLookup(t, path, out[key]);
      assert Leads(t, "", path, out[key]);
    }
  }

  lemma RenderableIsListed(t: Tree, out: map<string, string>, key: string)
    requires t.Node? && WellKeyed(t) && IsIndexOf(out, t, "")
    ensures IsRenderable(Leaf(t, key)) <==> key in out && out[key] != ""
  {
    hide IsIndexOf, WellKeyed, Leaf;
    if key in out {
      IndexAgreesWithLookup(t, out, key, out[key]);
    }
    if IsRenderable(Leaf(t, key)) {
      IndexAgreesWithLookup(t, out, key, Leaf(t, key).value.s);
    }
  }
}
