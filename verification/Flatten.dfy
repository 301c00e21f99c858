/** `flattenJSON`: a decoded JSON object becomes one flat entry per leaf. */
module Flatten {
  import opened Wrappers
  import opened Strings

  /** What `json.Unmarshal` decodes into. Numbers and arrays carry the text they are rendered as. */
  datatype Json =
    | Null
    | Bool(b: bool)
    | Text(s: string)
    | Number(rendered: string)
    | Array(rendered: string)
    | Object(fields: map<string, Json>)

  type Path = seq<string>

  datatype Leaf = Leaf(path: Path, text: string)

  function LeafText(v: Json): string
    requires !v.Object?
  {
    match v
    case Null => ""
    case Bool(b) => if b then "true" else "false"
    case Text(s) => s
    case Number(rendered) => rendered
    case Array(rendered) => rendered
  }

  /** The name of an entry: the upper-cased keys on the way to it, joined with underscores. */
  function Name(upper: string -> string, prefix: string, path: Path): string
    decreases |path|
  {
    if path == [] then prefix else Name(upper, prefix + "_" + upper(path[0]), path[1..])
  }

  /** The value found by following `path` down from `v`. */
  function Follow(v: Json, path: Path): Option<Json> {
    if path == [] then Some(v)
    else if v.Object? && path[0] in v.fields then Follow(v.fields[path[0]], path[1..])
    else None
  }

  predicate IsLeaf(v: Json, path: Path) {
    Follow(v, path).Some? && !Follow(v, path).value.Object?
  }

  function TextAt(v: Json, path: Path): string
    requires IsLeaf(v, path)
  {
    LeafText(Follow(v, path).value)
  }

  function Below(k: string, leaves: seq<Leaf>): seq<Leaf> {
    seq(|leaves|, i requires 0 <= i < |leaves| => Leaf([k] + leaves[i].path, leaves[i].text))
  }

  /** The leaves in the order the walk meets them: depth first, keys sorted. */
  ghost function Leaves(v: Json): seq<Leaf>
    decreases v, 1
  {
    if v.Object? then
      var keys := SortedKeys(v.fields.Keys);
      assert forall k | k in keys :: k in Elements(keys);
      LeavesUnder(v, keys)
    else
      [Leaf([], LeafText(v))]
  }

  ghost function LeavesUnder(v: Json, keys: seq<string>): seq<Leaf>
    requires v.Object? && forall k | k in keys :: k in v.fields
    decreases v, 0, |keys|
  {
    if keys == [] then [] else
      LeavesUnder(v, keys[..|keys| - 1]) + Below(keys[|keys| - 1], Leaves(v.fields[keys[|keys| - 1]]))
  }

  /** Write the leaves into `out` one after the other; a later one overwrites an earlier one. */
  function WriteLeaves(upper: string -> string, out: map<string, string>, prefix: string, leaves: seq<Leaf>)
    : map<string, string>
    decreases |leaves|
  {
    if leaves == [] then out else
      var last := leaves[|leaves| - 1];
      WriteLeaves(upper, out, prefix, leaves[..|leaves| - 1])[Name(upper, prefix, last.path) := last.text]
  }

  lemma {:induction false} WriteAppend(upper: string -> string, out: map<string, string>, prefix: string,
                                       a: seq<Leaf>, b: seq<Leaf>)
    ensures WriteLeaves(upper, out, prefix, a + b)
            == WriteLeaves(upper, WriteLeaves(upper, out, prefix, a), prefix, b)
    decreases |b|
  {
    if b == [] {
      assert a + b == a;
    } else {
      assert (a + b)[..|a + b| - 1] == a + b[..|b| - 1];
      WriteAppend(upper, out, prefix, a, b[..|b| - 1]);
    }
  }

  lemma {:induction false} WriteBelow(upper: string -> string, out: map<string, string>, prefix: string,
                                      k: string, leaves: seq<Leaf>)
    ensures WriteLeaves(upper, out, prefix, Below(k, leaves))
            == WriteLeaves(upper, out, prefix + "_" + upper(k), leaves)
    decreases |leaves|
  {
    if leaves != [] {
      var init, last := leaves[..|leaves| - 1], leaves[|leaves| - 1];
      assert Below(k, leaves)[..|leaves| - 1] == Below(k, init);
      assert ([k] + last.path)[1..] == last.path;
      WriteBelow(upper, out, prefix, k, init);
    }
  }

  /** Walking one more key writes the leaves under it. */
  lemma WalkOneMore(upper: string -> string, out: map<string, string>, prefix: string,
                    v: Json, keys: seq<string>, i: nat)
    requires v.Object? && i < |keys| && forall k | k in keys :: k in v.fields
    ensures WriteLeaves(upper, out, prefix, LeavesUnder(v, keys[..i + 1]))
            == WriteLeaves(upper, WriteLeaves(upper, out, prefix, LeavesUnder(v, keys[..i])),
                           prefix + "_" + upper(keys[i]), Leaves(v.fields[keys[i]]))
  {
    hide WriteLeaves, Below, Leaves;
    var k, before := keys[i], LeavesUnder(v, keys[..i]);
    assert keys[..i + 1][..i] == keys[..i];
    WriteAppend(upper, out, prefix, before, Below(k, Leaves(v.fields[k])));
    WriteBelow(upper, WriteLeaves(upper, out, prefix, before), prefix, k, Leaves(v.fields[k]));
  }

  lemma WriteFew(upper: string -> string, out: map<string, string>, prefix: string, text: string)
    ensures WriteLeaves(upper, out, prefix, []) == out
    ensures WriteLeaves(upper, out, prefix, [Leaf([], text)]) == out[prefix := text]
  {
    assert [Leaf([], text)][..0] == [];
  }

  /** The map the walk writes its entries into. */
  class FlatMap {
    var entries: map<string, string>

    constructor ()
      ensures entries == map[]
    {
      entries := map[];
    }

    /** `flattenJSON`: sort the keys, recurse into objects, write every other value under its prefix. */
    method Flatten(upper: string -> string, prefix: string, v: Json)
      modifies this
      ensures entries == WriteLeaves(upper, old(entries), prefix, Leaves(v))
      decreases v
    {
      hide WriteLeaves, Below, SortedKeys;
      WriteFew(upper, entries, prefix, if v.Object? then "" else LeafText(v));
      match v {
        case Object(fields) =>
          var keys := CollectSorted(fields.Keys);
          assert forall k | k in keys :: k in Elements(keys);
          for i := 0 to |keys|
            invariant entries == WriteLeaves(upper, old(entries), prefix, LeavesUnder(v, keys[..i]))
          {
            var k := keys[i];
            WalkOneMore(upper, old(entries), prefix, v, keys, i);
            Flatten(upper, prefix + "_" + upper(k), fields[k]);
          }
          assert keys[..|keys|] == keys;
        case Text(s) => Put(prefix, s);
        case Bool(b) =>
          if b {
            Put(prefix, "true");
          } else {
            Put(prefix, "false");
          }
        case Number(rendered) => Put(prefix, rendered);
        case Null => Put(prefix, "");
        case Array(rendered) => Put(prefix, rendered);
      }
    }

    method Put(name: string, text: string)
      modifies this
      ensures entries == old(entries)[name := text]
    {
      entries := entries[name := text];
    }
  }

  /** The order of the walk: lexicographic on the raw keys of the paths. */
  predicate Before(p: Path, q: Path) {
    q != [] && (p == [] || Less(p[0], q[0]) || (p[0] == q[0] && Before(p[1..], q[1..])))
  }

  ghost predicate Ordered(leaves: seq<Leaf>) {
    forall i, j | 0 <= i < j < |leaves| :: Before(leaves[i].path, leaves[j].path)
  }

  lemma {:induction false} BeforeIsIrreflexive(p: Path)
    ensures !Before(p, p)
  {
    if p != [] {
      LessIsIrreflexive(p[0]);
      BeforeIsIrreflexive(p[1..]);
    }
  }

  ghost predicate Sound(leaves: seq<Leaf>, v: Json) {
    forall i | 0 <= i < |leaves| :: IsLeaf(v, leaves[i].path) && leaves[i].text == TextAt(v, leaves[i].path)
  }

  ghost predicate Meets(leaves: seq<Leaf>, p: Path) {
    exists i :: 0 <= i < |leaves| && leaves[i].path == p
  }

  ghost predicate ListsLeaves(leaves: seq<Leaf>, v: Json) {
    Ordered(leaves) && Sound(leaves, v) && forall p | IsLeaf(v, p) :: Meets(leaves, p)
  }

  /** The leaves of an object whose first key is one of `keys`. */
  ghost predicate ListsUnder(leaves: seq<Leaf>, v: Json, keys: seq<string>) {
    && Ordered(leaves) && Sound(leaves, v)
    && (forall i | 0 <= i < |leaves| :: leaves[i].path != [] && leaves[i].path[0] in keys)
    && forall p | IsLeaf(v, p) && p != [] && p[0] in keys :: Meets(leaves, p)
  }

  /** The walk meets every leaf of the document once, in path order. */
  lemma {:induction false} WalkListsLeaves(v: Json)
    ensures ListsLeaves(Leaves(v), v)
    decreases v, 1
  {
    if v.Object? {
      var keys := SortedKeys(v.fields.Keys);
      assert forall k :: k in keys <==> k in Elements(keys);
      WalkListsUnder(v, keys);
      forall p | IsLeaf(v, p)
        ensures Meets(Leaves(v), p)
      {
        assert p != [] && p[0] in keys;
      }
    } else {
      assert Leaves(v)[0].path == [];
      assert forall p | IsLeaf(v, p) :: p == [];
    }
  }

  lemma {:induction false} WalkListsUnder(v: Json, keys: seq<string>)
    requires v.Object? && Increasing(keys) && forall k | k in keys :: k in v.fields
    ensures ListsUnder(LeavesUnder(v, keys), v, keys)
    decreases v, 0, |keys|
  {
    if keys != [] {
      var init, k := keys[..|keys| - 1], keys[|keys| - 1];
      WalkListsUnder(v, init);
      WalkListsLeaves(v.fields[k]);
      assert keys == init + [k];
      forall x | x in init
        ensures Less(x, k)
      {
        var n :| 0 <= n < |init| && init[n] == x;
        assert keys[n] == x;
      }
      OrderedUnder(init, k, LeavesUnder(v, init), Leaves(v.fields[k]));
      SoundUnder(v, init, k, LeavesUnder(v, init), Leaves(v.fields[k]));
      CompleteUnder(v, init, k, LeavesUnder(v, init), Leaves(v.fields[k]));
    }
  }

  lemma SoundUnder(v: Json, init: seq<string>, k: string, before: seq<Leaf>, under: seq<Leaf>)
    requires v.Object? && k in v.fields
    requires ListsUnder(before, v, init) && ListsLeaves(under, v.fields[k])
    ensures Sound(before + Below(k, under), v)
  {
    var leaves := before + Below(k, under);
    forall i | 0 <= i < |leaves|
      ensures IsLeaf(v, leaves[i].path) && leaves[i].text == TextAt(v, leaves[i].path)
    {
      if i >= |before| {
        assert leaves[i].path[1..] == under[i - |before|].path;
      }
    }
  }

  lemma OrderedUnder(init: seq<string>, k: string, before: seq<Leaf>, under: seq<Leaf>)
    requires forall x | x in init :: Less(x, k)
    requires Ordered(before) && Ordered(under)
    requires forall i | 0 <= i < |before| :: before[i].path != [] && before[i].path[0] in init
    ensures Ordered(before + Below(k, under))
  {
    var leaves := before + Below(k, under);
    forall i, j | 0 <= i < j < |leaves|
      ensures Before(leaves[i].path, leaves[j].path)
    {
      if i >= |before| {
        assert leaves[i].path[1..] == under[i - |before|].path;
        assert leaves[j].path[1..] == under[j - |before|].path;
      } else if j >= |before| {
        assert leaves[i].path[0] in init && leaves[j].path[0] == k;
      }
    }
  }

  lemma CompleteUnder(v: Json, init: seq<string>, k: string, before: seq<Leaf>, under: seq<Leaf>)
    requires v.Object? && k in v.fields
    requires ListsUnder(before, v, init) && ListsLeaves(under, v.fields[k])
    ensures forall p | IsLeaf(v, p) && p != [] && p[0] in init + [k] :: Meets(before + Below(k, under), p)
  {
    var leaves := before + Below(k, under);
    forall p | IsLeaf(v, p) && p != [] && p[0] in init + [k]
      ensures Meets(leaves, p)
    {
      if p[0] == k {
        assert IsLeaf(v.fields[k], p[1..]);
        var i :| 0 <= i < |under| && under[i].path == p[1..];
        assert leaves[|before| + i].path == [k] + p[1..] == p;
      } else {
        var i :| 0 <= i < |before| && before[i].path == p;
        assert leaves[i].path == p;
      }
    }
  }

  /** The entries a whole document flattens to. */
  ghost function Flat(upper: string -> string, prefix: string, v: Json): map<string, string> {
    WriteLeaves(upper, map[], prefix, Leaves(v))
  }

  /** `i` is the last of the leaves to write the name `n`. */
  ghost predicate WritesLast(upper: string -> string, prefix: string, leaves: seq<Leaf>, i: nat, n: string) {
    && i < |leaves| && Name(upper, prefix, leaves[i].path) == n
    && forall j | i < j < |leaves| :: Name(upper, prefix, leaves[j].path) != n
  }

  lemma {:induction false} WriteLeavesLookup(upper: string -> string, prefix: string, leaves: seq<Leaf>, n: string)
    ensures var out := WriteLeaves(upper, map[], prefix, leaves);
            && (n in out ==> exists i: nat :: WritesLast(upper, prefix, leaves, i, n) && out[n] == leaves[i].text)
            && forall i | 0 <= i < |leaves| && Name(upper, prefix, leaves[i].path) == n :: n in out
    decreases |leaves|
  {
    if leaves != [] {
      var init := leaves[..|leaves| - 1];
      WriteLeavesLookup(upper, prefix, init, n);
      var out := WriteLeaves(upper, map[], prefix, leaves);
      if Name(upper, prefix, leaves[|leaves| - 1].path) == n {
        assert WritesLast(upper, prefix, leaves, |leaves| - 1, n);
      } else if n in out {
        var i: nat :| WritesLast(upper, prefix, init, i, n) && out[n] == init[i].text;
        assert WritesLast(upper, prefix, leaves, i, n);
      }
    }
  }

  /** Among the leaves that join to the same name, `p` is the last in path order. */
  ghost predicate Wins(upper: string -> string, prefix: string, v: Json, p: Path) {
    && IsLeaf(v, p)
    && forall q | IsLeaf(v, q) && Name(upper, prefix, q) == Name(upper, prefix, p) :: q == p || Before(q, p)
  }

  /** The flattened map, said without the walk: an entry exists exactly for the names some leaf joins
      to, and it holds the leaf whose path comes last. */
  lemma FlattenIsLastWriterWins(upper: string -> string, prefix: string, v: Json, n: string)
    ensures n in Flat(upper, prefix, v) <==> exists p :: IsLeaf(v, p) && Name(upper, prefix, p) == n
    ensures n in Flat(upper, prefix, v) ==>
              exists p :: Wins(upper, prefix, v, p) && Name(upper, prefix, p) == n
                          && Flat(upper, prefix, v)[n] == TextAt(v, p)
  {
    hide Leaves, WriteLeaves, Follow, Name, Before;
    var leaves, out := Leaves(v), Flat(upper, prefix, v);
    WalkListsLeaves(v);
    WriteLeavesLookup(upper, prefix, leaves, n);
    forall p | IsLeaf(v, p) && Name(upper, prefix, p) == n
      ensures n in out
    {
      assert Meets(leaves, p);
    }
    if n in out {
      var i: nat :| WritesLast(upper, prefix, leaves, i, n) && out[n] == leaves[i].text;
      var p := leaves[i].path;
      assert IsLeaf(v, p);
      forall q | IsLeaf(v, q) && Name(upper, prefix, q) == n
        ensures q == p || Before(q, p)
      {
        assert Meets(leaves, q);
        var j :| 0 <= j < |leaves| && leaves[j].path == q;
        assert j <= i;
      }
      assert Wins(upper, prefix, v, p);
    }
  }

  ghost predicate DistinctNames(upper: string -> string, prefix: string, v: Json) {
    forall p, q | IsLeaf(v, p) && IsLeaf(v, q) && Name(upper, prefix, p) == Name(upper, prefix, q) :: p == q
  }

  ghost predicate NamesDiffer(upper: string -> string, prefix: string, leaves: seq<Leaf>) {
    forall i, j | 0 <= i < j < |leaves| ::
      Name(upper, prefix, leaves[i].path) != Name(upper, prefix, leaves[j].path)
  }

  lemma {:induction false} CountEntries(upper: string -> string, prefix: string, leaves: seq<Leaf>)
    ensures |WriteLeaves(upper, map[], prefix, leaves)| <= |leaves|
    ensures |WriteLeaves(upper, map[], prefix, leaves)| == |leaves| <==> NamesDiffer(upper, prefix, leaves)
    decreases |leaves|
  {
    if leaves != [] {
      var init, n := leaves[..|leaves| - 1], Name(upper, prefix, leaves[|leaves| - 1].path);
      var before := WriteLeaves(upper, map[], prefix, init);
      CountEntries(upper, prefix, init);
      WriteLeavesLookup(upper, prefix, init, n);
      var text := leaves[|leaves| - 1].text;
      if n in before {
        assert before[n := text].Keys == before.Keys;
        var i: nat :| WritesLast(upper, prefix, init, i, n);
        assert !NamesDiffer(upper, prefix, leaves);
      } else {
        assert before[n := text].Keys == before.Keys + {n};
        assert NamesDiffer(upper, prefix, init) ==> NamesDiffer(upper, prefix, leaves);
        assert NamesDiffer(upper, prefix, leaves) ==> NamesDiffer(upper, prefix, init);
      }
    }
  }

  /** No leaf is lost exactly when no two leaves of the document join to the same name. */
  lemma NoLeafLostIffNamesDistinct(upper: string -> string, prefix: string, v: Json)
    ensures |Flat(upper, prefix, v)| == |Leaves(v)| <==> DistinctNames(upper, prefix, v)
  {
    var leaves := Leaves(v);
    WalkListsLeaves(v);
    CountEntries(upper, prefix, leaves);
    if NamesDiffer(upper, prefix, leaves) {
      forall p, q | IsLeaf(v, p) && IsLeaf(v, q) && Name(upper, prefix, p) == Name(upper, prefix, q)
        ensures p == q
      {
        assert Meets(leaves, p) && Meets(leaves, q);
        var i :| 0 <= i < |leaves| && leaves[i].path == p;
        var j :| 0 <= j < |leaves| && leaves[j].path == q;
        assert i == j;
      }
    }
    if DistinctNames(upper, prefix, v) {
      forall i, j | 0 <= i < j < |leaves|
        ensures Name(upper, prefix, leaves[i].path) != Name(upper, prefix, leaves[j].path)
      {
        BeforeIsIrreflexive(leaves[i].path);
      }
    }
  }

  lemma LeafOfTexts(upper: string -> string, prefix: string, fields: map<string, Json>, p: Path)
    requires forall k | k in fields :: fields[k].Text?
    ensures IsLeaf(Object(fields), p) <==> |p| == 1 && p[0] in fields
    ensures |p| == 1 && p[0] in fields ==>
              TextAt(Object(fields), p) == fields[p[0]].s && Name(upper, prefix, p) == prefix + "_" + upper(p[0])
  {
    if p != [] && p[0] in fields {
      assert Follow(Object(fields), p) == Follow(fields[p[0]], p[1..]);
      assert |p| == 1 ==> p[1..] == [];
    }
  }

  /** Two keys of one document that differ only in what `ToUpper` removes silently share an entry,
      and the one that sorts last keeps it. */
  lemma CollidingLeavesOverwrite(upper: string -> string, prefix: string, a: string, b: string, x: string, y: string)
    requires Less(a, b) && upper(a) == upper(b)
    ensures var v, n := Object(map[a := Text(x), b := Text(y)]), prefix + "_" + upper(a);
            !DistinctNames(upper, prefix, v) && n in Flat(upper, prefix, v) && Flat(upper, prefix, v)[n] == y
  {
    var fields := map[a := Text(x), b := Text(y)];
    var v, n := Object(fields), prefix + "_" + upper(a);
    LessIsIrreflexive(a);
    LeafOfTexts(upper, prefix, fields, [a]);
    LeafOfTexts(upper, prefix, fields, [b]);
    FlattenIsLastWriterWins(upper, prefix, v, n);
    var w :| Wins(upper, prefix, v, w) && Name(upper, prefix, w) == n && Flat(upper, prefix, v)[n] == TextAt(v, w);
    LeafOfTexts(upper, prefix, fields, w);
    assert w == [a] || w == [b];
    if Less(b, a) {
      LessIsTransitive(a, b, a);
    }
    assert !Before([b], [a]) && [a] != [b];
  }

  lemma {:induction false} NameExtendsPrefix(upper: string -> string, prefix: string, path: Path)
    ensures prefix <= Name(upper, prefix, path)
    ensures path != [] ==> prefix + "_" <= Name(upper, prefix, path)
    decreases |path|
  {
    if path != [] {
      NameExtendsPrefix(upper, prefix + "_" + upper(path[0]), path[1..]);
    }
  }

  /** An object only yields names below its own prefix. */
  lemma EntriesStartWithPrefix(upper: string -> string, prefix: string, v: Json)
    requires v.Object?
    ensures forall n | n in Flat(upper, prefix, v) :: prefix + "_" <= n
  {
    hide Flat;
    forall n | n in Flat(upper, prefix, v)
      ensures prefix + "_" <= n
    {
      FlattenIsLastWriterWins(upper, prefix, v, n);
      var p :| IsLeaf(v, p) && Name(upper, prefix, p) == n;
      NameExtendsPrefix(upper, prefix, p);
    }
  }

  // ---------- leaves and names, in plain words ----------

  /** What a leaf is rendered as: text as it is, true and false as these words, null as nothing, numbers
      and arrays as their rendering. So for the leaf each entry holds. */
  lemma EntriesHoldTheirLeaf(upper: string -> string, prefix: string, v: Json, n: string)
    requires n in Flat(upper, prefix, v)
    ensures exists p :: Wins(upper, prefix, v, p) && Name(upper, prefix, p) == n
              && match Follow(v, p).value
                 case Text(s) => Flat(upper, prefix, v)[n] == s
                 case Bool(true) => Flat(upper, prefix, v)[n] == "true"
                 case Bool(false) => Flat(upper, prefix, v)[n] == "false"
                 case Null => Flat(upper, prefix, v)[n] == ""
                 case Number(rendered) => Flat(upper, prefix, v)[n] == rendered
                 case Array(rendered) => Flat(upper, prefix, v)[n] == rendered
                 case Object(_) => false
  {
    hide Flat, Wins, Name, Follow;
    FlattenIsLastWriterWins(upper, prefix, v, n);
    WinsAreLeaves(upper, prefix, v);
    var p :| Wins(upper, prefix, v, p) && Name(upper, prefix, p) == n && Flat(upper, prefix, v)[n] == TextAt(v, p);
  }

  lemma WinsAreLeaves(upper: string -> string, prefix: string, v: Json)
    ensures forall p | Wins(upper, prefix, v, p) :: IsLeaf(v, p)
  {
  }

  /** Reading a name from its end: each key adds an underscore and its upper-cased form. */
  lemma {:induction false} NameEndsWithKey(upper: string -> string, prefix: string, path: Path, k: string)
    ensures Name(upper, prefix, []) == prefix
    ensures Name(upper, prefix, path + [k]) == Name(upper, prefix, path) + "_" + upper(k)
    decreases |path|
  {
    if path == [] {
      assert path + [k] == [k];
    } else {
      assert (path + [k])[1..] == path[1..] + [k];
      NameEndsWithKey(upper, prefix + "_" + upper(path[0]), path[1..], k);
    }
  }

  /** Following a path one key further looks the key up in the object reached. */
  lemma {:induction false} FollowEndsWithKey(v: Json, path: Path, k: string)
    ensures Follow(v, []) == Some(v)
    ensures Follow(v, path + [k]) == match Follow(v, path)
                                     case Some(Object(fields)) => if k in fields then Some(fields[k]) else None
                                     case _ => None
    decreases |path|
  {
    if path == [] {
      assert path + [k] == [k];
    } else {
      assert (path + [k])[1..] == path[1..] + [k];
      if v.Object? && path[0] in v.fields {
        FollowEndsWithKey(v.fields[path[0]], path[1..], k);
      }
    }
  }
}
