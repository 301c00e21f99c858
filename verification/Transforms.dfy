/** The value pipeline: `spec.transforms` rewrites the revealed map before it reaches the target. */
module Transforms {
  import opened Wrappers
  import opened Strings
  import Base64
  import Flatten

  type Data = map<string, string>

  datatype Transform =
    | Prefix(affix: string)
    | Suffix(affix: string)
    | Rename(from: string, to: string)
    | Base64Decode(keys: seq<string>)
    | JsonExpand(key: string)
    | Unknown(kind: string)

  /** The standard library functions the pipeline calls. */
  datatype Library = Library(parse: string -> Option<Flatten.Json>, upper: string -> string)

  datatype Problem =
    | UnknownType
    | RenameNeedsBoth
    | DestinationExists(to: string)
    | NotBase64(at: string)
    | ExpandNeedsKey
    | NotJson
    | NotAnObject
    | Collision

  datatype TransformError = TransformError(index: nat, problem: Problem)

  /** What `ApplyTransforms` returns: the map reached and the error that stopped it, if any. */
  datatype Applied = Applied(data: Data, error: Option<TransformError>)

  /** The name a renaming transform gives to a key. */
  function NewName(t: Transform, k: string): string {
    match t
    case Prefix(affix) => affix + k
    case Suffix(affix) => k + affix
    case Rename(from, to) => if k == from then to else k
    case _ => k
  }

  lemma AffixIsInjective(t: Transform, k: string, l: string)
    requires t.Prefix? || t.Suffix?
    ensures NewName(t, k) == NewName(t, l) <==> k == l
  {
    if t.Prefix? {
      assert (t.affix + k)[|t.affix|..] == k && (t.affix + l)[|t.affix|..] == l;
    } else if NewName(t, k) == NewName(t, l) {
      assert (k + t.affix)[..|k|] == k && (l + t.affix)[..|l|] == l;
    }
  }

  /** `out` is `m` with every key renamed by `t`: no key lost, none added, every value carried across. */
  ghost predicate Renames(t: Transform, m: Data, out: Data) {
    && (forall k | k in m :: NewName(t, k) in out && out[NewName(t, k)] == m[k])
    && (forall n | n in out :: exists k :: k in m && NewName(t, k) == n)
    && (forall k, l | k in m && l in m && NewName(t, k) == NewName(t, l) :: k == l)
  }

  ghost function Affixed(m: Data, t: Transform): (out: Data)
    requires t.Prefix? || t.Suffix?
    ensures Renames(t, m, out)
  {
    assert forall k, l | k in m && l in m && NewName(t, k) == NewName(t, l) :: k == l by {
      forall k, l | k in m && l in m && NewName(t, k) == NewName(t, l)
        ensures k == l
      {
        AffixIsInjective(t, k, l);
      }
    }
    map k | k in m :: NewName(t, k) := m[k]
  }

  function Renamed(m: Data, t: Transform): Result<Data, Problem>
    requires t.Rename?
  {
    if t.from == "" || t.to == "" then Err(RenameNeedsBoth)
    else if t.from == t.to || t.from !in m then Ok(m)
    else if t.to in m then Err(DestinationExists(t.to))
    else Ok((m - {t.from})[t.to := m[t.from]])
  }

  function DecodedInTurn(m: Data, keys: seq<string>): Result<Data, Problem>
    decreases |keys|
  {
    if keys == [] then Ok(m) else
      match DecodedInTurn(m, keys[..|keys| - 1])
      case Err(p) => Err(p)
      case Ok(so) =>
        var k := keys[|keys| - 1];
        if k !in so then Ok(so) else
          match Base64.DecodeEither(so[k])
          case None => Err(NotBase64(k))
          case Some(bytes) => Ok(so[k := bytes])
  }

  ghost function DecodeTargets(m: Data, t: Transform): seq<string>
    requires t.Base64Decode?
  {
    if t.keys == [] then SortedKeys(m.Keys) else t.keys
  }

  ghost function Expanded(lib: Library, m: Data, t: Transform): Result<Data, Problem>
    requires t.JsonExpand?
  {
    if t.key == "" then Err(ExpandNeedsKey)
    else if t.key !in m then Ok(m)
    else
      match lib.parse(m[t.key])
      case None => Err(NotJson)
      case Some(v) =>
        if !v.Object? then Err(NotAnObject) else
          var flat, others := Flatten.Flat(lib.upper, lib.upper(t.key), v), m - {t.key};
          if flat.Keys !! others.Keys then Ok(others + flat) else Err(Collision)
  }

  ghost function AppliedOne(lib: Library, m: Data, t: Transform): Result<Data, Problem> {
    match t
    case Prefix(_) => Ok(Affixed(m, t))
    case Suffix(_) => Ok(Affixed(m, t))
    case Rename(_, _) => Renamed(m, t)
    case Base64Decode(_) => DecodedInTurn(m, DecodeTargets(m, t))
    case JsonExpand(_) => Expanded(lib, m, t)
    case Unknown(_) => Err(UnknownType)
  }

  ghost function Apply(lib: Library, m: Data, ts: seq<Transform>): Applied
    decreases |ts|
  {
    if ts == [] then Applied(m, None) else
      var so := Apply(lib, m, ts[..|ts| - 1]);
      if so.error.Some? then so else
        match AppliedOne(lib, so.data, ts[|ts| - 1])
        case Ok(out) => Applied(out, None)
        case Err(problem) => Applied(so.data, Some(TransformError(|ts| - 1, problem)))
  }

  // ---------- the loops of the source ----------

  lemma AffixedIsUnique(m: Data, t: Transform, out: Data)
    requires (t.Prefix? || t.Suffix?) && Renames(t, m, out)
    ensures out == Affixed(m, t)
  {
    forall n | n in out
      ensures n in Affixed(m, t) && out[n] == Affixed(m, t)[n]
    {
      var k :| k in m && NewName(t, k) == n;
    }
  }

  method ApplyAffix(m: Data, t: Transform) returns (out: Data)
    requires t.Prefix? || t.Suffix?
    ensures out == Affixed(m, t)
  {
    if t.affix == "" {
      forall k | k in m
        ensures NewName(t, k) == k
      {
      }
      AffixedIsUnique(m, t, m);
      return m;
    }
    out := map[];
    var left := m.Keys;
    while left != {}
      invariant left <= m.Keys
      invariant forall k | k in m && k !in left :: NewName(t, k) in out && out[NewName(t, k)] == m[k]
      invariant forall n | n in out :: exists k :: k in m && k !in left && NewName(t, k) == n
      decreases left
    {
      var k :| k in left;
      forall l | l in m && l != k
        ensures NewName(t, l) != NewName(t, k)
      {
        AffixIsInjective(t, k, l);
      }
      out := out[NewName(t, k) := m[k]];
      left := left - {k};
    }
    forall k, l | k in m && l in m && NewName(t, k) == NewName(t, l)
      ensures k == l
    {
      AffixIsInjective(t, k, l);
    }
    AffixedIsUnique(m, t, out);
  }

  /** Copy `m` entry by entry into a fresh map, leaving out the key `except`. */
  method CopyExcept(m: Data, except: string) returns (out: Data)
    ensures out == m - {except}
  {
    out := map[];
    var left := m.Keys;
    while left != {}
      invariant left <= m.Keys && out.Keys == m.Keys - left - {except}
      invariant forall k | k in out :: out[k] == m[k]
      decreases left
    {
      var k :| k in left;
      if k != except {
        out := out[k := m[k]];
      }
      left := left - {k};
    }
  }

  method ApplyRename(m: Data, t: Transform) returns (r: Result<Data, Problem>)
    requires t.Rename?
    ensures r == Renamed(m, t)
  {
    if t.from == "" || t.to == "" {
      return Err(RenameNeedsBoth);
    }
    if t.from == t.to {
      return Ok(m);
    }
    if t.from !in m {
      return Ok(m);
    }
    var v := m[t.from];
    if t.to in m {
      return Err(DestinationExists(t.to));
    }
    var out := CopyExcept(m, t.from);
    out := out[t.to := v];
    return Ok(out);
  }

  lemma {:induction false} FailureSticks(m: Data, keys: seq<string>, i: nat)
    requires i <= |keys| && DecodedInTurn(m, keys[..i]).Err?
    ensures DecodedInTurn(m, keys) == DecodedInTurn(m, keys[..i])
    decreases |keys| - i
  {
    if i < |keys| {
      assert keys[..i + 1][..i] == keys[..i];
      FailureSticks(m, keys, i + 1);
    } else {
      assert keys[..i] == keys;
    }
  }

  method ApplyBase64Decode(m: Data, t: Transform) returns (r: Result<Data, Problem>)
    requires t.Base64Decode?
    ensures r == DecodedInTurn(m, DecodeTargets(m, t))
  {
    hide Base64.Decode, SortedKeys;
    var targets := t.keys;
    if |targets| == 0 {
      targets := CollectSorted(m.Keys);
    }
    var out := m;
    for i := 0 to |targets|
      invariant DecodedInTurn(m, targets[..i]) == Ok(out)
    {
      var k := targets[i];
      assert targets[..i + 1][..i] == targets[..i];
      if k in out {
        var decoded := Base64.Decode(Base64.Std, out[k]);
        if decoded.None? {
          decoded := Base64.Decode(Base64.Url, out[k]);
          if decoded.None? {
            FailureSticks(m, targets, i + 1);
            return Err(NotBase64(k));
          }
        }
        out := out[k := decoded.value];
      }
    }
    assert targets[..|targets|] == targets;
    return Ok(out);
  }

  /** Add the flattened entries one by one, stopping at a key that is taken. */
  method AddEntries(others: Data, flat: Data) returns (r: Result<Data, Problem>)
    ensures r == if flat.Keys !! others.Keys then Ok(others + flat) else Err(Collision)
  {
    var out, left := others, flat.Keys;
    while left != {}
      invariant left <= flat.Keys && (flat.Keys - left) !! others.Keys
      invariant out == others + (flat - left)
      decreases left
    {
      var k :| k in left;
      if k in out {
        return Err(Collision);
      }
      out := out[k := flat[k]];
      left := left - {k};
    }
    assert flat - left == flat && flat.Keys - left == flat.Keys;
    return Ok(out);
  }

  method ApplyJsonExpand(lib: Library, m: Data, t: Transform) returns (r: Result<Data, Problem>)
    requires t.JsonExpand?
    ensures r == Expanded(lib, m, t)
  {
    if t.key == "" {
      return Err(ExpandNeedsKey);
    }
    if t.key !in m {
      return Ok(m);
    }
    var parsed := lib.parse(m[t.key]);
    if parsed.None? {
      return Err(NotJson);
    }
    if !parsed.value.Object? {
      return Err(NotAnObject);
    }
    hide Flatten.WriteLeaves, Flatten.Leaves;
    var flatMap := new Flatten.FlatMap();
    flatMap.Flatten(lib.upper, lib.upper(t.key), parsed.value);
    var others := CopyExcept(m, t.key);
    r := AddEntries(others, flatMap.entries);
  }

  method ApplyOne(lib: Library, m: Data, t: Transform) returns (r: Result<Data, Problem>)
    ensures r == AppliedOne(lib, m, t)
  {
    match t {
      case Prefix(_) => var out := ApplyAffix(m, t); r := Ok(out);
      case Suffix(_) => var out := ApplyAffix(m, t); r := Ok(out);
      case Rename(_, _) => r := ApplyRename(m, t);
      case Base64Decode(_) => r := ApplyBase64Decode(m, t);
      case JsonExpand(_) => r := ApplyJsonExpand(lib, m, t);
      case Unknown(_) => r := Err(UnknownType);
    }
  }

  lemma {:induction false} ErrorSticks(lib: Library, m: Data, ts: seq<Transform>, i: nat)
    requires i <= |ts| && Apply(lib, m, ts[..i]).error.Some?
    ensures Apply(lib, m, ts) == Apply(lib, m, ts[..i])
    decreases |ts| - i
  {
    if i < |ts| {
      assert ts[..i + 1][..i] == ts[..i];
      ErrorSticks(lib, m, ts, i + 1);
    } else {
      assert ts[..i] == ts;
    }
  }

  /** `ApplyTransforms`: each transform in order, stopping at the first that fails. */
  method ApplyTransforms(lib: Library, input: Data, ts: seq<Transform>) returns (r: Applied)
    ensures r == Apply(lib, input, ts)
  {
    var out := input;
    for i := 0 to |ts|
      invariant Apply(lib, input, ts[..i]) == Applied(out, None)
    {
      assert ts[..i + 1][..i] == ts[..i];
      var next := ApplyOne(lib, out, ts[i]);
      if next.Err? {
        ErrorSticks(lib, input, ts, i + 1);
        return Applied(out, Some(TransformError(i, next.error)));
      }
      out := next.value;
    }
    assert ts[..|ts|] == ts;
    return Applied(out, None);
  }

  // ---------- what the pipeline promises ----------

  function Shifted(a: Applied, offset: nat): Applied {
    match a.error
    case None => a
    case Some(e) => Applied(a.data, Some(TransformError(e.index + offset, e.problem)))
  }

  /** Two lists in a row are one list: the second runs on what the first produced, and an error in it
      keeps its place in the whole list. */
  lemma {:induction false} PipelinesCompose(lib: Library, m: Data, ts: seq<Transform>, us: seq<Transform>)
    ensures var first := Apply(lib, m, ts);
            Apply(lib, m, ts + us)
            == if first.error.Some? then first else Shifted(Apply(lib, first.data, us), |ts|)
    decreases |us|
  {
    hide AppliedOne;
    if us == [] {
      assert ts + us == ts;
    } else {
      assert (ts + us)[..|ts + us| - 1] == ts + us[..|us| - 1];
      PipelinesCompose(lib, m, ts, us[..|us| - 1]);
    }
  }

  /** An error names the first transform that fails, and comes with what the ones before it produced. */
  lemma {:induction false} ErrorNamesFirstFailure(lib: Library, m: Data, ts: seq<Transform>)
    requires Apply(lib, m, ts).error.Some?
    ensures var Applied(data, Some(e)) := Apply(lib, m, ts);
            && e.index < |ts|
            && Apply(lib, m, ts[..e.index]) == Applied(data, None)
            && AppliedOne(lib, data, ts[e.index]) == Err(e.problem)
    decreases |ts|
  {
    var init := ts[..|ts| - 1];
    if Apply(lib, m, init).error.Some? {
      ErrorNamesFirstFailure(lib, m, init);
      var e := Apply(lib, m, ts).error.value;
      assert init[..e.index] == ts[..e.index];
    }
  }

  predicate IsRenaming(t: Transform) {
    t.Prefix? || t.Suffix? || t.Rename?
  }

  /** Where a whole list of renaming transforms takes a key. */
  function Trace(ts: seq<Transform>, k: string): string
    decreases |ts|
  {
    if ts == [] then k else NewName(ts[|ts| - 1], Trace(ts[..|ts| - 1], k))
  }

  lemma RenamedRenames(m: Data, t: Transform)
    requires t.Rename? && Renamed(m, t).Ok?
    ensures Renames(t, m, Renamed(m, t).value)
  {
    var out := Renamed(m, t).value;
    if t.from != t.to && t.from in m {
      forall n | n in out
        ensures exists k :: k in m && NewName(t, k) == n
      {
        assert NewName(t, if n == t.to then t.from else n) == n;
      }
    } else {
      forall k | k in m
        ensures NewName(t, k) == k
      {
      }
    }
  }

  lemma OneRenaming(lib: Library, m: Data, t: Transform)
    requires IsRenaming(t) && AppliedOne(lib, m, t).Ok?
    ensures Renames(t, m, AppliedOne(lib, m, t).value)
  {
    if t.Rename? {
      RenamedRenames(m, t);
    } else {
      assert AppliedOne(lib, m, t) == Ok(Affixed(m, t));
    }
  }

  /** A list of renamings that succeeds moves every value to its own new key and adds nothing. */
  lemma {:induction false} RenamingsCarryValues(lib: Library, m: Data, ts: seq<Transform>)
    requires (forall t | t in ts :: IsRenaming(t)) && Apply(lib, m, ts).error.None?
    ensures var out := Apply(lib, m, ts).data;
            && (forall k | k in m :: Trace(ts, k) in out && out[Trace(ts, k)] == m[k])
            && (forall n | n in out :: exists k :: k in m && Trace(ts, k) == n)
            && (forall k, l | k in m && l in m && Trace(ts, k) == Trace(ts, l) :: k == l)
    decreases |ts|
  {
    if ts != [] {
      var init, t := ts[..|ts| - 1], ts[|ts| - 1];
      RenamingsCarryValues(lib, m, init);
      var so, out := Apply(lib, m, init).data, Apply(lib, m, ts).data;
      OneRenaming(lib, so, t);
      forall n | n in out
        ensures exists k :: k in m && Trace(ts, k) == n
      {
        var x :| x in so && NewName(t, x) == n;
        var k :| k in m && Trace(init, k) == x;
        assert Trace(ts, k) == n;
      }
    } else {
      forall n | n in m
        ensures Trace(ts, n) == n
      {
      }
    }
  }

  /** Decoding a value `times` times over. */
  function DecodedTimes(v: string, times: nat): Option<string> {
    if times == 0 then Some(v) else
      match DecodedTimes(v, times - 1)
      case None => None
      case Some(w) => Base64.DecodeEither(w)
  }

  lemma {:induction false} DecodedOnceMore(v: string, n: nat, times: nat)
    requires n <= times && DecodedTimes(v, n).None?
    ensures DecodedTimes(v, times).None?
  {
    if n < times {
      DecodedOnceMore(v, n, times - 1);
    }
  }

  function Count(keys: seq<string>, k: string): nat
    decreases |keys|
  {
    if keys == [] then 0 else Count(keys[..|keys| - 1], k) + if keys[|keys| - 1] == k then 1 else 0
  }

  /** `out` is `m` with each value decoded as often as its key is listed. */
  ghost predicate DecodedAsListed(m: Data, keys: seq<string>, out: Data) {
    out.Keys == m.Keys && forall k | k in m :: DecodedTimes(m[k], Count(keys, k)) == Some(out[k])
  }

  lemma CountOneMore(keys: seq<string>, last: string, k: string)
    ensures Count(keys + [last], k) == Count(keys, k) + if k == last then 1 else 0
  {
    assert (keys + [last])[..|keys|] == keys;
  }

  lemma DecodeOneMore(m: Data, keys: seq<string>, last: string, so: Data)
    requires DecodedAsListed(m, keys, so)
    ensures last !in so ==> DecodedAsListed(m, keys + [last], so)
    ensures last in so ==>
              match Base64.DecodeEither(so[last])
              case None => DecodedTimes(m[last], Count(keys + [last], last)).None?
              case Some(bytes) => DecodedAsListed(m, keys + [last], so[last := bytes])
  {
    hide Base64.DecodeEither, Count;
    forall k
      ensures Count(keys + [last], k) == Count(keys, k) + if k == last then 1 else 0
    {
      CountOneMore(keys, last, k);
    }
  }

  /** Every value ends up decoded exactly as often as its key is listed, and the transform succeeds
      exactly when all these decodings exist. Listed keys the map lacks are ignored. */
  lemma {:induction false} DecodedAsOftenAsListed(m: Data, keys: seq<string>)
    ensures match DecodedInTurn(m, keys)
            case Ok(out) => DecodedAsListed(m, keys, out)
            case Err(problem) =>
              && problem.NotBase64? && problem.at in keys && problem.at in m
              && DecodedTimes(m[problem.at], Count(keys, problem.at)).None?
    decreases |keys|
  {
    if keys == [] {
      assert DecodedAsListed(m, keys, m);
    } else {
      var init, last := keys[..|keys| - 1], keys[|keys| - 1];
      assert keys == init + [last];
      DecodedAsOftenAsListed(m, init);
      match DecodedInTurn(m, init) {
        case Ok(so) => DecodeOneMore(m, init, last, so);
        case Err(problem) =>
          var k := problem.at;
          CountOneMore(init, last, k);
          DecodedOnceMore(m[k], Count(init, k), Count(keys, k));
      }
    }
  }

  lemma {:induction false} CountOfIncreasing(keys: seq<string>, k: string)
    requires Increasing(keys)
    ensures Count(keys, k) == if k in keys then 1 else 0
    decreases |keys|
  {
    if keys != [] {
      var init, last := keys[..|keys| - 1], keys[|keys| - 1];
      CountOfIncreasing(init, k);
      assert keys == init + [last];
      LessIsIrreflexive(last);
      assert last !in init;
    }
  }

  /** An empty key list decodes every value once. */
  lemma EmptyListDecodesEachOnce(lib: Library, m: Data)
    ensures var r := AppliedOne(lib, m, Base64Decode([]));
            && (r.Ok? <==> forall k | k in m :: Base64.DecodeEither(m[k]).Some?)
            && (r.Ok? ==> r.value.Keys == m.Keys && forall k | k in m :: Base64.DecodeEither(m[k]) == Some(r.value[k]))
  {
    var keys := SortedKeys(m.Keys);
    DecodedAsOftenAsListed(m, keys);
    forall k | k in m
      ensures DecodedTimes(m[k], Count(keys, k)) == Base64.DecodeEither(m[k])
    {
      CountOfIncreasing(keys, k);
      assert k in Elements(keys);
      assert DecodedTimes(m[k], 0) == Some(m[k]);
    }
  }

  /** A successful expansion drops its source key, leaves every other key as it was, and adds exactly
      the flattened entries, all of them named below the upper-cased source key. */
  lemma ExpandKeepsOthers(lib: Library, m: Data, key: string)
    requires key in m && AppliedOne(lib, m, JsonExpand(key)).Ok?
    ensures var out := AppliedOne(lib, m, JsonExpand(key)).value;
            && lib.parse(m[key]).Some? && lib.parse(m[key]).value.Object?
            && var flat := Flatten.Flat(lib.upper, lib.upper(key), lib.parse(m[key]).value);
            && (forall k | k in m && k != key :: k in out && out[k] == m[k])
            && (forall n | n in flat :: n in out && out[n] == flat[n] && lib.upper(key) + "_" <= n)
            && (forall n | n in out :: n in flat || (n in m && n != key))
            && |out| == |m| - 1 + |flat|
  {
    var v := lib.parse(m[key]).value;
    var flat := Flatten.Flat(lib.upper, lib.upper(key), v);
    var out := AppliedOne(lib, m, JsonExpand(key)).value;
    Flatten.EntriesStartWithPrefix(lib.upper, lib.upper(key), v);
    assert out.Keys == (m.Keys - {key}) + flat.Keys;
    assert |(m.Keys - {key}) + flat.Keys| == |m.Keys - {key}| + |flat.Keys|;
  }

  // ---------- each transform, in plain words ----------

  lemma {:induction false} ImageSize(keys: set<string>, f: string -> string, image: set<string>)
    requires forall k, l | k in keys && l in keys && f(k) == f(l) :: k == l
    requires image == set k | k in keys :: f(k)
    ensures |image| == |keys|
    decreases |keys|
  {
    if keys != {} {
      var k :| k in keys;
      ImageSize(keys - {k}, f, image - {f(k)});
    }
  }

  lemma SameSize(m: Data, t: Transform, out: Data)
    requires Renames(t, m, out)
    ensures |out| == |m|
  {
    var f := (k: string) => NewName(t, k);
    var image := set k | k in m.Keys :: f(k);
    hide NewName;
    assert forall n :: n in out <==> n in image;
    assert out.Keys == image;
    ImageSize(m.Keys, f, image);
  }

  /** A prefix goes before every key and a suffix after it; every value stays with its key. */
  lemma AffixesExactly(lib: Library, m: Data, affix: string)
    ensures var r := AppliedOne(lib, m, Prefix(affix));
            r.Ok? && |r.value| == |m| && forall k | k in m :: affix + k in r.value && r.value[affix + k] == m[k]
    ensures var r := AppliedOne(lib, m, Suffix(affix));
            r.Ok? && |r.value| == |m| && forall k | k in m :: k + affix in r.value && r.value[k + affix] == m[k]
  {
    hide Affixed, NewName, Renames, Renamed, Expanded, DecodedInTurn;
    AffixedSays(m, Prefix(affix));
    AffixedSays(m, Suffix(affix));
    assert AppliedOne(lib, m, Prefix(affix)) == Ok(Affixed(m, Prefix(affix)));
    assert AppliedOne(lib, m, Suffix(affix)) == Ok(Affixed(m, Suffix(affix)));
  }

  lemma AffixedSays(m: Data, t: Transform)
    requires t.Prefix? || t.Suffix?
    ensures var out := Affixed(m, t);
            && |out| == |m|
            && forall k | k in m :: var n := if t.Prefix? then t.affix + k else k + t.affix; n in out && out[n] == m[k]
  {
    var out := Affixed(m, t);
    SameSize(m, t, out);
    forall k | k in m
      ensures NewName(t, k) == if t.Prefix? then t.affix + k else k + t.affix
      ensures NewName(t, k) in out && out[NewName(t, k)] == m[k]
    {
    }
  }

  /** A rename needs both names, does nothing when they are the same or the first is missing, refuses to
      overwrite, and otherwise moves one value and touches no other entry. */
  lemma RenamesExactly(lib: Library, m: Data, from: string, to: string)
    ensures var r := AppliedOne(lib, m, Rename(from, to));
            && (r == Err(RenameNeedsBoth) <==> from == "" || to == "")
            && (r == Err(DestinationExists(to)) <==> from != "" && to != "" && from != to && from in m && to in m)
            && (from != "" && to != "" && (from == to || from !in m) ==> r == Ok(m))
            && (from != "" && to != "" && from in m && to !in m ==>
                  && r.Ok? && r.value.Keys == m.Keys - {from} + {to} && r.value[to] == m[from]
                  && forall k | k in m && k != from :: r.value[k] == m[k])
  {
  }

  /** A type that is not known is an error, and a missing source key of an expansion is none. */
  lemma NothingToExpand(lib: Library, m: Data, kind: string, key: string)
    ensures AppliedOne(lib, m, Unknown(kind)) == Err(UnknownType)
    ensures key == "" ==> AppliedOne(lib, m, JsonExpand(key)) == Err(ExpandNeedsKey)
    ensures key != "" && key !in m ==> AppliedOne(lib, m, JsonExpand(key)) == Ok(m)
  {
  }

  lemma CollidesExactly(lib: Library, m: Data, key: string, v: Flatten.Json)
    ensures Flatten.Flat(lib.upper, lib.upper(key), v).Keys !! (m - {key}).Keys
            <==> forall p | Flatten.IsLeaf(v, p) :: Flatten.Name(lib.upper, lib.upper(key), p) !in m - {key}
  {
    hide Flatten.Flat, Flatten.IsLeaf, Flatten.Name;
    var prefix, others := lib.upper(key), m - {key};
    var flat := Flatten.Flat(lib.upper, prefix, v);
    forall n
      ensures n in flat <==> exists p :: Flatten.IsLeaf(v, p) && Flatten.Name(lib.upper, prefix, p) == n
    {
      Flatten.FlattenIsLastWriterWins(lib.upper, prefix, v, n);
    }
    assert flat.Keys !! others.Keys <==> forall n | n in flat :: n !in others;
  }

  /** Exactly when an expansion fails, and with which error: the value does not parse, is no object, or
      some leaf of it joins to the name of another key. */
  lemma ExpandFailsExactly(lib: Library, m: Data, key: string)
    requires key != "" && key in m
    ensures var r, parsed := AppliedOne(lib, m, JsonExpand(key)), lib.parse(m[key]);
            && (r == Err(NotJson) <==> parsed.None?)
            && (r == Err(NotAnObject) <==> parsed.Some? && !parsed.value.Object?)
            && (r == Err(Collision) <==>
                  && parsed.Some? && parsed.value.Object?
                  && exists p | Flatten.IsLeaf(parsed.value, p) ::
                       Flatten.Name(lib.upper, lib.upper(key), p) in m - {key})
  {
    hide Flatten.Flat, Flatten.IsLeaf, Flatten.Name, Renamed, DecodedInTurn;
    var parsed := lib.parse(m[key]);
    if parsed.Some? && parsed.value.Object? {
      CollidesExactly(lib, m, key, parsed.value);
    }
  }

  /** The two ends of the fold: no transform changes nothing, and a single one is applied, or stops the
      list at index 0 with the map as it was. */
  lemma ShortLists(lib: Library, m: Data, t: Transform)
    ensures Apply(lib, m, []) == Applied(m, None)
    ensures var r := AppliedOne(lib, m, t);
            Apply(lib, m, [t]) == if r.Ok? then Applied(r.value, None) else Applied(m, Some(TransformError(0, r.error)))
  {
    hide AppliedOne;
    assert [t][..0] == [] && Apply(lib, m, []) == Applied(m, None);
  }

  /** A key list decodes in turn: every value as often as its key is listed, or an error that names a
      listed key. */
  lemma DecodesListed(lib: Library, m: Data, keys: seq<string>)
    requires keys != []
    ensures var r := AppliedOne(lib, m, Base64Decode(keys));
            && (r.Ok? ==> DecodedAsListed(m, keys, r.value))
            && (r.Err? ==>
                  && r.error.NotBase64? && r.error.at in keys && r.error.at in m
                  && DecodedTimes(m[r.error.at], Count(keys, r.error.at)).None?)
  {
    hide DecodedTimes, Count;
    DecodedAsOftenAsListed(m, keys);
  }
}
