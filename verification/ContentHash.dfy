/** The content hash all change detection rests on: the canonical byte string fed to SHA-256.
    The digest itself is a parameter. */
module ContentHash {
  import opened Wrappers
  import opened Strings

  type Data = map<string, string>

  const NUL := '\0'

  function Record(k: string, v: string): string {
    k + [NUL] + v + [NUL]
  }

  function Records(keys: seq<string>, data: Data): string
    requires forall k | k in keys :: k in data
  {
    if keys == [] then "" else Record(keys[0], data[keys[0]]) + Records(keys[1..], data)
  }

  /** The bytes hashed for `data`. */
  ghost function Serialise(data: Data): string {
    var keys := SortedKeys(data.Keys);
    assert forall k | k in keys :: k in Elements(keys);
    Records(keys, data)
  }

  lemma {:induction false} RecordsAppend(keys: seq<string>, k: string, data: Data)
    requires k in data && forall x | x in keys :: x in data
    ensures Records(keys + [k], data) == Records(keys, data) + Record(k, data[k])
  {
    if keys == [] {
      assert keys + [k] == [k];
    } else {
      assert (keys + [k])[1..] == keys[1..] + [k];
      RecordsAppend(keys[1..], k, data);
    }
  }

  lemma RecordsOneMore(keys: seq<string>, i: nat, data: Data)
    requires i < |keys| && forall x | x in keys :: x in data
    ensures Records(keys[..i + 1], data) == Records(keys[..i], data) + keys[i] + [NUL] + data[keys[i]] + [NUL]
  {
    RecordsAppend(keys[..i], keys[i], data);
    assert keys[..i + 1] == keys[..i] + [keys[i]];
  }

  /** `hashSecretData`: feed the sorted pairs to the hasher one write at a time. */
  method HashSecretData(data: Data, digest: string -> string) returns (hash: string)
    ensures hash == digest(Serialise(data))
  {
    var keys := CollectSorted(data.Keys);
    assert forall k | k in keys :: k in Elements(keys);
    var fed := "";
    for i := 0 to |keys|
      invariant fed == Records(keys[..i], data)
    {
      RecordsOneMore(keys, i, data);
      fed := fed + keys[i] + [NUL] + data[keys[i]] + [NUL];
    }
    assert keys[..|keys|] == keys;
    hash := digest(fed);
  }

  /** Everything before the first NUL, and what follows it. */
  function Cut(bytes: string): Option<(string, string)> {
    if bytes == "" then None
    else if bytes[0] == NUL then Some(("", bytes[1..]))
    else
      match Cut(bytes[1..])
      case None => None
      case Some((field, rest)) => Some(([bytes[0]] + field, rest))
  }

  lemma {:induction false} CutShrinks(bytes: string)
    ensures Cut(bytes).Some? ==> |Cut(bytes).value.1| < |bytes|
  {
    if bytes != "" && bytes[0] != NUL {
      CutShrinks(bytes[1..]);
    }
  }

  lemma {:induction false} CutField(field: string, rest: string)
    requires NUL !in field
    ensures Cut(field + [NUL] + rest) == Some((field, rest))
  {
    var bytes := field + [NUL] + rest;
    if field == "" {
      assert bytes[1..] == rest;
    } else {
      assert bytes[1..] == field[1..] + [NUL] + rest;
      CutField(field[1..], rest);
      assert bytes[0] == field[0] && field == [field[0]] + field[1..];
    }
  }

  /** Read a sequence of NUL-terminated key and value fields back into a map. */
  function Parse(bytes: string): Option<Data>
    decreases |bytes|
  {
    if bytes == "" then Some(map[]) else
      CutShrinks(bytes);
      match Cut(bytes)
      case None => None
      case Some((k, afterKey)) =>
        CutShrinks(afterKey);
        match Cut(afterKey)
        case None => None
        case Some((v, rest)) =>
          match Parse(rest)
          case None => None
          case Some(data) => Some(data[k := v])
  }

  predicate NulFree(data: Data) {
    forall k | k in data :: NUL !in k && NUL !in data[k]
  }

  lemma {:induction false} RecordsParseBack(keys: seq<string>, data: Data)
    requires NulFree(data) && forall k | k in keys :: k in data
    ensures Parse(Records(keys, data)) == Some(map k | k in keys :: data[k])
  {
    if keys != [] {
      var k, tail := keys[0], Records(keys[1..], data);
      var bytes := Records(keys, data);
      assert bytes == k + [NUL] + (data[k] + [NUL] + tail);
      CutField(k, data[k] + [NUL] + tail);
      CutField(data[k], tail);
      RecordsParseBack(keys[1..], data);
      assert keys == [k] + keys[1..];
      var parsed: Data := map x | x in keys[1..] :: data[x];
      assert parsed[k := data[k]] == map x | x in keys :: data[x];
    }
  }

  /** The serialisation of a NUL-free map can be read back. */
  lemma SerialiseRoundTrips(data: Data)
    requires NulFree(data)
    ensures Parse(Serialise(data)) == Some(data)
  {
    var keys := SortedKeys(data.Keys);
    assert forall k :: k in keys <==> k in Elements(keys);
    RecordsParseBack(keys, data);
    assert data == map k | k in keys :: data[k];
  }

  /** With a collision-free digest, equal hashes mean equal contents. */
  lemma HashIsInjective(a: Data, b: Data, digest: string -> string)
    requires NulFree(a) && NulFree(b)
    requires forall x, y | digest(x) == digest(y) :: x == y
    ensures digest(Serialise(a)) == digest(Serialise(b)) <==> a == b
  {
    SerialiseRoundTrips(a);
    SerialiseRoundTrips(b);
  }

  lemma SerialiseOne(k: string, data: Data)
    requires data.Keys == {k}
    ensures Serialise(data) == Record(k, data[k])
  {
    SortedListingIsUnique(SortedKeys({k}), [k]);
    RecordsAppend([], k, data);
    assert [] + [k] == [k];
  }

  lemma SerialiseTwo(k: string, l: string, data: Data)
    requires Less(k, l) && data.Keys == {k, l}
    ensures Serialise(data) == Record(k, data[k]) + Record(l, data[l])
  {
    assert Increasing([k, l]) && Elements([k, l]) == {k, l};
    SortedListingIsUnique(SortedKeys({k, l}), [k, l]);
    RecordsAppend([], k, data);
    RecordsAppend([k], l, data);
    assert [] + [k] == [k] && [k] + [l] == [k, l];
  }

  /** Once a value may hold a NUL, two contents hash alike: the second entry of one of them can be
      hidden inside the value of the other. */
  lemma NulValueIsAmbiguous(k: string, l: string, x: string, y: string)
    requires Less(k, l)
    ensures var a: Data := map[k := x, l := y];
            var b: Data := map[k := x + [NUL] + l + [NUL] + y];
            a != b && Serialise(a) == Serialise(b)
  {
    var a: Data := map[k := x, l := y];
    var b: Data := map[k := x + [NUL] + l + [NUL] + y];
    hide Serialise, Less;
    LessIsIrreflexive(k);
    assert l in a && l !in b;
    SerialiseTwo(k, l, a);
    SerialiseOne(k, b);
  }

  /** The bytes, read from the front: nothing for no entries, else the entry whose key comes first, key and
      value each followed by a zero byte, and then the bytes of the others. */
  lemma SerialiseFromTheFront(data: Data, k: string)
    requires k in data && forall l | l in data && l != k :: Less(k, l)
    ensures Serialise(map[]) == ""
    ensures Serialise(data) == k + "\0" + data[k] + "\0" + Serialise(data - {k})
  {
    var rest := SortedKeys((data - {k}).Keys);
    assert forall x :: x in rest <==> x in Elements(rest);
    NoElements(SortedKeys({}));
    var none: Data := map[];
    assert none.Keys == {};
    assert Increasing([k] + rest) by {
      assert forall x | x in rest :: Less(k, x);
    }
    assert Elements([k] + rest) == data.Keys;
    SortedListingIsUnique(SortedKeys(data.Keys), [k] + rest);
    assert ([k] + rest)[1..] == rest;
    SameRecords(rest, data, data - {k});
    assert Record(k, data[k]) + Records(rest, data) == k + "\0" + data[k] + "\0" + Records(rest, data);
  }

  lemma {:induction false} SameRecords(keys: seq<string>, a: Data, b: Data)
    requires forall k | k in keys :: k in a && k in b && a[k] == b[k]
    ensures Records(keys, a) == Records(keys, b)
  {
    if keys != [] {
      SameRecords(keys[1..], a, b);
    }
  }
}
