/** Byte strings and Go's `sort.Strings`.
    A Go string is a sequence of bytes; here each `char` stands for one byte. */
module Strings {

  /** The order of `sort.Strings`: lexicographic on bytes. */
  predicate Less(a: string, b: string) {
    |b| > 0 && (|a| == 0 || a[0] < b[0] || (a[0] == b[0] && Less(a[1..], b[1..])))
  }

  lemma {:induction false} LessIsIrreflexive(a: string)
    ensures !Less(a, a)
  {
    if a != [] {
      LessIsIrreflexive(a[1..]);
    }
  }

  lemma {:induction false} LessIsTransitive(a: string, b: string, c: string)
    requires Less(a, b) && Less(b, c)
    ensures Less(a, c)
  {
    if a != [] && a[0] == b[0] && b[0] == c[0] {
      LessIsTransitive(a[1..], b[1..], c[1..]);
    }
  }

  lemma {:induction false} LessIsTotal(a: string, b: string)
    ensures a == b || Less(a, b) || Less(b, a)
  {
    if a != [] && b != [] && a[0] == b[0] {
      LessIsTotal(a[1..], b[1..]);
      assert a == [a[0]] + a[1..] && b == [b[0]] + b[1..];
    }
  }

  ghost predicate Increasing(keys: seq<string>) {
    forall i, j | 0 <= i < j < |keys| :: Less(keys[i], keys[j])
  }

  function Elements<T>(xs: seq<T>): set<T> {
    set x | x in xs
  }

  /** `keys` lists the set `s` once each, in sorted order. */
  ghost predicate Lists(keys: seq<string>, s: set<string>) {
    Increasing(keys) && Elements(keys) == s
  }

  lemma NoElements<T>(xs: seq<T>)
    ensures xs == [] <==> Elements(xs) == {}
  {
    if xs != [] {
      assert xs[0] in Elements(xs);
    }
  }

  /** A set has one sorted listing only: the order in which a Go map yields its keys cannot be seen
      after `sort.Strings`. */
  lemma {:induction false} SortedListingIsUnique(a: seq<string>, b: seq<string>)
    requires Increasing(a) && Increasing(b) && Elements(a) == Elements(b)
    ensures a == b
  {
    NoElements(a);
    NoElements(b);
    if a != [] {
      HeadIsLeast(a, b);
      HeadIsLeast(b, a);
      if a[0] != b[0] {
        LessIsTransitive(a[0], b[0], a[0]);
        LessIsIrreflexive(a[0]);
      }
      TailElements(a);
      TailElements(b);
      SortedListingIsUnique(a[1..], b[1..]);
      assert a == [a[0]] + a[1..] && b == [b[0]] + b[1..];
    }
  }

  lemma HeadIsLeast(a: seq<string>, b: seq<string>)
    requires Increasing(a) && a != [] && b != [] && Elements(a) == Elements(b)
    ensures a[0] == b[0] || Less(a[0], b[0])
  {
    assert b[0] in Elements(a);
    var i :| 0 <= i < |a| && a[i] == b[0];
  }

  lemma TailElements(a: seq<string>)
    requires Increasing(a) && a != []
    ensures Increasing(a[1..]) && Elements(a[1..]) == Elements(a) - {a[0]}
  {
    LessIsIrreflexive(a[0]);
    forall x | x in Elements(a) && x != a[0]
      ensures x in a[1..]
    {
      var i :| 0 <= i < |a| && a[i] == x;
      assert a[1..][i - 1] == x;
    }
  }

  /** Where `k` goes in the sorted list `keys`. */
  function Insert(k: string, keys: seq<string>): seq<string> {
    if keys == [] || Less(k, keys[0]) then [k] + keys else [keys[0]] + Insert(k, keys[1..])
  }

  lemma {:induction false} InsertLists(k: string, keys: seq<string>)
    requires Increasing(keys) && k !in keys
    ensures Lists(Insert(k, keys), Elements(keys) + {k})
  {
    if keys == [] {
      assert Insert(k, keys) == [k];
    } else if Less(k, keys[0]) {
      forall j | 0 <= j < |keys|
        ensures Less(k, keys[j])
      {
        if j > 0 {
          LessIsTransitive(k, keys[0], keys[j]);
        }
      }
      assert Insert(k, keys) == [k] + keys;
    } else {
      var rest := Insert(k, keys[1..]);
      LessIsTotal(k, keys[0]);
      InsertLists(k, keys[1..]);
      TailElements(keys);
      assert keys[0] in keys;
      assert Insert(k, keys) == [keys[0]] + rest;
      forall j | 0 <= j < |rest|
        ensures Less(keys[0], rest[j])
      {
        assert rest[j] in Elements(rest);
        if rest[j] != k {
          var i :| 0 <= i < |keys[1..]| && keys[1..][i] == rest[j];
          assert keys[i + 1] == rest[j];
        }
      }
      assert Elements(Insert(k, keys)) == {keys[0]} + Elements(rest);
    }
  }

  /** The sorted listing of a set of keys. */
  ghost function SortedKeys(s: set<string>): (keys: seq<string>)
    ensures Lists(keys, s)
  {
    if s == {} then
      []
    else
      var k :| k in s;
      var rest := SortedKeys(s - {k});
      InsertLists(k, rest);
      Insert(k, rest)
  }

  /** Collect the keys in whatever order the map yields them, then sort. */
  method CollectSorted(s: set<string>) returns (keys: seq<string>)
    ensures keys == SortedKeys(s)
  {
    keys := [];
    var left := s;
    while left != {}
      invariant left <= s && Lists(keys, s - left)
      decreases left
    {
      var k :| k in left;
      InsertLists(k, keys);
      keys := Insert(k, keys);
      left := left - {k};
    }
    SortedListingIsUnique(keys, SortedKeys(s));
  }

  /** The first place where they differ decides: there `a` ends, or has the smaller byte. */
  lemma {:induction false} LessAtFirstDifference(a: string, b: string)
    ensures Less(a, b) <==> exists i: nat :: i <= |a| && i < |b| && a[..i] == b[..i] && (i == |a| || a[i] < b[i])
  {
    if i: nat :| i <= |a| && i < |b| && a[..i] == b[..i] && (i == |a| || a[i] < b[i]) {
      if i > 0 {
        assert a[..i][0] == b[..i][0];
        assert a[1..][..i - 1] == a[..i][1..] && b[1..][..i - 1] == b[..i][1..];
        LessAtFirstDifference(a[1..], b[1..]);
      }
    }
    if Less(a, b) {
      if |a| > 0 && a[0] == b[0] {
        LessAtFirstDifference(a[1..], b[1..]);
        var i: nat :| i <= |a[1..]| && i < |b[1..]| && a[1..][..i] == b[1..][..i]
                      && (i == |a[1..]| || a[1..][i] < b[1..][i]);
        assert a[..i + 1] == [a[0]] + a[1..][..i] && b[..i + 1] == [b[0]] + b[1..][..i];
      } else {
        assert a[..0] == b[..0];
      }
    }
  }
}
