/** `redact`: every secret is cut out of an error message before it is shown. */
module Redaction {
  const MARK := "[redacted]"

  predicate OccursAt(s: string, t: string, i: int) {
    0 <= i <= |t| - |s| && t[i..i + |s|] == s
  }

  predicate Occurs(s: string, t: string) {
    exists i | 0 <= i <= |t| - |s| :: OccursAt(s, t, i)
  }

  /** `text.split(s)`: the pieces between the occurrences, found from the left. An empty `s` splits the
      text into its code units, and each `char` stands for one of them. */
  function Split(t: string, s: string): (pieces: seq<string>)
    ensures s != "" ==> pieces != []
    decreases |t|
  {
    if s == "" then (if t == "" then [] else [[t[0]]] + Split(t[1..], s))
    else if |t| < |s| then [t]
    else if t[..|s|] == s then [""] + Split(t[|s|..], s)
    else
      var rest := Split(t[1..], s);
      [[t[0]] + rest[0]] + rest[1..]
  }

  /** `pieces.join(sep)`. */
  function Join(pieces: seq<string>, sep: string): string {
    if pieces == [] then "" else if |pieces| == 1 then pieces[0] else pieces[0] + sep + Join(pieces[1..], sep)
  }

  /** `redact`: the secrets one after the other. */
  function Redact(message: string, secrets: seq<string>): string
    decreases |secrets|
  {
    if secrets == [] then message else
      Join(Split(Redact(message, secrets[..|secrets| - 1]), secrets[|secrets| - 1]), MARK)
  }

  /** The `reduce` of the source. */
  method RedactMessage(message: string, secrets: seq<string>) returns (text: string)
    ensures text == Redact(message, secrets)
  {
    text := message;
    for i := 0 to |secrets|
      invariant text == Redact(message, secrets[..i])
    {
      assert secrets[..i + 1][..i] == secrets[..i];
      text := Join(Split(text, secrets[i]), MARK);
    }
    assert secrets[..|secrets|] == secrets;
  }

  predicate Bracketed(s: string) {
    '[' in s || ']' in s
  }

  /** With the mark at position `o` of `s` (before its start when negative), the two overlap and say the
      same wherever they do. */
  ghost predicate MeetsMark(s: string, o: int) {
    -|MARK| < o < |s| && forall k | 0 <= k < |s| && 0 <= k - o < |MARK| :: s[k] == MARK[k - o]
  }

  /** The mark can be no part of an occurrence of `s`. */
  ghost predicate Apart(s: string) {
    s != "" && forall o :: !MeetsMark(s, o)
  }

  // ---------- occurrences in joined text ----------

  lemma OccursIn(s: string, t: string, i: int)
    requires OccursAt(s, t, i)
    ensures Occurs(s, t)
  {
  }

  /** An occurrence in text around a mark lies on one side of the mark, or meets it. */
  lemma OccursAroundMark(s: string, a: string, b: string, i: int)
    requires s != "" && OccursAt(s, a + MARK + b, i)
    ensures i + |s| <= |a| ==> OccursAt(s, a, i)
    ensures i >= |a| + |MARK| ==> OccursAt(s, b, i - |a| - |MARK|)
    ensures |a| - |s| < i < |a| + |MARK| ==> MeetsMark(s, |a| - i)
  {
    var t := a + MARK + b;
    if i + |s| <= |a| {
      assert t[i..i + |s|] == a[i..i + |s|];
    } else if i >= |a| + |MARK| {
      assert t[i..i + |s|] == b[i - |a| - |MARK|..][..|s|];
    } else {
      forall k | 0 <= k < |s| && 0 <= k - (|a| - i) < |MARK|
        ensures s[k] == MARK[k - (|a| - i)]
      {
        assert s[k] == t[i..i + |s|][k] == t[i + k];
      }
    }
  }

  lemma OccursInWhole(s: string, t: string, from: nat, to: nat)
    requires from <= to <= |t| && Occurs(s, t[from..to])
    ensures Occurs(s, t)
  {
    var part := t[from..to];
    var i :| 0 <= i <= |part| - |s| && OccursAt(s, part, i);
    forall k | 0 <= k < |s|
      ensures t[from + i..from + i + |s|][k] == s[k]
    {
      assert s[k] == part[i..i + |s|][k] == t[from + i + k];
    }
    OccursIn(s, t, from + i);
  }

  /** The pieces are parts of the text, and the separator does not start a piece at its cut. */
  ghost predicate PartsOf(pieces: seq<string>, t: string) {
    forall k | 0 <= k < |pieces| :: forall x | Occurs(x, pieces[k]) :: Occurs(x, t)
  }

  /** The first piece is how the text starts. */
  lemma {:induction false} FirstPieceIsPrefix(t: string, s: string)
    requires s != ""
    ensures Split(t, s)[0] <= t
    decreases |t|
  {
    if |t| >= |s| && t[..|s|] != s {
      FirstPieceIsPrefix(t[1..], s);
      assert t == [t[0]] + t[1..];
    }
  }

  lemma {:induction false} LettersArePartsOf(t: string)
    ensures PartsOf(Split(t, ""), t)
  {
    var pieces := Split(t, "");
    if t != "" {
      LettersArePartsOf(t[1..]);
      assert t[1..] == t[1..|t|];
      forall k, x | 0 <= k < |pieces| && Occurs(x, pieces[k])
        ensures Occurs(x, t)
      {
        if k > 0 {
          assert pieces[k] == Split(t[1..], "")[k - 1];
          OccursInWhole(x, t, 1, |t|);
        } else {
          assert pieces[0] == t[0..1];
          OccursInWhole(x, t, 0, 1);
        }
      }
    }
  }

  lemma {:induction false} PiecesArePartsOf(t: string, s: string)
    ensures PartsOf(Split(t, s), t)
    decreases |t|
  {
    var pieces := Split(t, s);
    if s == "" {
      LettersArePartsOf(t);
    } else if |t| >= |s| {
      var cut := if t[..|s|] == s then |s| else 1;
      var tail := t[cut..|t|];
      var rest := Split(tail, s);
      PiecesArePartsOf(tail, s);
      FirstPieceIsPrefix(t, s);
      assert t[cut..] == tail;
      forall k, x | 0 <= k < |pieces| && Occurs(x, pieces[k])
        ensures Occurs(x, t)
      {
        if k > 0 {
          assert pieces[k] in rest;
          OccursInWhole(x, t, cut, |t|);
        } else {
          assert pieces[0] == t[0..|pieces[0]|];
          OccursInWhole(x, t, 0, |pieces[0]|);
        }
      }
    }
  }

  /** No piece contains the separator. */
  lemma {:induction false} PiecesAreClean(t: string, s: string)
    requires s != ""
    ensures forall k | 0 <= k < |Split(t, s)| :: !Occurs(s, Split(t, s)[k])
    decreases |t|
  {
    var pieces := Split(t, s);
    if |t| >= |s| {
      if t[..|s|] == s {
        PiecesAreClean(t[|s|..], s);
      } else {
        var rest := Split(t[1..], s);
        PiecesAreClean(t[1..], s);
        FirstPieceIsPrefix(t, s);
        if Occurs(s, pieces[0]) {
          var i :| 0 <= i <= |pieces[0]| - |s| && OccursAt(s, pieces[0], i);
          assert pieces[0][i..i + |s|] == t[i..i + |s|];
          if i > 0 {
            assert rest[0][i - 1..i - 1 + |s|] == pieces[0][i..i + |s|];
            OccursIn(s, rest[0], i - 1);
          }
        }
        forall k | 0 < k < |pieces|
          ensures !Occurs(s, pieces[k])
        {
          assert pieces[k] == rest[k];
        }
      }
    }
  }

  /** Joined text contains a string the mark is no part of only where a piece does. */
  lemma {:induction false} JoinedOccurrence(pieces: seq<string>, x: string)
    requires Apart(x) && Occurs(x, Join(pieces, MARK))
    ensures exists k :: 0 <= k < |pieces| && Occurs(x, pieces[k])
    decreases |pieces|
  {
    if |pieces| == 1 {
      assert Occurs(x, pieces[0]);
    } else {
      var rest := Join(pieces[1..], MARK);
      var i :| OccursAt(x, pieces[0] + MARK + rest, i);
      OccursAroundMark(x, pieces[0], rest, i);
      if i + |x| <= |pieces[0]| {
        OccursIn(x, pieces[0], i);
      } else {
        OccursIn(x, rest, i - |pieces[0]| - |MARK|);
        JoinedOccurrence(pieces[1..], x);
        var k :| 0 <= k < |pieces[1..]| && Occurs(x, pieces[1..][k]);
        assert Occurs(x, pieces[k + 1]);
      }
    }
  }

  lemma {:induction false} LettersJoinBack(t: string)
    ensures Join(Split(t, ""), "") == t
  {
    if t != "" {
      LettersJoinBack(t[1..]);
      assert Split(t, "")[1..] == Split(t[1..], "");
      assert t == [t[0]] + t[1..];
    }
  }

  lemma JoinOneMore(first: string, rest: seq<string>, sep: string)
    requires rest != []
    ensures Join([first] + rest, sep) == first + sep + Join(rest, sep)
  {
    assert ([first] + rest)[1..] == rest;
  }

  lemma JoinLonger(c: char, pieces: seq<string>, sep: string)
    requires pieces != []
    ensures Join([[c] + pieces[0]] + pieces[1..], sep) == [c] + Join(pieces, sep)
  {
    assert ([[c] + pieces[0]] + pieces[1..])[1..] == pieces[1..];
  }

  /** Nothing but the secret goes: put back between the pieces, it restores the text. */
  lemma {:induction false} SplitLosesNothing(t: string, s: string)
    ensures Join(Split(t, s), s) == t
    decreases |t|
  {
    if s == "" {
      LettersJoinBack(t);
    } else if |t| < |s| {
      assert Split(t, s) == [t];
    } else {
      hide Join;
      if t[..|s|] == s {
        SplitLosesNothing(t[|s|..], s);
        JoinOneMore("", Split(t[|s|..], s), s);
        assert t == "" + s + t[|s|..];
      } else {
        SplitLosesNothing(t[1..], s);
        JoinLonger(t[0], Split(t[1..], s), s);
        assert t == [t[0]] + t[1..];
      }
    }
  }

  // ---------- which secrets are gone, whatever else is redacted ----------

  /** Cutting out one secret removes it, and brings back no other that was gone. */
  lemma OneSecretRedacted(t: string, s: string, x: string)
    requires Apart(x) && (x == s || !Occurs(x, t))
    ensures !Occurs(x, Join(Split(t, s), MARK))
  {
    if Occurs(x, Join(Split(t, s), MARK)) {
      JoinedOccurrence(Split(t, s), x);
      var k :| 0 <= k < |Split(t, s)| && Occurs(x, Split(t, s)[k]);
      PiecesArePartsOf(t, s);
      if x == s {
        PiecesAreClean(t, s);
      }
    }
  }

  /** The redacted message contains none of the listed secrets the mark is no part of, whatever else is
      on the list: a later replacement never puts an earlier secret together again. */
  lemma {:induction false} NoSecretSurvives(message: string, secrets: seq<string>)
    ensures forall s | s in secrets && Apart(s) :: !Occurs(s, Redact(message, secrets))
    decreases |secrets|
  {
    if secrets != [] {
      var init, last := secrets[..|secrets| - 1], secrets[|secrets| - 1];
      NoSecretSurvives(message, init);
      assert secrets == init + [last];
      forall s | s in secrets && Apart(s)
        ensures !Occurs(s, Redact(message, secrets))
      {
        OneSecretRedacted(Redact(message, init), last, s);
      }
    }
  }

  lemma BracketWithinReach(s: string, o: int)
    requires MeetsMark(s, o)
    ensures 0 <= o || |s| - o >= |MARK| ==> Bracketed(s)
  {
    if 0 <= o {
      assert s[o] == MARK[0];
    } else if |s| - o >= |MARK| {
      assert s[o + |MARK| - 1] == MARK[|MARK| - 1];
    }
  }

  /** A bracket-free secret is one of these exactly when it is no part of the word in the mark. */
  lemma BracketFreeIsApart(s: string)
    requires s != "" && !Bracketed(s)
    ensures Apart(s) <==> !Occurs(s, "redacted")
  {
    var word := "redacted";
    assert forall k | 0 <= k < |word| :: word[k] == MARK[k + 1];
    if o :| MeetsMark(s, o) {
      BracketWithinReach(s, o);
      assert forall k | 0 <= k < |s| :: s[k] == word[-o - 1..][k];
      assert word[-o - 1..-o - 1 + |s|] == s;
      OccursIn(s, word, -o - 1);
    }
    if Occurs(s, word) {
      var i :| 0 <= i <= |word| - |s| && OccursAt(s, word, i);
      forall k | 0 <= k < |s|
        ensures s[k] == MARK[k + i + 1]
      {
        assert s[k] == word[i..i + |s|][k];
      }
      assert MeetsMark(s, -i - 1);
    }
  }

  lemma RedactOneMore(message: string, secrets: seq<string>, s: string)
    ensures Redact(message, secrets + [s]) == Join(Split(Redact(message, secrets), s), MARK)
  {
    assert (secrets + [s])[..|secrets|] == secrets;
  }

  lemma SplitNothing(t: string, s: string)
    requires s != "" && !Occurs(s, t)
    ensures Split(t, s) == [t]
    decreases |t|
  {
    if |t| >= |s| {
      assert OccursAt(s, t, 0) ==> Occurs(s, t);
      if Occurs(s, t[1..]) {
        assert t[1..] == t[1..|t|];
        OccursInWhole(s, t, 1, |t|);
      }
      SplitNothing(t[1..], s);
      assert t == [t[0]] + t[1..];
    }
  }

  /** Nowhere in `u + s` does `s` occur before its place. */
  ghost predicate FirstAt(u: string, s: string) {
    forall i | 0 <= i < |u| :: !OccursAt(s, u + s, i)
  }

  /** A text split at the one place where `s` occurs in it. */
  lemma {:induction false} SplitOnce(u: string, s: string, w: string)
    requires s != "" && FirstAt(u, s) && !Occurs(s, w)
    ensures Split(u + s + w, s) == [u, w]
    decreases |u|
  {
    var t := u + s + w;
    if u == "" {
      assert t[..|s|] == s && t[|s|..] == w;
      SplitNothing(w, s);
    } else {
      assert (u + s)[0..|s|] == t[..|s|];
      assert !OccursAt(s, u + s, 0);
      assert t[1..] == u[1..] + s + w;
      forall i | 0 <= i < |u[1..]|
        ensures !OccursAt(s, u[1..] + s, i)
      {
        assert (u[1..] + s)[i..i + |s|] == (u + s)[i + 1..i + 1 + |s|];
        assert !OccursAt(s, u + s, i + 1);
      }
      SplitOnce(u[1..], s, w);
      assert u == [u[0]] + u[1..];
      assert [u[1..], w][1..] == [w];
    }
  }

  /** What stands before and after the mark in a secret the mark is part of. */
  function Head(s: string, o: int): string
    requires o < |s|
  {
    if o > 0 then s[..o] else ""
  }

  function Tail(s: string, o: int): string
    requires -|MARK| < o
  {
    if o + |MARK| < |s| then s[o + |MARK|..] else ""
  }

  lemma RebuiltAroundMark(s: string, o: int)
    requires MeetsMark(s, o)
    ensures Occurs(s, Head(s, o) + MARK + Tail(s, o))
  {
    var t, from := Head(s, o) + MARK + Tail(s, o), if o < 0 then -o else 0;
    forall k | 0 <= k < |s|
      ensures t[from + k] == s[k]
    {
    }
    assert t[from..from + |s|] == s;
    OccursIn(s, t, from);
  }

  lemma ShortHoldsNone(s: string, w: string)
    requires |w| < |s|
    ensures !Occurs(s, w)
  {
  }

  lemma TwoPiecesJoined(u: string, w: string)
    ensures Join([u, w], MARK) == u + MARK + w
  {
    assert [u, w][1..] == [w];
  }

  // ---------- exactly when a secret survives its own redaction ----------

  /** `s` can be put together by its own redaction: the mark is part of it at some place, and what stands
      before that place does not make `s` start any earlier. */
  ghost predicate Reassembles(s: string, o: int) {
    MeetsMark(s, o) && FirstAt(Head(s, o), s)
  }

  /** Every piece before a cut ends where `s` first occurs, and the last one is free of it. */
  ghost predicate CutAtFirst(pieces: seq<string>, s: string) {
    && (forall k | 0 <= k < |pieces| - 1 :: FirstAt(pieces[k], s))
    && forall k | 0 <= k < |pieces| :: !Occurs(s, pieces[k])
  }

  lemma LongerFirstPiece(t: string, s: string, p: string)
    requires s != "" && FirstAt(p, s) && t != "" && [t[0]] + p + s <= t && !(s <= t)
    ensures FirstAt([t[0]] + p, s)
  {
    var q := [t[0]] + p;
    forall i | 0 <= i < |q|
      ensures !OccursAt(s, q + s, i)
    {
      if i > 0 {
        assert (q + s)[i..i + |s|] == (p + s)[i - 1..i - 1 + |s|];
        assert !OccursAt(s, p + s, i - 1);
      } else {
        assert (q + s)[0..|s|] == t[..|s|];
      }
    }
  }

  lemma {:induction false} SplitCutsAtFirst(t: string, s: string)
    requires s != ""
    ensures CutAtFirst(Split(t, s), s)
    decreases |t|
  {
    hide Occurs;
    PiecesAreClean(t, s);
    if |t| >= |s| && t[..|s|] != s {
      var rest := Split(t[1..], s);
      SplitCutsAtFirst(t[1..], s);
      if |rest| > 1 {
        FirstCut(t[1..], s);
        assert t == [t[0]] + t[1..];
        LongerFirstPiece(t, s, rest[0]);
      }
    } else if |t| >= |s| {
      SplitCutsAtFirst(t[|s|..], s);
    }
  }

  /** The text starts with its first piece, followed by `s` if there is a second. */
  lemma {:induction false} FirstCut(t: string, s: string)
    requires s != ""
    ensures |Split(t, s)| > 1 ==> Split(t, s)[0] + s <= t
    decreases |t|
  {
    if |t| >= |s| && t[..|s|] != s {
      FirstCut(t[1..], s);
      assert t == [t[0]] + t[1..];
      var rest := Split(t[1..], s);
      assert ([t[0]] + rest[0]) + s == [t[0]] + (rest[0] + s);
    }
  }

  lemma {:induction false} JoinedReassembles(pieces: seq<string>, s: string)
    requires s != "" && CutAtFirst(pieces, s) && Occurs(s, Join(pieces, MARK))
    ensures exists o :: Reassembles(s, o)
    decreases |pieces|
  {
    if |pieces| > 1 {
      var p, rest := pieces[0], Join(pieces[1..], MARK);
      var i :| OccursAt(s, p + MARK + rest, i);
      OccursAroundMark(s, p, rest, i);
      if i + |s| <= |p| {
        OccursIn(s, p, i);
        assert false;
      } else if i >= |p| + |MARK| {
        OccursIn(s, rest, i - |p| - |MARK|);
        JoinedReassembles(pieces[1..], s);
      } else {
        HeadEndsPiece(s, p, rest, i);
        assert Reassembles(s, |p| - i);
      }
    }
  }

  lemma HeadEndsPiece(s: string, p: string, rest: string, i: int)
    requires s != "" && OccursAt(s, p + MARK + rest, i) && |p| - |s| < i < |p| + |MARK| && FirstAt(p, s)
    ensures FirstAt(Head(s, |p| - i), s)
  {
    var o, t := |p| - i, p + MARK + rest;
    var u := Head(s, o);
    if o > 0 {
      assert u == t[i..i + |s|][..o] == p[i..];
      forall k | 0 <= k < |u|
        ensures !OccursAt(s, u + s, k)
      {
        assert (u + s)[k..k + |s|] == (p + s)[i + k..i + k + |s|];
        assert !OccursAt(s, p + s, i + k);
      }
    }
  }

  lemma ReassembledSurvives(s: string, o: int)
    requires s != "" && Reassembles(s, o)
    ensures Occurs(s, Redact(Head(s, o) + s + Tail(s, o), [s]))
  {
    var u, w := Head(s, o), Tail(s, o);
    RedactOneMore(u + s + w, [], s);
    assert [] + [s] == [s];
    ShortHoldsNone(s, w);
    SplitOnce(u, s, w);
    TwoPiecesJoined(u, w);
    RebuiltAroundMark(s, o);
  }

  /** Exact for every secret: redacted on its own, it survives in some message if and only if it can be
      put together by its own redaction. */
  lemma SurvivesIffReassembles(s: string)
    requires s != ""
    ensures (exists message :: Occurs(s, Redact(message, [s]))) <==> exists o :: Reassembles(s, o)
  {
    if message :| Occurs(s, Redact(message, [s])) {
      RedactOneMore(message, [], s);
      assert [] + [s] == [s];
      SplitCutsAtFirst(message, s);
      JoinedReassembles(Split(message, s), s);
    }
    if o :| Reassembles(s, o) {
      ReassembledSurvives(s, o);
    }
  }

  /** For a bracket-free secret the condition is that it is part of the word in the mark. */
  lemma SurvivesIffPartOfMark(s: string)
    requires s != "" && !Bracketed(s)
    ensures (forall message :: !Occurs(s, Redact(message, [s]))) <==> !Occurs(s, "redacted")
  {
    BracketFreeIsApart(s);
    SurvivesIffReassembles(s);
    if o :| MeetsMark(s, o) {
      BracketWithinReach(s, o);
      assert Reassembles(s, o);
    }
  }

  /** A bracket does not decide: the first of these two can be put together by its own redaction, the
      second by no list at all. */
  lemma BracketsDoNotDecide()
    ensures Occurs("a[", Redact("aa[", ["a["]))
    ensures Apart("[x]y")
  {
    var s := "a[";
    assert Head(s, 1) == "a" && !OccursAt(s, "a" + s, 0) by { assert ("a" + s)[0..2] == "aa"; }
    assert Reassembles(s, 1);
    ReassembledSurvives(s, 1);
    assert "a" + s + "" == "aa[";
    EndsApart();
  }

  lemma EndsApart()
    ensures Apart("[x]y")
  {
    var t := "[x]y";
    assert forall k | 0 < k < |MARK| :: MARK[k] != '[';
    forall o | -|MARK| < o < |t|
      ensures !MeetsMark(t, o)
    {
      if o < 0 {
        assert t[0] == '[' && MARK[0 - o] != '[';
      } else if o == 0 {
        assert t[1] == 'x' && MARK[1 - o] == 'r';
      } else {
        assert t[o] != '[' && MARK[o - o] == '[';
      }
    }
  }

  // ---------- exactly when a secret survives some list ----------

  lemma OccursChars(s: string, t: string, i: int)
    requires OccursAt(s, t, i)
    ensures forall k | 0 <= k < |s| :: s[k] == t[i + k]
    ensures s != "" ==> s[0] == t[i] && s[|s| - 1] == t[i + |s| - 1]
  {
    forall k | 0 <= k < |s|
      ensures s[k] == t[i + k]
    {
      assert t[i..i + |s|][k] == t[i + k];
    }
  }

  /** A text of one `d` and `n` times `c`. */
  function Bridge(d: char, c: char, n: nat): string {
    [d] + seq(n, i => c)
  }

  lemma BridgeStandsOnce(u: string, w: string, d: char, c: char, n: nat)
    requires d != c && |u| < n && |w| < n
    ensures FirstAt(u, Bridge(d, c, n)) && !Occurs(Bridge(d, c, n), w)
  {
    var s := Bridge(d, c, n);
    forall i | 0 <= i < |u|
      ensures !OccursAt(s, u + s, i)
    {
      assert (u + s)[|u|] == d;
      if OccursAt(s, u + s, i) {
        OccursChars(s, u + s, i);
      }
    }
  }

  lemma BridgeSeparates(x: string, u: string, w: string, d: char, c: char)
    requires |u| < |x| && |w| < |x| && {c, d} !! {x[0], x[|x| - 1]}
    ensures !Occurs(x, u + Bridge(d, c, |x|) + w)
  {
    var n := |x|;
    var t := u + Bridge(d, c, n) + w;
    forall i | 0 <= i <= |t| - n
      ensures !OccursAt(x, t, i)
    {
      var last := i + n - 1;
      assert |u| <= last <= |u| + n ==> t[last] in {c, d};
      assert |u| < i <= |u| + n ==> t[i] == c;
      if OccursAt(x, t, i) {
        OccursChars(x, t, i);
      }
    }
  }

  lemma TwoOthers(a: char, b: char) returns (c: char, d: char)
    ensures c != d && {c, d} !! {a, b}
  {
    c :| c in {'0', '1', '2'} && c !in {a, b};
    d :| d in {'0', '1', '2', '3'} && d !in {a, b, c};
  }

  /** Exact for every secret among others: it is gone from every message under every list that has it
      if and only if the mark can be no part of it. */
  lemma AlwaysGoneIffApart(x: string)
    ensures (forall message, secrets | x in secrets :: !Occurs(x, Redact(message, secrets))) <==> Apart(x)
  {
    if Apart(x) {
      forall message, secrets | x in secrets
        ensures !Occurs(x, Redact(message, secrets))
      {
        NoSecretSurvives(message, secrets);
      }
    } else if x == "" {
      EmptySurvives();
    } else {
      var o :| MeetsMark(x, o);
      SurvivesBesideAnother(x, o);
    }
  }

  lemma EmptySurvives()
    ensures exists message, secrets :: "" in secrets && Occurs("", Redact(message, secrets))
  {
    OccursIn("", Redact("", [""]), 0);
    assert "" in [""];
  }

  lemma SurvivesBesideAnother(x: string, o: int)
    requires x != "" && MeetsMark(x, o)
    ensures exists message, secrets :: x in secrets && Occurs(x, Redact(message, secrets))
  {
    var u, w := Head(x, o), Tail(x, o);
    var c, d := TwoOthers(x[0], x[|x| - 1]);
    var s := Bridge(d, c, |x|);
    var message := u + s + w;
    BridgeSeparates(x, u, w, d, c);
    SplitNothing(message, x);
    RedactOneMore(message, [], x);
    BridgeStandsOnce(u, w, d, c, |x|);
    SplitOnce(u, s, w);
    TwoPiecesJoined(u, w);
    RedactOneMore(message, [x], s);
    RebuiltAroundMark(x, o);
    assert [] + [x] == [x];
    assert x in [x] + [s] && Occurs(x, Redact(message, [x] + [s]));
  }
}
