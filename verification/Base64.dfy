/** Go's `base64.StdEncoding` and `base64.URLEncoding` decoders (padded, not strict), and the
    encodings of sections 4 and 5 of RFC 4648 they invert. */
module Base64 {
  import opened Wrappers

  datatype Alphabet = Std | Url

  type Bytes = s: string | forall i | 0 <= i < |s| :: s[i] as int < 256

  const PAD := '='

  /** The value of a symbol, or -1 for a character outside the alphabet. */
  function Sextet(a: Alphabet, c: char): (n: int)
    ensures -1 <= n < 64
  {
    if 'A' <= c <= 'Z' then c as int - 'A' as int
    else if 'a' <= c <= 'z' then c as int - 'a' as int + 26
    else if '0' <= c <= '9' then c as int - '0' as int + 52
    else if c == (if a.Std? then '+' else '-') then 62
    else if c == (if a.Std? then '/' else '_') then 63
    else -1
  }

  function Symbol(a: Alphabet, n: int): (c: char)
    requires 0 <= n < 64
    ensures Sextet(a, c) == n && c != PAD && !IsNewline(c)
  {
    if n < 26 then ('A' as int + n) as char
    else if n < 52 then ('a' as int + n - 26) as char
    else if n < 62 then ('0' as int + n - 52) as char
    else if n == 62 then (if a.Std? then '+' else '-')
    else if a.Std? then '/' else '_'
  }

  function Byte(n: int): char
    requires 0 <= n < 256
  {
    n as char
  }

  predicate IsNewline(c: char) {
    c == '\n' || c == '\r'
  }

  /** The decoder skips line breaks wherever they stand. */
  function Strip(s: string): string {
    if s == "" then "" else if IsNewline(s[0]) then Strip(s[1..]) else [s[0]] + Strip(s[1..])
  }

  function Quanta(a: Alphabet, s: string): Option<string> {
    if s == "" then Some("") else if |s| < 4 then None else
      var w, x, y, z := Sextet(a, s[0]), Sextet(a, s[1]), Sextet(a, s[2]), Sextet(a, s[3]);
      if w < 0 || x < 0 then None
      else if s[2] == PAD then
        if s[3] == PAD && |s| == 4 then Some([Byte(w * 4 + x / 16)]) else None
      else if y < 0 then None
      else if s[3] == PAD then
        if |s| == 4 then Some([Byte(w * 4 + x / 16), Byte(x % 16 * 16 + y / 4)]) else None
      else if z < 0 then None
      else
        match Quanta(a, s[4..])
        case None => None
        case Some(rest) => Some([Byte(w * 4 + x / 16), Byte(x % 16 * 16 + y / 4), Byte(y % 4 * 64 + z)] + rest)
  }

  function Decode(a: Alphabet, s: string): Option<string> {
    Quanta(a, Strip(s))
  }

  /** The standard alphabet first, then the URL-safe one. */
  function DecodeEither(s: string): Option<string> {
    var std := Decode(Std, s);
    if std.Some? then std else Decode(Url, s)
  }

  /** Three bytes cut into four sextets, from which they can be put together again. */
  function Sextets(p: int, q: int, r: int): (t: (int, int, int, int))
    requires 0 <= p < 256 && 0 <= q < 256 && 0 <= r < 256
    ensures 0 <= t.0 < 64 && 0 <= t.1 < 64 && 0 <= t.2 < 64 && 0 <= t.3 < 64
    ensures t.0 * 4 + t.1 / 16 == p && t.1 % 16 * 16 + t.2 / 4 == q && t.2 % 4 * 64 + t.3 == r
  {
    (p / 4, p % 4 * 16 + q / 16, q % 16 * 4 + r / 64, r % 64)
  }

  function Quad(a: Alphabet, t: (int, int, int, int)): string
    requires 0 <= t.0 < 64 && 0 <= t.1 < 64 && 0 <= t.2 < 64 && 0 <= t.3 < 64
  {
    [Symbol(a, t.0), Symbol(a, t.1), Symbol(a, t.2), Symbol(a, t.3)]
  }

  function Code(b: Bytes, i: nat): (n: int)
    ensures 0 <= n < 256
    ensures i < |b| ==> Byte(n) == b[i]
  {
    if i < |b| then b[i] as int else 0
  }

  /** The encoding of section 4 (standard) or section 5 (URL-safe) of RFC 4648. */
  function Encode(a: Alphabet, b: Bytes): string {
    if b == "" then "" else
      var quad := Quad(a, Sextets(Code(b, 0), Code(b, 1), Code(b, 2)));
      if |b| == 1 then quad[..2] + [PAD, PAD]
      else if |b| == 2 then quad[..3] + [PAD]
      else quad + Encode(a, b[3..])
  }

  lemma QuantaFull(a: Alphabet, p: int, q: int, r: int, rest: string)
    requires 0 <= p < 256 && 0 <= q < 256 && 0 <= r < 256 && Quanta(a, rest).Some?
    ensures Quanta(a, Quad(a, Sextets(p, q, r)) + rest)
            == Some([Byte(p), Byte(q), Byte(r)] + Quanta(a, rest).value)
  {
    assert (Quad(a, Sextets(p, q, r)) + rest)[4..] == rest;
  }

  lemma QuantaOne(a: Alphabet, b: Bytes)
    requires |b| == 1
    ensures Quanta(a, Encode(a, b)) == Some(b)
  {
    assert b == [Byte(Code(b, 0))];
  }

  lemma QuantaTwo(a: Alphabet, b: Bytes)
    requires |b| == 2
    ensures Quanta(a, Encode(a, b)) == Some(b)
  {
    assert b == [Byte(Code(b, 0)), Byte(Code(b, 1))];
  }

  lemma QuantaMore(a: Alphabet, b: Bytes)
    requires |b| > 2 && Quanta(a, Encode(a, b[3..])) == Some(b[3..])
    ensures Quanta(a, Encode(a, b)) == Some(b)
  {
    QuantaFull(a, Code(b, 0), Code(b, 1), Code(b, 2), Encode(a, b[3..]));
    assert b == [Byte(Code(b, 0)), Byte(Code(b, 1)), Byte(Code(b, 2))] + b[3..];
  }

  lemma {:induction false} QuantaInvertEncode(a: Alphabet, b: Bytes)
    ensures Quanta(a, Encode(a, b)) == Some(b)
  {
    if |b| == 1 {
      QuantaOne(a, b);
    } else if |b| == 2 {
      QuantaTwo(a, b);
    } else if |b| > 2 {
      QuantaInvertEncode(a, b[3..]);
      QuantaMore(a, b);
    }
  }

  lemma {:induction false} EncodingIsOneLine(a: Alphabet, b: Bytes)
    ensures forall c | c in Encode(a, b) :: !IsNewline(c)
  {
    if |b| > 2 {
      EncodingIsOneLine(a, b[3..]);
    }
  }

  lemma {:induction false} StripKeepsOneLine(s: string)
    requires forall c | c in s :: !IsNewline(c)
    ensures Strip(s) == s
  {
    if s != "" {
      StripKeepsOneLine(s[1..]);
    }
  }

  /** Decoding undoes the encoding of the same alphabet. */
  lemma DecodeInvertsEncode(a: Alphabet, b: Bytes)
    ensures Decode(a, Encode(a, b)) == Some(b)
  {
    EncodingIsOneLine(a, b);
    StripKeepsOneLine(Encode(a, b));
    QuantaInvertEncode(a, b);
  }

  lemma {:induction false} QuantaAgree(s: string)
    requires Quanta(Std, s).Some? && Quanta(Url, s).Some?
    ensures Quanta(Std, s) == Quanta(Url, s)
  {
    if |s| >= 4 && s[2] != PAD && s[3] != PAD {
      QuantaAgree(s[4..]);
    }
  }

  /** A string both decoders accept means the same bytes to both, so the order in which they are
      tried does not matter. */
  lemma TryingOrderIsIrrelevant(s: string)
    ensures DecodeEither(s) == var url := Decode(Url, s); if url.Some? then url else Decode(Std, s)
  {
    if Decode(Std, s).Some? && Decode(Url, s).Some? {
      QuantaAgree(Strip(s));
    }
  }

  /** What was encoded under either section comes back through the fallback. */
  lemma EitherAlphabetInverts(a: Alphabet, b: Bytes)
    ensures DecodeEither(Encode(a, b)) == Some(b)
  {
    DecodeInvertsEncode(a, b);
    TryingOrderIsIrrelevant(Encode(a, b));
  }

  // ---------- what the decoders accept, and what it means ----------

  /** The symbols of section 4 or of section 5 of RFC 4648. */
  predicate InAlphabet(a: Alphabet, c: char) {
    'A' <= c <= 'Z' || 'a' <= c <= 'z' || '0' <= c <= '9' || c in (if a.Std? then "+/" else "-_")
  }

  /** Their order: upper case, lower case, digits, and the two that differ. */
  lemma SymbolsInOrder(a: Alphabet, n: nat)
    requires n < 64
    ensures Symbol(a, 0) == 'A' && Symbol(a, 26) == 'a' && Symbol(a, 52) == '0'
    ensures [Symbol(a, 62), Symbol(a, 63)] == if a.Std? then "+/" else "-_"
    ensures n !in {25, 51, 61, 62, 63} ==> Symbol(a, n + 1) as int == Symbol(a, n) as int + 1
  {
  }

  lemma AlphabetIsSextets(a: Alphabet)
    ensures forall c :: InAlphabet(a, c) <==> Sextet(a, c) >= 0
    ensures !InAlphabet(a, PAD)
  {
  }

  /** Whole groups of four symbols, where the last one or two characters may be padding instead. */
  ghost predicate WellPadded(a: Alphabet, t: string) {
    && |t| % 4 == 0
    && forall i | 0 <= i < |t| ::
         InAlphabet(a, t[i]) || (i >= |t| - 2 && t[i] == '=' && t[|t| - 1] == '=')
  }

  lemma WellPaddedFromTheFront(a: Alphabet, t: string)
    requires |t| > 4
    ensures WellPadded(a, t) <==>
              && InAlphabet(a, t[0]) && InAlphabet(a, t[1]) && InAlphabet(a, t[2]) && InAlphabet(a, t[3])
              && WellPadded(a, t[4..])
  {
    hide InAlphabet;
    var rest := t[4..];
    if WellPadded(a, t) {
      forall i | 0 <= i < |rest|
        ensures InAlphabet(a, rest[i]) || (i >= |rest| - 2 && rest[i] == '=' && rest[|rest| - 1] == '=')
      {
        assert rest[i] == t[i + 4];
      }
    }
    if WellPadded(a, rest) {
      assert forall i | 4 <= i < |t| :: t[i] == rest[i - 4];
    }
  }

  lemma {:induction false} QuantaAcceptExactly(a: Alphabet, t: string)
    ensures Quanta(a, t).Some? <==> WellPadded(a, t)
  {
    AlphabetIsSextets(a);
    hide InAlphabet, Sextet;
    if |t| > 4 {
      hide WellPadded;
      QuantaAcceptExactly(a, t[4..]);
      WellPaddedFromTheFront(a, t);
    } else if |t| == 4 {
      assert t[4..] == "";
    }
  }

  lemma {:induction false} StripEachPart(x: string, y: string)
    ensures Strip(x + y) == Strip(x) + Strip(y)
  {
    if x == "" {
      assert x + y == y;
    } else {
      assert (x + y)[1..] == x[1..] + y;
      StripEachPart(x[1..], y);
    }
  }

  /** Line breaks do not matter wherever they stand. */
  lemma LineBreaksAreSkipped(a: Alphabet, x: string, c: char, y: string)
    requires c == '\n' || c == '\r'
    ensures Decode(a, x + [c] + y) == Decode(a, x + y)
  {
    hide Quanta;
    StripEachPart(x + [c], y);
    StripEachPart(x, [c]);
    StripEachPart(x, y);
    assert [c][1..] == "" && Strip([c]) == Strip("") == "";
    assert Strip(x) + "" == Strip(x);
    assert x + [c] + y == (x + [c]) + y;
  }

  /** Without line breaks a string decodes exactly when it is well padded; an unpadded tail does not. */
  lemma DecodesExactly(a: Alphabet, s: string)
    requires forall c | c in s :: c != '\n' && c != '\r'
    ensures Decode(a, s).Some? <==> WellPadded(a, s)
  {
    StripKeepsOneLine(s);
    QuantaAcceptExactly(a, s);
  }

  lemma DigitsAreUnique(p: nat, q: nat, r: nat, x: nat, y: nat, z: nat)
    requires p < 256 && q < 256 && r < 256 && x < 256 && y < 256 && z < 256
    requires p * 65536 + q * 256 + r == x * 65536 + y * 256 + z
    ensures p == x && q == y && r == z
  {
  }

  /** Four symbols are the 24 bits of three bytes, the first symbol being the highest six. */
  lemma GroupsAreBigEndian(a: Alphabet, i: nat, j: nat, k: nat, l: nat, p: nat, q: nat, r: nat, rest: string)
    requires i < 64 && j < 64 && k < 64 && l < 64 && p < 256 && q < 256 && r < 256
    requires p * 65536 + q * 256 + r == ((i * 64 + j) * 64 + k) * 64 + l
    requires Quanta(a, rest).Some?
    ensures Quanta(a, [Symbol(a, i), Symbol(a, j), Symbol(a, k), Symbol(a, l)] + rest)
            == Some([p as char, q as char, r as char] + Quanta(a, rest).value)
  {
    hide Symbol;
    var t := [Symbol(a, i), Symbol(a, j), Symbol(a, k), Symbol(a, l)];
    assert (t + rest)[4..] == rest;
    assert j == j / 16 * 16 + j % 16 && k == k / 4 * 4 + k % 4;
    DigitsAreUnique(p, q, r, i * 4 + j / 16, j % 16 * 16 + k / 4, k % 4 * 64 + l);
  }

  lemma TailBits(i: nat, j: nat, k: nat)
    requires i < 64 && j < 64 && k < 64
    ensures ((i * 64 + j) * 64 + k) / 4 == (i * 4 + j / 16) * 256 + (j % 16 * 16 + k / 4)
    ensures (i * 64 + j) / 16 == i * 4 + j / 16 < 256 && j % 16 * 16 + k / 4 < 256
  {
    assert j == j / 16 * 16 + j % 16 && k == k / 4 * 4 + k % 4;
  }

  /** With one or two padding characters the bits left over are dropped. */
  lemma TailsAreBigEndian(a: Alphabet, i: nat, j: nat, k: nat, p: nat, q: nat)
    requires i < 64 && j < 64 && k < 64 && p < 256 && q < 256
    ensures p * 256 + q == ((i * 64 + j) * 64 + k) / 4 ==>
              Quanta(a, [Symbol(a, i), Symbol(a, j), Symbol(a, k), '=']) == Some([p as char, q as char])
    ensures p == (i * 64 + j) / 16 ==> Quanta(a, [Symbol(a, i), Symbol(a, j), '=', '=']) == Some([p as char])
  {
    hide Symbol;
    TailBits(i, j, k);
    assert Quanta(a, [Symbol(a, i), Symbol(a, j), Symbol(a, k), '='])
        == Some([Byte(i * 4 + j / 16), Byte(j % 16 * 16 + k / 4)]);
    assert Quanta(a, [Symbol(a, i), Symbol(a, j), '=', '=']) == Some([Byte(i * 4 + j / 16)]);
  }

  /** The fallback gives what either alphabet gives. */
  lemma EitherIsOneOfBoth(s: string, bytes: string)
    ensures DecodeEither(s) == Some(bytes) <==> Decode(Std, s) == Some(bytes) || Decode(Url, s) == Some(bytes)
  {
    TryingOrderIsIrrelevant(s);
  }
}
