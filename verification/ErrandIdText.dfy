/** The text of an errand id: a hash with the version and variant bits of a
    random UUID (sections 4.1.1 and 4.4 of RFC 4122), printed as in section 3. */
module ErrandIdText {
  import opened Types

  type Hash = h: Bytes | |h| == 16 witness [0, 0, 0, 0, 0, 0, 0, 0, 0, 0, 0, 0, 0, 0, 0, 0]

  /** Version 4 in the high half of byte 6, variant 10 in the top of byte 8. */
  function Stamp(h: Hash): Hash {
    h[6 := h[6] % 16 + 64][8 := h[8] % 64 + 128]
  }

  const DIGITS := "0123456789abcdef"

  type Nibble = n: int | 0 <= n < 16

  function Digit(n: Nibble): char {
    DIGITS[n]
  }

  function Value(c: char): Option<Nibble> {
    if '0' <= c <= '9' then Some(c as int - '0' as int)
    else if 'a' <= c <= 'f' then Some(c as int - 'a' as int + 10)
    else None
  }

  lemma DigitValue(n: Nibble)
    ensures Value(Digit(n)) == Some(n)
  {
  }

  function Hex(b: Bytes): string {
    if b == [] then "" else [Digit(b[0] / 16), Digit(b[0] % 16)] + Hex(b[1..])
  }

  function Unhex(t: string): Option<Bytes> {
    if t == "" then
      Some([])
    else if |t| == 1 then
      None
    else
      var hi, lo, rest := Value(t[0]), Value(t[1]), Unhex(t[2..]);
      if hi.Some? && lo.Some? && rest.Some? then Some([hi.value * 16 + lo.value] + rest.value) else None
  }

  lemma {:induction false} HexIsPlain(b: Bytes)
    ensures |Hex(b)| == 2 * |b|
    ensures forall c :: c in Hex(b) ==> Value(c).Some?
  {
    if b != [] {
      HexIsPlain(b[1..]);
      DigitValue(b[0] / 16);
      DigitValue(b[0] % 16);
    }
  }

  lemma {:induction false} HexRoundTrip(b: Bytes)
    ensures Unhex(Hex(b)) == Some(b)
  {
    if b != [] {
      HexRoundTrip(b[1..]);
      DigitValue(b[0] / 16);
      DigitValue(b[0] % 16);
      assert Hex(b)[2..] == Hex(b[1..]);
      assert b == [b[0]] + b[1..];
    }
  }

  function Join(a: string, b: string, c: string, d: string, e: string): string {
    a + ("-" + (b + ("-" + (c + ("-" + (d + ("-" + e)))))))
  }

  function Hyphenated(b: Hash): string {
    Join(Hex(b[..4]), Hex(b[4..6]), Hex(b[6..8]), Hex(b[8..10]), Hex(b[10..]))
  }

  /** `generate_errand_id`, for the hash of seed, account and extrinsic index. */
  function ErrandIdOf(h: Hash): string {
    Hyphenated(Stamp(h))
  }

  /** Reads the five groups back. */
  function ParseId(t: string): Option<Bytes> {
    if |t| != 36 || t[8] != '-' || t[13] != '-' || t[18] != '-' || t[23] != '-' then
      None
    else
      Unhex(t[..8] + t[9..13] + t[14..18] + t[19..23] + t[24..])
  }

  lemma {:induction false} HexConcat(a: Bytes, b: Bytes)
    ensures Hex(a) + Hex(b) == Hex(a + b)
  {
    if a == [] {
      assert a + b == b;
    } else {
      var head := [Digit(a[0] / 16), Digit(a[0] % 16)];
      calc {
        Hex(a) + Hex(b);
        head + (Hex(a[1..]) + Hex(b));
        { HexConcat(a[1..], b); }
        head + Hex(a[1..] + b);
        { assert (a + b)[1..] == a[1..] + b; }
        Hex(a + b);
      }
    }
  }

  /** The groups stand at fixed places. */
  lemma Layout(a: string, b: string, c: string, d: string, e: string)
    requires |a| == 8 && |b| == |c| == |d| == 4 && |e| == 12
    ensures var t := Join(a, b, c, d, e);
            && |t| == 36 && t[8] == t[13] == t[18] == t[23] == '-'
            && t[..8] == a && t[9..13] == b && t[14..18] == c && t[19..23] == d && t[24..] == e
  {
  }

  lemma GroupsJoin(b: Hash)
    ensures Hex(b[..4]) + Hex(b[4..6]) + Hex(b[6..8]) + Hex(b[8..10]) + Hex(b[10..]) == Hex(b)
  {
    HexConcat(b[..4], b[4..6]);
    HexConcat(b[..4] + b[4..6], b[6..8]);
    HexConcat(b[..4] + b[4..6] + b[6..8], b[8..10]);
    HexConcat(b[..4] + b[4..6] + b[6..8] + b[8..10], b[10..]);
    assert b[..4] + b[4..6] + b[6..8] + b[8..10] + b[10..] == b;
  }

  predicate LowerHexOrHyphen(c: char) {
    c == '-' || '0' <= c <= '9' || 'a' <= c <= 'f'
  }

  /** The hash with version and variant set: byte 6 keeps its low half under a
      4, byte 8 its low six bits under a binary 10, all others stay in place. */
  predicate IsStamped(b: Bytes, h: Hash) {
    && |b| == 16
    && (forall i :: 0 <= i < 16 && i != 6 && i != 8 ==> b[i] == h[i])
    && b[6] == 64 + h[6] % 16
    && b[8] == 128 + h[8] % 64
  }

  /** Every hash gives 36 lower-case characters that parse back to its bytes,
      with version and variant set. */
  lemma IdParsesBack(h: Hash)
    ensures |ErrandIdOf(h)| == 36
    ensures forall c :: c in ErrandIdOf(h) ==> LowerHexOrHyphen(c)
    ensures ParseId(ErrandIdOf(h)).Some? && IsStamped(ParseId(ErrandIdOf(h)).value, h)
    ensures ParseId(ErrandIdOf(h)) == Some(Stamp(h))
  {
    var b := Stamp(h);
    HexIsPlain(b[..4]);
    HexIsPlain(b[4..6]);
    HexIsPlain(b[6..8]);
    HexIsPlain(b[8..10]);
    HexIsPlain(b[10..]);
    Layout(Hex(b[..4]), Hex(b[4..6]), Hex(b[6..8]), Hex(b[8..10]), Hex(b[10..]));
    GroupsJoin(b);
    HexRoundTrip(b);
  }

  /******* The text, character by character *******/

  /** Where the two digits of a byte stand: after those of the bytes before it
      and the hyphens behind bytes 3, 5, 7 and 9. */
  function PlaceOf(i: nat): nat {
    2 * i + (if i < 4 then 0 else if i < 6 then 1 else if i < 8 then 2 else if i < 10 then 3 else 4)
  }

  lemma {:induction false} HexAt(b: Bytes, i: nat)
    requires i < |b|
    ensures |Hex(b)| == 2 * |b| && Hex(b)[2 * i] == Digit(b[i] / 16) && Hex(b)[2 * i + 1] == Digit(b[i] % 16)
  {
    HexIsPlain(b);
    HexIsPlain(b[1..]);
    if i > 0 {
      HexAt(b[1..], i - 1);
    }
  }

  lemma GroupAt(b: Hash, i: nat)
    requires i < 16
    ensures |Hyphenated(b)| == 36
    ensures Hyphenated(b)[PlaceOf(i)] == Digit(b[i] / 16) && Hyphenated(b)[PlaceOf(i) + 1] == Digit(b[i] % 16)
    ensures Hyphenated(b)[8] == Hyphenated(b)[13] == Hyphenated(b)[18] == Hyphenated(b)[23] == '-'
  {
    HexIsPlain(b[..4]);
    HexIsPlain(b[4..6]);
    HexIsPlain(b[6..8]);
    HexIsPlain(b[8..10]);
    HexIsPlain(b[10..]);
    var t := Hyphenated(b);
    Layout(Hex(b[..4]), Hex(b[4..6]), Hex(b[6..8]), Hex(b[8..10]), Hex(b[10..]));
    if i < 4 {
      HexAt(b[..4], i);
      assert t[2 * i] == t[..8][2 * i] && t[2 * i + 1] == t[..8][2 * i + 1];
    } else if i < 6 {
      HexAt(b[4..6], i - 4);
      assert t[2 * i + 1] == t[9..13][2 * (i - 4)] && t[2 * i + 2] == t[9..13][2 * (i - 4) + 1];
    } else if i < 8 {
      HexAt(b[6..8], i - 6);
      assert t[2 * i + 2] == t[14..18][2 * (i - 6)] && t[2 * i + 3] == t[14..18][2 * (i - 6) + 1];
    } else if i < 10 {
      HexAt(b[8..10], i - 8);
      assert t[2 * i + 3] == t[19..23][2 * (i - 8)] && t[2 * i + 4] == t[19..23][2 * (i - 8) + 1];
    } else {
      HexAt(b[10..], i - 10);
      assert t[2 * i + 4] == t[24..][2 * (i - 10)] && t[2 * i + 5] == t[24..][2 * (i - 10) + 1];
    }
  }

  /** Every byte of the hash is printed at its own place, in lower-case
      hexadecimal, high half first; the groups are parted by hyphens. */
  lemma IdPrintsBytesInPlace(h: Hash, i: nat)
    requires i < 16
    ensures var t, b := ErrandIdOf(h), if i == 6 then 64 + h[6] % 16 else if i == 8 then 128 + h[8] % 64 else h[i];
            && |t| == 36 && t[8] == t[13] == t[18] == t[23] == '-'
            && t[PlaceOf(i)] == "0123456789abcdef"[b / 16] && t[PlaceOf(i) + 1] == "0123456789abcdef"[b % 16]
  {
    GroupAt(Stamp(h), i);
  }

  /** The version digit is 4 and the variant digit one of 8, 9, a and b. */
  lemma IdIsRandomUuid(h: Hash)
    ensures |ErrandIdOf(h)| == 36 && ErrandIdOf(h)[14] == '4' && ErrandIdOf(h)[19] in "89ab"
  {
    var b := Stamp(h);
    HexIsPlain(b[..4]);
    HexIsPlain(b[4..6]);
    HexIsPlain(b[6..8]);
    HexIsPlain(b[8..10]);
    HexIsPlain(b[10..]);
    Layout(Hex(b[..4]), Hex(b[4..6]), Hex(b[6..8]), Hex(b[8..10]), Hex(b[10..]));
    assert ErrandIdOf(h)[14] == Hex(b[6..8])[0] == Digit(b[6] / 16);
    assert ErrandIdOf(h)[19] == Hex(b[8..10])[0] == Digit(b[8] / 16);
    assert 8 <= b[8] / 16 < 12;
  }

  /** The 122 bits that the version and the variant leave free: all of fourteen
      bytes, four bits of byte 6 and six bits of byte 8. */
  predicate SameFreeBits(g: Hash, h: Hash) {
    && (forall i :: 0 <= i < 16 && i != 6 && i != 8 ==> g[i] == h[i])
    && g[6] % 16 == h[6] % 16
    && g[8] % 64 == h[8] % 64
  }

  lemma StampKeepsFreeBits(g: Hash, h: Hash)
    ensures Stamp(g) == Stamp(h) <==> SameFreeBits(g, h)
  {
    if Stamp(g) == Stamp(h) {
      forall i | 0 <= i < 16 && i != 6 && i != 8
        ensures g[i] == h[i]
      {
        assert Stamp(g)[i] == g[i] && Stamp(h)[i] == h[i];
      }
      assert Stamp(g)[6] == Stamp(h)[6] && Stamp(g)[8] == Stamp(h)[8];
    }
  }

  /** Two hashes print alike exactly when they agree on the free bits. */
  lemma IdsCoincideOnFreeBits(g: Hash, h: Hash)
    ensures ErrandIdOf(g) == ErrandIdOf(h) <==> SameFreeBits(g, h)
  {
    IdParsesBack(g);
    IdParsesBack(h);
    StampKeepsFreeBits(g, h);
  }
}
