/** The FNV-1a hash of Go's hash/fnv on 32 bits, streamed, and its hexadecimal form. */
module Hashing {
  import opened Bits

  type Bytes = seq<Byte>

  const HASH_LENGTH := 8
  const FNV_OFFSET: Word := 0x811C9DC5

  function XorByte(h: Word, b: Byte): Word {
    WordBits();
    XorFits(h, b, 32);
    Xor(h, b)
  }

  /** One round: mix in a byte, then multiply by the FNV prime modulo 2^32. */
  function FnvRound(h: Word, b: Byte): Word {
    XorByte(h, b) * 0x01000193 % 0x1_0000_0000
  }

  /** A round backwards: multiply by the inverse of the (odd) prime modulo 2^32, then mix out the byte. */
  function FnvUnround(h: Word, b: Byte): Word {
    XorByte(h * 0x359C449B % 0x1_0000_0000, b)
  }

  function Fnv(h: Word, s: Bytes): Word
    decreases s
  {
    if s == [] then h else Fnv(FnvRound(h, s[0]), s[1..])
  }

  function Concat(parts: seq<Bytes>): Bytes {
    if parts == [] then [] else parts[0] + Concat(parts[1..])
  }

  function HexDigit(d: nat): (r: Byte)
    requires d < 16
    ensures IsLabelEdge(r)
  {
    if d < 10 then 0x30 + d else 0x57 + d
  }

  /** The last n hexadecimal digits of h, with leading zeros. */
  function HexDigits(h: nat, n: nat): (s: Bytes)
    ensures |s| == n
    ensures forall i :: 0 <= i < |s| ==> IsLabelEdge(s[i])
  {
    if n == 0 then [] else HexDigits(h / 16, n - 1) + [HexDigit(h % 16)]
  }

  /** The "%08x" rendering of a 32-bit sum. */
  function Hex(h: Word): Bytes { HexDigits(h, HASH_LENGTH) }

  /** The hash of a base and its inputs, said without any streaming: one pass over all the bytes. */
  function HashOf(base: Bytes, inputs: seq<Bytes>): Word {
    Fnv(FNV_OFFSET, base + Concat(inputs))
  }

  class Hasher {
    var sum: Word

    constructor ()
      ensures sum == FNV_OFFSET
    {
      sum := FNV_OFFSET;
    }

    method Write(data: Bytes)
      modifies this
      ensures sum == Fnv(old(sum), data)
    {
      for i := 0 to |data|
        invariant Fnv(old(sum), data) == Fnv(sum, data[i..])
      {
        sum := FnvRound(sum, data[i]);
        assert data[i..][1..] == data[i + 1..];
      }
    }
  }

  lemma {:induction false} FnvAppend(h: Word, s: Bytes, t: Bytes)
    ensures Fnv(h, s + t) == Fnv(Fnv(h, s), t)
    decreases s
  {
    if s == [] {
      assert s + t == t;
    } else {
      assert (s + t)[1..] == s[1..] + t;
      FnvAppend(FnvRound(h, s[0]), s[1..], t);
    }
  }

  lemma {:induction false} ConcatSnoc(parts: seq<Bytes>, last: Bytes)
    ensures Concat(parts + [last]) == Concat(parts) + last
  {
    if parts != [] {
      assert (parts + [last])[1..] == parts[1..] + [last];
      ConcatSnoc(parts[1..], last);
    }
  }

  /** Streaming the inputs one by one yields the one-shot hash of their concatenation. */
  method ComputeHash(base: Bytes, inputs: seq<Bytes>) returns (hash: Bytes)
    ensures hash == Hex(HashOf(base, inputs))
  {
    var hasher := new Hasher();
    hasher.Write(base);
    assert base + Concat(inputs[..0]) == base;
    hide Fnv, Concat, Hex;
    for i := 0 to |inputs|
      invariant hasher.sum == HashOf(base, inputs[..i])
    {
      hasher.Write(inputs[i]);
      HashOneMore(base, inputs, i);
    }
    assert inputs[..|inputs|] == inputs;
    hash := Hex(hasher.sum);
  }

  lemma HashOneMore(base: Bytes, inputs: seq<Bytes>, i: nat)
    requires i < |inputs|
    ensures HashOf(base, inputs[..i + 1]) == Fnv(HashOf(base, inputs[..i]), inputs[i])
  {
    hide Fnv, Concat;
    var done := base + Concat(inputs[..i]);
    assert inputs[..i + 1] == inputs[..i] + [inputs[i]];
    ConcatSnoc(inputs[..i], inputs[i]);
    assert done + inputs[i] == base + Concat(inputs[..i + 1]);
    FnvAppend(FNV_OFFSET, done, inputs[i]);
  }

  // ---------------------------------------------------------------- hexadecimal digits

  predicate IsLower(b: Byte) { 0x61 <= b <= 0x7A }

  predicate IsLabelEdge(b: Byte) { IsLower(b) || 0x30 <= b <= 0x39 }

  lemma {:induction false} DigitsDetermine(a: nat, b: nat, n: nat)
    requires a < Pow2(4 * n) && b < Pow2(4 * n) && HexDigits(a, n) == HexDigits(b, n)
    ensures a == b
  {
    if n != 0 {
      var s, t := HexDigits(a, n), HexDigits(b, n);
      FourBits(n);
      assert s[n - 1] == t[n - 1] && s[..n - 1] == t[..n - 1];
      DigitsDetermine(a / 16, b / 16, n - 1);
    }
  }

  lemma HexInjective(a: Word, b: Word)
    requires Hex(a) == Hex(b)
    ensures a == b
  {
    WordBits();
    DigitsDetermine(a, b, HASH_LENGTH);
  }

  function DigitValue(b: Byte): int { if 0x30 <= b <= 0x39 then b - 0x30 else b - 0x57 }

  /** The number that lower-case hexadecimal digits denote, the most significant first. */
  function HexValue(s: Bytes): int { if s == [] then 0 else 16 * HexValue(s[..|s| - 1]) + DigitValue(s[|s| - 1]) }

  /** The eight digits of a hash are a hexadecimal numeral of it. */
  lemma HexReadsBack(h: Word)
    ensures |Hex(h)| == 8 && HexValue(Hex(h)) == h
  {
    WordBits();
    DigitsReadBack(h, HASH_LENGTH);
  }

  lemma {:induction false} DigitsReadBack(h: nat, n: nat)
    requires h < Pow2(4 * n)
    ensures HexValue(HexDigits(h, n)) == h
  {
    if n != 0 {
      FourBits(n);
      DigitsReadBack(h / 16, n - 1);
      var s := HexDigits(h, n);
      assert s[..n - 1] == HexDigits(h / 16, n - 1) && s[n - 1] == HexDigit(h % 16);
    }
  }

  // ---------------------------------------------------------------- separation

  /** A round can be undone, because the prime is odd: it permutes the 2^32 states, whatever the byte. */
  lemma RoundIsBijective(h: Word, b: Byte)
    ensures FnvUnround(FnvRound(h, b), b) == h
    ensures FnvRound(FnvUnround(h, b), b) == h
  {
    PrimeInverts(XorByte(h, b));
    PrimeInverts(h);
    XorCancels(h, b);
    XorCancels(h * 0x359C449B % 0x1_0000_0000, b);
  }

  lemma RoundSeparatesBytes(h: Word, a: Byte, b: Byte)
    requires a != b
    ensures FnvRound(h, a) != FnvRound(h, b)
  {
    PrimeInverts(XorByte(h, a));
    PrimeInverts(XorByte(h, b));
    XorSeparates(h, a, b);
  }

  lemma {:induction false} FnvKeepsStatesApart(g: Word, h: Word, s: Bytes)
    requires g != h
    ensures Fnv(g, s) != Fnv(h, s)
    decreases s
  {
    if s != [] {
      RoundIsBijective(g, s[0]);
      RoundIsBijective(h, s[0]);
      FnvKeepsStatesApart(FnvRound(g, s[0]), FnvRound(h, s[0]), s[1..]);
    }
  }

  lemma OneByteApartHashApart(g: Word, s: Bytes, t: Bytes, i: nat)
    requires |s| == |t| && i < |s| && s[i] != t[i]
    requires forall j :: 0 <= j < |s| && j != i ==> s[j] == t[j]
    ensures Fnv(g, s) != Fnv(g, t)
  {
    var h, rest := Fnv(g, s[..i]), s[i + 1..];
    assert s[..i] == t[..i] && rest == t[i + 1..];
    HashAround(g, s, i);
    HashAround(g, t, i);
    hide Fnv, FnvRound;
    RoundSeparatesBytes(h, s[i], t[i]);
    FnvKeepsStatesApart(FnvRound(h, s[i]), FnvRound(h, t[i]), rest);
  }

  lemma HashAround(g: Word, s: Bytes, i: nat)
    requires i < |s|
    ensures Fnv(g, s) == Fnv(FnvRound(Fnv(g, s[..i]), s[i]), s[i + 1..])
  {
    assert s == s[..i] + s[i..] && s[i..][1..] == s[i + 1..];
    FnvAppend(g, s[..i], s[i..]);
    assert Fnv(Fnv(g, s[..i]), s[i..]) == Fnv(FnvRound(Fnv(g, s[..i]), s[i..][0]), s[i..][1..]);
  }

  /** The published FNV-1a values of "" and "a", which fix the offset basis and the prime. */
  lemma KnownHashes()
    ensures HashOf([], []) == 0x811C9DC5 && HashOf([0x61], []) == 0xE40C292C
  {
    var a: Bytes := [0x61];
    assert Concat([]) == [] && a + [] == a && a[1..] == [];
    KnownRound();
    hide FnvRound;
    assert Fnv(FNV_OFFSET, a) == Fnv(FnvRound(FNV_OFFSET, 0x61), []);
  }

  lemma KnownRound()
    ensures FnvRound(0x811C9DC5, 0x61) == 0xE40C292C
  {
    KnownXor();
    hide Xor, Pow2;
  }
}
