/** Stable object names: a readable stem followed by the FNV-1a hash of the base and all inputs.
    Strings are Go byte strings, so a base may hold any bytes at all. */
module Naming {
  import opened Bits
  import opened Hashing

  const LABEL_MAX_LENGTH := 63
  const MAX_STEM_LENGTH := LABEL_MAX_LENGTH - HASH_LENGTH - 1

  const HYPHEN: Byte := 0x2D
  const X_PREFIX: Bytes := [0x78, HYPHEN]
  const OBJ_STEM: Bytes := [0x6F, 0x62, 0x6A]

  // ---------------------------------------------------------------- labels

  predicate IsLabelByte(b: Byte) { IsLabelEdge(b) || b == HYPHEN }

  predicate AllLabelBytes(s: Bytes) { forall i :: 0 <= i < |s| ==> IsLabelByte(s[i]) }

  /** A DNS label in the sense of section 2.3.1 of RFC 1035, within the limit of section 2.3.4. */
  predicate IsDns1035Label(s: Bytes) {
    && 0 < |s| <= LABEL_MAX_LENGTH
    && IsLower(s[0])
    && IsLabelEdge(s[|s| - 1])
    && AllLabelBytes(s)
  }

  // ---------------------------------------------------------------- names

  function Prefixed(base: Bytes): Bytes {
    if base == [] || !IsLower(base[0]) then X_PREFIX + base else base
  }

  function Truncated(s: Bytes): Bytes {
    if |s| > MAX_STEM_LENGTH then s[..MAX_STEM_LENGTH] else s
  }

  function TrimRight(s: Bytes): Bytes {
    if s != [] && s[|s| - 1] == HYPHEN then TrimRight(s[..|s| - 1]) else s
  }

  /** The bytes of the base that can reach the name. */
  function Visible(base: Bytes): Bytes { Truncated(Prefixed(base)) }

  /** What precedes the final "-hash": the trimmed base, or "obj" when the visible base holds an illegal byte. */
  function Stem(base: Bytes): Bytes {
    if AllLabelBytes(Visible(base)) then TrimRight(Visible(base)) else OBJ_STEM
  }

  function StableName(base: Bytes, inputs: seq<Bytes>): Bytes {
    Stem(base) + [HYPHEN] + Hex(HashOf(base, inputs))
  }

  lemma HyphenIsNeutral(s: Bytes)
    ensures AllLabelBytes(s + [HYPHEN]) <==> AllLabelBytes(s)
  {
    var longer := s + [HYPHEN];
    assert forall i :: 0 <= i < |s| ==> longer[i] == s[i];
    assert longer[|s|] == HYPHEN;
  }

  lemma {:induction false} TrimRightFacts(s: Bytes)
    ensures TrimRight(s) <= s
    ensures AllLabelBytes(TrimRight(s)) <==> AllLabelBytes(s)
    ensures s != [] && s[0] != HYPHEN ==> TrimRight(s) != []
  {
    hide AllLabelBytes;
    if s != [] && s[|s| - 1] == HYPHEN {
      var shorter := s[..|s| - 1];
      TrimRightFacts(shorter);
      HyphenIsNeutral(shorter);
      assert s == shorter + [HYPHEN];
      assert shorter != [] ==> shorter[0] == s[0];
    }
  }

  lemma VisibleStartsLower(base: Bytes)
    ensures 0 < |Visible(base)| <= MAX_STEM_LENGTH && IsLower(Visible(base)[0])
  {
  }

  /** The code's own order of work (prefix, truncate, trim, validate, fall back) computes the stable name. */
  method GetStableName(base0: Bytes, inputs: seq<Bytes>) returns (name: Bytes)
    ensures name == StableName(base0, inputs)
  {
    var hash := ComputeHash(base0, inputs);
    var base := base0;
    if base == [] || !IsLower(base[0]) {
      base := X_PREFIX + base;
    }
    if |base| > MAX_STEM_LENGTH {
      base := base[..MAX_STEM_LENGTH];
    }
    TrimRightFacts(base);
    base := TrimRight(base);
    name := base + [HYPHEN] + hash;
    ValidatorSeesTheStem(base, hash);
    if !IsDns1035Label(name) {
      name := OBJ_STEM + [HYPHEN] + hash;
    }
  }

  /** On a candidate name the validator can only ever object to a byte of the stem. */
  lemma ValidatorSeesTheStem(stem: Bytes, hash: Bytes)
    requires 0 < |stem| <= MAX_STEM_LENGTH && IsLower(stem[0])
    requires |hash| == HASH_LENGTH && forall i :: 0 <= i < |hash| ==> IsLabelEdge(hash[i])
    ensures IsDns1035Label(stem + [HYPHEN] + hash) <==> AllLabelBytes(stem)
  {
    var name := stem + [HYPHEN] + hash;
    if AllLabelBytes(name) {
      forall i | 0 <= i < |stem| ensures IsLabelByte(stem[i]) { assert name[i] == stem[i]; }
    }
    assert name[|name| - 1] == hash[|hash| - 1];
  }

  // ---------------------------------------------------------------- separation

  /** Two equally long concatenations that differ in exactly one byte never share a stable name,
      however they are split into a base and inputs. */
  lemma OneByteApartNeverClashes(base: Bytes, inputs: seq<Bytes>, base': Bytes, inputs': seq<Bytes>, i: nat)
    requires |base + Concat(inputs)| == |base' + Concat(inputs')|
    requires i < |base + Concat(inputs)|
    requires (base + Concat(inputs))[i] != (base' + Concat(inputs'))[i]
    requires forall j :: 0 <= j < |base + Concat(inputs)| && j != i
                         ==> (base + Concat(inputs))[j] == (base' + Concat(inputs'))[j]
    ensures StableName(base, inputs) != StableName(base', inputs')
  {
    var s, t := base + Concat(inputs), base' + Concat(inputs');
    hide *;
    OneByteApartHashApart(FNV_OFFSET, s, t, i);
    NameDeterminesHash(base, inputs, base', inputs');
    SameHash(base, inputs);
    SameHash(base', inputs');
  }

  lemma SameHash(base: Bytes, inputs: seq<Bytes>)
    ensures HashOf(base, inputs) == Fnv(FNV_OFFSET, base + Concat(inputs))
  {
  }

  /** Inputs are hashed back to back, so bytes may move from one input to its neighbour without changing the name. */
  lemma NeighboursShareBytes(base: Bytes, u: Bytes, x: Bytes, v: Bytes)
    ensures StableName(base, [u + x, v]) == StableName(base, [u, x + v])
  {
    assert [u + x, v][1..] == [v] && [u, x + v][1..] == [x + v];
    assert Concat([v]) == v && Concat([x + v]) == x + v;
    assert (u + x) + v == u + (x + v);
  }

  // ---------------------------------------------------------------- readable stems

  /** A stem never ends in a hyphen, so the one in front of the hash is the only one there. */
  lemma StemEndsInNoHyphen(base: Bytes)
    ensures Stem(base) != [] && Stem(base)[|Stem(base)| - 1] != HYPHEN
  {
    VisibleStartsLower(base);
    TrimRightFacts(Visible(base));
    TrimmedEnd(Visible(base));
  }

  lemma {:induction false} TrimmedEnd(s: Bytes)
    ensures TrimRight(s) != [] ==> TrimRight(s)[|TrimRight(s)| - 1] != HYPHEN
  {
    if s != [] && s[|s| - 1] == HYPHEN {
      TrimmedEnd(s[..|s| - 1]);
    }
  }

  /** A base that is a legal label of at most 54 bytes is its own stem. */
  lemma LegalBaseIsItsStem(base: Bytes)
    requires IsDns1035Label(base) && |base| <= 54
    ensures Stem(base) == base
  {
    assert Visible(base) == base && TrimRight(base) == base;
  }

  /** A base of legal bytes that does not start with a lower-case letter gets "x-" in front. */
  lemma OtherBaseIsPrefixed(base: Bytes)
    requires AllLabelBytes(base) && 0 < |base| <= 52 && !IsLower(base[0]) && base[|base| - 1] != HYPHEN
    ensures Stem(base) == [0x78, 0x2D] + base
  {
    var longer := X_PREFIX + base;
    assert forall i :: 0 <= i < |longer| ==> longer[i] == if i < 2 then X_PREFIX[i] else base[i - 2];
    assert Visible(base) == longer && TrimRight(longer) == longer;
  }

  /** A base with an illegal byte among those that can reach the name gives way to "obj". */
  lemma GarbageBaseIsReplaced(base: Bytes)
    requires !AllLabelBytes(Visible(base))
    ensures Stem(base) == [0x6F, 0x62, 0x6A]
  {
  }

  // ---------------------------------------------------------------- legal names

  /** Every stable name is a legal label that ends in the eight hex digits of its hash. */
  lemma StableNameIsLegal(base: Bytes, inputs: seq<Bytes>)
    ensures IsDns1035Label(StableName(base, inputs))
    ensures var name := StableName(base, inputs);
            |name| > HASH_LENGTH && name[|name| - HASH_LENGTH..] == Hex(HashOf(base, inputs))
  {
    VisibleStartsLower(base);
    TrimRightFacts(Visible(base));
    ValidatorSeesTheStem(Stem(base), Hex(HashOf(base, inputs)));
  }

  /** For equal bases the names coincide exactly when the hashes do. */
  lemma SameBaseSameName(base: Bytes, inputs: seq<Bytes>, inputs': seq<Bytes>)
    ensures StableName(base, inputs) == StableName(base, inputs') <==> HashOf(base, inputs) == HashOf(base, inputs')
  {
    NameDeterminesHash(base, inputs, base, inputs');
  }

  lemma NameDeterminesHash(base: Bytes, inputs: seq<Bytes>, base': Bytes, inputs': seq<Bytes>)
    ensures StableName(base, inputs) == StableName(base', inputs') ==> HashOf(base, inputs) == HashOf(base', inputs')
  {
    StableNameIsLegal(base, inputs);
    StableNameIsLegal(base', inputs');
    hide StableName, HashOf;
    if StableName(base, inputs) == StableName(base', inputs') {
      HexInjective(HashOf(base, inputs), HashOf(base', inputs'));
    }
  }
}
