/** Plain string operations the template engine relies on. */
module Text {

  predicate IsLetter(c: char) { 'a' <= c <= 'z' || 'A' <= c <= 'Z' }

  predicate IsDigit(c: char) { '0' <= c <= '9' }

  predicate IsAlnum(c: char) { IsLetter(c) || IsDigit(c) }

  /** The regular-expression class \w. */
  predicate IsWord(c: char) { IsAlnum(c) || c == '_' }

  predicate AllWord(s: string) { forall i :: 0 <= i < |s| ==> IsWord(s[i]) }

  predicate OccursAt(s: string, sub: string, i: int) {
    0 <= i && i + |sub| <= |s| && s[i..i + |sub|] == sub
  }

  ghost predicate Occurs(s: string, sub: string) { exists i :: OccursAt(s, sub, i) }

  /** The position of the first occurrence at or behind `from`, or -1. */
  function IndexFrom(s: string, sub: string, from: nat): (r: int)
    ensures r == -1 || (from <= r && OccursAt(s, sub, r))
    ensures forall i :: from <= i && (r == -1 || i < r) ==> !OccursAt(s, sub, i)
    decreases |s| + 1 - from
  {
    if from + |sub| > |s| then -1
    else if OccursAt(s, sub, from) then from
    else IndexFrom(s, sub, from + 1)
  }

  function Index(s: string, sub: string): int { IndexFrom(s, sub, 0) }

  lemma ConcatAssociates(a: string, b: string, c: string)
    ensures (a + b) + c == a + (b + c)
  {
  }

  /** strings.Replace with a count of one. */
  function ReplaceFirst(s: string, old_: string, new_: string): string {
    var i := Index(s, old_);
    if i < 0 then s else s[..i] + new_ + s[i + |old_|..]
  }

  lemma ReplaceAt(s: string, old_: string, i: nat, new_: string)
    requires OccursAt(s, old_, i) && forall j :: 0 <= j < i ==> !OccursAt(s, old_, j)
    ensures ReplaceFirst(s, old_, new_) == s[..i] + new_ + s[i + |old_|..]
  {
  }

  lemma ReplaceInFront(old_: string, rest: string, new_: string)
    ensures ReplaceFirst(old_ + rest, old_, new_) == new_ + rest
  {
    var s := old_ + rest;
    assert s[..|old_|] == old_ && s[|old_|..] == rest;
    assert OccursAt(s, old_, 0);
    ReplaceAt(s, old_, 0, new_);
    hide OccursAt, ReplaceFirst;
    assert s[..0] + new_ == new_;
  }

  /** The end of the run of word characters that starts at i. */
  function WordEnd(s: string, i: nat): (e: nat)
    requires i <= |s|
    ensures i <= e <= |s|
    ensures forall k :: i <= k < e ==> IsWord(s[k])
    ensures e < |s| ==> !IsWord(s[e])
    decreases |s| - i
  {
    if i < |s| && IsWord(s[i]) then WordEnd(s, i + 1) else i
  }
}
