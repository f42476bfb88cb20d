/** The alphabets of generator expressions: tokenising what stands between the brackets. */
module Alphabet {
  import opened Wrappers
  import opened Text

  datatype Error = MalformedRanges | MalformedLength | LengthOutOfRange | InvalidStart | InvalidEnd | ReversedRange

  function Chars(s: string): set<char> { set c | c in s }

  lemma CharsOfConcat(s: string, t: string)
    ensures Chars(s + t) == Chars(s) + Chars(t)
  {
    assert forall c :: c in s + t <==> c in s || c in t;
  }

  // ---------------------------------------------------------------- character classes

  /** The position of a character in "a..zA..Z0..9", or -1. */
  function Position(c: char): (p: int)
    ensures -1 <= p < 62 && (p == -1 <==> !IsAlnum(c))
  {
    if 'a' <= c <= 'z' then c as int - 'a' as int
    else if 'A' <= c <= 'Z' then 26 + c as int - 'A' as int
    else if '0' <= c <= '9' then 52 + c as int - '0' as int
    else -1
  }

  /** The alphanumeric character at a position. */
  function AlnumAt(p: nat): (c: char)
    requires p < 62
    ensures forall d :: Position(d) == p <==> d == c
  {
    if p < 26 then 'a' + p as char
    else if p < 52 then 'A' + (p - 26) as char
    else '0' + (p - 52) as char
  }

  /** The characters from one position to another of "a..zA..Z0..9". */
  function AlnumSlice(left: nat, right: int): (s: string)
    requires left <= right + 1 && right < 62
    ensures |s| == right - left + 1
    ensures forall c :: c in s <==> left <= Position(c) <= right
    decreases right - left
  {
    if left > right then [] else [AlnumAt(left)] + AlnumSlice(left + 1, right)
  }

  function SubAlphabet(from: char, to: char): Result<string, Error> {
    if Position(from) == -1 then Err(InvalidStart)
    else if Position(to) == -1 then Err(InvalidEnd)
    else if Position(from) > Position(to) then Err(ReversedRange)
    else Ok(AlnumSlice(Position(from), Position(to)))
  }

  const SYMBOLS := "!\"#$%&'()*+,-./:;<=>?@[\\]^_`{|}~"

  predicate IsClass(c: char) { c == 'w' || c == 'd' || c == 'a' || c == 'A' }

  /** The classes as the code spells them: \w and \a hold the digits too. */
  function ClassChars(c: char): string
    requires IsClass(c)
  {
    match c
    case 'w' => AlnumSlice(0, 61) + "_"
    case 'd' => AlnumSlice(52, 61)
    case 'a' => AlnumSlice(0, 61)
    case 'A' => SYMBOLS
  }

  /** What the classes mean: \w the word characters, \d the digits, \a letters and digits, \A all other
      visible ASCII. */
  predicate InClass(class_: char, c: char)
    requires IsClass(class_)
  {
    match class_
    case 'w' => IsWord(c)
    case 'd' => IsDigit(c)
    case 'a' => IsAlnum(c)
    case 'A' => '!' <= c <= '~' && !IsAlnum(c)
  }

  lemma ClassesMean(class_: char)
    requires IsClass(class_)
    ensures forall c :: c in ClassChars(class_) <==> InClass(class_, c)
  {
    SymbolsMean();
    AlnumsMean();
    hide AlnumSlice, IsAlnum, IsDigit;
  }

  lemma AlnumsMean()
    ensures forall c :: c in AlnumSlice(0, 61) <==> IsAlnum(c)
    ensures forall c :: c in AlnumSlice(52, 61) <==> IsDigit(c)
  {
    hide AlnumSlice;
    forall c ensures Position(c) >= 52 <==> IsDigit(c) {
    }
  }

  /** The symbols stand in the order of their codes. */
  lemma SymbolCode(i: nat)
    requires i < |SYMBOLS|
    ensures |SYMBOLS| == 32
    ensures SYMBOLS[i] as int == if i < 15 then i + 0x21 else if i < 22 then i + 0x2B else if i < 28 then i + 0x45
            else i + 0x5F
  {
  }

  lemma SymbolsMean()
    ensures forall c :: c in SYMBOLS <==> '!' <= c <= '~' && !IsAlnum(c)
  {
    assert |SYMBOLS| == 32;
    forall c | c in SYMBOLS ensures '!' <= c <= '~' && !IsAlnum(c) {
      var i :| 0 <= i < |SYMBOLS| && SYMBOLS[i] == c;
      SymbolCode(i);
    }
    forall c | '!' <= c <= '~' && !IsAlnum(c) ensures c in SYMBOLS {
      var n := c as int;
      var i := if n < 0x30 then n - 0x21 else if n < 0x41 then n - 0x2B else if n < 0x61 then n - 0x45 else n - 0x5F;
      SymbolCode(i);
      assert SYMBOLS[i] as int == n;
    }
  }

  /** The order of ranges: lower case, upper case, digits. */
  function Kind(c: char): nat { if 'a' <= c <= 'z' then 0 else if 'A' <= c <= 'Z' then 1 else 2 }

  predicate UpTo(a: char, b: char) { Kind(a) < Kind(b) || (Kind(a) == Kind(b) && a <= b) }

  lemma RangesMean(from: char, to: char)
    requires IsAlnum(from) && IsAlnum(to)
    ensures Position(from) <= Position(to) <==> UpTo(from, to)
    ensures Position(from) <= Position(to) ==>
              forall c :: c in AlnumSlice(Position(from), Position(to)) <==> IsAlnum(c) && UpTo(from, c) && UpTo(c, to)
  {
  }

  /** A range is accepted if and only if both ends are alphanumeric and in order; it is told apart what is wrong. */
  lemma RangeIsAcceptedIff(from: char, to: char)
    ensures SubAlphabet(from, to).Ok? <==> IsAlnum(from) && IsAlnum(to) && UpTo(from, to)
    ensures SubAlphabet(from, to).Ok? ==>
              forall c :: c in SubAlphabet(from, to).value <==> IsAlnum(c) && UpTo(from, c) && UpTo(c, to)
    ensures SubAlphabet(from, to) == Err(InvalidStart) <==> !IsAlnum(from)
    ensures SubAlphabet(from, to) == Err(InvalidEnd) <==> IsAlnum(from) && !IsAlnum(to)
    ensures SubAlphabet(from, to) == Err(ReversedRange) <==> IsAlnum(from) && IsAlnum(to) && !UpTo(from, to)
  {
    if IsAlnum(from) && IsAlnum(to) {
      RangesMean(from, to);
    }
    hide UpTo;
  }

  // ---------------------------------------------------------------- tokens

  /** The end of the run of alphanumeric characters that starts at i. */
  function AlnumEnd(s: string, i: nat): (e: nat)
    requires i <= |s|
    ensures i <= e <= |s|
    ensures forall k :: i <= k < e ==> IsAlnum(s[k])
    ensures e < |s| ==> !IsAlnum(s[e])
    decreases |s| - i
  {
    if i < |s| && IsAlnum(s[i]) then AlnumEnd(s, i + 1) else i
  }

  /** The length of the token at the start of s: a class escape, else x-y, else a literal run; 0 when there is none. */
  function TokenLength(s: string): (n: nat)
    ensures n <= |s|
  {
    if |s| >= 2 && s[0] == '\\' && IsClass(s[1]) then 2
    else if |s| >= 3 && s[0] != '\n' && s[1] == '-' && s[2] != '\n' then 3
    else AlnumEnd(s, 0)
  }

  function TokenChars(token: string): Result<string, Error> {
    if |token| == 2 && token[0] == '\\' && IsClass(token[1]) then Ok(ClassChars(token[1]))
    else if |token| == 3 && token[1] == '-' then SubAlphabet(token[0], token[2])
    else Ok(token)
  }

  predicate HasToken(s: string) { s != [] && (TokenLength(s) > 0 || HasToken(s[1..])) }

  /** The characters of all tokens in the order of the text, duplicates included. */
  function RawAlphabet(s: string): Result<string, Error> {
    if s == [] then Ok([])
    else
      var n := TokenLength(s);
      if n == 0 then RawAlphabet(s[1..])
      else
        match TokenChars(s[..n])
        case Err(e) => Err(e)
        case Ok(cs) => Prepend(cs, RawAlphabet(s[n..]))
  }

  function Prepend(cs: string, r: Result<string, Error>): Result<string, Error> {
    match r
    case Err(e) => Err(e)
    case Ok(more) => Ok(cs + more)
  }

  // ---------------------------------------------------------------- duplicates

  predicate Increasing(s: string) { forall i, j :: 0 <= i < j < |s| ==> s[i] < s[j] }

  predicate NonDecreasing(s: string) { forall i, j :: 0 <= i < j < |s| ==> s[i] <= s[j] }

  lemma OnlyEmptyHasNoChars(s: string)
    ensures Chars(s) == {} <==> s == []
  {
    if s != [] {
      assert s[0] in Chars(s);
    }
  }

  /** A strictly increasing string is determined by its characters. */
  lemma {:induction false} IncreasingIsUnique(s: string, t: string)
    requires Increasing(s) && Increasing(t) && Chars(s) == Chars(t)
    ensures s == t
  {
    if s == [] {
      OnlyEmptyHasNoChars(t);
    } else {
      assert s[0] in Chars(t);
      assert t[0] in Chars(s);
      assert s[0] == t[0];
      assert forall c :: c in Chars(s[1..]) <==> c in Chars(s) && c != s[0] by { TailChars(s); }
      assert forall c :: c in Chars(t[1..]) <==> c in Chars(t) && c != t[0] by { TailChars(t); }
      IncreasingIsUnique(s[1..], t[1..]);
      assert s == [s[0]] + s[1..] && t == [t[0]] + t[1..];
    }
  }

  lemma TailChars(s: string)
    requires s != [] && Increasing(s)
    ensures forall c :: c in Chars(s[1..]) <==> c in Chars(s) && c != s[0]
  {
    assert s == [s[0]] + s[1..];
    forall c | c in s[1..] ensures c != s[0] {
      var i :| 0 <= i < |s[1..]| && s[1..][i] == c;
      assert s[i + 1] == c;
    }
  }

  function InsertSorted(c: char, s: string): string {
    if s == [] || c <= s[0] then [c] + s else [s[0]] + InsertSorted(c, s[1..])
  }

  function Sort(s: string): string {
    if s == [] then [] else InsertSorted(s[0], Sort(s[1..]))
  }

  lemma {:induction false} InsertSortedKeeps(c: char, s: string)
    ensures Chars(InsertSorted(c, s)) == Chars(s) + {c}
  {
    if s != [] && c > s[0] {
      InsertSortedKeeps(c, s[1..]);
      assert s == [s[0]] + s[1..];
      CharsOfConcat([s[0]], InsertSorted(c, s[1..]));
      CharsOfConcat([s[0]], s[1..]);
    } else {
      CharsOfConcat([c], s);
    }
  }

  lemma {:induction false} InsertSortedSorts(c: char, s: string)
    requires NonDecreasing(s)
    ensures NonDecreasing(InsertSorted(c, s))
  {
    if s != [] && c > s[0] {
      InsertSortedSorts(c, s[1..]);
      InsertSortedKeeps(c, s[1..]);
      LeastInFront(s[0], InsertSorted(c, s[1..]), s[1..], c);
    }
  }

  lemma LeastInFront(x: char, t: string, s: string, c: char)
    requires NonDecreasing(t) && Chars(t) == Chars(s) + {c} && x <= c && forall i :: 0 <= i < |s| ==> x <= s[i]
    ensures NonDecreasing([x] + t)
  {
    assert forall d :: d in Chars(t) ==> x <= d;
    assert forall i :: 0 <= i < |t| ==> t[i] in Chars(t);
  }

  lemma {:induction false} SortSorts(s: string)
    ensures NonDecreasing(Sort(s)) && Chars(Sort(s)) == Chars(s)
  {
    if s != [] {
      SortSorts(s[1..]);
      InsertSortedSorts(s[0], Sort(s[1..]));
      InsertSortedKeeps(s[0], Sort(s[1..]));
      assert s == [s[0]] + s[1..];
      CharsOfConcat([s[0]], s[1..]);
    }
  }

  /** out holds each character of the sorted text once, and ends as the text does. */
  predicate Compacted(out: string, text: string) {
    && Increasing(out) && Chars(out) == Chars(text) && (out == "" <==> text == "")
    && (text != "" ==> out[|out| - 1] == text[|text| - 1])
  }

  lemma AppendLarger(s: string, c: char)
    requires Increasing(s) && (s != [] ==> s[|s| - 1] < c)
    ensures Increasing(s + [c])
  {
  }

  lemma CompactedOneMore(out: string, text: string, c: char)
    requires Compacted(out, text) && (text != "" ==> text[|text| - 1] <= c)
    ensures Compacted(if text == "" || c != text[|text| - 1] then out + [c] else out, text + [c])
  {
    CharsOfConcat(text, [c]);
    if text == "" || c != text[|text| - 1] {
      CharsOfConcat(out, [c]);
      AppendLarger(out, c);
    } else {
      assert c in Chars(text);
    }
    hide Chars, Increasing;
  }

  /** Sorting and compacting leaves each character once, in increasing order; that fixes the outcome. */
  method RemoveDuplicates(s: string) returns (out: string)
    ensures Increasing(out) && Chars(out) == Chars(s)
  {
    var sorted := Sort(s);
    SortSorts(s);
    out := "";
    for i := 0 to |sorted|
      invariant Compacted(out, sorted[..i])
    {
      hide Compacted;
      CompactedOneMore(out, sorted[..i], sorted[i]);
      assert sorted[..i + 1] == sorted[..i] + [sorted[i]];
      if i == 0 || sorted[i] != sorted[i - 1] {
        out := out + [sorted[i]];
      }
    }
    assert sorted[..|sorted|] == sorted;
  }

  /** The alphabet a range text stands for: the increasing string of the characters of its tokens. */
  ghost predicate IsAlphabet(ranges: string, alphabet: string) {
    && RawAlphabet(ranges).Ok?
    && Increasing(alphabet)
    && Chars(alphabet) == Chars(RawAlphabet(ranges).value)
  }

  method GetAlphabetFromRanges(ranges: string) returns (r: Result<string, Error>)
    ensures r.Ok? <==> HasToken(ranges) && RawAlphabet(ranges).Ok?
    ensures r.Ok? ==> IsAlphabet(ranges, r.value)
    ensures r.Err? ==> r.error == if HasToken(ranges) then RawAlphabet(ranges).error else MalformedRanges
  {
    if !HasToken(ranges) {
      return Err(MalformedRanges);
    }
    var b := "";
    var rest := ranges;
    PrependNothing(RawAlphabet(ranges));
    while rest != []
      invariant RawAlphabet(ranges) == Prepend(b, RawAlphabet(rest))
      decreases rest
    {
      hide TokenLength, TokenChars, RawAlphabet;
      NextToken(rest);
      var n := TokenLength(rest);
      if n == 0 {
        rest := rest[1..];
      } else {
        var cs := TokenChars(rest[..n]);
        if cs.Err? {
          return Err(cs.error);
        }
        PrependTwice(b, cs.value, RawAlphabet(rest[n..]));
        b, rest := b + cs.value, rest[n..];
      }
    }
    var alphabet := RemoveDuplicates(b);
    assert b + [] == b;
    r := Ok(alphabet);
  }

  lemma NextToken(s: string)
    requires s != []
    ensures var n := TokenLength(s);
            RawAlphabet(s) == if n == 0 then RawAlphabet(s[1..])
                              else if TokenChars(s[..n]).Err? then TokenChars(s[..n])
                              else Prepend(TokenChars(s[..n]).value, RawAlphabet(s[n..]))
  {
  }

  lemma PrependNothing(r: Result<string, Error>)
    ensures Prepend([], r) == r
  {
    assert r.Ok? ==> [] + r.value == r.value;
  }

  lemma PrependTwice(a: string, b: string, r: Result<string, Error>)
    ensures Prepend(a, Prepend(b, r)) == Prepend(a + b, r)
  {
    assert r.Ok? ==> a + (b + r.value) == (a + b) + r.value;
  }

  // ---------------------------------------------------------------- reading back what was written

  /** What a user may write between the brackets. */
  datatype Item = Class(c: char) | Span(from: char, to: char) | Literal(run: string)

  predicate WellFormed(item: Item) {
    match item
    case Class(c) => IsClass(c)
    case Span(from, to) => IsAlnum(from) && IsAlnum(to)
    case Literal(run) => run != [] && forall k :: 0 <= k < |run| ==> IsAlnum(run[k])
  }

  predicate Reversed(item: Item) { item.Span? && Position(item.from) > Position(item.to) }

  function ItemText(item: Item): string {
    match item
    case Class(c) => ['\\', c]
    case Span(from, to) => [from, '-', to]
    case Literal(run) => run
  }

  function Render(items: seq<Item>): string {
    if items == [] then [] else ItemText(items[0]) + Render(items[1..])
  }

  /** The characters an item stands for. */
  function ItemChars(item: Item): string
    requires WellFormed(item) && !Reversed(item)
  {
    match item
    case Class(c) => ClassChars(c)
    case Span(from, to) => AlnumSlice(Position(from), Position(to))
    case Literal(run) => run
  }

  /** What an item stands for, character by character. */
  predicate StandsFor(item: Item, c: char)
    requires WellFormed(item)
  {
    match item
    case Class(class_) => InClass(class_, c)
    case Span(from, to) => IsAlnum(c) && UpTo(from, c) && UpTo(c, to)
    case Literal(run) => c in run
  }

  lemma ItemMeans(item: Item)
    requires WellFormed(item)
    ensures Reversed(item) <==> item.Span? && !UpTo(item.from, item.to)
    ensures !Reversed(item) ==> forall c :: c in ItemChars(item) <==> StandsFor(item, c)
  {
    match item
    case Class(c) => ClassesMean(c);
    case Span(from, to) => RangesMean(from, to);
    case Literal(_) =>
  }

  predicate AllWellFormed(items: seq<Item>) { forall i :: 0 <= i < |items| ==> WellFormed(items[i]) }

  predicate SomeReversed(items: seq<Item>) { items != [] && (Reversed(items[0]) || SomeReversed(items[1..])) }

  /** The union of what the items stand for. */
  function ItemsChars(items: seq<Item>): set<char>
    requires AllWellFormed(items) && !SomeReversed(items)
  {
    if items == [] then {} else Chars(ItemChars(items[0])) + ItemsChars(items[1..])
  }

  ghost predicate SomeStandsFor(items: seq<Item>, c: char)
    requires AllWellFormed(items)
  {
    exists i :: 0 <= i < |items| && StandsFor(items[i], c)
  }

  lemma {:induction false} ItemsMean(items: seq<Item>)
    requires AllWellFormed(items)
    ensures SomeReversed(items) <==>
            exists i :: 0 <= i < |items| && items[i].Span? && !UpTo(items[i].from, items[i].to)
    ensures !SomeReversed(items) ==> forall c :: c in ItemsChars(items) <==> SomeStandsFor(items, c)
  {
    if items != [] {
      var rest := items[1..];
      ItemMeans(items[0]);
      ItemsMean(rest);
      hide UpTo, StandsFor, ItemChars, Reversed;
      assert forall i :: 0 < i < |items| ==> items[i] == rest[i - 1];
      if !SomeReversed(items) {
        forall c ensures c in ItemsChars(items) <==> SomeStandsFor(items, c) {
          if c in ItemsChars(rest) {
            var i :| 0 <= i < |rest| && StandsFor(rest[i], c);
            assert StandsFor(items[i + 1], c);
          }
        }
      }
      if i :| 0 <= i < |rest| && rest[i].Span? && !UpTo(rest[i].from, rest[i].to) {
        assert items[i + 1].Span? && !UpTo(items[i + 1].from, items[i + 1].to);
      }
    }
  }

  predicate NoLiteralBeforeSpan(items: seq<Item>) {
    forall i :: 0 < i < |items| && items[i].Span? ==> !items[i - 1].Literal?
  }

  /** A rendered list is read back item by item, and two adjacent literals as one. */
  lemma {:induction false} RawRoundTrip(items: seq<Item>)
    requires AllWellFormed(items) && NoLiteralBeforeSpan(items)
    ensures RawAlphabet(Render(items)).Err? <==> SomeReversed(items)
    ensures !SomeReversed(items) ==> Chars(RawAlphabet(Render(items)).value) == ItemsChars(items)
    decreases |items|
  {
    if items != [] {
      var item, rest := items[0], items[1..];
      if item.Literal? && rest != [] && rest[0].Literal? {
        var a, b, tail := item.run, rest[0].run, rest[1..];
        assert items == [Literal(a)] + ([Literal(b)] + tail);
        MergedText(a, b, tail);
        MergedChars(a, b, tail);
        var merged := [Literal(a + b)] + tail;
        assert forall i :: 0 < i < |merged| ==> merged[i] == items[i + 1];
        RawRoundTrip(merged);
      } else {
        RawRoundTrip(rest);
        TokenOfItem(item, Render(rest), rest);
        var text, n := Render(items), |ItemText(item)|;
        assert text[..n] == ItemText(item) && text[n..] == Render(rest);
        NextToken(text);
        if !SomeReversed(items) {
          CharsOfConcat(ItemChars(item), RawAlphabet(Render(rest)).value);
        }
      }
    }
  }

  lemma MergedText(a: string, b: string, tail: seq<Item>)
    ensures Render([Literal(a + b)] + tail) == Render([Literal(a)] + ([Literal(b)] + tail))
  {
    assert ([Literal(a + b)] + tail)[1..] == tail && ([Literal(b)] + tail)[1..] == tail;
    assert ([Literal(a)] + ([Literal(b)] + tail))[1..] == [Literal(b)] + tail;
    assert (a + b) + Render(tail) == a + (b + Render(tail));
  }

  lemma MergedChars(a: string, b: string, tail: seq<Item>)
    requires AllWellFormed([Literal(a)] + ([Literal(b)] + tail))
    ensures var items, merged := [Literal(a)] + ([Literal(b)] + tail), [Literal(a + b)] + tail;
            && AllWellFormed(merged) && (SomeReversed(merged) <==> SomeReversed(items))
            && (!SomeReversed(items) ==> ItemsChars(merged) == ItemsChars(items))
  {
    var items, second, merged := [Literal(a)] + ([Literal(b)] + tail), [Literal(b)] + tail, [Literal(a + b)] + tail;
    assert merged[1..] == tail && second[1..] == tail && items[1..] == second;
    assert items[0] == Literal(a) && items[1] == Literal(b);
    assert forall i :: 0 < i < |merged| ==> merged[i] == items[i + 1];
    CharsOfConcat(a, b);
    assert SomeReversed(items) <==> SomeReversed(second);
  }

  /** At the start of a rendered list the tokeniser takes exactly the first item. */
  lemma TokenOfItem(item: Item, tail: string, rest: seq<Item>)
    requires WellFormed(item) && AllWellFormed(rest) && tail == Render(rest)
    requires item.Literal? && rest != [] ==> rest[0].Class?
    ensures TokenLength(ItemText(item) + tail) == |ItemText(item)| > 0
    ensures TokenChars(ItemText(item)) == if Reversed(item) then Err(ReversedRange) else Ok(ItemChars(item))
  {
    if item.Literal? {
      var s := item.run + tail;
      assert rest != [] ==> tail[0] == '\\';
      assert forall k :: 0 <= k < |item.run| ==> s[k] == item.run[k];
      assert tail != [] ==> s[|item.run|] == '\\';
      assert AlnumEnd(s, 0) == |item.run|;
      assert forall k :: 0 <= k < |item.run| ==> item.run[k] != '-' && item.run[k] != '\\';
    }
  }

  /** Round trip: the alphabet of a rendered list of items holds exactly the characters of its items, each once and in
      increasing order, unless some range is reversed, which is the only way to fail. */
  lemma RoundTrip(items: seq<Item>, alphabet: string)
    requires items != [] && AllWellFormed(items) && NoLiteralBeforeSpan(items)
    ensures HasToken(Render(items))
    ensures RawAlphabet(Render(items)).Err? <==> SomeReversed(items)
    ensures IsAlphabet(Render(items), alphabet) ==>
              !SomeReversed(items) && alphabet != [] && Increasing(alphabet) && Chars(alphabet) == ItemsChars(items)
    ensures !SomeReversed(items) && Increasing(alphabet) && Chars(alphabet) == ItemsChars(items) ==>
              IsAlphabet(Render(items), alphabet)
    ensures IsAlphabet(Render(items), alphabet) ==> forall c :: c in alphabet <==> SomeStandsFor(items, c)
  {
    ItemsMean(items);
    hide SomeStandsFor;
    RawRoundTrip(items);
    FirstItemHasToken(items);
    if !SomeReversed(items) {
      assert ItemChars(items[0])[0] in ItemsChars(items) by { ItemsStandForSomething(items[0]); }
    }
  }

  lemma ItemsStandForSomething(item: Item)
    requires WellFormed(item) && !Reversed(item)
    ensures ItemChars(item) != []
  {
  }

  lemma FirstItemHasToken(items: seq<Item>)
    requires items != [] && AllWellFormed(items)
    ensures HasToken(Render(items))
  {
    var text, item := Render(items), items[0];
    assert text == ItemText(item) + Render(items[1..]);
    if item.Literal? {
      assert text[0] == item.run[0];
    }
  }

  /** Why the guard is there: a literal run directly before a range swallows its first character, whatever items follow.
      So "ab-z" stands for a, b and z only, and even a reversed range goes unnoticed. */
  lemma LiteralSwallowsRangeStart(run: string, from: char, to: char, rest: seq<Item>)
    requires WellFormed(Literal(run)) && WellFormed(Span(from, to))
    ensures RawAlphabet(Render([Literal(run), Span(from, to)] + rest))
            == Prepend(run + [from], RawAlphabet([to] + Render(rest)))
  {
    var items := [Literal(run), Span(from, to)] + rest;
    assert items[0] == Literal(run) && items[1..] == [Span(from, to)] + rest && items[1..][1..] == rest;
    assert Render(items[1..]) == [from, '-', to] + Render(rest);
    assert Render(items) == (run + [from]) + (['-'] + ([to] + Render(rest)));
    SwallowedStart(run, from, to, Render(rest));
  }

  lemma SwallowedStart(run: string, from: char, to: char, tail: string)
    requires WellFormed(Literal(run)) && WellFormed(Span(from, to))
    ensures RawAlphabet((run + [from]) + (['-'] + ([to] + tail))) == Prepend(run + [from], RawAlphabet([to] + tail))
  {
    var dashed, n := ['-'] + ([to] + tail), |run| + 1;
    var s := (run + [from]) + dashed;
    assert forall k :: 0 <= k < |run| ==> s[k] == run[k] && run[k] != '-' && run[k] != '\\';
    assert s[|run|] == from && s[n] == '-';
    assert TokenLength(s) == n && s[..n] == run + [from] && s[n..] == dashed;
    NextToken(s);
    assert TokenLength(dashed) == 0 && dashed[1..] == [to] + tail;
    NextToken(dashed);
  }

  /** The list as the tokeniser reads it: adjacent literals are one, and a literal swallows the start of a range that
      follows it, so that the end of the range is left as a literal, which may swallow in turn. */
  function AsRead(items: seq<Item>): seq<Item>
    decreases |items|
  {
    if |items| < 2 || !items[0].Literal? || items[1].Class? then
      if items == [] then [] else [items[0]] + AsRead(items[1..])
    else match items[1]
      case Span(from, to) => [Literal(items[0].run + [from])] + AsRead([Literal([to])] + items[2..])
      case Literal(run) => AsRead([Literal(items[0].run + run)] + items[2..])
  }

  /** The characters strictly between the ends of a range. */
  function Inside(from: char, to: char): set<char> {
    set c | c in AlnumSlice(0, 61) && Position(from) < Position(c) < Position(to)
  }

  /** What the swallowed ranges hold between their ends. */
  function Lost(items: seq<Item>): set<char>
    decreases |items|
  {
    if |items| < 2 || !items[0].Literal? || items[1].Class? then
      if items == [] then {} else Lost(items[1..])
    else match items[1]
      case Span(from, to) => Inside(from, to) + Lost([Literal([to])] + items[2..])
      case Literal(run) => Lost([Literal(items[0].run + run)] + items[2..])
  }

  /** Rendering and reading back is what the user meant: it fails for a reversed range and for nothing else, and
      otherwise yields the characters of all items. */
  ghost predicate ReadAsMeant(items: seq<Item>)
    requires AllWellFormed(items)
  {
    && (RawAlphabet(Render(items)).Err? <==> SomeReversed(items))
    && (!SomeReversed(items) ==> Chars(RawAlphabet(Render(items)).value) == ItemsChars(items))
  }

  /** Exactly when any list of items is read as it was meant, with or without literals in front of ranges: some reversed
      range is not swallowed, or none is reversed and all that lies inside the swallowed ranges is there anyway. */
  lemma ReadAsMeantIff(items: seq<Item>)
    requires AllWellFormed(items)
    ensures AllWellFormed(AsRead(items)) && (SomeReversed(AsRead(items)) ==> SomeReversed(items))
    ensures ReadAsMeant(items)
            <==> if SomeReversed(items) then SomeReversed(AsRead(items)) else Lost(items) <= ItemsChars(AsRead(items))
  {
    AsReadIsExact(items);
    if !SomeReversed(items) {
      MeantIsReadAndLost(items);
    }
    hide Render, RawAlphabet, AsRead, Lost, ItemsChars, SomeReversed;
  }

  lemma ConsItems(item: Item, tail: seq<Item>)
    ensures AllWellFormed([item] + tail) <==> WellFormed(item) && AllWellFormed(tail)
    ensures SomeReversed([item] + tail) <==> Reversed(item) || SomeReversed(tail)
    ensures AllWellFormed([item] + tail) && !SomeReversed([item] + tail) ==>
              ItemsChars([item] + tail) == Chars(ItemChars(item)) + ItemsChars(tail)
    ensures Render([item] + tail) == ItemText(item) + Render(tail)
  {
    var items := [item] + tail;
    assert items[0] == item && items[1..] == tail;
    assert forall i :: 0 <= i < |tail| ==> tail[i] == items[i + 1];
  }

  /** What the tokeniser yields for a rendered list is what the list says as it is read. */
  lemma {:induction false} AsReadIsExact(items: seq<Item>)
    requires AllWellFormed(items)
    ensures AllWellFormed(AsRead(items)) && (SomeReversed(AsRead(items)) ==> SomeReversed(items))
    ensures RawAlphabet(Render(items)).Err? <==> SomeReversed(AsRead(items))
    ensures !SomeReversed(AsRead(items)) ==> Chars(RawAlphabet(Render(items)).value) == ItemsChars(AsRead(items))
    decreases |items|
  {
    if items != [] {
      var item, rest := items[0], items[1..];
      assert items == [item] + rest;
      ConsItems(item, rest);
      if item.Literal? && rest != [] && !rest[0].Class? {
        var tail := rest[1..];
        assert rest == [rest[0]] + tail && items[2..] == tail && items[1] == rest[0];
        ConsItems(rest[0], tail);
        if rest[0].Span? {
          SwallowedIsExact(item.run, rest[0].from, rest[0].to, tail);
        } else {
          MergedIsExact(item.run, rest[0].run, tail);
        }
      } else {
        AsReadIsExact(rest);
        FirstIsExact(item, rest);
      }
    }
  }

  lemma {:induction false} SwallowedIsExact(run: string, from: char, to: char, tail: seq<Item>)
    requires WellFormed(Literal(run)) && WellFormed(Span(from, to)) && AllWellFormed(tail)
    ensures var items := [Literal(run)] + ([Span(from, to)] + tail);
            var read := [Literal(run + [from])] + AsRead([Literal([to])] + tail);
            && AllWellFormed(read) && (SomeReversed(read) ==> SomeReversed(items))
            && (RawAlphabet(Render(items)).Err? <==> SomeReversed(read))
            && (!SomeReversed(read) ==> Chars(RawAlphabet(Render(items)).value) == ItemsChars(read))
    decreases |tail| + 2, 0
  {
    var next := [Literal([to])] + tail;
    var items := [Literal(run)] + ([Span(from, to)] + tail);
    ConsItems(Literal([to]), tail);
    AsReadIsExact(next);
    ConsItems(Literal(run + [from]), AsRead(next));
    ConsItems(Span(from, to), tail);
    ConsItems(Literal(run), [Span(from, to)] + tail);
    LiteralSwallowsRangeStart(run, from, to, tail);
    assert [Literal(run), Span(from, to)] + tail == items;
    hide Render, RawAlphabet, AsRead, ItemsChars, SomeReversed, AllWellFormed;
    if RawAlphabet(Render(next)).Ok? {
      CharsOfConcat(run + [from], RawAlphabet(Render(next)).value);
    }
  }

  lemma {:induction false} MergedIsExact(a: string, b: string, tail: seq<Item>)
    requires WellFormed(Literal(a)) && WellFormed(Literal(b)) && AllWellFormed(tail)
    ensures var items := [Literal(a)] + ([Literal(b)] + tail);
            var read := AsRead([Literal(a + b)] + tail);
            && AllWellFormed(read) && (SomeReversed(read) ==> SomeReversed(items))
            && (RawAlphabet(Render(items)).Err? <==> SomeReversed(read))
            && (!SomeReversed(read) ==> Chars(RawAlphabet(Render(items)).value) == ItemsChars(read))
    decreases |tail| + 2, 0
  {
    ConsItems(Literal(b), tail);
    ConsItems(Literal(a), [Literal(b)] + tail);
    MergedText(a, b, tail);
    MergedChars(a, b, tail);
    hide Render, RawAlphabet, AsRead, ItemsChars, SomeReversed;
    AsReadIsExact([Literal(a + b)] + tail);
  }

  lemma FirstIsExact(item: Item, rest: seq<Item>)
    requires WellFormed(item) && AllWellFormed(rest) && (item.Literal? && rest != [] ==> rest[0].Class?)
    requires AllWellFormed(AsRead(rest)) && (SomeReversed(AsRead(rest)) ==> SomeReversed(rest))
    requires RawAlphabet(Render(rest)).Err? <==> SomeReversed(AsRead(rest))
    requires !SomeReversed(AsRead(rest)) ==> Chars(RawAlphabet(Render(rest)).value) == ItemsChars(AsRead(rest))
    ensures var items, read := [item] + rest, [item] + AsRead(rest);
            && AllWellFormed(read) && (SomeReversed(read) ==> SomeReversed(items))
            && (RawAlphabet(Render(items)).Err? <==> SomeReversed(read))
            && (!SomeReversed(read) ==> Chars(RawAlphabet(Render(items)).value) == ItemsChars(read))
  {
    ConsItems(item, rest);
    ConsItems(item, AsRead(rest));
    TokenOfItem(item, Render(rest), rest);
    var text, n := Render([item] + rest), |ItemText(item)|;
    assert text[..n] == ItemText(item) && text[n..] == Render(rest);
    NextToken(text);
    hide Render, RawAlphabet, AsRead, ItemsChars, SomeReversed, TokenLength, TokenChars;
    if !Reversed(item) && !SomeReversed(AsRead(rest)) {
      CharsOfConcat(ItemChars(item), RawAlphabet(Render(rest)).value);
    }
  }

  /** What was meant is what is read and what is lost. */
  lemma {:induction false} MeantIsReadAndLost(items: seq<Item>)
    requires AllWellFormed(items) && !SomeReversed(items)
    ensures AllWellFormed(AsRead(items)) && !SomeReversed(AsRead(items))
    ensures ItemsChars(items) == ItemsChars(AsRead(items)) + Lost(items)
    decreases |items|
  {
    AsReadIsExact(items);
    if items != [] {
      hide *;
      var item, rest := items[0], items[1..];
      assert items == [item] + rest;
      ConsItems(item, rest);
      if item.Literal? && rest != [] && !rest[0].Class? {
        var second, tail := rest[0], rest[1..];
        assert rest == [second] + tail;
        ConsItems(second, tail);
        if second.Span? {
          ReadSwallowing(item.run, second.from, second.to, tail);
          SwallowedIsMeant(item.run, second.from, second.to, tail);
        } else {
          ReadMerging(item.run, second.run, tail);
          MergedChars(item.run, second.run, tail);
          MeantIsReadAndLost([Literal(item.run + second.run)] + tail);
        }
      } else {
        ReadFirst(item, rest);
        MeantIsReadAndLost(rest);
        ConsItems(item, AsRead(rest));
      }
    } else {
      assert AsRead(items) == [] && Lost(items) == {};
    }
  }

  lemma ReadSwallowing(run: string, from: char, to: char, tail: seq<Item>)
    ensures var items, next := [Literal(run)] + ([Span(from, to)] + tail), [Literal([to])] + tail;
            AsRead(items) == [Literal(run + [from])] + AsRead(next) && Lost(items) == Inside(from, to) + Lost(next)
  {
    var items := [Literal(run)] + ([Span(from, to)] + tail);
    assert items[0] == Literal(run) && items[1] == Span(from, to) && items[2..] == tail;
  }

  lemma ReadMerging(a: string, b: string, tail: seq<Item>)
    ensures var items, merged := [Literal(a)] + ([Literal(b)] + tail), [Literal(a + b)] + tail;
            AsRead(items) == AsRead(merged) && Lost(items) == Lost(merged)
  {
    var items := [Literal(a)] + ([Literal(b)] + tail);
    assert items[0] == Literal(a) && items[1] == Literal(b) && items[2..] == tail;
  }

  lemma ReadFirst(item: Item, rest: seq<Item>)
    requires item.Literal? && rest != [] ==> rest[0].Class?
    ensures AsRead([item] + rest) == [item] + AsRead(rest) && Lost([item] + rest) == Lost(rest)
  {
    assert ([item] + rest)[1..] == rest;
  }

  lemma {:induction false} SwallowedIsMeant(run: string, from: char, to: char, tail: seq<Item>)
    requires WellFormed(Literal(run)) && WellFormed(Span(from, to)) && !Reversed(Span(from, to))
    requires AllWellFormed(tail) && !SomeReversed(tail)
    ensures var items, next := [Literal(run)] + ([Span(from, to)] + tail), [Literal([to])] + tail;
            var read := [Literal(run + [from])] + AsRead(next);
            && AllWellFormed(items) && !SomeReversed(items) && AllWellFormed(read) && !SomeReversed(read)
            && ItemsChars(items) == ItemsChars(read) + (Inside(from, to) + Lost(next))
    decreases |tail| + 2, 0
  {
    assert WellFormed(Literal([to])) && !Reversed(Literal([to]));
    hide *;
    ConsItems(Literal([to]), tail);
    MeantIsReadAndLost([Literal([to])] + tail);
    SwallowedIsLost(run, from, to, tail);
  }

  lemma SwallowedIsLost(run: string, from: char, to: char, tail: seq<Item>)
    requires WellFormed(Literal(run)) && WellFormed(Span(from, to)) && !Reversed(Span(from, to))
    requires AllWellFormed(tail) && !SomeReversed(tail)
    requires var next := [Literal([to])] + tail;
             && AllWellFormed(next) && !SomeReversed(next) && AllWellFormed(AsRead(next)) && !SomeReversed(AsRead(next))
             && ItemsChars(next) == ItemsChars(AsRead(next)) + Lost(next)
    ensures var items, next := [Literal(run)] + ([Span(from, to)] + tail), [Literal([to])] + tail;
            var read := [Literal(run + [from])] + AsRead(next);
            && AllWellFormed(items) && !SomeReversed(items) && AllWellFormed(read) && !SomeReversed(read)
            && ItemsChars(items) == ItemsChars(read) + (Inside(from, to) + Lost(next))
  {
    hide AsRead, Lost, ItemsChars, SomeReversed, AllWellFormed, Inside, AlnumSlice;
    var next := [Literal([to])] + tail;
    ConsItems(Literal([to]), tail);
    ConsItems(Span(from, to), tail);
    ConsItems(Literal(run), [Span(from, to)] + tail);
    ConsItems(Literal(run + [from]), AsRead(next));
    RangeIsEndsAndInside(from, to);
    CharsOfConcat(run, [from]);
    assert Chars([from]) == {from} && Chars([to]) == {to};
  }

  lemma RangeIsEndsAndInside(from: char, to: char)
    requires IsAlnum(from) && IsAlnum(to) && Position(from) <= Position(to)
    ensures Chars(AlnumSlice(Position(from), Position(to))) == {from, to} + Inside(from, to)
  {
    OnlyOneAt(from, to);
    hide Position, AlnumSlice;
    var slice := AlnumSlice(Position(from), Position(to));
    assert forall c :: c in slice <==> Position(from) <= Position(c) <= Position(to);
    assert forall c :: c in Inside(from, to) <==> Position(from) < Position(c) < Position(to);
  }

  lemma OnlyOneAt(from: char, to: char)
    requires IsAlnum(from) && IsAlnum(to)
    ensures forall c :: (Position(c) == Position(from) <==> c == from) && (Position(c) == Position(to) <==> c == to)
  {
  }
}
