/** The expression generator: a loop that rewrites the leftmost expression of a string until none is left. */
module Generator {
  import opened Wrappers
  import opened Text
  import opened Alphabet

  const MIN_LENGTH := 1
  const MAX_LENGTH := 255
  const MAX_INT64 := 0x7FFF_FFFF_FFFF_FFFF

  // ---------------------------------------------------------------- finding expressions

  predicate IsRangeChar(c: char) { IsAlnum(c) || c == '-' || c == '\\' }

  function RangeEnd(s: string, i: nat): (e: nat)
    requires i <= |s|
    ensures i <= e <= |s|
    ensures forall k :: i <= k < e ==> IsRangeChar(s[k])
    ensures e < |s| ==> !IsRangeChar(s[e])
    decreases |s| - i
  {
    if i < |s| && IsRangeChar(s[i]) then RangeEnd(s, i + 1) else i
  }

  /** An expression "[ranges]{length}" at a position: `ranges` ends at mid, the whole at end. */
  datatype Match = NoMatch | Match(start: nat, mid: nat, end: nat)

  /** s[m.start..m.end] is a text of the form \[([a-zA-Z0-9\-\\]+)\](\{(\w+)\}). */
  predicate IsMatch(s: string, m: Match) {
    && m.Match? && m.start + 1 < m.mid && m.mid + 3 < m.end <= |s|
    && s[m.start] == '[' && s[m.mid] == ']' && s[m.mid + 1] == '{' && s[m.end - 1] == '}'
    && (forall k :: m.start < k < m.mid ==> IsRangeChar(s[k]))
    && (forall k :: m.mid + 2 <= k < m.end - 1 ==> IsWord(s[k]))
  }

  function MatchAt(s: string, i: nat): (m: Match)
    requires i < |s|
    ensures m.Match? ==> m.start == i && IsMatch(s, m)
  {
    if s[i] != '[' then NoMatch
    else
      var mid := RangeEnd(s, i + 1);
      if mid == i + 1 || mid + 1 >= |s| || s[mid] != ']' || s[mid + 1] != '{' then NoMatch
      else
        var e := WordEnd(s, mid + 2);
        if e == mid + 2 || e == |s| || s[e] != '}' then NoMatch else Match(i, mid, e + 1)
  }

  /** The leftmost match at or behind i. */
  function FindFrom(s: string, i: nat): (m: Match)
    requires i <= |s|
    ensures m.Match? ==> i <= m.start && IsMatch(s, m)
    decreases |s| - i
  {
    if i == |s| then NoMatch
    else if MatchAt(s, i).Match? then MatchAt(s, i)
    else FindFrom(s, i + 1)
  }

  function Find(s: string): Match { FindFrom(s, 0) }

  /** At most one match starts at a position, because the delimiters belong to no run. */
  lemma MatchAtIsUnique(s: string, m: Match)
    requires IsMatch(s, m)
    ensures MatchAt(s, m.start) == m
  {
    assert RangeEnd(s, m.start + 1) == m.mid;
    assert WordEnd(s, m.mid + 2) == m.end - 1;
  }

  lemma {:induction false} FindIsLeftmost(s: string, i: nat, m: Match)
    requires i <= |s| && IsMatch(s, m) && i <= m.start
    ensures FindFrom(s, i).Match? && FindFrom(s, i).start <= m.start
    ensures FindFrom(s, i).start == m.start ==> FindFrom(s, i) == m
    decreases |s| - i
  {
    MatchAtIsUnique(s, m);
    if i < m.start && !MatchAt(s, i).Match? {
      FindIsLeftmost(s, i + 1, m);
    }
  }

  // ---------------------------------------------------------------- one round

  predicate AllDigits(s: string) { forall k :: 0 <= k < |s| ==> IsDigit(s[k]) }

  function NatOf(s: string): nat
    requires AllDigits(s)
  {
    if s == [] then 0 else 10 * NatOf(s[..|s| - 1]) + (s[|s| - 1] as int - '0' as int)
  }

  /** strconv.Atoi followed by the bounds check, for a text of word characters. */
  function LengthOf(text: string): Result<nat, Error> {
    if text == [] || !AllDigits(text) || NatOf(text) > MAX_INT64 then Err(MalformedLength)
    else if !(MIN_LENGTH <= NatOf(text) <= MAX_LENGTH) then Err(LengthOutOfRange)
    else Ok(NatOf(text))
  }

  /** A number written in decimal digits. */
  function Decimal(n: nat): (s: string)
    ensures s != [] && AllDigits(s)
  {
    if n < 10 then ['0' + n as char] else Decimal(n / 10) + ['0' + (n % 10) as char]
  }

  lemma {:induction false} DecimalReadsBack(n: nat)
    ensures NatOf(Decimal(n)) == n
  {
    var s := Decimal(n);
    if n < 10 {
      assert s[..0] == [];
    } else {
      DecimalReadsBack(n / 10);
      assert s[..|s| - 1] == Decimal(n / 10);
    }
  }

  /** A length written in decimal is accepted if and only if it lies between 1 and 255, and then means itself. */
  lemma LengthReadsBack(n: nat)
    ensures LengthOf(Decimal(n)).Ok? <==> 1 <= n <= 255
    ensures LengthOf(Decimal(n)).Ok? ==> LengthOf(Decimal(n)).value == n
  {
    DecimalReadsBack(n);
    hide Decimal, NatOf;
  }

  /** What a round sets out to do with the leftmost expression, before any character is drawn. */
  datatype Plan = Finished | Fails(error: Error) | Draws(m: Match, raw: string, length: nat)

  function PlanOf(ranges: string, length: string, m: Match): Plan {
    if !HasToken(ranges) then Fails(MalformedRanges)
    else match LengthOf(length)
      case Err(e) => Fails(e)
      case Ok(n) =>
        match RawAlphabet(ranges)
        case Err(e) => Fails(e)
        case Ok(raw) => Draws(m, raw, n)
  }

  function PlanFor(s: string): (p: Plan)
    ensures p.Draws? ==> p.m == Find(s) && IsMatch(s, p.m) && MIN_LENGTH <= p.length <= MAX_LENGTH
  {
    var m := Find(s);
    if m.NoMatch? then Finished else PlanOf(s[m.start + 1..m.mid], s[m.mid + 2..m.end - 1], m)
  }

  predicate DrawnFrom(val: string, raw: string) { forall k :: 0 <= k < |val| ==> val[k] in raw }

  /** One successful round of the loop, for some outcome of the random draws. */
  ghost predicate Round(s: string, s': string) {
    exists val :: RoundWith(s, val, s')
  }

  predicate RoundWith(s: string, val: string, s': string) {
    var p := PlanFor(s);
    && p.Draws? && |val| == p.length && DrawnFrom(val, p.raw)
    && s' == s[..p.m.start] + val + s[p.m.end..]
  }

  function Shift(m: Match, d: nat): Match
    requires m.Match?
  {
    Match(m.start + d, m.mid + d, m.end + d)
  }

  /** A match in a part of a string is a match in the whole string. */
  lemma ShiftedMatch(s: string, i: nat, text: string, m: Match)
    requires OccursAt(s, text, i) && IsMatch(text, m)
    ensures IsMatch(s, Shift(m, i))
  {
    assert forall k :: i <= k < i + |text| ==> s[k] == s[i..i + |text|][k - i];
  }

  lemma OwnMatch(s: string, m: Match)
    requires IsMatch(s, m)
    ensures IsMatch(s[m.start..m.end], Match(0, m.mid - m.start, m.end - m.start))
  {
    var text := s[m.start..m.end];
    assert forall k :: 0 <= k < |text| ==> text[k] == s[k + m.start];
  }

  lemma NoEarlierOccurrence(s: string, i: nat)
    requires Find(s).Match? && i < Find(s).start
    ensures !OccursAt(s, s[Find(s).start..Find(s).end], i)
  {
    hide Find, FindFrom, MatchAt;
    var m := Find(s);
    FindFacts(s);
    if OccursAt(s, s[m.start..m.end], i) {
      OwnMatch(s, m);
      ShiftedMatch(s, i, s[m.start..m.end], Match(0, m.mid - m.start, m.end - m.start));
      FindIsLeftmost(s, 0, Match(i, m.mid - m.start + i, m.end - m.start + i));
      FindIsFindFrom(s);
    }
  }

  lemma FindFacts(s: string)
    ensures Find(s).Match? ==> IsMatch(s, Find(s))
  {
  }

  lemma FindIsFindFrom(s: string)
    ensures Find(s) == FindFrom(s, 0)
  {
  }

  /** Replacing the first occurrence of the expression's text rewrites exactly the leftmost matched interval. */
  lemma ReplaceHitsLeftmostMatch(s: string, val: string)
    requires Find(s).Match?
    ensures var m := Find(s); ReplaceFirst(s, s[m.start..m.end], val) == s[..m.start] + val + s[m.end..]
  {
    var m := Find(s);
    FindFacts(s);
    hide Find, IsMatch;
    forall i | 0 <= i < m.start ensures !OccursAt(s, s[m.start..m.end], i) {
      NoEarlierOccurrence(s, i);
    }
    ReplaceAt(s, s[m.start..m.end], m.start, val);
  }

  // ---------------------------------------------------------------- termination

  /** No backslash stands directly before an A or an opening bracket; in particular, a text without backslashes is tame.
      The first keeps the class \A out, the second keeps a round from putting it together. */
  predicate Tame(s: string) {
    forall k :: 0 <= k < |s| - 1 && s[k] == '\\' ==> s[k + 1] != 'A' && s[k + 1] != '['
  }

  /** Tame ranges stand for word characters only. */
  lemma {:induction false} TameRangesAreWords(ranges: string)
    requires Tame(ranges) && RawAlphabet(ranges).Ok?
    ensures AllWord(RawAlphabet(ranges).value)
    decreases ranges
  {
    if ranges != [] {
      var n := TokenLength(ranges);
      NextToken(ranges);
      if n == 0 {
        TameRangesAreWords(ranges[1..]);
      } else {
        TameTokenIsWords(ranges);
        TameRangesAreWords(ranges[n..]);
      }
    }
  }

  lemma TameTokenIsWords(ranges: string)
    requires ranges != [] && Tame(ranges) && TokenLength(ranges) > 0 && TokenChars(ranges[..TokenLength(ranges)]).Ok?
    ensures AllWord(TokenChars(ranges[..TokenLength(ranges)]).value)
  {
    var cs := TokenChars(ranges[..TokenLength(ranges)]).value;
    assert forall k :: 0 <= k < |cs| ==> cs[k] in cs;
  }

  function OpenCount(s: string): nat {
    if s == [] then 0 else (if s[0] == '[' then 1 else 0) + OpenCount(s[1..])
  }

  lemma {:induction false} OpenCountConcat(s: string, t: string)
    ensures OpenCount(s + t) == OpenCount(s) + OpenCount(t)
  {
    if s == [] {
      assert s + t == t;
    } else {
      assert (s + t)[1..] == s[1..] + t;
      OpenCountConcat(s[1..], t);
    }
  }

  lemma {:induction false} OpenCountZero(s: string)
    ensures OpenCount(s) == 0 <==> '[' !in s
  {
    if s != [] {
      OpenCountZero(s[1..]);
      assert s == [s[0]] + s[1..];
    }
  }

  lemma MatchHoldsOneBracket(s: string, m: Match)
    requires IsMatch(s, m)
    ensures OpenCount(s[m.start..m.end]) == 1
  {
    var text := s[m.start..m.end];
    assert text[0] == '[' && text[1..] == s[m.start + 1..m.end];
    assert forall k :: m.start < k < m.end ==> s[k] != '[';
    OpenCountZero(s[m.start + 1..m.end]);
  }

  /** A successful round on a tame text lowers the number of opening brackets by exactly one and leaves the
      text tame. */
  lemma RoundLowersBrackets(s: string, s': string)
    requires Tame(s) && Round(s, s')
    ensures Tame(s') && OpenCount(s') == OpenCount(s) - 1
  {
    var val :| RoundWith(s, val, s');
    var m, raw := PlanFor(s).m, PlanFor(s).raw;
    TameInside(s, m);
    TameRangesAreWords(s[m.start + 1..m.mid]);
    assert AllWord(val);
    RoundKeepsTame(s, m, val);
    OpenCountZero(val);
    CountAfterRound(s, m, val);
  }

  /** A text drawn for an expression, all brackets. */
  function Brackets(n: nat): string { seq(n, i => '[') }

  lemma {:induction false} BracketsCount(n: nat)
    ensures OpenCount(Brackets(n)) == n
  {
    if n > 0 {
      assert Brackets(n)[1..] == Brackets(n - 1);
      BracketsCount(n - 1);
    }
  }

  /** Exactly when a round is sure to lower the number of opening brackets by one, whatever is drawn: the alphabet of
      the leftmost expression holds no opening bracket. */
  lemma RoundLowersBracketsIff(s: string)
    requires PlanFor(s).Draws?
    ensures (forall s' :: Round(s, s') ==> OpenCount(s') == OpenCount(s) - 1) <==> '[' !in PlanFor(s).raw
  {
    var p := PlanFor(s);
    hide PlanFor, OpenCount;
    if '[' in p.raw {
      var val := Brackets(p.length);
      var s' := s[..p.m.start] + val + s[p.m.end..];
      assert RoundWith(s, val, s');
      BracketsCount(p.length);
      CountAfterRound(s, p.m, val);
    } else {
      forall s' | Round(s, s') ensures OpenCount(s') == OpenCount(s) - 1 {
        BracketFreeRound(s, s');
      }
    }
  }

  lemma BracketFreeRound(s: string, s': string)
    requires Round(s, s') && '[' !in PlanFor(s).raw
    ensures OpenCount(s') == OpenCount(s) - 1
  {
    var val :| RoundWith(s, val, s');
    hide PlanFor, OpenCount;
    OpenCountZero(val);
    CountAfterRound(s, PlanFor(s).m, val);
  }

  lemma CountAfterRound(s: string, m: Match, val: string)
    requires IsMatch(s, m)
    ensures OpenCount(s[..m.start] + val + s[m.end..]) == OpenCount(s) - 1 + OpenCount(val)
  {
    MatchHoldsOneBracket(s, m);
    hide OpenCount, IsMatch;
    var front, expr, back := s[..m.start], s[m.start..m.end], s[m.end..];
    assert s == front + expr + back;
    OpenCountConcat(front + expr, back);
    OpenCountConcat(front, expr);
    OpenCountConcat(front + val, back);
    OpenCountConcat(front, val);
  }

  lemma TameInside(s: string, m: Match)
    requires Tame(s) && IsMatch(s, m)
    ensures Tame(s[m.start + 1..m.mid])
  {
    var t := s[m.start + 1..m.mid];
    forall k | 0 <= k < |t| - 1 && t[k] == '\\' ensures t[k + 1] != 'A' && t[k + 1] != '[' {
      assert s[m.start + 1 + k] == '\\' && t[k + 1] == s[m.start + 2 + k];
    }
  }

  lemma RoundKeepsTame(s: string, m: Match, val: string)
    requires Tame(s) && IsMatch(s, m) && val != [] && AllWord(val)
    ensures Tame(s[..m.start] + val + s[m.end..])
  {
    var t := s[..m.start] + val + s[m.end..];
    var d := m.end - m.start - |val|;
    forall k | 0 <= k < |t| - 1 && t[k] == '\\' ensures t[k + 1] != 'A' && t[k + 1] != '[' {
      if k < m.start {
        assert s[k] == '\\' && s[k + 1] != '[';
        assert k + 1 < m.start && t[k + 1] == s[k + 1];
      } else {
        assert k >= m.start + |val| && s[k + d] == '\\' && t[k + 1] == s[k + 1 + d];
      }
    }
  }

  // ---------------------------------------------------------------- runs

  /** The successive texts of the loop, one successful round after the other. */
  ghost predicate IsRun(trace: seq<string>) {
    |trace| > 0 && forall k :: 0 <= k < |trace| - 1 ==> Round(trace[k], trace[k + 1])
  }

  /** Whatever is drawn, a run on a tame text has at most as many rounds as the text has opening brackets. */
  lemma {:induction false} TameRunsEnd(trace: seq<string>)
    requires IsRun(trace) && Tame(trace[0])
    ensures Tame(trace[|trace| - 1])
    ensures OpenCount(trace[|trace| - 1]) + |trace| - 1 == OpenCount(trace[0])
    decreases |trace|
  {
    if |trace| > 1 {
      assert Round(trace[0], trace[1]);
      RoundLowersBrackets(trace[0], trace[1]);
      RunTail(trace);
      TameRunsEnd(trace[1..]);
    }
  }

  /** Whatever the inputs, a run in which no alphabet holds an opening bracket has as many rounds as brackets
      disappear. */
  lemma {:induction false} BracketFreeRunsEnd(trace: seq<string>)
    requires IsRun(trace)
    requires forall k :: 0 <= k < |trace| - 1 ==> PlanFor(trace[k]).Draws? && '[' !in PlanFor(trace[k]).raw
    ensures OpenCount(trace[|trace| - 1]) + |trace| - 1 == OpenCount(trace[0])
    decreases |trace|
  {
    if |trace| > 1 {
      assert Round(trace[0], trace[1]);
      BracketFreeRound(trace[0], trace[1]);
      RunTail(trace);
      hide IsRun, PlanFor, Round, OpenCount;
      assert forall k :: 0 <= k < |trace[1..]| - 1 ==> trace[1..][k] == trace[k + 1];
      BracketFreeRunsEnd(trace[1..]);
    }
  }

  // ---------------------------------------------------------------- shape

  /** A generator input taken apart: literal text, and expressions "[ranges]{length}". */
  datatype Piece = Lit(text: string) | Expr(ranges: string, length: string)

  function PieceText(p: Piece): string {
    match p
    case Lit(text) => text
    case Expr(ranges, length) => "[" + ranges + "]{" + length + "}"
  }

  function Source(ps: seq<Piece>): string {
    if ps == [] then [] else PieceText(ps[0]) + Source(ps[1..])
  }

  /** Literals free of brackets; expressions that are well formed and cannot draw an opening bracket. */
  predicate Plain(p: Piece) {
    match p
    case Lit(text) => '[' !in text
    case Expr(ranges, length) => Valid(ranges, length) && '[' !in RawAlphabet(ranges).value
  }

  /** The texts that are taken for an expression at all, right or wrong. */
  predicate Shaped(ranges: string, length: string) {
    && ranges != [] && (forall k :: 0 <= k < |ranges| ==> IsAlnum(ranges[k]) || ranges[k] == '-' || ranges[k] == '\\')
    && length != [] && (forall k :: 0 <= k < |length| ==> IsAlnum(length[k]) || length[k] == '_')
  }

  predicate Valid(ranges: string, length: string) {
    && Shaped(ranges, length)
    && HasToken(ranges) && LengthOf(length).Ok? && RawAlphabet(ranges).Ok?
  }

  predicate AllPlain(ps: seq<Piece>) { forall i :: 0 <= i < |ps| ==> Plain(ps[i]) }

  /** The literals stand in place, and each expression has become its stated number of characters of its own
      alphabet. */
  predicate Produced(ps: seq<Piece>, out: string)
    requires AllPlain(ps)
  {
    if ps == [] then out == []
    else match ps[0]
      case Lit(text) => text <= out && Produced(ps[1..], out[|text|..])
      case Expr(ranges, length) =>
        var n := LengthOf(length).value;
        n <= |out| && DrawnFrom(out[..n], RawAlphabet(ranges).value) && Produced(ps[1..], out[n..])
  }

  lemma {:induction false} SourceSplit(ps: seq<Piece>, i: nat)
    requires i < |ps|
    ensures Source(ps) == Source(ps[..i]) + (PieceText(ps[i]) + Source(ps[i + 1..]))
  {
    if i == 0 {
      assert ps[..0] == [];
    } else {
      SourceSplit(ps[1..], i - 1);
      assert ps[1..][..i - 1] == ps[..i][1..] && ps[1..][i..] == ps[i + 1..] && ps[1..][i - 1] == ps[i];
      ConcatAssociates(PieceText(ps[0]), Source(ps[..i][1..]), PieceText(ps[i]) + Source(ps[i + 1..]));
    }
  }

  lemma {:induction false} LiteralsAreProduced(ps: seq<Piece>)
    requires AllPlain(ps) && forall i :: 0 <= i < |ps| ==> ps[i].Lit?
    ensures '[' !in Source(ps) && Produced(ps, Source(ps))
  {
    if ps != [] {
      LiteralsAreProduced(ps[1..]);
      var out := Source(ps);
      assert out[|ps[0].text|..] == Source(ps[1..]) && out[..|ps[0].text|] == ps[0].text;
    }
  }

  lemma {:induction false} DrawnTextIsProduced(ps: seq<Piece>, i: nat, val: string, out: string)
    requires AllPlain(ps) && i < |ps| && ps[i].Expr? && '[' !in val
    requires |val| == LengthOf(ps[i].length).value && DrawnFrom(val, RawAlphabet(ps[i].ranges).value)
    requires AllPlain(ps[i := Lit(val)]) && Produced(ps[i := Lit(val)], out)
    ensures Produced(ps, out)
    decreases i
  {
    var qs := ps[i := Lit(val)];
    if i == 0 {
      assert qs[1..] == ps[1..] && out[..|val|] == val;
    } else {
      assert qs[1..] == ps[1..][i - 1 := Lit(val)] && qs[0] == ps[0];
      var n := if ps[0].Lit? then |ps[0].text| else LengthOf(ps[0].length).value;
      DrawnTextIsProduced(ps[1..], i - 1, val, out[n..]);
    }
  }

  function MatchOf(prefix: string, e: Piece): Match
    requires e.Expr?
  {
    Match(|prefix|, |prefix| + 1 + |e.ranges|, |prefix| + 4 + |e.ranges| + |e.length|)
  }

  lemma PieceTextMatches(e: Piece)
    requires e.Expr? && Shaped(e.ranges, e.length)
    ensures var text, m := PieceText(e), MatchOf([], e);
            && m.end == |text| && IsMatch(text, m)
            && text[1..m.mid] == e.ranges && text[m.mid + 2..m.end - 1] == e.length
  {
    hide LengthOf, HasToken, RawAlphabet;
    var text, m := PieceText(e), MatchOf([], e);
    assert forall k :: 0 < k < m.mid ==> text[k] == e.ranges[k - 1];
    assert forall k :: m.mid + 2 <= k < m.end - 1 ==> text[k] == e.length[k - m.mid - 2];
  }

  lemma Embedded(prefix: string, text: string, tail: string, own: Match)
    requires IsMatch(text, own)
    ensures IsMatch(prefix + (text + tail), Shift(own, |prefix|))
  {
    hide IsMatch;
    SliceInside(prefix, text, tail, 0, |text|);
    assert text[0..|text|] == text;
    ShiftedMatch(prefix + (text + tail), |prefix|, text, own);
  }

  lemma AroundText(prefix: string, text: string, tail: string)
    ensures var s := prefix + (text + tail); s[..|prefix|] == prefix && s[|prefix| + |text|..] == tail
  {
  }

  lemma MatchBounds(s: string, m: Match)
    requires IsMatch(s, m)
    ensures m.Match? && m.start + 1 < m.mid && m.mid + 2 < m.end - 1 && m.end <= |s|
  {
  }

  lemma Located(prefix: string, text: string, tail: string, own: Match, s: string, m: Match)
    requires IsMatch(text, own) && own.start == 0 && own.end == |text|
    requires s == prefix + (text + tail) && m == Shift(own, |prefix|)
    ensures IsMatch(s, m) && s[m.start + 1..m.mid] == text[1..own.mid]
            && s[m.mid + 2..m.end - 1] == text[own.mid + 2..own.end - 1]
    ensures s[..m.start] == prefix && s[m.end..] == tail
  {
    Embedded(prefix, text, tail, own);
    MatchBounds(text, own);
    hide IsMatch;
    SliceInside(prefix, text, tail, 1, own.mid);
    SliceInside(prefix, text, tail, own.mid + 2, own.end - 1);
    AroundText(prefix, text, tail);
  }

  lemma MatchOfShifts(prefix: string, e: Piece)
    requires e.Expr?
    ensures MatchOf([], e).start == 0 && MatchOf(prefix, e) == Shift(MatchOf([], e), |prefix|)
  {
  }

  lemma PieceMatches(prefix: string, e: Piece, tail: string)
    requires e.Expr? && Shaped(e.ranges, e.length)
    ensures var s, m := prefix + (PieceText(e) + tail), MatchOf(prefix, e);
            && IsMatch(s, m) && s[m.start + 1..m.mid] == e.ranges && s[m.mid + 2..m.end - 1] == e.length
            && s[..m.start] == prefix && s[m.end..] == tail
  {
    hide *;
    PieceTextMatches(e);
    MatchOfShifts(prefix, e);
    Located(prefix, PieceText(e), tail, MatchOf([], e), prefix + (PieceText(e) + tail), MatchOf(prefix, e));
  }

  lemma SliceInside(prefix: string, text: string, tail: string, a: nat, b: nat)
    requires a <= b <= |text|
    ensures (prefix + (text + tail))[|prefix| + a..|prefix| + b] == text[a..b]
  {
  }

  /** Behind a prefix without brackets, the next round works on the expression that follows. */
  lemma PlanForText(prefix: string, e: Piece, tail: string)
    requires '[' !in prefix && e.Expr? && Shaped(e.ranges, e.length)
    ensures PlanFor(prefix + (PieceText(e) + tail)) == PlanOf(e.ranges, e.length, MatchOf(prefix, e))
  {
    hide MatchAt, LengthOf, HasToken, RawAlphabet, PieceText, PlanOf;
    var s, m := prefix + (PieceText(e) + tail), MatchOf(prefix, e);
    PieceMatches(prefix, e, tail);
    NothingBefore(s, 0, |prefix|);
    MatchAtIsUnique(s, m);
  }

  /** What is wrong with the leftmost expression: its ranges hold no token, its length is no number, or one that does
      not fit, or lies outside 1 to 255, or a range is bad; in this order, and nothing else is ever wrong. */
  lemma FirstErrorIsReported(prefix: string, e: Piece, tail: string)
    requires '[' !in prefix && e.Expr? && Shaped(e.ranges, e.length)
    ensures var p := PlanFor(prefix + (PieceText(e) + tail));
            if !HasToken(e.ranges) then p == Fails(MalformedRanges)
            else if !AllDigits(e.length) || NatOf(e.length) > 0x7FFF_FFFF_FFFF_FFFF then p == Fails(MalformedLength)
            else if !(1 <= NatOf(e.length) <= 255) then p == Fails(LengthOutOfRange)
            else if RawAlphabet(e.ranges).Err? then p == Fails(RawAlphabet(e.ranges).error)
            else p.Draws? && p.length == NatOf(e.length)
  {
    PlanForText(prefix, e, tail);
    hide HasToken, RawAlphabet, NatOf, PieceText, PlanFor;
  }

  lemma PlanForFirst(prefix: string, e: Piece, tail: string)
    requires '[' !in prefix && e.Expr? && Valid(e.ranges, e.length)
    ensures PlanFor(prefix + (PieceText(e) + tail))
         == Draws(MatchOf(prefix, e), RawAlphabet(e.ranges).value, LengthOf(e.length).value)
  {
    PlanForText(prefix, e, tail);
    hide LengthOf, HasToken, RawAlphabet, PieceText, PlanFor, Shaped;
  }

  lemma {:induction false} NothingBefore(s: string, i: nat, j: nat)
    requires i <= j <= |s| && forall k :: i <= k < j ==> s[k] != '['
    ensures FindFrom(s, i) == FindFrom(s, j)
    decreases j - i
  {
    if i < j {
      NothingBefore(s, i + 1, j);
    }
  }

  function ExprCount(ps: seq<Piece>): nat {
    if ps == [] then 0 else (if ps[0].Expr? then 1 else 0) + ExprCount(ps[1..])
  }

  lemma {:induction false} ExprCountDrops(ps: seq<Piece>, i: nat, val: string)
    requires i < |ps| && ps[i].Expr?
    ensures ExprCount(ps[i := Lit(val)]) == ExprCount(ps) - 1
    decreases i
  {
    var qs := ps[i := Lit(val)];
    if i == 0 {
      assert qs[1..] == ps[1..];
    } else {
      assert qs[1..] == ps[1..][i - 1 := Lit(val)];
      ExprCountDrops(ps[1..], i - 1, val);
    }
  }

  function FirstExpr(ps: seq<Piece>): (i: nat)
    ensures i <= |ps| && (i < |ps| ==> ps[i].Expr?)
    ensures forall j :: 0 <= j < i ==> ps[j].Lit?
  {
    if ps == [] || ps[0].Expr? then 0 else FirstExpr(ps[1..]) + 1
  }

  /** A round turns the first expression into literal text drawn from its alphabet, and touches nothing else. */
  lemma RoundOnPieces(ps: seq<Piece>, s': string) returns (val: string)
    requires AllPlain(ps) && FirstExpr(ps) < |ps| && Round(Source(ps), s')
    ensures var i := FirstExpr(ps);
            && '[' !in val && |val| == LengthOf(ps[i].length).value && DrawnFrom(val, RawAlphabet(ps[i].ranges).value)
            && s' == Source(ps[i := Lit(val)])
  {
    var i := FirstExpr(ps);
    var prefix, tail := Source(ps[..i]), Source(ps[i + 1..]);
    SourceSplit(ps, i);
    LiteralsAreProduced(ps[..i]);
    PlanForFirst(prefix, ps[i], tail);
    PieceMatches(prefix, ps[i], tail);
    val :| RoundWith(Source(ps), val, s');
    var qs := ps[i := Lit(val)];
    SourceSplit(qs, i);
    assert qs[..i] == ps[..i] && qs[i + 1..] == ps[i + 1..];
    ConcatAssociates(prefix, val, tail);
    assert forall k :: 0 <= k < |val| ==> val[k] in RawAlphabet(ps[i].ranges).value;
  }

  /** Shape: a run on literals and plain expressions never fails, and when it is done every literal stands in place and
      every expression has become exactly its stated 1..255 characters of its own alphabet. There are never more rounds
      than expressions, and as many when it is done. */
  lemma {:induction false} ShapeOfRuns(ps: seq<Piece>, trace: seq<string>)
    requires AllPlain(ps) && IsRun(trace) && trace[0] == Source(ps)
    ensures |trace| - 1 <= ExprCount(ps)
    ensures PlanFor(trace[|trace| - 1]).Finished? <==> |trace| - 1 == ExprCount(ps)
    ensures !PlanFor(trace[|trace| - 1]).Fails?
    ensures PlanFor(trace[|trace| - 1]).Finished? ==> Produced(ps, trace[|trace| - 1])
    decreases ExprCount(ps)
  {
    assert |trace| > 0;
    hide *;
    FirstExprFacts(ps);
    ExprCountIsPositive(ps);
    var i := FirstExpr(ps);
    if |trace| > 1 {
      RunTail(trace);
      RoundNeedsPlan(trace[0], trace[1]);
    }
    if i == |ps| {
      NothingLeft(ps);
    } else {
      SomethingLeft(ps);
      if |trace| > 1 {
        var val := RoundOnPieces(ps, trace[1]);
        ExprCountDrops(ps, i, val);
        PlainAfterDraw(ps, i, val);
        ShapeOfRuns(ps[i := Lit(val)], trace[1..]);
        if PlanFor(trace[|trace| - 1]).Finished? {
          DrawnTextIsProduced(ps, i, val, trace[|trace| - 1]);
        }
      }
    }
  }

  lemma {:induction false} ExprCountIsPositive(ps: seq<Piece>)
    ensures ExprCount(ps) > 0 <==> FirstExpr(ps) < |ps|
  {
    if ps != [] {
      ExprCountIsPositive(ps[1..]);
    }
  }

  lemma FirstExprFacts(ps: seq<Piece>)
    ensures FirstExpr(ps) <= |ps| && (FirstExpr(ps) < |ps| ==> ps[FirstExpr(ps)].Expr?)
  {
  }

  lemma NothingLeft(ps: seq<Piece>)
    requires AllPlain(ps) && FirstExpr(ps) == |ps|
    ensures PlanFor(Source(ps)).Finished? && Produced(ps, Source(ps))
  {
    LiteralsAreProduced(ps);
    NothingBefore(Source(ps), 0, |Source(ps)|);
  }

  lemma SomethingLeft(ps: seq<Piece>)
    requires AllPlain(ps) && FirstExpr(ps) < |ps|
    ensures PlanFor(Source(ps)).Draws?
  {
    hide PlanFor, Produced, Source, PieceText, HasToken, LengthOf, RawAlphabet;
    var i := FirstExpr(ps);
    SourceSplit(ps, i);
    LiteralsAreProduced(ps[..i]);
    PlanForFirst(Source(ps[..i]), ps[i], Source(ps[i + 1..]));
  }

  lemma PlainAfterDraw(ps: seq<Piece>, i: nat, val: string)
    requires AllPlain(ps) && i < |ps| && '[' !in val
    ensures AllPlain(ps[i := Lit(val)])
  {
  }

  lemma RoundNeedsPlan(s: string, s': string)
    requires Round(s, s')
    ensures PlanFor(s).Draws?
  {
  }

  lemma RunTail(trace: seq<string>)
    requires IsRun(trace) && |trace| > 1
    ensures Round(trace[0], trace[1]) && IsRun(trace[1..])
  {
    forall k | 0 <= k < |trace| - 2 ensures Round(trace[1..][k], trace[1..][k + 1]) {
      assert Round(trace[k + 1], trace[k + 1 + 1]);
    }
  }

  // ---------------------------------------------------------------- the loop itself

  datatype Outcome = Generated(text: string) | Rejected(error: Error) | EmptyAlphabet | RandomFailed | StillRunning

  /** The text of an expression, by its position in any string it was found in. */
  ghost predicate IsExprText(expr: string, ranges: string, length: string) {
    && expr == PieceText(Expr(ranges, length)) && ranges != [] && length != [] && AllWord(length)
    && forall k :: 0 <= k < |ranges| ==> IsRangeChar(ranges[k])
  }

  lemma MatchText(s: string, m: Match)
    requires IsMatch(s, m)
    ensures IsExprText(s[m.start..m.end], s[m.start + 1..m.mid], s[m.mid + 2..m.end - 1])
  {
    var ranges, length := s[m.start + 1..m.mid], s[m.mid + 2..m.end - 1];
    assert s[m.start..m.end] == "[" + ranges + "]{" + length + "}";
  }

  lemma BraceOf(expr: string, ranges: string, length: string)
    requires IsExprText(expr, ranges, length)
    ensures var brace := |ranges| + 2;
            && brace < |expr| - 1 && expr[brace] == '{' && (forall k :: brace < k < |expr| ==> expr[k] != '{')
            && expr[1..brace - 1] == ranges && expr[brace + 1..|expr| - 1] == length
  {
    var brace := |ranges| + 2;
    assert forall k :: brace < k < |expr| - 1 ==> expr[k] == length[k - brace - 1];
  }

  method ExtractRangesAndLength(expr: string, ghost r0: string, ghost l0: string)
    returns (r: Result<(string, nat), Error>)
    requires IsExprText(expr, r0, l0)
    ensures r == if !HasToken(r0) then Err(MalformedRanges)
                 else if LengthOf(l0).Err? then Err(LengthOf(l0).error)
                 else Ok((r0, LengthOf(l0).value))
  {
    hide HasToken, LengthOf, AllWord;
    BraceOf(expr, r0, l0);
    var lengthStart := |expr| - 1;
    ghost var brace := |r0| + 2;
    while expr[lengthStart] != '{'
      invariant brace <= lengthStart < |expr|
      decreases lengthStart
    {
      lengthStart := lengthStart - 1;
    }
    var ranges := expr[1..lengthStart - 1];
    if !HasToken(ranges) {
      return Err(MalformedRanges);
    }
    var n := LengthOf(expr[lengthStart + 1..|expr| - 1]);
    r := if n.Err? then Err(n.error) else Ok((ranges, n.value));
  }

  method ReplaceWithGeneratedValue(s: string, expr: string, alphabet: string, length: nat)
    returns (r: Outcome, ghost val: string)
    ensures r.Generated? ==> |val| == length && DrawnFrom(val, alphabet) && r.text == ReplaceFirst(s, expr, val)
    ensures r.EmptyAlphabet? <==> alphabet == []
    ensures !r.Rejected? && !r.StillRunning?
  {
    val := [];
    if |alphabet| < 1 {
      return EmptyAlphabet, val;
    }
    var out := [];
    for i := 0 to length
      invariant |out| == i && DrawnFrom(out, alphabet)
    {
      if * {
        return RandomFailed, val;
      }
      var idx: nat :| idx < |alphabet|;
      out := out + [alphabet[idx]];
    }
    val := out;
    r := Generated(ReplaceFirst(s, expr, out));
  }

  lemma {:induction false} TokensMeanCharacters(ranges: string)
    requires HasToken(ranges) && RawAlphabet(ranges).Ok?
    ensures RawAlphabet(ranges).value != []
    decreases ranges
  {
    NextToken(ranges);
    if TokenLength(ranges) == 0 {
      TokensMeanCharacters(ranges[1..]);
    }
  }

  lemma PlanOfMatch(s: string)
    requires Find(s).Match?
    ensures var m := Find(s);
            IsMatch(s, m) && PlanFor(s) == PlanOf(s[m.start + 1..m.mid], s[m.mid + 2..m.end - 1], m)
  {
  }

  /** What the code computes in a round is a round. */
  lemma RoundMade(s: string, alphabet: string, val: string)
    requires PlanFor(s).Draws? && Find(s).Match? && IsMatch(s, Find(s))
    requires IsAlphabet(s[Find(s).start + 1..Find(s).mid], alphabet)
    requires |val| == PlanFor(s).length && DrawnFrom(val, alphabet)
    ensures Round(s, ReplaceFirst(s, s[Find(s).start..Find(s).end], val))
  {
    var m := Find(s);
    ReplaceHitsLeftmostMatch(s, val);
    assert forall c :: c in alphabet ==> c in Chars(alphabet);
    hide Find, ReplaceFirst, RawAlphabet, HasToken, LengthOf;
    assert RoundWith(s, val, s[..m.start] + val + s[m.end..]);
  }

  lemma RunSnoc(trace: seq<string>, s': string)
    requires IsRun(trace) && Round(trace[|trace| - 1], s')
    ensures IsRun(trace + [s'])
  {
    hide Round;
    var longer := trace + [s'];
    assert forall k :: 0 <= k < |trace| ==> longer[k] == trace[k];
  }

  method PrepareExpr(expr: string, ghost r0: string, ghost l0: string) returns (r: Result<(string, nat), Error>)
    requires IsExprText(expr, r0, l0)
    ensures r.Err? ==> PlanOf(r0, l0, NoMatch) == Fails(r.error)
    ensures r.Ok? ==> && HasToken(r0) && LengthOf(l0) == Ok(r.value.1) && RawAlphabet(r0).Ok?
                      && IsAlphabet(r0, r.value.0) && r.value.0 != []
  {
    hide RawAlphabet, HasToken, LengthOf, IsExprText;
    var extracted := ExtractRangesAndLength(expr, r0, l0);
    if extracted.Err? {
      return Err(extracted.error);
    }
    var (ranges, length) := extracted.value;
    var alphabet := GetAlphabetFromRanges(ranges);
    if alphabet.Err? {
      return Err(alphabet.error);
    }
    AlphabetIsNotEmpty(ranges, alphabet.value);
    r := Ok((alphabet.value, length));
  }

  /** What becomes of the leftmost expression depends on its own text alone. */
  lemma PlanFromText(s: string, r0: string, l0: string)
    requires Find(s).Match? && IsMatch(s, Find(s))
    requires r0 == s[Find(s).start + 1..Find(s).mid] && l0 == s[Find(s).mid + 2..Find(s).end - 1]
    ensures IsExprText(s[Find(s).start..Find(s).end], r0, l0)
    ensures forall e :: PlanOf(r0, l0, NoMatch) == Fails(e) ==> PlanFor(s) == Fails(e)
    ensures HasToken(r0) && LengthOf(l0).Ok? && RawAlphabet(r0).Ok? ==>
            PlanFor(s).Draws? && PlanFor(s).length == LengthOf(l0).value
  {
    hide *;
    MatchBounds(s, Find(s));
    PlanOfMatch(s);
    MatchText(s, Find(s));
    PlanOfText(r0, l0, Find(s));
  }

  lemma PlanOfText(r0: string, l0: string, m: Match)
    ensures forall e :: PlanOf(r0, l0, NoMatch) == Fails(e) ==> PlanOf(r0, l0, m) == Fails(e)
    ensures HasToken(r0) && LengthOf(l0).Ok? && RawAlphabet(r0).Ok? ==>
              PlanOf(r0, l0, m).Draws? && PlanOf(r0, l0, m).length == LengthOf(l0).value
  {
    hide RawAlphabet, HasToken, LengthOf;
  }

  /** The part of the loop's body that is not random. */
  method Prepare(s: string) returns (r: Result<(string, nat), Error>)
    requires Find(s).Match? && IsMatch(s, Find(s))
    ensures r.Err? ==> PlanFor(s) == Fails(r.error)
    ensures r.Ok? ==> && PlanFor(s).Draws? && r.value.1 == PlanFor(s).length
                      && r.value.0 != [] && IsAlphabet(s[Find(s).start + 1..Find(s).mid], r.value.0)
  {
    MatchBounds(s, Find(s));
    hide *;
    var m := Find(s);
    ghost var r0, l0 := s[m.start + 1..m.mid], s[m.mid + 2..m.end - 1];
    PlanFromText(s, r0, l0);
    r := PrepareExpr(s[m.start..m.end], r0, l0);
  }

  /** The body of the loop. */
  method RewriteOnce(s: string) returns (r: Outcome)
    requires Find(s).Match?
    ensures r.Generated? ==> Round(s, r.text)
    ensures r.Rejected? ==> PlanFor(s) == Fails(r.error)
    ensures !r.EmptyAlphabet? && !r.StillRunning?
  {
    PlanOfMatch(s);
    hide Find, IsMatch, ReplaceFirst, IsAlphabet, Round, DrawnFrom, PlanFor;
    var m := Find(s);
    var prepared := Prepare(s);
    if prepared.Err? {
      return Rejected(prepared.error);
    }
    ghost var val;
    r, val := ReplaceWithGeneratedValue(s, s[m.start..m.end], prepared.value.0, prepared.value.1);
    if r.Generated? {
      RoundMade(s, prepared.value.0, val);
    }
  }

  /** The loop, for every sequence of random draws, watched for at most `rounds` rounds: what it returns is the end of a
      run. On a tame input it is done after as many rounds as the input has opening brackets. */
  method GenerateValue(s0: string, rounds: nat) returns (r: Outcome, ghost trace: seq<string>)
    ensures IsRun(trace) && trace[0] == s0
    ensures r.Generated? ==> r.text == trace[|trace| - 1] && PlanFor(r.text).Finished?
    ensures r.Rejected? ==> PlanFor(trace[|trace| - 1]) == Fails(r.error)
    ensures r.StillRunning? ==> |trace| == rounds + 1 && !PlanFor(trace[rounds]).Finished?
    ensures Tame(s0) && rounds >= OpenCount(s0) ==> !r.StillRunning?
    ensures !r.EmptyAlphabet?
  {
    var s, left := s0, rounds;
    trace := [s0];
    while Find(s).Match?
      invariant IsRun(trace) && trace[0] == s0 && trace[|trace| - 1] == s
      invariant |trace| + left == rounds + 1
      decreases left
    {
      if left == 0 {
        RunLeavesBrackets(trace);
        return StillRunning, trace;
      }
      hide IsRun, Find, Round, PlanFor;
      r := RewriteOnce(s);
      if !r.Generated? {
        return;
      }
      RunSnoc(trace, r.text);
      trace := trace + [r.text];
      s, left := r.text, left - 1;
    }
    r := Generated(s);
  }

  /** As long as there is something to rewrite, a tame text has had fewer rounds than brackets. */
  lemma RunLeavesBrackets(trace: seq<string>)
    requires IsRun(trace) && Find(trace[|trace| - 1]).Match?
    ensures !PlanFor(trace[|trace| - 1]).Finished?
    ensures Tame(trace[0]) ==> |trace| - 1 < OpenCount(trace[0])
  {
    var s := trace[|trace| - 1];
    PlanOfMatch(s);
    if Tame(trace[0]) {
      hide IsRun, Round, Tame;
      TameRunsEnd(trace);
      OpenCountZero(s);
      assert s[Find(s).start] == '[';
    }
  }

  lemma AlphabetIsNotEmpty(ranges: string, alphabet: string)
    requires HasToken(ranges) && IsAlphabet(ranges, alphabet)
    ensures alphabet != []
  {
    TokensMeanCharacters(ranges);
    assert RawAlphabet(ranges).value[0] in Chars(alphabet);
  }

  // ---------------------------------------------------------------- why the guard of termination is there

  /** The expression [\A\w]{10}. */
  function Quine(): Piece { Expr("\\A\\w", "10") }

  /** An expression that can draw its own text may be rewritten to itself for ever. */
  lemma OwnTextDrawn(e: Piece)
    requires e.Expr? && Valid(e.ranges, e.length) && |PieceText(e)| == LengthOf(e.length).value
    requires DrawnFrom(PieceText(e), RawAlphabet(e.ranges).value)
    ensures Round(PieceText(e), PieceText(e))
  {
    hide PlanFor, LengthOf, HasToken, RawAlphabet, DrawnFrom;
    var s := PieceText(e);
    assert [] + (s + []) == s;
    PlanForFirst([], e, []);
    assert MatchOf([], e).end == |s|;
    assert s[..0] + s + s[|s|..] == s;
    assert RoundWith(s, s, s);
  }

  /** A text outside the guard may be drawn again and again by its own expression. */
  lemma SelfReproducing(q: Piece)
    requires q == Quine()
    ensures !Tame(PieceText(q)) && Round(PieceText(q), PieceText(q))
  {
    hide *;
    QuineIsValid(q);
    OwnTextDrawn(q);
  }

  lemma QuineIsValid(q: Piece)
    requires q == Quine()
    ensures q.Expr? && !Tame(PieceText(q)) && Valid(q.ranges, q.length)
    ensures |PieceText(q)| == LengthOf(q.length).value && DrawnFrom(PieceText(q), RawAlphabet(q.ranges).value)
  {
    hide HasToken, LengthOf, RawAlphabet, DrawnFrom, PieceText, Tame;
    QuineAlphabet(q.ranges);
    TenCharacters(q.length);
    QuineText(q);
    QuineDraws(PieceText(q), RawAlphabet(q.ranges).value);
  }

  lemma QuineText(q: Piece)
    requires q == Quine()
    ensures !Tame(PieceText(q)) && |PieceText(q)| == 10
  {
    var s := PieceText(q);
    assert s[1] == '\\' && s[2] == 'A';
  }

  lemma TenCharacters(length: string)
    requires length == "10"
    ensures LengthOf(length) == Ok(10) && AllWord(length)
  {
    assert length[..1] == ['1'] && length[..1][..0] == [];
    assert NatOf(length) == 10 * NatOf(length[..1]) + 0 && NatOf(length[..1]) == 10 * NatOf(length[..1][..0]) + 1;
  }

  lemma QuineAlphabet(ranges: string)
    requires ranges == "\\A\\w"
    ensures HasToken(ranges) && RawAlphabet(ranges) == Ok(SYMBOLS + ((AlnumSlice(0, 61) + "_") + []))
  {
    var rest := ranges[2..];
    assert ranges[..2] == ['\\', 'A'] && rest == ['\\', 'w'] && rest[..2] == rest && rest[2..] == [];
    NextToken(ranges);
    NextToken(rest);
  }

  lemma QuineDraws(s: string, raw: string)
    requires s == PieceText(Quine()) && raw == SYMBOLS + ((AlnumSlice(0, 61) + "_") + [])
    ensures DrawnFrom(s, raw)
  {
    var symbols := SYMBOLS;
    assert symbols[22] == '[' && symbols[23] == '\\' && symbols[24] == ']' && symbols[28] == '{' && symbols[30] == '}';
    assert forall c :: c in symbols || IsAlnum(c) ==> c in raw;
  }

  // ---------------------------------------------------------------- the expression the request controller asks for

  /** Behind a text in which no expression starts, the next round works on the expression that follows. */
  lemma PlanBehind(prefix: string, e: Piece, tail: string)
    requires e.Expr? && Valid(e.ranges, e.length)
    requires var s := prefix + (PieceText(e) + tail); forall i :: 0 <= i < |prefix| ==> MatchAt(s, i).NoMatch?
    ensures PlanFor(prefix + (PieceText(e) + tail))
         == Draws(MatchOf(prefix, e), RawAlphabet(e.ranges).value, LengthOf(e.length).value)
  {
    var s := prefix + (PieceText(e) + tail);
    hide MatchAt, LengthOf, HasToken, RawAlphabet, PieceText;
    PieceMatches(prefix, e, tail);
    MatchAtIsUnique(s, MatchOf(prefix, e));
    NoneBefore(s, 0, |prefix|);
  }

  lemma {:induction false} NoneBefore(s: string, i: nat, j: nat)
    requires i <= j <= |s| && forall k :: i <= k < j ==> MatchAt(s, k).NoMatch?
    ensures FindFrom(s, i) == FindFrom(s, j)
    decreases j - i
  {
    hide MatchAt;
    if i < j {
      NoneBefore(s, i + 1, j);
    }
  }

  /** Why a tame text may not hold a backslash directly before a bracket: the only round of [\[A]{1}]{10} leads to
      [\A]{10}, which can draw brackets. */
  lemma BackslashBracketOpensClass(prefix: string, e: Piece, tail: string)
    requires prefix == "[\\" && e == Expr("A", "1") && tail == "]{10}"
    ensures Round(prefix + (PieceText(e) + tail), prefix + "A" + tail)
            && prefix + "A" + tail == PieceText(Expr("\\A", "10"))
  {
    var s := prefix + (PieceText(e) + tail);
    assert PieceText(e)[0] == '[' && prefix + "A" + tail == PieceText(Expr("\\A", "10"));
    hide PlanFor, LengthOf, RawAlphabet, IsMatch, PieceText, Valid;
    NothingOpens(s);
    hide MatchAt;
    OneLetter(e.ranges, e.length);
    PlanBehind(prefix, e, tail);
    PieceMatches(prefix, e, tail);
    assert RoundWith(s, "A", prefix + "A" + tail);
  }

  lemma NothingOpens(s: string)
    requires |s| > 2 && s[0] == '[' && s[1] == '\\' && s[2] == '['
    ensures MatchAt(s, 0).NoMatch? && MatchAt(s, 1).NoMatch?
  {
    assert RangeEnd(s, 1) == 2;
  }

  lemma OneLetter(ranges: string, length: string)
    requires ranges == "A" && length == "1"
    ensures Valid(ranges, length) && LengthOf(length) == Ok(1) && RawAlphabet(ranges) == Ok("A")
  {
    assert length[..0] == [];
    assert NatOf(length) == 10 * NatOf(length[..0]) + 1;
    assert TokenLength(ranges) == 1 && ranges[..1] == ranges && ranges[1..] == [];
    assert "A" + [] == "A";
  }

  /** A literal followed by one expression. */
  lemma LiteralThenExpr(text: string, ranges: string, length: string, trace: seq<string>)
    requires AllPlain([Lit(text), Expr(ranges, length)]) && IsRun(trace)
    requires trace[0] == text + PieceText(Expr(ranges, length)) && PlanFor(trace[|trace| - 1]).Finished?
    ensures var out := trace[|trace| - 1];
            && Plain(Expr(ranges, length)) && text <= out && |out| == |text| + LengthOf(length).value
            && DrawnFrom(out[|text|..], RawAlphabet(ranges).value)
  {
    var ps := [Lit(text), Expr(ranges, length)];
    var out := trace[|trace| - 1];
    assert ps[1] == Expr(ranges, length) && ps[1..] == [ps[1]] && ps[1..][1..] == [];
    TwoPieces(ps[0], ps[1]);
    hide PlanFor, LengthOf, RawAlphabet, HasToken, IsRun, AllPlain, Plain, Produced, Source;
    ShapeOfRuns(ps, trace);
    ExprProduced(text, ranges, length, out);
  }

  lemma ExprProduced(text: string, ranges: string, length: string, out: string)
    requires AllPlain([Lit(text), Expr(ranges, length)]) && Produced([Lit(text), Expr(ranges, length)], out)
    ensures && Plain(Expr(ranges, length)) && text <= out && |out| == |text| + LengthOf(length).value
            && DrawnFrom(out[|text|..], RawAlphabet(ranges).value)
  {
    hide LengthOf, RawAlphabet, HasToken, PieceText;
    var ps := [Lit(text), Expr(ranges, length)];
    assert ps[1] == Expr(ranges, length) && ps[1..] == [ps[1]] && ps[1..][1..] == [];
    var rest := out[|text|..];
    assert Plain(ps[1]);
    assert Produced(ps[1..], rest);
    assert Produced([], rest[LengthOf(length).value..]);
    assert rest[..|rest|] == rest;
  }

  lemma TwoPieces(p: Piece, q: Piece)
    ensures Source([p, q]) == PieceText(p) + PieceText(q)
  {
    hide PieceText;
    var ps := [p, q];
    assert ps[1..] == [q] && ps[1..][1..] == [];
    assert Source(ps) == PieceText(p) + Source(ps[1..]);
    assert Source(ps[1..]) == PieceText(q) + Source([]);
    assert PieceText(q) + [] == PieceText(q);
  }

  function NameItems(): seq<Item> { [Span('a', 'z'), Span('0', '9')] }

  /** Every value generated from "vm-[a-z0-9]{5}" is "vm-" and five lower-case letters or digits. */
  lemma GeneratedNames(text: string, ranges: string, length: string, trace: seq<string>)
    requires text == "vm-" && ranges == "a-z0-9" && length == "5"
    requires IsRun(trace) && trace[0] == text + PieceText(Expr(ranges, length)) && PlanFor(trace[|trace| - 1]).Finished?
    ensures var name := trace[|trace| - 1];
            |name| == 8 && name[..3] == "vm-" && forall k :: 3 <= k < 8 ==> 'a' <= name[k] <= 'z' || IsDigit(name[k])
  {
    var name := trace[|trace| - 1];
    NameRanges(ranges);
    FiveCharacters(length);
    NameExprIsPlain(text, ranges, length);
    hide PlanFor, LengthOf, RawAlphabet, HasToken, IsRun, AllPlain, Plain;
    LiteralThenExpr(text, ranges, length, trace);
    assert forall k :: 3 <= k < 8 ==> name[k] == name[3..][k - 3];
  }

  lemma NameExprIsPlain(text: string, ranges: string, length: string)
    requires text == "vm-" && ranges == "a-z0-9" && LengthOf(length) == Ok(5) && length != [] && AllWord(length)
    requires HasToken(ranges) && RawAlphabet(ranges).Ok? && '[' !in RawAlphabet(ranges).value
    ensures AllPlain([Lit(text), Expr(ranges, length)])
  {
    hide LengthOf, RawAlphabet, HasToken;
  }

  lemma NameRanges(ranges: string)
    requires ranges == "a-z0-9"
    ensures HasToken(ranges) && RawAlphabet(ranges).Ok?
    ensures forall c :: c in RawAlphabet(ranges).value ==> 'a' <= c <= 'z' || IsDigit(c)
  {
    var items := NameItems();
    NameItemsText();
    hide HasToken, RawAlphabet, Render;
    assert items[1..] == [Span('0', '9')] && items[1..][1..] == [];
    RawRoundTrip(items);
    FirstItemHasToken(items);
    NameItemsChars();
    hide NameItems, ItemsChars;
    var cs := RawAlphabet(ranges).value;
    assert forall c :: c in cs ==> c in Chars(cs);
  }

  lemma NameItemsChars()
    ensures AllWellFormed(NameItems()) && !SomeReversed(NameItems())
    ensures forall c :: c in ItemsChars(NameItems()) ==> 'a' <= c <= 'z' || IsDigit(c)
  {
    var items := NameItems();
    assert AllWellFormed(items);
    ItemsMean(items);
    hide ItemsChars, SomeReversed, AllWellFormed;
    forall c | SomeStandsFor(items, c) ensures 'a' <= c <= 'z' || IsDigit(c) {
      var i :| 0 <= i < |items| && StandsFor(items[i], c);
      assert i == 0 || i == 1;
    }
  }

  lemma NameItemsText()
    ensures Render(NameItems()) == "a-z0-9"
  {
    var items := NameItems();
    assert items[1..] == [Span('0', '9')] && items[1..][1..] == [];
  }

  lemma FiveCharacters(length: string)
    requires length == "5"
    ensures LengthOf(length) == Ok(5) && AllWord(length)
  {
    assert length[..0] == [];
    assert NatOf(length) == 10 * NatOf(length[..0]) + 5;
  }
}
