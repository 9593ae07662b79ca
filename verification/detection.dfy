/** Personality-type detection in a search query and the choice of the single
    type filter the search applies (app.py, `detect_personality_types` and the
    filter-selection block of the search handler). */
module Detection {
  import opened Wrappers
  import opened Text

  /** The sixteen MBTI codes, in the order the detector lists them. */
  const MbtiCodes: seq<string> :=
    ["INTJ", "INTP", "ENTJ", "ENTP", "INFJ", "INFP", "ENFJ", "ENFP",
     "ISTJ", "ISFJ", "ESTJ", "ESFJ", "ISTP", "ISFP", "ESTP", "ESFP"]

  /** The spelled-out alternatives of the enneagram number group, in pattern order. */
  const NumberWords: seq<string> :=
    ["ONE", "TWO", "THREE", "FOUR", "FIVE", "SIX", "SEVEN", "EIGHT", "NINE"]

  const TypeKeyword: string := "TYPE"
  const EnneagramKeyword: string := "ENNEAGRAM"

  // ---------------------------------------------------------------------------
  // MBTI codes

  /** The entries of `codes` that occur in `hay`, in the order of `codes`. */
  function KeepOccurring(codes: seq<string>, hay: string): (r: seq<string>)
    ensures forall t :: t in r <==> t in codes && Contains(hay, t)
    ensures IsSubsequence(r, codes)
  {
    if |codes| == 0 then []
    else if Contains(hay, codes[0]) then
      var rest := KeepOccurring(codes[1..], hay);
      assert ([codes[0]] + rest)[1..] == rest;
      [codes[0]] + rest
    else KeepOccurring(codes[1..], hay)
  }

  /** The first code kept is the first code of the list that occurs at all:
      the order is that of the list, not of positions in `hay`. */
  lemma {:induction false} FirstKeptIsFirstInList(codes: seq<string>, hay: string, k: nat)
    requires k < |codes| && Contains(hay, codes[k])
    requires forall j :: 0 <= j < k ==> !Contains(hay, codes[j])
    ensures |KeepOccurring(codes, hay)| > 0 && KeepOccurring(codes, hay)[0] == codes[k]
  {
    if k > 0 {
      assert !Contains(hay, codes[0]);
      FirstKeptIsFirstInList(codes[1..], hay, k - 1);
    }
  }

  /** Nothing is kept exactly when no code of the list occurs. */
  lemma KeptNothing(codes: seq<string>, hay: string)
    ensures |KeepOccurring(codes, hay)| == 0 <==> forall t :: t in codes ==> !Contains(hay, t)
  {
    var r := KeepOccurring(codes, hay);
    if |r| > 0 {
      assert r[0] in r;
    }
  }

  // ---------------------------------------------------------------------------
  // Enneagram pattern `KW\s*(\d|ONE|TWO|...|NINE)`

  /** A possible capture of the group `(\d|ONE|...|NINE)`. */
  predicate IsNumberToken(c: string) {
    (|c| == 1 && IsDigit(c[0])) || c in NumberWords
  }

  predicate TokenAt(s: string, k: int, c: string) {
    IsNumberToken(c) && OccursAt(s, c, k)
  }

  /** The first of `words` that occurs in `s` at `k`. */
  function WordAt(s: string, k: nat, words: seq<string>): (r: Option<string>)
    ensures r.Some? ==> r.value in words && OccursAt(s, r.value, k)
    ensures r.None? ==> forall w :: w in words ==> !OccursAt(s, w, k)
  {
    if |words| == 0 then None
    else if OccursAt(s, words[0], k) then Some(words[0])
    else WordAt(s, k, words[1..])
  }

  /** No number word is a proper prefix of another, so at most one of them
      occurs at any position. */
  lemma NumberWordsUnambiguous(s: string, k: int, w1: string, w2: string)
    requires w1 in NumberWords && w2 in NumberWords
    requires OccursAt(s, w1, k) && OccursAt(s, w2, k)
    ensures w1 == w2
  {
    assert w1[0] == s[k] == w2[0];
    assert w1[1] == s[k + 1] == w2[1];
  }

  /** A capture never starts with whitespace: its first character is a digit
      or an upper-case letter. */
  lemma TokenStartsWithNonSpace(s: string, k: int, c: string)
    requires TokenAt(s, k, c)
    ensures 0 <= k < |s| && !IsSpace(s[k])
  {
    assert s[k] == c[0];
  }

  /** The alternation `(\d|ONE|...|NINE)` tried at `k`. */
  function NumberAt(s: string, k: nat): (r: Option<string>)
    requires k <= |s|
    ensures forall c :: TokenAt(s, k, c) <==> r == Some(c)
  {
    if k < |s| && IsDigit(s[k]) then
      assert OccursAt(s, [s[k]], k);
      forall c | TokenAt(s, k, c) ensures c == [s[k]] {
        assert s[k] == c[0];
      }
      Some([s[k]])
    else
      var r := WordAt(s, k, NumberWords);
      forall c | TokenAt(s, k, c) ensures r == Some(c) {
        if !(|c| == 1 && IsDigit(c[0])) {
          NumberWordsUnambiguous(s, k, r.value, c);
        }
      }
      r
  }

  /** The end of the run of whitespace starting at `j`: greedy `\s*`. */
  function SkipSpaces(s: string, j: nat): (k: nat)
    requires j <= |s|
    ensures j <= k <= |s|
    ensures forall m :: j <= m < k ==> IsSpace(s[m])
    ensures k == |s| || !IsSpace(s[k])
    decreases |s| - j
  {
    if j < |s| && IsSpace(s[j]) then SkipSpaces(s, j + 1) else j
  }

  /** The declarative reading of the pattern: keyword `kw` at `i`, then only
      whitespace up to `k`, then the group captures `c` at `k`. */
  ghost predicate PatternMatch(s: string, kw: string, i: int, k: int, c: string) {
    OccursAt(s, kw, i) && i + |kw| <= k <= |s|
    && (forall m :: i + |kw| <= m < k ==> IsSpace(s[m]))
    && TokenAt(s, k, c)
  }

  /** A match of the pattern: where it starts, what its group captured and
      where it ends. */
  datatype Hit = Hit(start: nat, capture: string, end: nat)

  /** `re.match` of the pattern at position `i`. Since no alternative of the
      group starts with whitespace, backtracking into `\s*` never helps: the
      match exists exactly when the declarative reading has one, and it is
      unique. */
  function MatchAt(s: string, kw: string, i: nat): (r: Option<Hit>)
    requires i <= |s|
    ensures r.Some? ==> r.value.start == i && i < r.value.end <= |s|
    ensures r.Some? ==> IsNumberToken(r.value.capture)
    ensures forall k, c :: PatternMatch(s, kw, i, k, c) <==>
      r.Some? && r.value.start == i && r.value.capture == c && r.value.end == k + |c|
  {
    if !OccursAt(s, kw, i) then None
    else
      var k := SkipSpaces(s, i + |kw|);
      var n := NumberAt(s, k);
      forall k', c | PatternMatch(s, kw, i, k', c) ensures k' == k {
        TokenStartsWithNonSpace(s, k', c);
      }
      match n
      case None => None
      case Some(c) => Some(Hit(i, c, k + |c|))
  }

  /** Whitespace between keyword and number is optional and unbounded, and
      the group takes a single digit: after the keyword and any run of
      whitespace, a digit is captured alone whatever follows it. */
  lemma DigitAfterSpaces(s: string, kw: string, i: nat, k: nat)
    requires OccursAt(s, kw, i) && i + |kw| <= k < |s|
    requires forall m :: i + |kw| <= m < k ==> IsSpace(s[m])
    requires IsDigit(s[k])
    ensures MatchAt(s, kw, i) == Some(Hit(i, [s[k]], k + 1))
  {
    assert TokenAt(s, k, [s[k]]);
    assert PatternMatch(s, kw, i, k, [s[k]]);
  }

  /** The pattern for keyword `kw` matches at position `p`. */
  predicate MatchesAt(s: string, kw: string, p: int) {
    0 <= p <= |s| && MatchAt(s, kw, p).Some?
  }

  /** Hits are non-empty, in order and non-overlapping. */
  ghost predicate Ordered(hs: seq<Hit>) {
    && (forall j :: 0 <= j < |hs| ==> hs[j].start < hs[j].end)
    && (forall j :: 0 <= j < |hs| - 1 ==> hs[j].end <= hs[j + 1].start)
  }

  /** `p` falls inside one of the hits (at its start or strictly within it). */
  ghost predicate Covered(hs: seq<Hit>, p: int)
    decreases |hs|
  {
    |hs| > 0 && ((hs[0].start <= p < hs[0].end) || Covered(hs[1..], p))
  }

  /** `re.finditer` of the pattern over `s` from `pos`: the leftmost match,
      then the leftmost match starting at or after its end, and so on. Every
      hit is a genuine match, hits are ordered and do not overlap, and every
      position where the pattern matches lies inside a hit. */
  function Scan(s: string, kw: string, pos: nat): (hs: seq<Hit>)
    requires |kw| > 0 && pos <= |s|
    ensures forall j :: 0 <= j < |hs| ==> pos <= hs[j].start <= |s| && MatchAt(s, kw, hs[j].start) == Some(hs[j])
    ensures Ordered(hs)
    ensures forall p :: pos <= p && MatchesAt(s, kw, p) ==> Covered(hs, p)
    decreases |s| - pos
  {
    if pos == |s| then
      assert !OccursAt(s, kw, pos);
      []
    else
      match MatchAt(s, kw, pos)
      case None => Scan(s, kw, pos + 1)
      case Some(h) =>
        var rest := Scan(s, kw, h.end);
        HitThenRest(s, kw, pos, h, rest);
        [h] + rest
  }

  /** The match at `pos` followed by the scan from its end satisfies the
      scan's contract from `pos`. */
  lemma HitThenRest(s: string, kw: string, pos: nat, h: Hit, rest: seq<Hit>)
    requires pos <= |s| && MatchAt(s, kw, pos) == Some(h)
    requires forall j :: 0 <= j < |rest| ==>
               h.end <= rest[j].start <= |s| && MatchAt(s, kw, rest[j].start) == Some(rest[j])
    requires Ordered(rest)
    requires forall p :: h.end <= p && MatchesAt(s, kw, p) ==> Covered(rest, p)
    ensures forall j :: 0 <= j < |[h] + rest| ==>
              pos <= ([h] + rest)[j].start <= |s| && MatchAt(s, kw, ([h] + rest)[j].start) == Some(([h] + rest)[j])
    ensures Ordered([h] + rest)
    ensures forall p :: pos <= p && MatchesAt(s, kw, p) ==> Covered([h] + rest, p)
  {
    var hs := [h] + rest;
    assert hs[1..] == rest;
    forall p | pos <= p && MatchesAt(s, kw, p) ensures Covered(hs, p) {
      if p >= h.end {
        assert Covered(rest, p);
      }
    }
  }

  /** Every position covered by ordered hits lies at or after the first hit. */
  lemma {:induction false} CoveredFromFirst(hs: seq<Hit>, p: int)
    requires Ordered(hs) && Covered(hs, p)
    ensures |hs| > 0 && hs[0].start <= p
    decreases |hs|
  {
    if !(hs[0].start <= p < hs[0].end) {
      assert Ordered(hs[1..]);
      CoveredFromFirst(hs[1..], p);
      assert hs[0].start < hs[0].end <= hs[1].start;
    }
  }

  function Captures(hs: seq<Hit>): (cs: seq<string>)
    ensures |cs| == |hs|
    ensures forall j :: 0 <= j < |hs| ==> cs[j] == hs[j].capture
  {
    seq(|hs|, j requires 0 <= j < |hs| => hs[j].capture)
  }

  /** `re.findall` of the pattern for keyword `kw`: the group captures of
      the hits, left to right. */
  function FindAll(s: string, kw: string): (cs: seq<string>)
    requires |kw| > 0
    ensures forall c :: c in cs ==> IsNumberToken(c)
    ensures |cs| == |Scan(s, kw, 0)|
    ensures forall j :: 0 <= j < |cs| ==> cs[j] == Scan(s, kw, 0)[j].capture
  {
    var hs := Scan(s, kw, 0);
    assert forall j :: 0 <= j < |hs| ==> IsNumberToken(hs[j].capture);
    Captures(hs)
  }

  /** `findall` finds nothing exactly when the pattern matches nowhere. */
  lemma FindAllEmpty(s: string, kw: string)
    requires |kw| > 0
    ensures |FindAll(s, kw)| == 0 <==> forall p :: 0 <= p <= |s| ==> !MatchesAt(s, kw, p)
  {
    var hs := Scan(s, kw, 0);
    forall p | 0 <= p <= |s| && MatchesAt(s, kw, p) ensures |hs| > 0 {
      CoveredFromFirst(hs, p);
    }
    if |hs| > 0 {
      assert MatchesAt(s, kw, hs[0].start);
    }
  }

  /** The first capture of `findall` is that of the leftmost match. */
  lemma FindAllFirst(s: string, kw: string, i: nat)
    requires |kw| > 0 && MatchesAt(s, kw, i)
    requires forall p :: 0 <= p < i ==> !MatchesAt(s, kw, p)
    ensures |FindAll(s, kw)| > 0 && FindAll(s, kw)[0] == MatchAt(s, kw, i).value.capture
  {
    var hs := Scan(s, kw, 0);
    CoveredFromFirst(hs, i);
    assert MatchesAt(s, kw, hs[0].start);
  }

  // ---------------------------------------------------------------------------
  // Detection and filter choice

  datatype Detected = Detected(mbti: seq<string>, enneagram: seq<string>)

  /** `detect_personality_types`: the MBTI codes occurring in the upper-cased
      query, in list order, and the enneagram captures, those of the TYPE
      pattern first and those of the ENNEAGRAM pattern after them. */
  function DetectPersonalityTypes(query: string): (d: Detected)
    ensures forall t :: t in d.mbti <==> t in MbtiCodes && Contains(ToUpper(query), t)
    ensures IsSubsequence(d.mbti, MbtiCodes)
    ensures forall c :: c in d.enneagram ==> IsNumberToken(c)
    ensures d.enneagram == FindAll(ToUpper(query), TypeKeyword) + FindAll(ToUpper(query), EnneagramKeyword)
  {
    var upper := ToUpper(query);
    Detected(KeepOccurring(MbtiCodes, upper),
              FindAll(upper, TypeKeyword) + FindAll(upper, EnneagramKeyword))
  }

  /** The filter a single enneagram capture yields: a digit becomes
      `Type <digit>`, a spelled-out number is kept as it is. */
  function EnneagramFilter(capture: string): (f: string)
    ensures |capture| <= |f| && f[|f| - |capture|..] == capture
    ensures |f| > |capture| <==> IsDigits(capture)
  {
    if IsDigits(capture) then "Type " + capture else capture
  }

  /** A digit capture `d` becomes `Type d`; a spelled-out capture is passed
      through unchanged, with no mapping to its digit. */
  lemma EnneagramFilterCases(c: string)
    requires IsNumberToken(c)
    ensures |c| == 1 && IsDigit(c[0]) ==> EnneagramFilter(c) == "Type " + c
    ensures c in NumberWords ==> EnneagramFilter(c) == c
  {
    if c in NumberWords {
      assert !IsDigit(c[0]);
    }
  }

  /** The filter-selection block: MBTI wins, else the first enneagram
      capture, else no filter. */
  function ChooseFilter(d: Detected): (r: Option<string>)
    ensures r.None? <==> |d.mbti| == 0 && |d.enneagram| == 0
    ensures |d.mbti| > 0 ==> r == Some(d.mbti[0])
    ensures |d.mbti| == 0 && |d.enneagram| > 0 ==> r == Some(EnneagramFilter(d.enneagram[0]))
  {
    if |d.mbti| > 0 then Some(d.mbti[0])
    else if |d.enneagram| > 0 then Some(EnneagramFilter(d.enneagram[0]))
    else None
  }

  /** The type filter chosen for a query: `ChooseFilter` applied to what
      `detect_personality_types` finds in it. */
  function SelectFilter(query: string): (r: Option<string>)
    ensures r.Some? ==> FilterWord(r.value)
  {
    var d := DetectPersonalityTypes(query);
    ChosenFilterWord(d);
    ChooseFilter(d)
  }

  /** Whatever `ChooseFilter` picks from codes of the list and number
      captures lies in the filter vocabulary. */
  lemma ChosenFilterWord(d: Detected)
    requires forall t :: t in d.mbti ==> t in MbtiCodes
    requires forall c :: c in d.enneagram ==> IsNumberToken(c)
    ensures ChooseFilter(d).Some? ==> FilterWord(ChooseFilter(d).value)
  {
    if |d.mbti| > 0 {
      assert d.mbti[0] in d.mbti;
    } else if |d.enneagram| > 0 {
      var c := d.enneagram[0];
      assert c in d.enneagram;
      EnneagramFilterCases(c);
      if c !in NumberWords {
        assert ("Type " + c)[..5] == "Type ";
      }
    }
  }

  /** The vocabulary a type filter is drawn from: an MBTI code, a spelled-out
      number, or `Type ` followed by one digit. None of them is empty. */
  predicate FilterWord(f: string) {
    || f in MbtiCodes
    || f in NumberWords
    || (|f| == 6 && f[..5] == "Type " && IsDigit(f[5]))
  }

  /** No MBTI code occurs in the upper-cased query. */
  predicate NoMbti(u: string) {
    forall t :: t in MbtiCodes ==> !Contains(u, t)
  }

  /** `MatchesAt(u, kw, i)` and no match of the same pattern starts before `i`. */
  predicate LeftmostMatch(u: string, kw: string, i: int) {
    MatchesAt(u, kw, i) && forall p :: 0 <= p < i ==> !MatchesAt(u, kw, p)
  }

  /** Any MBTI hit wins: the filter is the first code of the list that occurs
      in the upper-cased query. */
  lemma SelectFilterMbti(query: string, k: nat)
    requires k < |MbtiCodes| && Contains(ToUpper(query), MbtiCodes[k])
    requires forall j :: 0 <= j < k ==> !Contains(ToUpper(query), MbtiCodes[j])
    ensures SelectFilter(query) == Some(MbtiCodes[k])
  {
    FirstKeptIsFirstInList(MbtiCodes, ToUpper(query), k);
  }

  /** Without an MBTI hit, the leftmost TYPE match decides the filter. */
  lemma SelectFilterType(query: string, i: nat)
    requires NoMbti(ToUpper(query))
    requires LeftmostMatch(ToUpper(query), TypeKeyword, i)
    ensures SelectFilter(query)
      == Some(EnneagramFilter(MatchAt(ToUpper(query), TypeKeyword, i).value.capture))
  {
    KeptNothing(MbtiCodes, ToUpper(query));
    FindAllFirst(ToUpper(query), TypeKeyword, i);
  }

  /** Without an MBTI hit or a TYPE match, the leftmost ENNEAGRAM match
      decides the filter. */
  lemma SelectFilterEnneagram(query: string, i: nat)
    requires NoMbti(ToUpper(query))
    requires forall p :: 0 <= p <= |ToUpper(query)| ==> !MatchesAt(ToUpper(query), TypeKeyword, p)
    requires LeftmostMatch(ToUpper(query), EnneagramKeyword, i)
    ensures SelectFilter(query)
      == Some(EnneagramFilter(MatchAt(ToUpper(query), EnneagramKeyword, i).value.capture))
  {
    KeptNothing(MbtiCodes, ToUpper(query));
    FindAllEmpty(ToUpper(query), TypeKeyword);
    FindAllFirst(ToUpper(query), EnneagramKeyword, i);
  }

  /** There is no filter exactly when neither an MBTI code nor either
      enneagram pattern is found. */
  lemma SelectFilterNone(query: string)
    ensures SelectFilter(query).None? <==>
      && NoMbti(ToUpper(query))
      && (forall p :: 0 <= p <= |ToUpper(query)| ==> !MatchesAt(ToUpper(query), TypeKeyword, p))
      && (forall p :: 0 <= p <= |ToUpper(query)| ==> !MatchesAt(ToUpper(query), EnneagramKeyword, p))
  {
    var u := ToUpper(query);
    var d := DetectPersonalityTypes(query);
    KeptNothing(MbtiCodes, u);
    FindAllEmpty(u, TypeKeyword);
    FindAllEmpty(u, EnneagramKeyword);
  }
}
