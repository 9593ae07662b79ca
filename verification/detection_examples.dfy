/** Worked queries for the type detector: the filters the search page picks
    for a few concrete queries. */
module DetectionExamples {
  import opened Wrappers
  import opened Text
  import opened Detection

  /** Every MBTI code starts with I or E, then N or S, then T or F. */
  predicate CodeStartAt(u: string, p: int) {
    0 <= p && p + 3 <= |u| && u[p] in "IE" && u[p + 1] in "NS" && u[p + 2] in "TF"
  }

  lemma NoMbtiWithoutCodeStart(u: string)
    requires forall p :: 0 <= p && p + 3 <= |u| ==> !CodeStartAt(u, p)
    ensures NoMbti(u)
  {
    forall t | t in MbtiCodes ensures !Contains(u, t) {
      if Contains(u, t) {
        var p :| 0 <= p <= |u| - |t| && OccursAt(u, t, p);
        assert u[p..p + 4] == t;
        assert u[p] == t[0] && u[p + 1] == t[1] && u[p + 2] == t[2];
        assert CodeStartAt(u, p);
      }
    }
  }

  /** A four-letter code whose middle two letters never appear together in
      `u` does not occur in it. */
  lemma NoCodeWithoutMiddle(u: string, t: string)
    requires |t| == 4
    requires forall p :: 0 <= p && p + 2 <= |u| ==> !(u[p] == t[1] && u[p + 1] == t[2])
    ensures !Contains(u, t)
  {
    forall p | 0 <= p <= |u| - |t| ensures !OccursAt(u, t, p) {
      assert !(u[p + 1] == t[1] && u[p + 2] == t[2]);
      assert u[p..p + 4][1] == u[p + 1] && u[p..p + 4][2] == u[p + 2];
    }
  }

  // "advice for INFJ relationships" --> "INFJ"

  lemma InfjUpper()
    ensures ToUpper("advice for INFJ relationships") == "ADVICE FOR INFJ RELATIONSHIPS"
  {
  }

  lemma InfjQueryHasNoNT()
    ensures var u := "ADVICE FOR INFJ RELATIONSHIPS";
      forall p :: 0 <= p && p + 2 <= |u| ==> !(u[p] == 'N' && u[p + 1] == 'T')
  {
    var u := "ADVICE FOR INFJ RELATIONSHIPS";
    forall p | 0 <= p && p + 2 <= |u| ensures !(u[p] == 'N' && u[p + 1] == 'T') {
      if p < 7 { assert p == 0 || p == 1 || p == 2 || p == 3 || p == 4 || p == 5 || p == 6; }
      else if p < 14 { assert p == 7 || p == 8 || p == 9 || p == 10 || p == 11 || p == 12 || p == 13; }
      else if p < 21 { assert p == 14 || p == 15 || p == 16 || p == 17 || p == 18 || p == 19 || p == 20; }
      else { assert p == 21 || p == 22 || p == 23 || p == 24 || p == 25 || p == 26 || p == 27; }
    }
  }

  lemma InfjExample()
    ensures SelectFilter("advice for INFJ relationships") == Some("INFJ")
  {
    var u := "ADVICE FOR INFJ RELATIONSHIPS";
    InfjUpper();
    InfjQueryHasNoNT();
    forall j | 0 <= j < 4 ensures !Contains(u, MbtiCodes[j]) {
      NoCodeWithoutMiddle(u, MbtiCodes[j]);
    }
    assert OccursAt(u, "INFJ", 11);
    SelectFilterMbti("advice for INFJ relationships", 4);
  }

  // "entj or intj" --> "INTJ": list order, not position in the query

  lemma ListOrderExample()
    ensures SelectFilter("entj or intj") == Some("INTJ")
  {
    assert ToUpper("entj or intj") == "ENTJ OR INTJ";
    assert OccursAt("ENTJ OR INTJ", "INTJ", 8);
    SelectFilterMbti("entj or intj", 0);
  }

  // "type 4 enneagram wing 5" --> "Type 4"

  lemma TypeFourUpper()
    ensures ToUpper("type 4 enneagram wing 5") == "TYPE 4 ENNEAGRAM WING 5"
  {
  }

  lemma TypeFourQueryHasNoCode()
    ensures var u := "TYPE 4 ENNEAGRAM WING 5";
      forall p :: 0 <= p && p + 3 <= |u| ==> !CodeStartAt(u, p)
  {
    var u := "TYPE 4 ENNEAGRAM WING 5";
    forall p | 0 <= p && p + 3 <= |u| ensures !CodeStartAt(u, p) {
      if p < 5 { assert p == 0 || p == 1 || p == 2 || p == 3 || p == 4; }
      else if p < 10 { assert p == 5 || p == 6 || p == 7 || p == 8 || p == 9; }
      else if p < 15 { assert p == 10 || p == 11 || p == 12 || p == 13 || p == 14; }
      else { assert p == 15 || p == 16 || p == 17 || p == 18 || p == 19 || p == 20; }
    }
  }

  lemma TypeFourExample()
    ensures SelectFilter("type 4 enneagram wing 5") == Some("Type 4")
  {
    var u := "TYPE 4 ENNEAGRAM WING 5";
    TypeFourUpper();
    TypeFourQueryHasNoCode();
    NoMbtiWithoutCodeStart(u);
    assert OccursAt(u, TypeKeyword, 0);
    DigitAfterSpaces(u, TypeKeyword, 0, 5);
    assert LeftmostMatch(u, TypeKeyword, 0);
    assert EnneagramFilter("4") == "Type 4";
    SelectFilterType("type 4 enneagram wing 5", 0);
  }

  // "type one" --> "ONE": a spelled-out number is not mapped to its digit

  lemma TypeOneExample()
    ensures SelectFilter("type one") == Some("ONE")
  {
    var u := "TYPE ONE";
    assert ToUpper("type one") == u;
    forall p | 0 <= p && p + 3 <= |u| ensures !CodeStartAt(u, p) {
      assert p == 0 || p == 1 || p == 2 || p == 3 || p == 4 || p == 5;
    }
    NoMbtiWithoutCodeStart(u);
    assert OccursAt(u, TypeKeyword, 0);
    assert TokenAt(u, 5, "ONE");
    assert PatternMatch(u, TypeKeyword, 0, 5, "ONE");
    assert LeftmostMatch(u, TypeKeyword, 0);
    EnneagramFilterCases("ONE");
    SelectFilterType("type one", 0);
  }

  // Whitespace after the keyword is optional and unbounded; one digit is taken.

  lemma NoSpaceExample()
    ensures MatchAt("TYPE4", TypeKeyword, 0) == Some(Hit(0, "4", 5))
  {
    assert OccursAt("TYPE4", TypeKeyword, 0);
    DigitAfterSpaces("TYPE4", TypeKeyword, 0, 4);
  }

  lemma ManySpacesExample()
    ensures MatchAt("TYPE   4", TypeKeyword, 0) == Some(Hit(0, "4", 8))
  {
    assert OccursAt("TYPE   4", TypeKeyword, 0);
    DigitAfterSpaces("TYPE   4", TypeKeyword, 0, 7);
  }

  lemma TwoDigitExample()
    ensures MatchAt("TYPE 10", TypeKeyword, 0) == Some(Hit(0, "1", 6))
  {
    assert OccursAt("TYPE 10", TypeKeyword, 0);
    DigitAfterSpaces("TYPE 10", TypeKeyword, 0, 5);
  }
}
