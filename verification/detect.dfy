/**
 * The two keyword taggers (`detect_chapter`, `detect_region`). Each lower-cases the
 * page and tests a fixed list of phrases in a fixed order; the first hit decides the
 * label, and with no hit the label carried in from the previous page is kept.
 *
 * The detectors are written as the if-chains they are; beside them the same
 * priorities are written down as rule tables and evaluated by a generic
 * first-match-wins decision list, and the two are proved to agree.
 */
module Detect {
  import opened Wrappers
  import opened Text

  /** A group of surface forms that all stand for one label. */
  datatype Rule = Rule(keywords: seq<string>, name: string)

  const GlobalRegion: string := "Global"

  const ChapterLabels: set<string> := {"Global Economy", "Consumer Shifts", "Fashion System"}

  const RegionLabels: set<string> := {"Japan", "India", "United States", "China", "European Union"}

  /** The chapter phrases in priority order. */
  const ChapterRules: seq<Rule> := [
    Rule(["global economy"], "Global Economy"),
    Rule(["consumer shifts"], "Consumer Shifts"),
    Rule(["fashion system"], "Fashion System")
  ]

  /** The region keyword groups in priority order. */
  const RegionRules: seq<Rule> := [
    Rule(["japan"], "Japan"),
    Rule(["india"], "India"),
    Rule(["united states", "u.s.", " u.s ", " us "], "United States"),
    Rule(["china"], "China"),
    Rule(["european union", "eu ", " europe"], "European Union")
  ]

  /** `k1 in lower or k2 in lower or ...` */
  predicate AnyKeyword(lower: string, keywords: seq<string>) {
    keywords != [] && (Contains(lower, keywords[0]) || AnyKeyword(lower, keywords[1..]))
  }

  predicate Matches(rule: Rule, lower: string) {
    AnyKeyword(lower, rule.keywords)
  }

  /** The label of the first rule that matches, or `None` when none does. */
  function FirstMatch(rules: seq<Rule>, lower: string): Option<string> {
    if rules == [] then None
    else if Matches(rules[0], lower) then Some(rules[0].name)
    else FirstMatch(rules[1..], lower)
  }

  /** Rule `i` matches and no rule before it does. */
  predicate IsWinner(rules: seq<Rule>, lower: string, i: int) {
    0 <= i < |rules| && Matches(rules[i], lower) &&
    forall j :: 0 <= j < i ==> !Matches(rules[j], lower)
  }

  /** A keyword group matches exactly when one of its keywords occurs. */
  lemma {:induction false} AnyKeywordIff(lower: string, keywords: seq<string>)
    ensures AnyKeyword(lower, keywords) <==> exists i :: 0 <= i < |keywords| && Contains(lower, keywords[i])
    decreases |keywords|
  {
    if keywords != [] {
      AnyKeywordIff(lower, keywords[1..]);
      if exists i :: 0 <= i < |keywords| && Contains(lower, keywords[i]) {
        var i :| 0 <= i < |keywords| && Contains(lower, keywords[i]);
        if i > 0 {
          assert keywords[1..][i - 1] == keywords[i];
        }
      }
    }
  }

  lemma SingleKeyword(lower: string, keyword: string)
    ensures AnyKeyword(lower, [keyword]) == Contains(lower, keyword)
  {
    assert [keyword][1..] == [];
  }

  /** No label comes out exactly when no rule matches. */
  lemma {:induction false} FirstMatchNone(rules: seq<Rule>, lower: string)
    ensures FirstMatch(rules, lower) == None <==> forall i :: 0 <= i < |rules| ==> !Matches(rules[i], lower)
    decreases |rules|
  {
    if rules != [] {
      FirstMatchNone(rules[1..], lower);
      if !Matches(rules[0], lower) && forall i :: 0 <= i < |rules[1..]| ==> !Matches(rules[1..][i], lower) {
        forall i | 0 <= i < |rules| ensures !Matches(rules[i], lower) {
          if i > 0 { assert rules[i] == rules[1..][i - 1]; }
        }
      }
    }
  }

  /** The first matching rule decides, whatever later rules also match. */
  lemma {:induction false} FirstMatchWinner(rules: seq<Rule>, lower: string, i: int)
    requires IsWinner(rules, lower, i)
    ensures FirstMatch(rules, lower) == Some(rules[i].name)
    decreases |rules|
  {
    if i > 0 {
      assert !Matches(rules[0], lower);
      assert IsWinner(rules[1..], lower, i - 1) by {
        forall j | 0 <= j < i - 1 ensures !Matches(rules[1..][j], lower) {
          assert rules[1..][j] == rules[j + 1];
        }
      }
      FirstMatchWinner(rules[1..], lower, i - 1);
    }
  }

  /** Any label that comes out is the label of the winning rule. */
  lemma {:induction false} FirstMatchSome(rules: seq<Rule>, lower: string)
    requires FirstMatch(rules, lower).Some?
    ensures exists i :: IsWinner(rules, lower, i) && rules[i].name == FirstMatch(rules, lower).value
    decreases |rules|
  {
    if Matches(rules[0], lower) {
      assert IsWinner(rules, lower, 0);
    } else {
      FirstMatchSome(rules[1..], lower);
      var i :| IsWinner(rules[1..], lower, i) && rules[1..][i].name == FirstMatch(rules[1..], lower).value;
      forall j | 0 <= j < i + 1 ensures !Matches(rules[j], lower) {
        if j > 0 { assert rules[j] == rules[1..][j - 1]; }
      }
      assert IsWinner(rules, lower, i + 1);
    }
  }

  /** `detect_chapter`: the first chapter phrase in `text.lower()`, or the current chapter. */
  function DetectChapter(text: string, current: Option<string>): (r: Option<string>)
    ensures r == current || (r.Some? && r.value in ChapterLabels)
  {
    var lower := Lower(text);
    if Contains(lower, "global economy") then Some("Global Economy")
    else if Contains(lower, "consumer shifts") then Some("Consumer Shifts")
    else if Contains(lower, "fashion system") then Some("Fashion System")
    else current
  }

  /**
   * `detect_region`: the label of the first keyword group found in `text.lower()`;
   * with none, `current_region or "Global"`, so an absent or empty current region
   * falls back to "Global".
   */
  function DetectRegion(text: string, current: Option<string>): (r: string)
    ensures r != ""
    ensures r in RegionLabels || r == GlobalRegion || current == Some(r)
  {
    var lower := Lower(text);
    if Contains(lower, "japan") then "Japan"
    else if Contains(lower, "india") then "India"
    else if Contains(lower, "united states") || Contains(lower, "u.s.") || Contains(lower, " u.s ") || Contains(lower, " us ") then "United States"
    else if Contains(lower, "china") then "China"
    else if Contains(lower, "european union") || Contains(lower, "eu ") || Contains(lower, " europe") then "European Union"
    else if current.Some? && current.value != "" then current.value
    else GlobalRegion
  }

  /** The chapter a page announces on its own, if any. */
  function ChapterSignal(text: string): Option<string> {
    FirstMatch(ChapterRules, Lower(text))
  }

  /** The region a page names on its own, if any. */
  function RegionSignal(text: string): Option<string> {
    FirstMatch(RegionRules, Lower(text))
  }

  /** `detect_chapter` is the chapter rule table evaluated first-match-wins, with carry-forward when nothing matches. */
  lemma ChapterAsDecisionList(text: string, current: Option<string>)
    ensures DetectChapter(text, current) == if ChapterSignal(text).Some? then ChapterSignal(text) else current
  {
    var lower := Lower(text);
    var rules := ChapterRules;
    SingleKeyword(lower, "global economy");
    SingleKeyword(lower, "consumer shifts");
    SingleKeyword(lower, "fashion system");
    assert rules[1..] == [rules[1], rules[2]] && rules[1..][1..] == [rules[2]] && rules[1..][1..][1..] == [];
    assert FirstMatch(rules[1..][1..][1..], lower) == None;
    assert rules[0].keywords == ["global economy"];
    assert Matches(rules[0], lower) == Contains(lower, "global economy");
    assert Matches(rules[1], lower) == Contains(lower, "consumer shifts");
    assert Matches(rules[2], lower) == Contains(lower, "fashion system");
    assert FirstMatch(rules[1..][1..], lower) == if Contains(lower, "fashion system") then Some("Fashion System") else None;
    assert FirstMatch(rules[1..], lower) == if Contains(lower, "consumer shifts") then Some("Consumer Shifts") else FirstMatch(rules[1..][1..], lower);
    assert FirstMatch(rules, lower) == if Contains(lower, "global economy") then Some("Global Economy") else FirstMatch(rules[1..], lower);
  }

  /** Each region rule matches exactly when the source's condition for that label holds. */
  lemma RegionRulesMatch(lower: string)
    ensures Matches(RegionRules[0], lower) == Contains(lower, "japan")
    ensures Matches(RegionRules[1], lower) == Contains(lower, "india")
    ensures Matches(RegionRules[2], lower) ==
      (Contains(lower, "united states") || Contains(lower, "u.s.") || Contains(lower, " u.s ") || Contains(lower, " us "))
    ensures Matches(RegionRules[3], lower) == Contains(lower, "china")
    ensures Matches(RegionRules[4], lower) ==
      (Contains(lower, "european union") || Contains(lower, "eu ") || Contains(lower, " europe"))
  {
    var rules := RegionRules;
    SingleKeyword(lower, "japan");
    SingleKeyword(lower, "india");
    SingleKeyword(lower, "china");
    SingleKeyword(lower, " us ");
    SingleKeyword(lower, " europe");
    var us := ["united states", "u.s.", " u.s ", " us "];
    assert us[1..] == ["u.s.", " u.s ", " us "] && us[1..][1..] == [" u.s ", " us "] && us[1..][1..][1..] == [" us "];
    var eu := ["european union", "eu ", " europe"];
    assert eu[1..] == ["eu ", " europe"] && eu[1..][1..] == [" europe"];
    assert rules[0].keywords == ["japan"] && rules[1].keywords == ["india"] && rules[3].keywords == ["china"];
    assert rules[2].keywords == us && rules[4].keywords == eu;
    assert AnyKeyword(lower, us[1..][1..]) == (Contains(lower, " u.s ") || Contains(lower, " us "));
    assert AnyKeyword(lower, us[1..]) == (Contains(lower, "u.s.") || Contains(lower, " u.s ") || Contains(lower, " us "));
    assert AnyKeyword(lower, eu[1..]) == (Contains(lower, "eu ") || Contains(lower, " europe"));
  }

  /**
   * `detect_region` is the region rule table evaluated first-match-wins; with nothing
   * matching it keeps a non-empty current region and otherwise falls back to "Global".
   */
  lemma RegionAsDecisionList(text: string, current: Option<string>)
    ensures DetectRegion(text, current) ==
      if RegionSignal(text).Some? then RegionSignal(text).value
      else if current.Some? && current.value != "" then current.value
      else GlobalRegion
  {
    var lower := Lower(text);
    var rules := RegionRules;
    RegionRulesMatch(lower);
    assert rules[1..] == [rules[1], rules[2], rules[3], rules[4]];
    assert rules[1..][1..] == [rules[2], rules[3], rules[4]];
    assert rules[1..][1..][1..] == [rules[3], rules[4]];
    assert rules[1..][1..][1..][1..] == [rules[4]];
    assert rules[1..][1..][1..][1..][1..] == [];
    var r4 := FirstMatch(rules[1..][1..][1..][1..], lower);
    var r3 := FirstMatch(rules[1..][1..][1..], lower);
    var r2 := FirstMatch(rules[1..][1..], lower);
    var r1 := FirstMatch(rules[1..], lower);
    assert FirstMatch(rules[1..][1..][1..][1..][1..], lower) == None;
    assert rules[4].name == "European Union" && rules[3].name == "China" && rules[2].name == "United States";
    assert rules[1].name == "India" && rules[0].name == "Japan";
    assert r4 == if Matches(rules[4], lower) then Some("European Union") else None;
    assert r3 == if Matches(rules[3], lower) then Some("China") else r4;
    assert r2 == if Matches(rules[2], lower) then Some("United States") else r3;
    assert r1 == if Matches(rules[1], lower) then Some("India") else r2;
    assert FirstMatch(rules, lower) == if Matches(rules[0], lower) then Some("Japan") else r1;
  }

  /** The chapter of the winning phrase is returned, whatever phrases of lower priority also occur. */
  lemma ChapterPriority(text: string, current: Option<string>, i: int)
    requires IsWinner(ChapterRules, Lower(text), i)
    ensures DetectChapter(text, current) == Some(ChapterRules[i].name)
  {
    FirstMatchWinner(ChapterRules, Lower(text), i);
    ChapterAsDecisionList(text, current);
  }

  /** The region of the winning keyword group is returned, whatever groups of lower priority also match. */
  lemma RegionPriority(text: string, current: Option<string>, i: int)
    requires IsWinner(RegionRules, Lower(text), i)
    ensures DetectRegion(text, current) == RegionRules[i].name
  {
    FirstMatchWinner(RegionRules, Lower(text), i);
    RegionAsDecisionList(text, current);
  }

  /** With none of the three phrases in the lower-cased page, the current chapter is carried forward unchanged. */
  lemma ChapterCarryForward(text: string, current: Option<string>)
    requires forall i :: 0 <= i < |ChapterRules| ==> !Matches(ChapterRules[i], Lower(text))
    ensures DetectChapter(text, current) == current
  {
    FirstMatchNone(ChapterRules, Lower(text));
    ChapterAsDecisionList(text, current);
  }

  /** With no region keyword, a non-empty current region is kept and an absent or empty one becomes "Global". */
  lemma RegionCarryForward(text: string, current: Option<string>)
    requires forall i :: 0 <= i < |RegionRules| ==> !Matches(RegionRules[i], Lower(text))
    ensures current.Some? && current.value != "" ==> DetectRegion(text, current) == current.value
    ensures current == None || current == Some("") ==> DetectRegion(text, current) == GlobalRegion
  {
    FirstMatchNone(RegionRules, Lower(text));
    RegionAsDecisionList(text, current);
  }

  /** Matching is case-insensitive: the page and its lower-cased form get the same chapter and region. */
  lemma CaseInsensitive(text: string, chapter: Option<string>, region: Option<string>)
    ensures DetectChapter(Lower(text), chapter) == DetectChapter(text, chapter)
    ensures DetectRegion(Lower(text), region) == DetectRegion(text, region)
  {
    LowerIdempotent(text);
  }

  /** Running a detector a second time on the same page changes nothing. */
  lemma ChapterIdempotent(text: string, current: Option<string>)
    ensures DetectChapter(text, DetectChapter(text, current)) == DetectChapter(text, current)
  {
  }

  lemma RegionIdempotent(text: string, current: Option<string>)
    ensures DetectRegion(text, Some(DetectRegion(text, current))) == DetectRegion(text, current)
  {
  }

  lemma JapanPageLowered()
    ensures Lower("Japan: Consumer Shifts") == "japan: consumer shifts"
  {
    LowerPointwise("Japan: Consumer Shifts", "japan: consumer shifts");
  }

  lemma JapanPageHasNoGlobalEconomy()
    ensures !Contains("japan: consumer shifts", "global economy")
  {
    NotContainsFirstChar("japan: consumer shifts", "global economy");
  }

  lemma JapanPagePhrases()
    ensures Contains("japan: consumer shifts", "consumer shifts")
    ensures Contains("japan: consumer shifts", "japan")
  {
    var lower := "japan: consumer shifts";
    assert lower[7..22] == "consumer shifts";
    ContainsAt(lower, "consumer shifts", 7);
    assert lower[0..5] == "japan";
    ContainsAt(lower, "japan", 0);
  }

  /** A page naming Japan and "Consumer Shifts", in any case, is tagged Consumer Shifts and Japan. */
  lemma JapanConsumerShiftsExample(current: Option<string>, region: Option<string>)
    ensures DetectChapter("Japan: Consumer Shifts", current) == Some("Consumer Shifts")
    ensures DetectRegion("Japan: Consumer Shifts", region) == "Japan"
  {
    JapanPageLowered();
    JapanPageHasNoGlobalEconomy();
    JapanPagePhrases();
  }

  lemma TieBreakPageLowered()
    ensures Lower("GLOBAL ECONOMY and Consumer Shifts") == "global economy and consumer shifts"
  {
    LowerPointwise("GLOBAL ECONOMY and Consumer Shifts", "global economy and consumer shifts");
  }

  lemma TieBreakPagePhrases()
    ensures Contains("global economy and consumer shifts", "global economy")
    ensures Contains("global economy and consumer shifts", "consumer shifts")
  {
    var lower := "global economy and consumer shifts";
    assert lower[0..14] == "global economy";
    ContainsAt(lower, "global economy", 0);
    assert lower[19..34] == "consumer shifts";
    ContainsAt(lower, "consumer shifts", 19);
  }

  /** With both phrases on one page, "global economy" wins over "consumer shifts". */
  lemma TieBreakExample(current: Option<string>)
    ensures DetectChapter("GLOBAL ECONOMY and Consumer Shifts", current) == Some("Global Economy")
  {
    TieBreakPageLowered();
    TieBreakPagePhrases();
  }
}
