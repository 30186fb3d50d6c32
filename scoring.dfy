/**
 * The scoring engine of the mentor-matching service: four bounded component
 * scores, the ordered list of reasons that explains them, and their rounded sum.
 * Every function here is total: absent data (a null list, an undefined or empty
 * string) is modelled as the empty list or the empty string and contributes 0.
 */
module Scoring {
  import opened Wrappers
  import opened Seqs
  import opened Text

  /** A row of `user_profiles` as the service reads it for a mentor. */
  datatype MentorProfile = MentorProfile(
    id: string,
    fullName: string,
    bio: string,
    title: string,
    organization: string,
    location: string,
    photoUrl: Option<string>,
    linkedinUrl: Option<string>,
    yearsExperience: int,
    advisoryExperience: bool,
    sectors: seq<string>,
    expertise: seq<string>,
    stagePreference: seq<string>,
    availabilityHoursMonth: int,
    ratePerHour: int,
    proBono: bool,
    preferredMentorshipMode: string,
    profileVisibility: bool,
    role: string,
    onboardingCompleted: bool)

  /** A founder's row of `startup_profiles`. */
  datatype StartupProfile = StartupProfile(
    startupName: string,
    sector: string,
    stage: string,
    location: string,
    mentorshipAreas: seq<string>)

  /** One scored mentor: the mentor unchanged, the rounded score and the reasons. */
  datatype MatchScore = MatchScore(mentor: MentorProfile, score: int, matchReasons: seq<string>)

  // ---------------------------------------------------------------------------
  // Component scores

  /** 40 when the founder's sector is one the mentor covers, otherwise 0. */
  function SectorScore(mentorSectors: seq<string>, founderSector: string): (r: real)
    ensures r == 40.0 || r == 0.0
    ensures r == 40.0 <==> founderSector != "" && founderSector in mentorSectors
  {
    if founderSector == "" then 0.0
    else if founderSector in mentorSectors then 40.0
    else 0.0
  }

  /** 25 when the founder's stage is one the mentor prefers, otherwise 0. */
  function StageScore(mentorStages: seq<string>, founderStage: string): (r: real)
    ensures r == 25.0 || r == 0.0
    ensures r == 25.0 <==> founderStage != "" && founderStage in mentorStages
  {
    if founderStage == "" then 0.0
    else if founderStage in mentorStages then 25.0
    else 0.0
  }

  /** The mentor's expertise entries that the founder asked for, in the mentor's order. */
  function Overlap(mentorExpertise: seq<string>, founderNeeds: seq<string>): (r: seq<string>)
    ensures |r| <= |mentorExpertise|
    ensures forall x :: x in r <==> x in mentorExpertise && x in founderNeeds
    ensures forall x {:trigger multiset(r)[x]} :: multiset(r)[x] == if x in founderNeeds then multiset(mentorExpertise)[x] else 0
  {
    FilterSpec(mentorExpertise, (e: string) => e in founderNeeds);
    Filter(mentorExpertise, (e: string) => e in founderNeeds)
  }

  /** 30 times the number of overlapping entries over the number of needs (at least 1). */
  function ExpertiseScore(mentorExpertise: seq<string>, founderNeeds: seq<string>): (r: real)
    ensures 0.0 <= r
    ensures founderNeeds == [] ==> r == 0.0
    ensures Overlap(mentorExpertise, founderNeeds) == [] ==> r == 0.0
  {
    var denominator := if |founderNeeds| > 1 then |founderNeeds| else 1;
    assert founderNeeds == [] ==> Overlap(mentorExpertise, founderNeeds) == [] by {
      if founderNeeds == [] {
        FilterNone(mentorExpertise, (e: string) => e in founderNeeds);
      }
    }
    (|Overlap(mentorExpertise, founderNeeds)| as real / denominator as real) * 30.0
  }

  /** With a duplicate-free expertise list the expertise score never exceeds 30. */
  lemma ExpertiseScoreAtMost30(mentorExpertise: seq<string>, founderNeeds: seq<string>)
    requires Distinct(mentorExpertise)
    ensures ExpertiseScore(mentorExpertise, founderNeeds) <= 30.0
  {
    var o := Overlap(mentorExpertise, founderNeeds);
    FilterDistinct(mentorExpertise, (e: string) => e in founderNeeds);
    ElemsCard(o);
    ElemsCard(founderNeeds);
    assert Elems(o) <= Elems(founderNeeds);
    SubsetCard(Elems(o), Elems(founderNeeds));
    FractionAtMostOne(|o|, |founderNeeds|);
  }

  /**
   * A mentor who covers every need scores the full 30, provided neither list
   * repeats an entry and the founder named at least one need.
   */
  lemma ExpertiseScoreFullCoverage(mentorExpertise: seq<string>, founderNeeds: seq<string>)
    requires Distinct(mentorExpertise) && Distinct(founderNeeds)
    requires founderNeeds != []
    requires forall n :: n in founderNeeds ==> n in mentorExpertise
    ensures ExpertiseScore(mentorExpertise, founderNeeds) == 30.0
  {
    var o := Overlap(mentorExpertise, founderNeeds);
    FilterDistinct(mentorExpertise, (e: string) => e in founderNeeds);
    ElemsCard(o);
    ElemsCard(founderNeeds);
    assert Elems(o) == Elems(founderNeeds);
    assert |o| == |founderNeeds|;
    FullShare(|founderNeeds|);
  }

  lemma FullShare(n: nat)
    requires n > 0
    ensures (n as real / (if n > 1 then n else 1) as real) * 30.0 == 30.0
  {
    assert (if n > 1 then n else 1) == n;
    assert n as real / n as real == 1.0;
  }

  lemma ShareOfThirty(k: nat, n: nat)
    requires (k as real / (if n > 1 then n else 1) as real) * 30.0 == 30.0
    ensures k == (if n > 1 then n else 1)
  {
    var d := (if n > 1 then n else 1) as real;
    assert k as real / d == 1.0;
  }

  /**
   * Conversely, a full 30 means the founder named at least one need and the
   * mentor covers every one of them (for a duplicate-free expertise list).
   */
  lemma ExpertiseScoreThirtyMeansCovered(mentorExpertise: seq<string>, founderNeeds: seq<string>)
    requires Distinct(mentorExpertise)
    requires ExpertiseScore(mentorExpertise, founderNeeds) == 30.0
    ensures founderNeeds != []
    ensures forall n :: n in founderNeeds ==> n in mentorExpertise
  {
    var o := Overlap(mentorExpertise, founderNeeds);
    assert founderNeeds != [];
    ShareOfThirty(|o|, |founderNeeds|);
    FilterDistinct(mentorExpertise, (e: string) => e in founderNeeds);
    ElemsCard(o);
    ElemsCard(founderNeeds);
    assert Elems(o) <= Elems(founderNeeds);
    SubsetCard(Elems(o), Elems(founderNeeds));
    SameCardSubset(Elems(o), Elems(founderNeeds));
    forall n | n in founderNeeds
      ensures n in mentorExpertise
    {
      assert n in Elems(founderNeeds);
      assert n in Elems(o);
    }
  }

  lemma SameCardSubset<T>(a: set<T>, b: set<T>)
    requires a <= b && |a| >= |b|
    ensures a == b
  {
    assert b == a + (b - a);
    assert |b - a| == 0;
  }

  /** The expertise score counts repeated expertise entries: the bound needs distinct lists. */
  lemma ExpertiseScoreCountsRepeats()
    ensures ExpertiseScore(["Sales", "Sales"], ["Sales"]) == 60.0
    ensures ExpertiseScore(["Sales"], ["Sales", "Sales"]) == 15.0
  {
    var p := (e: string) => e in ["Sales"];
    assert ["Sales", "Sales"][1..] == ["Sales"];
    assert Filter(["Sales"], p) == ["Sales"];
    assert Overlap(["Sales", "Sales"], ["Sales"]) == ["Sales", "Sales"];
    assert Overlap(["Sales"], ["Sales", "Sales"]) == ["Sales"];
  }

  lemma SubsetCard<T>(a: set<T>, b: set<T>)
    requires a <= b
    ensures |a| <= |b|
  {
    assert b == a + (b - a);
  }

  lemma FractionAtMostOne(k: nat, n: nat)
    requires k <= n
    ensures (k as real / (if n > 1 then n else 1) as real) * 30.0 <= 30.0
  {
    var d := if n > 1 then n else 1;
    assert k as real <= d as real || k == 0;
  }

  lemma DivideMonotone(a: real, b: real, d: real)
    requires a <= b && d > 0.0
    ensures a / d <= b / d
  {
    assert b / d - a / d == (b - a) / d;
  }

  /** The country part of a location: the trimmed text after its last comma. */
  function Country(location: string): (r: string)
    ensures ',' !in r
    ensures r == [] || (!IsWhiteSpace(r[0]) && !IsWhiteSpace(r[|r| - 1]))
  {
    var segment := LastSegment(location);
    TrimSpec(segment);
    LastSegmentSpec(location);
    TrimKeepsOut(segment, ',');
    Trim(segment)
  }

  const EastAfrica: seq<string> := ["Kenya", "Uganda", "Tanzania", "Rwanda", "Burundi"]
  const WestAfrica: seq<string> := ["Nigeria", "Ghana", "Senegal", "Ivory Coast"]
  const SouthernAfrica: seq<string> := ["South Africa", "Zambia", "Zimbabwe", "Botswana"]

  /** Both countries belong to the same one of the three regional lists. */
  predicate InSameRegion(a: string, b: string)
  {
    (a in EastAfrica && b in EastAfrica)
    || (a in WestAfrica && b in WestAfrica)
    || (a in SouthernAfrica && b in SouthernAfrica)
  }

  /**
   * Tiered location score, first tier that applies: identical locations 15,
   * same country 10, same region 5, otherwise (or when either is empty) 0.
   */
  function LocationScore(mentorLocation: string, founderLocation: string): (r: real)
    ensures r == 0.0 || r == 5.0 || r == 10.0 || r == 15.0
  {
    if mentorLocation == "" || founderLocation == "" then 0.0
    else if mentorLocation == founderLocation then 15.0
    else if Country(mentorLocation) == Country(founderLocation) then 10.0
    else if InSameRegion(Country(mentorLocation), Country(founderLocation)) then 5.0
    else 0.0
  }

  /** Which tier each location score stands for; an identical location outranks every other tier. */
  lemma LocationTiers(m: string, f: string)
    ensures LocationScore(m, f) == 15.0 <==> m != "" && m == f
    ensures LocationScore(m, f) >= 10.0 <==> m != "" && f != "" && Country(m) == Country(f)
    ensures LocationScore(m, f) == 5.0
        <==> m != "" && f != "" && Country(m) != Country(f) && InSameRegion(Country(m), Country(f))
    ensures LocationScore(m, f) == 0.0
        <==> m == "" || f == "" || (Country(m) != Country(f) && !InSameRegion(Country(m), Country(f)))
  {
  }

  /** A comma-free segment after the last comma is what `split(',').pop()` yields. */
  lemma {:induction false} LastSegmentAfterComma(prefix: string, segment: string)
    requires ',' !in segment
    ensures LastSegment(prefix + "," + segment) == segment
  {
    var s := prefix + "," + segment;
    if segment == [] {
      assert s[|s| - 1] == ',';
    } else {
      var shorter := segment[..|segment| - 1];
      assert s[..|s| - 1] == prefix + "," + shorter;
      assert s[|s| - 1] == segment[|segment| - 1];
      LastSegmentAfterComma(prefix, shorter);
      assert shorter + [segment[|segment| - 1]] == segment;
    }
  }

  /** "City, Country" has the country `Country` names, whatever the city. */
  lemma CountryOfCityAndCountry(city: string, country: string)
    requires country != [] && ',' !in country
    requires !IsWhiteSpace(country[0]) && !IsWhiteSpace(country[|country| - 1])
    ensures Country(city + ", " + country) == country
  {
    assert city + ", " + country == city + "," + (" " + country);
    LastSegmentAfterComma(city, " " + country);
    var padded := " " + country;
    assert TrimEnd(padded) == padded;
    assert padded[1..] == country;
    assert TrimStart(padded) == TrimStart(country);
  }

  /** Two different cities in one country score the country tier. */
  lemma SameCountryScoresTen(city1: string, city2: string, country: string)
    requires city1 != city2
    requires country != [] && ',' !in country
    requires !IsWhiteSpace(country[0]) && !IsWhiteSpace(country[|country| - 1])
    ensures LocationScore(city1 + ", " + country, city2 + ", " + country) == 10.0
  {
    CountryOfCityAndCountry(city1, country);
    CountryOfCityAndCountry(city2, country);
    assert (city1 + ", " + country)[..|city1|] == city1;
    assert (city2 + ", " + country)[..|city2|] == city2;
    if |city1| == |city2| {
      assert city1 + ", " + country != city2 + ", " + country;
    } else {
      assert |city1 + ", " + country| != |city2 + ", " + country|;
    }
  }

  // ---------------------------------------------------------------------------
  // Reasons

  /** The display label of a stage, falling back to the raw stage. */
  function StageLabel(stage: string): (r: string)
    ensures r == stage <==> stage !in ["idea", "mvp", "growth", "scale"]
  {
    if stage == "idea" then "Idea Stage"
    else if stage == "mvp" then "Early Stage"
    else if stage == "growth" then "Growth Stage"
    else if stage == "scale" then "Scaling Stage"
    else stage
  }

  /** `areas.slice(0, 2).join(' and ')`. */
  function JoinFirstTwo(areas: seq<string>): string
  {
    if |areas| == 0 then ""
    else if |areas| == 1 then areas[0]
    else areas[0] + " and " + areas[1]
  }

  /** Only the first two matched areas are named. */
  lemma JoinFirstTwoIgnoresRest(areas: seq<string>, more: seq<string>)
    requires |areas| >= 2
    ensures JoinFirstTwo(areas + more) == areas[0] + " and " + areas[1]
  {
  }

  function SectorReason(sector: string): string { "Expert in " + sector }
  function StageReason(stage: string): string { "Experienced with " + StageLabel(stage) + " startups" }
  function HelpReason(areas: seq<string>): string { "Can help with " + JoinFirstTwo(areas) }
  function LocationReason(location: string): string { "Based in " + Country(location) }
  const AdvisorReason: string := "Experienced advisor and investor"
  const ProBonoReason: string := "Offers pro bono sessions"
  function YearsReason(years: nat): string { DecimalString(years) + "+ years of experience" }

  /** `[x]` when `b` holds, else nothing: one optional `push`. */
  function When(b: bool, x: string): seq<string>
  {
    if b then [x] else []
  }

  /**
   * The reasons the rule list produces, in rule order: sector, stage,
   * expertise (over half the weight and a non-empty overlap), location
   * (country tier or better), advisory, pro bono, ten or more years.
   */
  function Reasons(mentor: MentorProfile, startup: StartupProfile,
                   sectorScore: real, stageScore: real, expertiseScore: real, locationScore: real): (r: seq<string>)
    ensures |r| <= 7
  {
    var areas := Overlap(mentor.expertise, startup.mentorshipAreas);
    When(sectorScore > 0.0, SectorReason(startup.sector))
    + When(stageScore > 0.0, StageReason(startup.stage))
    + When(expertiseScore > 15.0 && |areas| > 0, HelpReason(areas))
    + When(locationScore >= 10.0, LocationReason(mentor.location))
    + When(mentor.advisoryExperience, AdvisorReason)
    + When(mentor.proBono, ProBonoReason)
    + When(mentor.yearsExperience >= 10, YearsReason(if mentor.yearsExperience >= 0 then mentor.yearsExperience else 0))
  }

  /** `getMatchReasons`: builds the list by successive pushes. */
  method GetMatchReasons(mentor: MentorProfile, startup: StartupProfile,
                         sectorScore: real, stageScore: real, expertiseScore: real, locationScore: real)
    returns (reasons: seq<string>)
    ensures reasons == Reasons(mentor, startup, sectorScore, stageScore, expertiseScore, locationScore)
  {
    ghost var areas := Overlap(mentor.expertise, startup.mentorshipAreas);
    ghost var w1 := When(sectorScore > 0.0, SectorReason(startup.sector));
    ghost var w2 := When(stageScore > 0.0, StageReason(startup.stage));
    ghost var w3 := When(expertiseScore > 15.0 && |areas| > 0, HelpReason(areas));
    ghost var w4 := When(locationScore >= 10.0, LocationReason(mentor.location));
    ghost var w5 := When(mentor.advisoryExperience, AdvisorReason);
    ghost var w6 := When(mentor.proBono, ProBonoReason);
    ghost var w7 := When(mentor.yearsExperience >= 10,
                         YearsReason(if mentor.yearsExperience >= 0 then mentor.yearsExperience else 0));
    ReasonsAsParts(mentor, startup, sectorScore, stageScore, expertiseScore, locationScore);

    reasons := [];
    if sectorScore > 0.0 {
      reasons := reasons + [SectorReason(startup.sector)];
    }
    assert reasons == w1;
    ghost var pushed := reasons;
    if stageScore > 0.0 {
      reasons := reasons + [StageReason(startup.stage)];
    }
    PushWhen(pushed, stageScore > 0.0, StageReason(startup.stage));
    assert reasons == w1 + w2;
    pushed := reasons;
    if expertiseScore > 15.0 {
      var matchingAreas := Overlap(mentor.expertise, startup.mentorshipAreas);
      if |matchingAreas| > 0 {
        reasons := reasons + [HelpReason(matchingAreas)];
      }
    }
    PushWhen(pushed, expertiseScore > 15.0 && |areas| > 0, HelpReason(areas));
    assert reasons == w1 + w2 + w3;
    pushed := reasons;
    if locationScore >= 10.0 {
      reasons := reasons + [LocationReason(mentor.location)];
    }
    PushWhen(pushed, locationScore >= 10.0, LocationReason(mentor.location));
    assert reasons == w1 + w2 + w3 + w4;
    pushed := reasons;
    if mentor.advisoryExperience {
      reasons := reasons + [AdvisorReason];
    }
    PushWhen(pushed, mentor.advisoryExperience, AdvisorReason);
    assert reasons == w1 + w2 + w3 + w4 + w5;
    pushed := reasons;
    if mentor.proBono {
      reasons := reasons + [ProBonoReason];
    }
    PushWhen(pushed, mentor.proBono, ProBonoReason);
    assert reasons == w1 + w2 + w3 + w4 + w5 + w6;
    pushed := reasons;
    if mentor.yearsExperience >= 10 {
      reasons := reasons + [YearsReason(mentor.yearsExperience)];
    }
    PushWhen(pushed, mentor.yearsExperience >= 10,
             YearsReason(if mentor.yearsExperience >= 0 then mentor.yearsExperience else 0));
  }

  /** One optional push is an append of `When`. */
  lemma PushWhen(before: seq<string>, b: bool, x: string)
    ensures before + When(b, x) == if b then before + [x] else before
  {
    if !b {
      assert before + [] == before;
    }
  }

  /**
   * The rule (1 to 7) a reason's fixed wording belongs to: sector, stage,
   * expertise, location, advisory, pro bono, years; 0 for other text.
   */
  function RuleOf(x: string): int
  {
    if |x| == 0 then 0
    else if x[0] == 'C' then 3
    else if x[0] == 'B' then 4
    else if x[0] == 'O' then 6
    else if IsDigit(x[0]) then 7
    else if x[0] == 'E' && |x| > 5 && x[5] == 't' then 1
    else if x[0] == 'E' && |x| > 12 && x[12] == 'w' then 2
    else if x[0] == 'E' && |x| > 12 && x[12] == 'a' then 5
    else 0
  }

  /** Each reason's wording identifies the rule that produced it, so reasons of different rules differ. */
  lemma ReasonWordingIdentifiesRule(sector: string, stage: string, areas: seq<string>, location: string, years: nat)
    ensures RuleOf(SectorReason(sector)) == 1
    ensures RuleOf(StageReason(stage)) == 2
    ensures RuleOf(HelpReason(areas)) == 3
    ensures RuleOf(LocationReason(location)) == 4
    ensures RuleOf(AdvisorReason) == 5
    ensures RuleOf(ProBonoReason) == 6
    ensures RuleOf(YearsReason(years)) == 7
  {
    ScoreRuleWording(sector, stage, areas, location);
    ProfileRuleWording(years);
  }

  lemma ScoreRuleWording(sector: string, stage: string, areas: seq<string>, location: string)
    ensures RuleOf(SectorReason(sector)) == 1
    ensures RuleOf(StageReason(stage)) == 2
    ensures RuleOf(HelpReason(areas)) == 3
    ensures RuleOf(LocationReason(location)) == 4
  {
    var e := "Expert in ";
    assert SectorReason(sector)[0] == e[0] && SectorReason(sector)[5] == e[5];
    var st := "Experienced with ";
    assert StageReason(stage)[0] == st[0] && StageReason(stage)[5] == st[5] && StageReason(stage)[12] == st[12];
    assert HelpReason(areas)[0] == 'C';
    assert LocationReason(location)[0] == 'B';
  }

  lemma ProfileRuleWording(years: nat)
    ensures RuleOf(AdvisorReason) == 5
    ensures RuleOf(ProBonoReason) == 6
    ensures RuleOf(YearsReason(years)) == 7
  {
    DecimalStringSpec(years);
    assert YearsReason(years)[0] == DecimalString(years)[0];
  }

  /** At most one reason per rule, so at most seven; the sector reason comes first and the years reason last. */
  lemma ReasonsShape(mentor: MentorProfile, startup: StartupProfile,
                     sectorScore: real, stageScore: real, expertiseScore: real, locationScore: real)
    ensures var r := Reasons(mentor, startup, sectorScore, stageScore, expertiseScore, locationScore);
      && |r| <= 7
      && (sectorScore > 0.0 ==> r[0] == SectorReason(startup.sector))
      && (mentor.yearsExperience >= 10 ==> r[|r| - 1] == YearsReason(mentor.yearsExperience))
  {
  }

  /** The first four reasons are present exactly when their score clears the rule's threshold. */
  lemma ReasonsFollowScores(mentor: MentorProfile, startup: StartupProfile,
                            sectorScore: real, stageScore: real, expertiseScore: real, locationScore: real)
    ensures var r := Reasons(mentor, startup, sectorScore, stageScore, expertiseScore, locationScore);
      var areas := Overlap(mentor.expertise, startup.mentorshipAreas);
      && (SectorReason(startup.sector) in r <==> sectorScore > 0.0)
      && (StageReason(startup.stage) in r <==> stageScore > 0.0)
      && (HelpReason(areas) in r <==> expertiseScore > 15.0 && areas != [])
      && (LocationReason(mentor.location) in r <==> locationScore >= 10.0)
  {
    var years: nat := if mentor.yearsExperience >= 0 then mentor.yearsExperience else 0;
    var areas := Overlap(mentor.expertise, startup.mentorshipAreas);
    ReasonWordingIdentifiesRule(startup.sector, startup.stage, areas, mentor.location, years);
    ReasonsMembers(mentor, startup, sectorScore, stageScore, expertiseScore, locationScore);
  }

  /** A string is a reason exactly when one of the seven rules fires and produces it. */
  lemma ReasonsMembers(mentor: MentorProfile, startup: StartupProfile,
                       sectorScore: real, stageScore: real, expertiseScore: real, locationScore: real)
    ensures var areas := Overlap(mentor.expertise, startup.mentorshipAreas);
      var years: nat := if mentor.yearsExperience >= 0 then mentor.yearsExperience else 0;
      forall x :: x in Reasons(mentor, startup, sectorScore, stageScore, expertiseScore, locationScore) <==>
        || (sectorScore > 0.0 && x == SectorReason(startup.sector))
        || (stageScore > 0.0 && x == StageReason(startup.stage))
        || (expertiseScore > 15.0 && |areas| > 0 && x == HelpReason(areas))
        || (locationScore >= 10.0 && x == LocationReason(mentor.location))
        || (mentor.advisoryExperience && x == AdvisorReason)
        || (mentor.proBono && x == ProBonoReason)
        || (mentor.yearsExperience >= 10 && x == YearsReason(years))
  {
    var years: nat := if mentor.yearsExperience >= 0 then mentor.yearsExperience else 0;
    var areas := Overlap(mentor.expertise, startup.mentorshipAreas);
    ReasonsAsParts(mentor, startup, sectorScore, stageScore, expertiseScore, locationScore);
    var r := Reasons(mentor, startup, sectorScore, stageScore, expertiseScore, locationScore);
    forall x
      ensures x in r <==>
        || (sectorScore > 0.0 && x == SectorReason(startup.sector))
        || (stageScore > 0.0 && x == StageReason(startup.stage))
        || (expertiseScore > 15.0 && |areas| > 0 && x == HelpReason(areas))
        || (locationScore >= 10.0 && x == LocationReason(mentor.location))
        || (mentor.advisoryExperience && x == AdvisorReason)
        || (mentor.proBono && x == ProBonoReason)
        || (mentor.yearsExperience >= 10 && x == YearsReason(years))
    {
      InWhens(x, sectorScore > 0.0, SectorReason(startup.sector),
              stageScore > 0.0, StageReason(startup.stage),
              expertiseScore > 15.0 && |areas| > 0, HelpReason(areas),
              locationScore >= 10.0, LocationReason(mentor.location),
              mentor.advisoryExperience, AdvisorReason,
              mentor.proBono, ProBonoReason,
              mentor.yearsExperience >= 10, YearsReason(years));
    }
  }

  /** Membership in seven optional pushes. */
  lemma InWhens(x: string, b1: bool, y1: string, b2: bool, y2: string, b3: bool, y3: string,
                b4: bool, y4: string, b5: bool, y5: string, b6: bool, y6: string, b7: bool, y7: string)
    ensures x in When(b1, y1) + When(b2, y2) + When(b3, y3) + When(b4, y4) + When(b5, y5) + When(b6, y6) + When(b7, y7)
      <==> || (b1 && x == y1) || (b2 && x == y2) || (b3 && x == y3) || (b4 && x == y4)
           || (b5 && x == y5) || (b6 && x == y6) || (b7 && x == y7)
  {
  }

  lemma ReasonsAsParts(mentor: MentorProfile, startup: StartupProfile,
                       sectorScore: real, stageScore: real, expertiseScore: real, locationScore: real)
    ensures var areas := Overlap(mentor.expertise, startup.mentorshipAreas);
      var years: nat := if mentor.yearsExperience >= 0 then mentor.yearsExperience else 0;
      Reasons(mentor, startup, sectorScore, stageScore, expertiseScore, locationScore)
      == When(sectorScore > 0.0, SectorReason(startup.sector))
       + When(stageScore > 0.0, StageReason(startup.stage))
       + When(expertiseScore > 15.0 && |areas| > 0, HelpReason(areas))
       + When(locationScore >= 10.0, LocationReason(mentor.location))
       + When(mentor.advisoryExperience, AdvisorReason)
       + When(mentor.proBono, ProBonoReason)
       + When(mentor.yearsExperience >= 10, YearsReason(years))
  {
  }

  /** The last three reasons are present exactly when the mentor's profile qualifies. */
  lemma ReasonsFollowProfile(mentor: MentorProfile, startup: StartupProfile,
                             sectorScore: real, stageScore: real, expertiseScore: real, locationScore: real)
    ensures var r := Reasons(mentor, startup, sectorScore, stageScore, expertiseScore, locationScore);
      && (AdvisorReason in r <==> mentor.advisoryExperience)
      && (ProBonoReason in r <==> mentor.proBono)
      && (mentor.yearsExperience >= 10 ==> YearsReason(mentor.yearsExperience) in r)
      && (mentor.yearsExperience < 10 ==> forall x :: x in r ==> RuleOf(x) != 7)
  {
    var years: nat := if mentor.yearsExperience >= 0 then mentor.yearsExperience else 0;
    var areas := Overlap(mentor.expertise, startup.mentorshipAreas);
    ReasonWordingIdentifiesRule(startup.sector, startup.stage, areas, mentor.location, years);
    ReasonsMembers(mentor, startup, sectorScore, stageScore, expertiseScore, locationScore);
  }

  // ---------------------------------------------------------------------------
  // The match

  /** `Math.round`: the integer nearest to `x`, halves rounded up. */
  function Round(x: real): (r: int)
    ensures x - 0.5 < r as real <= x + 0.5
  {
    (x + 0.5).Floor
  }

  lemma RoundMonotone(x: real, y: real)
    requires x <= y
    ensures Round(x) <= Round(y)
  {
  }

  /** The unrounded sum of the four component scores. */
  function TotalScore(mentor: MentorProfile, startup: StartupProfile): real
  {
    SectorScore(mentor.sectors, startup.sector)
    + StageScore(mentor.stagePreference, startup.stage)
    + ExpertiseScore(mentor.expertise, startup.mentorshipAreas)
    + LocationScore(mentor.location, startup.location)
  }

  /** What `calculateMatch` returns for a mentor and a startup. */
  function MatchOf(mentor: MentorProfile, startup: StartupProfile): (r: MatchScore)
    ensures r.mentor == mentor
    ensures 0 <= r.score
    ensures |r.matchReasons| <= 7
  {
    MatchScore(
      mentor,
      Round(TotalScore(mentor, startup)),
      Reasons(mentor, startup,
              SectorScore(mentor.sectors, startup.sector),
              StageScore(mentor.stagePreference, startup.stage),
              ExpertiseScore(mentor.expertise, startup.mentorshipAreas),
              LocationScore(mentor.location, startup.location)))
  }

  /** `calculateMatch`: scores the four components, then explains them. */
  method CalculateMatch(mentor: MentorProfile, startup: StartupProfile) returns (result: MatchScore)
    ensures result == MatchOf(mentor, startup)
  {
    var sectorScore := SectorScore(mentor.sectors, startup.sector);
    var stageScore := StageScore(mentor.stagePreference, startup.stage);
    var expertiseScore := ExpertiseScore(mentor.expertise, startup.mentorshipAreas);
    var locationScore := LocationScore(mentor.location, startup.location);
    var totalScore := sectorScore + stageScore + expertiseScore + locationScore;
    var matchReasons := GetMatchReasons(mentor, startup, sectorScore, stageScore, expertiseScore, locationScore);
    result := MatchScore(mentor, Round(totalScore), matchReasons);
  }

  /**
   * The match keeps the mentor, its score is the rounded component sum, and
   * with a duplicate-free expertise list it lies between 0 and 110.
   */
  lemma MatchScoreBounds(mentor: MentorProfile, startup: StartupProfile)
    ensures MatchOf(mentor, startup).mentor == mentor
    ensures 0 <= MatchOf(mentor, startup).score
    ensures Distinct(mentor.expertise) ==> MatchOf(mentor, startup).score <= 110
    ensures var t := TotalScore(mentor, startup);
      t - 0.5 < MatchOf(mentor, startup).score as real <= t + 0.5
  {
    if Distinct(mentor.expertise) {
      ExpertiseScoreAtMost30(mentor.expertise, startup.mentorshipAreas);
      RoundMonotone(TotalScore(mentor, startup), 110.0);
    }
  }

  /** The reasons of a match agree with the inputs that earned the points. */
  lemma MatchReasonsAgreeWithInputs(mentor: MentorProfile, startup: StartupProfile)
    ensures var r := MatchOf(mentor, startup).matchReasons;
      && (SectorReason(startup.sector) in r <==> startup.sector != "" && startup.sector in mentor.sectors)
      && (StageReason(startup.stage) in r <==> startup.stage != "" && startup.stage in mentor.stagePreference)
      && ((LocationReason(mentor.location) in r)
          <==> mentor.location != "" && startup.location != "" && Country(mentor.location) == Country(startup.location))
      && ((HelpReason(Overlap(mentor.expertise, startup.mentorshipAreas)) in r)
          <==> ExpertiseScore(mentor.expertise, startup.mentorshipAreas) > 15.0)
  {
    ReasonsFollowScores(mentor, startup,
                       SectorScore(mentor.sectors, startup.sector),
                       StageScore(mentor.stagePreference, startup.stage),
                       ExpertiseScore(mentor.expertise, startup.mentorshipAreas),
                       LocationScore(mentor.location, startup.location));
    LocationTiers(mentor.location, startup.location);
  }

  /** Adding an expertise entry never lowers a mentor's score. */
  lemma MoreExpertiseNeverLowersScore(mentor: MentorProfile, startup: StartupProfile, extra: string)
    ensures MatchOf(mentor.(expertise := mentor.expertise + [extra]), startup).score >= MatchOf(mentor, startup).score
  {
    var needs := startup.mentorshipAreas;
    FilterAppend(mentor.expertise, extra, (e: string) => e in needs);
    var k := |Overlap(mentor.expertise, needs)|;
    assert |Overlap(mentor.expertise + [extra], needs)| >= k;
    var d := (if |needs| > 1 then |needs| else 1) as real;
    assert ExpertiseScore(mentor.expertise + [extra], needs) >= ExpertiseScore(mentor.expertise, needs) by {
      var k2 := |Overlap(mentor.expertise + [extra], needs)|;
      DivideMonotone(k as real, k2 as real, d);
    }
    var bigger := mentor.(expertise := mentor.expertise + [extra]);
    RoundMonotone(TotalScore(mentor, startup), TotalScore(bigger, startup));
  }

  /** A mentor who matches a startup on every front scores 110 with six reasons. */
  lemma FullMatchExample(a: MentorProfile, s: StartupProfile)
    requires a.sectors == ["Fintech"] && a.stagePreference == ["growth"]
    requires a.expertise == ["Fundraising", "Sales"] && a.location == "Nairobi, Kenya"
    requires a.yearsExperience == 12 && a.advisoryExperience && !a.proBono
    requires s.sector == "Fintech" && s.stage == "growth"
    requires s.mentorshipAreas == ["Fundraising"] && s.location == "Nairobi, Kenya"
    ensures MatchOf(a, s).score == 110
    ensures MatchOf(a, s).matchReasons == [
      "Expert in Fintech", "Experienced with Growth Stage startups", "Can help with Fundraising",
      "Based in Kenya", "Experienced advisor and investor", "12+ years of experience"]
  {
    FullMatchComponents(a, s);
    ExampleRuleTexts();
    KenyaReasonText();
    TwelveYearsText();
  }

  lemma FullMatchComponents(a: MentorProfile, s: StartupProfile)
    requires a.sectors == ["Fintech"] && a.stagePreference == ["growth"]
    requires a.expertise == ["Fundraising", "Sales"] && a.location == "Nairobi, Kenya"
    requires a.yearsExperience == 12 && a.advisoryExperience && !a.proBono
    requires s.sector == "Fintech" && s.stage == "growth"
    requires s.mentorshipAreas == ["Fundraising"] && s.location == "Nairobi, Kenya"
    ensures MatchOf(a, s).score == 110
    ensures MatchOf(a, s).matchReasons
         == [SectorReason("Fintech"), StageReason("growth"), HelpReason(["Fundraising"]),
             LocationReason("Nairobi, Kenya"), AdvisorReason, YearsReason(12)]
  {
    ExampleOverlap();
    FullMatchScores(a, s);
    assert MatchOf(a, s).matchReasons == Reasons(a, s, 40.0, 25.0, 30.0, 15.0);
    ReasonsAsParts(a, s, 40.0, 25.0, 30.0, 15.0);
    AllButProBono(SectorReason("Fintech"), StageReason("growth"), HelpReason(["Fundraising"]),
                  LocationReason("Nairobi, Kenya"), AdvisorReason, ProBonoReason, YearsReason(12));
  }

  lemma AllButProBono(x1: string, x2: string, x3: string, x4: string, x5: string, x6: string, x7: string)
    ensures When(true, x1) + When(true, x2) + When(true, x3) + When(true, x4) + When(true, x5)
          + When(false, x6) + When(true, x7) == [x1, x2, x3, x4, x5, x7]
  {
  }

  lemma FullMatchScores(a: MentorProfile, s: StartupProfile)
    requires a.sectors == ["Fintech"] && a.stagePreference == ["growth"]
    requires a.expertise == ["Fundraising", "Sales"] && a.location == "Nairobi, Kenya"
    requires a.yearsExperience == 12 && a.advisoryExperience && !a.proBono
    requires s.sector == "Fintech" && s.stage == "growth"
    requires s.mentorshipAreas == ["Fundraising"] && s.location == "Nairobi, Kenya"
    ensures SectorScore(a.sectors, s.sector) == 40.0
    ensures StageScore(a.stagePreference, s.stage) == 25.0
    ensures ExpertiseScore(a.expertise, s.mentorshipAreas) == 30.0
    ensures LocationScore(a.location, s.location) == 15.0
    ensures MatchOf(a, s).score == 110
  {
    ExampleOverlap();
    assert TotalScore(a, s) == 110.0;
  }

  lemma ExampleOverlap()
    ensures Overlap(["Fundraising", "Sales"], ["Fundraising"]) == ["Fundraising"]
  {
    var p := (e: string) => e in ["Fundraising"];
    assert ["Fundraising", "Sales"][1..] == ["Sales"];
    assert Filter(["Sales"], p) == [];
  }

  lemma ExampleRuleTexts()
    ensures SectorReason("Fintech") == "Expert in Fintech"
    ensures StageReason("growth") == "Experienced with Growth Stage startups"
    ensures HelpReason(["Fundraising"]) == "Can help with Fundraising"
  {
    FintechText();
    GrowthText();
    FundraisingText();
  }

  lemma FintechText()
    ensures SectorReason("Fintech") == "Expert in Fintech"
  {
  }

  lemma GrowthText()
    ensures StageReason("growth") == "Experienced with Growth Stage startups"
  {
  }

  lemma FundraisingText()
    ensures HelpReason(["Fundraising"]) == "Can help with Fundraising"
  {
  }

  lemma KenyaReasonText()
    ensures LocationReason("Nairobi, Kenya") == "Based in Kenya"
  {
    ExampleCountries();
  }

  lemma TwelveYearsText()
    ensures YearsReason(12) == "12+ years of experience"
  {
    TwelveReadsTwelve();
  }

  /** The countries of the two example locations. */
  lemma ExampleCountries()
    ensures Country("Nairobi, Kenya") == "Kenya"
    ensures Country("Lagos, Nigeria") == "Nigeria"
  {
    CountryOfCityAndCountry("Nairobi", "Kenya");
    assert "Nairobi" + ", " + "Kenya" == "Nairobi, Kenya";
    CountryOfCityAndCountry("Lagos", "Nigeria");
    assert "Lagos" + ", " + "Nigeria" == "Lagos, Nigeria";
  }

  lemma TwelveReadsTwelve()
    ensures DecimalString(12) == "12"
  {
    assert DecimalString(1) == "1";
  }

  /** A mentor who shares nothing with a startup scores 0 and gets no reasons. */
  lemma NoMatchExample(b: MentorProfile, s: StartupProfile)
    requires b.sectors == ["Healthtech"] && b.stagePreference == ["idea"]
    requires b.expertise == [] && b.location == "Lagos, Nigeria"
    requires b.yearsExperience < 10 && !b.advisoryExperience && !b.proBono
    requires s.sector == "Fintech" && s.stage == "growth"
    requires s.mentorshipAreas == ["Fundraising"] && s.location == "Nairobi, Kenya"
    ensures MatchOf(b, s).score == 0
    ensures MatchOf(b, s).matchReasons == []
  {
    NoMatchScores(b, s);
    assert MatchOf(b, s).matchReasons == Reasons(b, s, 0.0, 0.0, 0.0, 0.0);
    ReasonsAsParts(b, s, 0.0, 0.0, 0.0, 0.0);
    NoneFire(SectorReason("Fintech"), StageReason("growth"), HelpReason([]),
             LocationReason("Lagos, Nigeria"), AdvisorReason, ProBonoReason, YearsReason(0));
  }

  lemma NoMatchScores(b: MentorProfile, s: StartupProfile)
    requires b.sectors == ["Healthtech"] && b.stagePreference == ["idea"]
    requires b.expertise == [] && b.location == "Lagos, Nigeria"
    requires s.sector == "Fintech" && s.stage == "growth"
    requires s.mentorshipAreas == ["Fundraising"] && s.location == "Nairobi, Kenya"
    ensures SectorScore(b.sectors, s.sector) == 0.0
    ensures StageScore(b.stagePreference, s.stage) == 0.0
    ensures ExpertiseScore(b.expertise, s.mentorshipAreas) == 0.0
    ensures LocationScore(b.location, s.location) == 0.0
    ensures Overlap(b.expertise, s.mentorshipAreas) == []
    ensures MatchOf(b, s).score == 0
  {
    DifferentRegionsScoreZero();
    assert TotalScore(b, s) == 0.0;
  }

  lemma NoneFire(x1: string, x2: string, x3: string, x4: string, x5: string, x6: string, x7: string)
    ensures When(false, x1) + When(false, x2) + When(false, x3) + When(false, x4) + When(false, x5)
          + When(false, x6) + When(false, x7) == []
  {
  }

  lemma DifferentRegionsScoreZero()
    ensures LocationScore("Lagos, Nigeria", "Nairobi, Kenya") == 0.0
  {
    ExampleCountries();
    assert "Lagos, Nigeria"[0] != "Nairobi, Kenya"[0];
    NigeriaAndKenyaApart();
  }

  lemma NigeriaAndKenyaApart()
    ensures "Nigeria" != "Kenya" && !InSameRegion("Nigeria", "Kenya")
  {
    assert "Nigeria"[0] != "Kenya"[0];
    assert "Kenya" !in WestAfrica by {
      assert forall c :: c in WestAfrica ==> c[0] != 'K';
    }
    assert "Nigeria" !in EastAfrica by {
      assert forall c :: c in EastAfrica ==> c[0] != 'N';
    }
    assert "Kenya" !in SouthernAfrica by {
      assert forall c :: c in SouthernAfrica ==> c[0] != 'K';
    }
  }
}
