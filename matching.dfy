/**
 * The two read paths of the service over the mentor pool: `findMatches`
 * (exclude already-requested mentors, score, sort by score, truncate) and
 * `getAllMentors` (conjunctive optional filters, ordered by experience).
 * The data store is given as inputs: the rows the queries return, `None`
 * where a query returned no data.
 */
module Matching {
  import opened Wrappers
  import opened Seqs
  import opened Text
  import opened Scoring

  datatype FindError = FounderProfileNotFound | StartupProfileNotFound

  /** The pool query's condition: a mentor whose profile is visible and whose onboarding is complete. */
  predicate IsListedMentor(u: MentorProfile)
  {
    u.role == "mentor" && u.profileVisibility && u.onboardingCompleted
  }

  /** The rows of `user_profiles` the pool query selects, in table order. */
  function MentorPool(rows: seq<MentorProfile>): seq<MentorProfile>
  {
    Filter(rows, IsListedMentor)
  }

  /** The pool without the mentors the founder has already sent a request to. */
  function Candidates(pool: seq<MentorProfile>, requested: set<string>): (r: seq<MentorProfile>)
    ensures forall c :: c in r <==> c in pool && c.id !in requested
    ensures |r| <= |pool|
  {
    FilterSpec(pool, (m: MentorProfile) => m.id !in requested);
    Filter(pool, (m: MentorProfile) => m.id !in requested)
  }

  /** `map(mentor => calculateMatch(mentor, startup))`. */
  function ScoreAll(candidates: seq<MentorProfile>, startup: StartupProfile): (r: seq<MatchScore>)
    ensures |r| == |candidates|
    ensures forall i :: 0 <= i < |r| ==> r[i] == MatchOf(candidates[i], startup)
  {
    seq(|candidates|, i requires 0 <= i < |candidates| => MatchOf(candidates[i], startup))
  }

  /** The default of `findMatches`' `limit` argument. */
  const DefaultLimit: int := 10

  /**
   * The mentor ids the requests query yields; a query that returned no data
   * (`existingRequests.data` undefined) yields the empty set.
   */
  function Excluded(requested: Option<set<string>>): (r: set<string>)
    ensures requested.Some? ==> r == requested.value
    ensures requested.None? ==> r == {}
  {
    if requested.Some? then requested.value else {}
  }

  function ScoreOf(m: MatchScore): int
  {
    m.score
  }

  /** The candidates' matches, best score first, ties in pool order. */
  function Ranked(rows: seq<MentorProfile>, requested: set<string>, startup: StartupProfile): seq<MatchScore>
  {
    SortDesc(ScoreAll(Candidates(MentorPool(rows), requested), startup), ScoreOf)
  }

  /**
   * `findMatches`: fails without a founder profile or a startup profile,
   * yields no matches when the pool query returned no data, and otherwise
   * the first `limit` of the ranked candidates. `requested` is the result of
   * the requests query, `None` when that query returned no data.
   */
  function FindMatches(founderFound: bool, startup: Option<StartupProfile>,
                       mentorRows: Option<seq<MentorProfile>>, requested: Option<set<string>>,
                       limit: int): (r: Result<seq<MatchScore>, FindError>)
    ensures !founderFound ==> r == Failure(FounderProfileNotFound)
    ensures founderFound && startup.None? ==> r == Failure(StartupProfileNotFound)
    ensures founderFound && startup.Some? ==> r.Success?
    ensures founderFound && startup.Some? && mentorRows.None? ==> r == Success([])
    ensures r.Success? ==> SortedDesc(r.value, ScoreOf)
    ensures r.Success? ==> forall m :: m in r.value ==>
      && mentorRows.Some? && startup.Some?
      && m.mentor in mentorRows.value
      && IsListedMentor(m.mentor)
      && m.mentor.id !in Excluded(requested)
      && m == MatchOf(m.mentor, startup.value)
  {
    if !founderFound then Failure(FounderProfileNotFound)
    else if startup.None? then Failure(StartupProfileNotFound)
    else if mentorRows.None? then Success([])
    else
      var rows := mentorRows.value;
      var ranked := Ranked(rows, Excluded(requested), startup.value);
      RankedFromPool(rows, Excluded(requested), startup.value);
      var top := SliceTo(ranked, limit);
      assert forall m :: m in top ==> m in ranked;
      Success(top)
  }

  /** The candidates are exactly the listed, not-yet-requested mentors of the table. */
  lemma CandidatesSpec(rows: seq<MentorProfile>, requested: set<string>)
    ensures forall c :: c in Candidates(MentorPool(rows), requested) <==>
      c in rows && IsListedMentor(c) && c.id !in requested
  {
    FilterSpec(rows, IsListedMentor);
    FilterSpec(MentorPool(rows), (m: MentorProfile) => m.id !in requested);
  }

  /** Each scored entry is the match of one of the candidates. */
  lemma ScoreAllMembers(candidates: seq<MentorProfile>, startup: StartupProfile)
    ensures forall m :: m in ScoreAll(candidates, startup) ==>
      m.mentor in candidates && m == MatchOf(m.mentor, startup)
  {
  }

  /** Every ranked entry is the match of a listed, not-yet-requested pool mentor, and the ranking is sorted. */
  lemma RankedFromPool(rows: seq<MentorProfile>, requested: set<string>, startup: StartupProfile)
    ensures SortedDesc(Ranked(rows, requested, startup), ScoreOf)
    ensures forall m :: m in Ranked(rows, requested, startup) ==>
      && m.mentor in rows && IsListedMentor(m.mentor) && m.mentor.id !in requested
      && m == MatchOf(m.mentor, startup)
  {
    var cands := Candidates(MentorPool(rows), requested);
    var scored := ScoreAll(cands, startup);
    CandidatesSpec(rows, requested);
    ScoreAllMembers(cands, startup);
    forall m | m in Ranked(rows, requested, startup)
      ensures m in scored
    {
      assert m in multiset(scored);
    }
  }

  /** Once both profiles exist and the pool query returned rows, the matches are the top of the ranking. */
  lemma FindMatchesTopOfRanking(startup: StartupProfile, rows: seq<MentorProfile>, requested: set<string>, limit: int)
    ensures FindMatches(true, Some(startup), Some(rows), Some(requested), limit)
         == Success(SliceTo(Ranked(rows, requested, startup), limit))
  {
  }

  /**
   * A requests query that returned no data excludes nobody: the founder is
   * then offered mentors already asked.
   */
  lemma FailedRequestsQueryExcludesNothing(founderFound: bool, startup: Option<StartupProfile>,
                                           mentorRows: Option<seq<MentorProfile>>, limit: int)
    ensures FindMatches(founderFound, startup, mentorRows, None, limit)
         == FindMatches(founderFound, startup, mentorRows, Some({}), limit)
  {
  }

  /** With the default `limit`, at most ten matches, and ten when there are at least ten candidates. */
  lemma FindMatchesDefaultLimit(startup: StartupProfile, rows: seq<MentorProfile>, requested: set<string>)
    ensures var r := FindMatches(true, Some(startup), Some(rows), Some(requested), DefaultLimit).value;
      && |r| <= 10
      && (|Candidates(MentorPool(rows), requested)| >= 10 ==> |r| == 10)
  {
    FindMatchesLength(startup, rows, requested, DefaultLimit);
  }

  /**
   * The number of matches: `limit` capped at the number of candidates, or for
   * a negative `limit` that many fewer than the candidates (as `slice` counts
   * a negative end from the back).
   */
  lemma FindMatchesLength(startup: StartupProfile, rows: seq<MentorProfile>, requested: set<string>, limit: int)
    ensures var r := FindMatches(true, Some(startup), Some(rows), Some(requested), limit);
      var n := |Candidates(MentorPool(rows), requested)|;
      && r.Success?
      && (0 <= limit <= n ==> |r.value| == limit)
      && (limit > n ==> |r.value| == n)
      && (limit < 0 ==> |r.value| == if n + limit > 0 then n + limit else 0)
  {
    FindMatchesTopOfRanking(startup, rows, requested, limit);
    var ranked := Ranked(rows, requested, startup);
    assert |ranked| == |multiset(ranked)|;
  }

  /**
   * The matches are the best-scoring candidates: a candidate left out scores
   * no higher than any match returned.
   */
  lemma FindMatchesKeepsBest(startup: StartupProfile, rows: seq<MentorProfile>, requested: set<string>,
                             limit: int, c: MentorProfile)
    requires c in rows && IsListedMentor(c) && c.id !in requested
    ensures var r := FindMatches(true, Some(startup), Some(rows), Some(requested), limit).value;
      MatchOf(c, startup) in r || forall m :: m in r ==> m.score >= MatchOf(c, startup).score
  {
    FindMatchesTopOfRanking(startup, rows, requested, limit);
    var cands := Candidates(MentorPool(rows), requested);
    var scored := ScoreAll(cands, startup);
    var ranked := Ranked(rows, requested, startup);
    CandidatesSpec(rows, requested);
    var i :| 0 <= i < |cands| && cands[i] == c;
    assert scored[i] == MatchOf(c, startup);
    assert MatchOf(c, startup) in multiset(ranked);
    RankedFromPool(rows, requested, startup);
    SortedPrefix(ranked, SliceEnd(|ranked|, limit), ScoreOf, MatchOf(c, startup));
  }

  /** Ties keep the pool order: among equal scores, the matches are the first candidates of that score. */
  lemma FindMatchesTiesInPoolOrder(startup: StartupProfile, rows: seq<MentorProfile>, requested: set<string>,
                                   limit: int, score: int)
    ensures var r := FindMatches(true, Some(startup), Some(rows), Some(requested), limit).value;
      var tied := WithKey(ScoreAll(Candidates(MentorPool(rows), requested), startup), ScoreOf, score);
      WithKey(r, ScoreOf, score) <= tied
  {
    FindMatchesTopOfRanking(startup, rows, requested, limit);
    var scored := ScoreAll(Candidates(MentorPool(rows), requested), startup);
    var ranked := Ranked(rows, requested, startup);
    var top := ranked[..SliceEnd(|ranked|, limit)];
    assert FindMatches(true, Some(startup), Some(rows), Some(requested), limit).value == top;
    SortDescStable(scored, ScoreOf, score);
    assert WithKey(ranked, ScoreOf, score) == WithKey(scored, ScoreOf, score);
    WithKeyPrefix(ranked, SliceEnd(|ranked|, limit), ScoreOf, score);
  }

  // ---------------------------------------------------------------------------
  // Browsing with filters

  /**
   * The optional filters of `getAllMentors`; an empty string, an empty list or
   * `None` stands for a filter that is absent (or falsy) and so not applied.
   */
  datatype MentorFilters = MentorFilters(
    sector: string,
    expertise: seq<string>,
    stage: string,
    location: string,
    proBono: Option<bool>)

  const NoFilters: MentorFilters := MentorFilters("", [], "", "", None)

  /** The two lists have an entry in common (`overlaps`). */
  predicate SharesEntry(a: seq<string>, b: seq<string>)
  {
    exists e :: e in a && e in b
  }

  /** The conjunction of the filters that are present. */
  predicate PassesFilters(m: MentorProfile, f: MentorFilters)
  {
    && (f.sector != "" ==> f.sector in m.sectors)
    && (|f.expertise| > 0 ==> SharesEntry(m.expertise, f.expertise))
    && (f.stage != "" ==> f.stage in m.stagePreference)
    && (f.location != "" ==> ContainsIgnoringCase(m.location, f.location))
    && (f.proBono.Some? ==> m.proBono == f.proBono.value)
  }

  /**
   * No filter excludes anyone, and a set of filters passes exactly the
   * mentors each of its filters passes on its own.
   */
  lemma FiltersAreConjunctive(m: MentorProfile, f: MentorFilters)
    ensures PassesFilters(m, NoFilters)
    ensures PassesFilters(m, f) <==>
      && PassesFilters(m, NoFilters.(sector := f.sector))
      && PassesFilters(m, NoFilters.(expertise := f.expertise))
      && PassesFilters(m, NoFilters.(stage := f.stage))
      && PassesFilters(m, NoFilters.(location := f.location))
      && PassesFilters(m, NoFilters.(proBono := f.proBono))
  {
  }

  function YearsOf(m: MentorProfile): int
  {
    m.yearsExperience
  }

  /**
   * `getAllMentors`: the listed mentors passing every filter that is present,
   * most experienced first; nothing when the query returned no data.
   */
  function GetAllMentors(mentorRows: Option<seq<MentorProfile>>, filters: MentorFilters): (r: seq<MentorProfile>)
    ensures mentorRows.None? ==> r == []
    ensures SortedDesc(r, YearsOf)
    ensures forall m :: m in r ==>
      && IsListedMentor(m)
      && (filters.sector != "" ==> filters.sector in m.sectors)
      && (filters.expertise != [] ==> exists e :: e in filters.expertise && e in m.expertise)
      && (filters.stage != "" ==> filters.stage in m.stagePreference)
      && (filters.location != "" ==> ContainsIgnoringCase(m.location, filters.location))
      && (filters.proBono.Some? ==> m.proBono == filters.proBono.value)
    ensures mentorRows.Some? ==> forall m :: IsListedMentor(m) && PassesFilters(m, filters) ==>
      multiset(r)[m] == multiset(mentorRows.value)[m]
  {
    if mentorRows.None? then []
    else
      var passing := Passing(mentorRows.value, filters);
      PassingSpec(mentorRows.value, filters);
      var r := SortDesc(passing, YearsOf);
      assert forall m :: m in r ==> m in multiset(passing);
      r
  }

  /** The listed mentors of the table that pass the filters, in table order. */
  function Passing(rows: seq<MentorProfile>, filters: MentorFilters): seq<MentorProfile>
  {
    Filter(MentorPool(rows), (m: MentorProfile) => PassesFilters(m, filters))
  }

  lemma PassingSpec(rows: seq<MentorProfile>, filters: MentorFilters)
    ensures forall m :: multiset(Passing(rows, filters))[m]
                     == if IsListedMentor(m) && PassesFilters(m, filters) then multiset(rows)[m] else 0
  {
    FilterSpec(rows, IsListedMentor);
    FilterSpec(MentorPool(rows), (m: MentorProfile) => PassesFilters(m, filters));
  }

  /** Without filters every listed mentor is returned, each as often as the table holds it. */
  lemma NoFiltersListEveryMentor(rows: seq<MentorProfile>)
    ensures multiset(GetAllMentors(Some(rows), NoFilters)) == multiset(MentorPool(rows))
  {
    PassingSpec(rows, NoFilters);
    FilterSpec(rows, IsListedMentor);
    assert multiset(Passing(rows, NoFilters)) == multiset(MentorPool(rows));
  }
}
