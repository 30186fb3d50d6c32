# Mentor matching service — a Dafny model

This project models `MentorshipMatchingService` (src/services/matchingService.ts), which the
platform uses to pair startup founders with mentors. The service has three parts.

- **Scoring** (`scoring.dfy`, module `Scoring`). A mentor profile is scored against a startup
  profile out of 110:
  - sector, 40 or 0;
  - stage, 25 or 0;
  - expertise, the share of founder needs covered, times 30;
  - location, 15 / 10 / 5 / 0 for the same place, the same country or the same African region.
  
  `getMatchReasons` explains a score with up to seven fixed phrases. `calculateMatch` rounds the
  sum and attaches the reasons. The component scores and the reason list are functions.
  `GetMatchReasons` is a method that pushes onto a local list, like the source, and is proved
  equal to the function `Reasons`.
- **Ranking and browsing** (`matching.dfy`, module `Matching`):
  - `findMatches` drops the mentors the founder has already requested, scores the others, sorts
    them by score (stably, best first) and keeps the first `limit`.
  - `getAllMentors` lists the visible, onboarded mentors that pass every filter supplied, most
    experienced first.
  
  The rows the database queries return are inputs to these functions.
- **Request workflow** (`requests.dfy`, module `Requests`). The class `MentorshipStore` holds
  three tables: `requests`, `connections` and `notifications`. Its methods
  `SendMentorshipRequest` and `RespondToRequest` update those tables the way the service's
  inserts and updates do. Each database failure the service checks for is a boolean parameter.
  It leads to the same error and leaves the tables unchanged.

The supporting modules model the JavaScript behaviour the service relies on:
- `seqs.dfy`: `filter`, a stable sort by a numeric key (insertion sort), and `slice(0, limit)`
  including a negative `limit`.
- `text.dfy`: `trim` with ECMAScript white space, `split(',').pop()`, case-insensitive
  substring search for `ilike '%…%'`, and rendering a non-negative integer in decimal.
- `wrappers.dfy`: `Option`, `Outcome` and `Result`.

The component scores and their sum are exact reals, and `Math.round(x)` is `floor(x + 0.5)`.
Years of experience, hourly rates, hours and the final rounded score are integers. A missing (`null` or
`undefined`) string or list is modelled as the empty string or list. Every helper returns the
same result for those as for `""` and `[]`.

Two behaviours of the code are easy to miss:
- The expertise score is bounded by 30 only for a duplicate-free expertise list. The onboarding
  forms keep the lists duplicate-free. `ExpertiseScoreCountsRepeats` shows scores of 60 and 15
  for repeated entries.
- `respondToRequest` does not check that a request is still pending. The model has no such
  check. `RespondTwice` and `AcceptThenDecline` show the consequences.

## Model

| member | source | states |
|---|---|---|
| Scoring.SectorScore | src/services/matchingService.ts:39-42 | 40 exactly when the startup's sector is non-empty and in the mentor's sectors, otherwise 0; never anything else |
| Scoring.StageScore | src/services/matchingService.ts:44-47 | 25 exactly when the startup's stage is non-empty and in the mentor's stage preferences, otherwise 0 |
| Scoring.Overlap | src/services/matchingService.ts:52-54 | the mentor's expertise entries that the founder needs: an entry is kept iff it is in both lists, each kept entry as often as the mentor's list holds it and nothing else, and there are no more of them than mentor entries |
| Scoring.ExpertiseScore | src/services/matchingService.ts:49-57 | never negative; 0 when the founder lists no needs or nothing overlaps |
| Scoring.ExpertiseScoreAtMost30 | src/services/matchingService.ts:49-57 | with a duplicate-free expertise list the expertise score is at most 30 |
| Scoring.ExpertiseScoreFullCoverage | src/services/matchingService.ts:49-57 | when every (distinct) need is among the mentor's (distinct) expertise, the score is exactly 30 |
| Scoring.ExpertiseScoreThirtyMeansCovered | src/services/matchingService.ts:49-57 | conversely, with a duplicate-free expertise list a score of exactly 30 means the founder lists at least one need and every need is among the mentor's expertise |
| Scoring.ExpertiseScoreCountsRepeats | src/services/matchingService.ts:52-56 | repeated entries are counted each time: expertise [Sales, Sales] against need [Sales] scores 60, need [Sales, Sales] against [Sales] scores 15 |
| Scoring.LocationScore | src/services/matchingService.ts:59-82 | the location score is always one of 0, 5, 10, 15 |
| Scoring.LocationTiers | src/services/matchingService.ts:59-82 | 15 iff identical non-empty locations; at least 10 iff both non-empty with the same trimmed last comma segment; 5 iff those fail and both countries lie in one of the three regions; 0 otherwise |
| Scoring.Country | src/services/matchingService.ts:62-63 | the country of a location (`split(',').pop()?.trim()`) holds no comma and neither starts nor ends with white space |
| Scoring.SameCountryScoresTen | src/services/matchingService.ts:62-66 | two different cities in the same country score 10 |
| Scoring.CountryOfCityAndCountry | src/services/matchingService.ts:62-63 | the country of "city, country" is the country |
| Scoring.LastSegmentAfterComma | src/services/matchingService.ts:62 | `split(',').pop()` yields the text after the last comma |
| Text.LastSegmentSpec | src/services/matchingService.ts:62-63 | the last segment is a comma-free suffix of the location, preceded by a comma or the start of the string |
| Text.TrimSpec | src/services/matchingService.ts:62-63 | `trim` removes exactly the leading and trailing white space and leaves a string that neither starts nor ends with white space |
| Scoring.Reasons | src/services/matchingService.ts:92-134 | the reason list built by the seven rules holds at most seven phrases |
| Scoring.StageLabel | src/services/matchingService.ts:99-105 | a stage is printed as itself exactly when it is none of idea, mvp, growth, scale; each of those four is replaced by a display label |
| Scoring.JoinFirstTwoIgnoresRest | src/services/matchingService.ts:113 | with two or more matching areas, only the first two are named, joined by " and ", whatever follows |
| Scoring.GetMatchReasons | src/services/matchingService.ts:84-135 | the pushed list equals the reason list `Reasons` |
| Scoring.ReasonWordingIdentifiesRule | src/services/matchingService.ts:94-132 | each of the seven phrasings is told apart by its fixed wording, whatever text is interpolated |
| Scoring.ReasonsShape | src/services/matchingService.ts:92-134 | at most seven reasons, the sector reason first when present, the years reason last when present |
| Scoring.ReasonsFollowScores | src/services/matchingService.ts:94-120 | the sector, stage, help and location reasons appear iff sector > 0, stage > 0, unrounded expertise > 15 with a non-empty overlap, location >= 10 |
| Scoring.ReasonsMembers | src/services/matchingService.ts:92-134 | a text is a reason exactly when one of the seven rules fires and produces that text |
| Scoring.ReasonsFollowProfile | src/services/matchingService.ts:122-132 | the advisor and pro bono reasons appear iff the mentor has those flags; the years reason appears iff the mentor has at least 10 years |
| Text.DecimalStringSpec | src/services/matchingService.ts:131 | the years count is written as its decimal digits without leading zeros |
| Scoring.Round | src/services/matchingService.ts:156 | `Math.round` lands within one half of its argument |
| Scoring.RoundMonotone | src/services/matchingService.ts:156 | rounding preserves order |
| Scoring.CalculateMatch | src/services/matchingService.ts:137-159 | the method returns the match `MatchOf` of the four component scores and their reasons |
| Scoring.MatchOf | src/services/matchingService.ts:137-159 | the match carries the mentor unchanged, a non-negative score and at most seven reasons |
| Scoring.MatchScoreBounds | src/services/matchingService.ts:137-159 | the mentor is returned unchanged; the score is non-negative, within one half of the component sum, and at most 110 for a duplicate-free expertise list |
| Scoring.MatchReasonsAgreeWithInputs | src/services/matchingService.ts:137-159 | the sector, stage, location and help reasons appear iff the profiles themselves qualify for them |
| Scoring.MoreExpertiseNeverLowersScore | src/services/matchingService.ts:49-57 | adding an expertise entry to a mentor never lowers the mentor's score |
| Scoring.FullMatchExample | src/services/matchingService.ts:137-159 | a Nairobi fintech growth-stage founder and a matching 12-year advisor score 110, with six reasons in rule order |
| Scoring.NoMatchExample | src/services/matchingService.ts:137-159 | a Lagos healthtech idea-stage mentor with no expertise scores 0 with no reasons for the same founder |
| Scoring.DifferentRegionsScoreZero | src/services/matchingService.ts:68-81 | Nigeria and Kenya share no region, so the location score is 0 |
| Matching.FindMatches | src/services/matchingService.ts:161-212 | fails without a founder or startup profile; no rows give no matches; otherwise every match is the match of a listed, not-yet-requested mentor of the table, and matches are in non-increasing score order |
| Matching.Candidates | src/services/matchingService.ts:205-206 | a pool mentor is kept exactly when its id is not among the requested mentor ids, and no entries are added |
| Matching.FailedRequestsQueryExcludesNothing | src/services/matchingService.ts:196-203 | when the requests query returns no data, the exclusion set is empty, so the result is the same as for a founder with no requests |
| Matching.FindMatchesDefaultLimit | src/services/matchingService.ts:161-164 | with the default `limit` of 10 there are at most ten matches, and exactly ten when there are at least ten candidates |
| Matching.CandidatesSpec | src/services/matchingService.ts:185-206 | the candidates are exactly the listed mentors whose id is not among the founder's requested mentors |
| Matching.ScoreAllMembers | src/services/matchingService.ts:207 | each scored entry is the match of one of the candidates |
| Matching.RankedFromPool | src/services/matchingService.ts:205-208 | the sorted list is in non-increasing score order and holds only matches of candidates |
| Matching.FindMatchesTopOfRanking | src/services/matchingService.ts:205-211 | the result is the first `limit` of the ranking |
| Matching.FindMatchesLength | src/services/matchingService.ts:209 | `limit` matches when there are that many candidates, all candidates when there are fewer, and for a negative `limit` that many fewer than the candidates |
| Matching.FindMatchesKeepsBest | src/services/matchingService.ts:205-209 | a candidate left out scores no higher than any match returned |
| Matching.FindMatchesTiesInPoolOrder | src/services/matchingService.ts:208-209 | among matches with equal score, the order is the table order of the candidates |
| Seqs.SortDesc | src/services/matchingService.ts:208 | the sort returns a permutation of its input in non-increasing key order |
| Seqs.SortDescStable | src/services/matchingService.ts:208 | the sort keeps equal-key elements in input order |
| Seqs.SliceTo | src/services/matchingService.ts:209 | `slice(0, limit)` is a prefix of the list: the first `limit` elements when `limit` is non-negative (all of them when fewer), and all but the last `-limit` when it is negative |
| Seqs.SliceEnd | src/services/matchingService.ts:209 | `slice(0, limit)` never keeps more elements than there are |
| Matching.GetAllMentors | src/services/matchingService.ts:214-251 | no rows give no mentors; every mentor returned is listed and passes each filter supplied (sector, overlapping expertise, stage, case-insensitive location, pro bono); every qualifying mentor of the table appears as often as in the table; order is by years of experience, most first |
| Matching.FiltersAreConjunctive | src/services/matchingService.ts:228-246 | no filter excludes anyone, and a mentor passes a set of filters exactly when it passes each filter on its own |
| Text.ContainsIgnoringCaseSpec | src/services/matchingService.ts:241 | `ilike '%text%'` matches every location for empty text, matches any exact occurrence, and ignores the letter case of the text |
| Matching.PassingSpec | src/services/matchingService.ts:219-246 | a table row passes the pool conditions and the filters supplied as often as the table holds it, and no other row does |
| Matching.NoFiltersListEveryMentor | src/services/matchingService.ts:214-251 | without filters the result is a permutation of the listed mentors |
| Requests.MentorshipStore.constructor | src/services/matchingService.ts:253-322 | the store starts with empty tables |
| Requests.MentorshipStore.SendMentorshipRequest | src/services/matchingService.ts:253-278 | a failed insert changes nothing; otherwise exactly one pending request for the two users under a fresh id is added, with no duplicate check, followed by exactly one notification to the mentor; connections are unchanged |
| Requests.MentorshipStore.RespondToRequest | src/services/matchingService.ts:280-322 | a failed lookup, a missing request or a failed update changes nothing; otherwise that request alone gets the new status and response time whatever its status was, acceptance alone appends one connection, and one notification goes to the founder |
| Requests.SendKeepsConsistent | src/services/matchingService.ts:258-265 | inserting a pending request keeps connections pointing at their requests and "pending iff no response time" |
| Requests.RespondKeepsConsistent | src/services/matchingService.ts:292-310 | answering keeps those table invariants, including the new connection |
| Requests.RespondIgnoresPreviousStatus | src/services/matchingService.ts:292-298 | the answered request has the new status and time and keeps its users and message, whatever its earlier status |
| Requests.AcceptanceAloneConnects | src/services/matchingService.ts:302-311 | acceptance adds exactly one active connection between the request's founder and mentor; declining adds none |
| Requests.RequestNotification | src/services/matchingService.ts:269-277 | the new-request notification goes to the mentor, has type `request` and links to the dashboard |
| Requests.ResponseNotification | src/services/matchingService.ts:313-321 | the answer notification goes to the founder; for an accept or decline its title says "Accepted" exactly when the request was accepted, and its message ends with the status |
| Requests.RequestedMentorIds | src/services/matchingService.ts:196-203 | a mentor id is in the set exactly when some request of the founder names that mentor, whatever its status |
| Requests.ResponseNotificationWording | src/services/matchingService.ts:313-321 | the founder's notification reads "Mentorship Request Accepted"/"Declined" with the message "Your mentorship request has been accepted"/"declined" |
| Requests.RequestedMentorsNeverMatched | src/services/matchingService.ts:196-206 | a request of the founder, at any status, keeps its mentor out of the founder's matches |
| Requests.RespondTwice | src/services/matchingService.ts:280-322 | accepting the same request twice leaves two identical active connections and three notifications |
| Requests.AcceptThenDecline | src/services/matchingService.ts:280-322 | accepting then declining leaves a declined request with an active connection |
| Requests.SendTwice | src/services/matchingService.ts:253-278 | the same founder can send the same mentor two pending requests |

## Left out

- The data store itself is left out: every Supabase query, insert and update, and the query builder. Query results are inputs. The rows a query would return are assumed to be exactly those its conditions select, or no data at all (`None`).
- A requests query that returns no data (an error) makes `requestedMentorIds` empty, so `findMatches` then offers mentors the founder has already asked. `FindMatches` takes that query's result as an `Option` and treats `None` the same way (`FailedRequestsQueryExcludesNothing`).
- `limit` is modelled as an integer, with the default 10 (`DefaultLimit`). A fractional `limit` (which `slice` truncates toward zero) and `NaN` (which gives no matches) are not modelled.
- Request ids: the database assigns them. The model numbers requests with a counter (`nextId`).
- The failures of the connection insert and of the notification inserts are ignored by the service. The model assumes those inserts succeed.
- `respondToRequest` receives only `accepted` or `declined`; `RespondToRequest` requires the same. Other stored statuses are not modelled.
- Timestamps: `responded_at` is the opaque parameter `now`, and creation times are not modelled.
- Concurrency between calls is not modelled; the model is sequential.
- Floating point: scores are exact reals, so IEEE rounding of `k / n * 30` is not modelled.
- `ilike` is modelled as case-insensitive containment with ASCII case folding only. `%` and `_` inside the filter text are taken literally, not as wildcards.
- The database's order among mentors with equal years of experience is unspecified. The model keeps table order.
- Scoring.StageLabel: a stage named after an `Object.prototype` member (for instance `constructor`) would print a function's source in the stage reason. The model prints the raw stage instead.
- Scoring.ExpertiseScoreAtMost30: holds only for a duplicate-free expertise list, because the source counts repeated entries (see `ExpertiseScoreCountsRepeats`).
- The role and onboarding flags are not fields of the service's `MentorProfile` interface. They are columns of the same table that the pool query filters on, so the model's profile carries them.
- Negative years of experience are never reported, since the years reason needs at least 10. `Reasons` therefore renders only non-negative counts.
- The requests page offers Accept and Decline only on pending requests (src/components/MentorshipRequests.tsx:245). That check and the onboarding forms' list toggles are user-interface code, not part of the service.
