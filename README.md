# objlex lexer core in Dafny

This project models the candidate pipeline of the objlex `Lexer` and proves
properties about it. The pipeline is what turns a text into tokens:

1. `findCandidates` scans the text with every registered token type, in
   registration order. Each match becomes one candidate.
2. `sortCandidates` sorts the candidate list by start offset with `cmpPos`.
   `std::list::sort` is stable.
3. `filterCandidates` sweeps over adjacent pairs of the sorted list.
   - A pair that touches exactly moves the sweep on.
   - A gap between the two calls `handleUnmatched`, which throws.
   - In an overlap, the first candidate is erased when the second is
     strictly longer. Otherwise the second is erased. The sweep then looks
     at the new pair without moving.
4. `lex` runs the three steps, then converts each remaining candidate into
   a token, in list order.

Modules, one per stage:

- `Candidates` (candidates.dfy): token types, spans, candidates, tokens, and
  the comparisons `cmpPos`, `isLonger` and `intersects`.
- `Discovery` (discovery.dfy): `findCandidates` as the function `Discover`.
  The regular-expression engine is a parameter.
- `Ordering` (ordering.dfy): the stable sort as an insertion sort,
  `SortByStart`.
- `Filtering` (filtering.dfy): the sweep as the function `Sweep`, and
  `handleUnmatched` as an error value.
- `Lexing` (lexer.dfy): the class `Lexer`. Its four fields are the four
  `std::list`s of the source, modelled as sequences. Each method is proved
  against the function of its stage.
- `Scenarios` (examples.dfy): the two scenarios of the repository's tests,
  on the prefix `"12 -24"` of the test program. The regex matches are
  written out by hand.

Modelling choices:

- The regex engine is a function `(pattern, text) -> Option<seq<Span>>`.
  `None` stands for a pattern that does not compile (`std::regex_error`).
  It is thrown before any candidate of that type is added.
- A candidate carries the text it was matched in. The source's `smatch`
  refers into the lexer's own copy of that text. The candidate list is
  never cleared, so a later `lex` call sorts and sweeps candidates left
  over from earlier calls, over other texts. The model keeps this.
- Exceptions become error values in `LexError`.
  - `handleUnmatched` gives `Unmatched(pos, len, text)`.
  - `substr` with an offset past the end gives `SubstrOutOfRange`.
  - A malformed pattern gives `BadPattern`.
  - `Lex` returns the error and leaves every field as the source leaves it
    when the exception escapes.

What the sweep in `lexer.cpp` checks, and what it does not:

- `lexer.cpp` checks only gaps between adjacent survivors, at the moment
  the sweep reaches them.
  - It never looks at text before the first candidate or after the last.
  - It checks nothing when fewer than two candidates are left.
  - After the first candidate of an overlapping pair is erased, the sweep
    never compares that candidate's left neighbour with the new pair, so a
    gap there goes unreported. `Scenarios.UncheckedGapScenario` shows this
    on `"abcde"`.
  - The model therefore proves no coverage. It proves non-overlap on
    success, an exact gap report on failure, and coverage for input that
    is already tiled (`Lexing.FreshLexOfTiling`).
- `lexer.cpp` does not reject zero-length matches, and neither does the
  model. As a result, the empty text lexes to nothing only when no pattern
  matches it (`Lexing.FreshLexEmptyText`). Two zero-length matches at the
  same offset touch, so both survive, whatever their registration order
  (`Filtering.EmptyTieKeepsBoth`).
- The header `lexer.hpp` declares fewer members than `lexer.cpp` defines,
  and under other names. The model follows `lexer.cpp`.

## Model

| member | source | states |
|---|---|---|
| Candidates.CmpPosStrictWeakOrder | lexer.cpp:23-26 | `cmpPos` is irreflexive, asymmetric and transitive; candidates it cannot order start at the same offset, so it is a valid strict weak order for the list sort |
| Candidates.IsLongerStrict | lexer.cpp:29-32 | `isLonger` is never reflexive and never holds both ways; when neither direction holds the lengths are equal |
| Candidates.IntersectsSymmetric | lexer.cpp:35-60 | `intersects` gives the same answer in both argument orders; equal starts always intersect |
| Candidates.IntersectsIffSharedPosition | lexer.cpp:35-60 | for non-empty matches, `intersects` holds exactly when some character position lies in both half-open ranges |
| Candidates.TouchingDoNotIntersect | lexer.cpp:35-60 | matches where one ends exactly where the other starts do not intersect, in either order |
| Discovery.Discover | lexer.cpp:83-97 | a failed pattern is reported at one of the scanned slots |
| Discovery.DiscoverShape | lexer.cpp:83-97 | the candidates are grouped by registration slot in registration order; each refers to a scanned slot and to the scanned text; with a sound engine each lies inside the text |
| Discovery.DiscoverExact | lexer.cpp:83-97 | when every pattern compiles, the candidates of slot `k` are exactly the engine's matches for that slot's pattern, in reported order; no other candidate is made |
| Discovery.DiscoverStopsAtBadPattern | lexer.cpp:85-88 | a pattern that does not compile stops the scan at its slot; all earlier patterns compiled and exactly their candidates were added |
| Discovery.DiscoverStaysStopped | lexer.cpp:85-88 | once a pattern fails, scanning further types changes nothing |
| Ordering.Insert | lexer.cpp:100-103 | one insertion step of the sort keeps the list sorted by start and adds exactly the inserted candidate |
| Ordering.SortByStart | lexer.cpp:100-103 | the sorted list is ordered by start and is a permutation of its input |
| Ordering.SortByStartMembers | lexer.cpp:100-103 | the sort neither adds nor loses a candidate |
| Ordering.SortStable | lexer.cpp:100-103 | stability: for every offset, candidates starting there leave the sort in the order they entered it |
| Ordering.SortKeepsRegistrationOrder | lexer.cpp:100-103 | sorting the list discovery produces puts candidates with equal starts in registration order |
| Filtering.HandleUnmatched | lexer.cpp:67-74 | the error carries the offset, the length and the slice of the text there, cut at the end of the text; an offset past the end is the `substr` out-of-range error |
| Filtering.SweepKeepsSubseq | lexer.cpp:106-169 | the sweep only erases: what is left is a sorted subsequence of its input, and it still holds more candidates than the position of the first iterator |
| Filtering.SweepSeparates | lexer.cpp:106-169 | when the sweep finishes no adjacent pair overlaps; when it stops, it stopped on a gap between two adjacent survivors, with all pairs before it separated |
| Filtering.SweepDiscardsOnlyBeaten | lexer.cpp:141-167 | every discarded candidate has a different, intersecting candidate that is strictly longer, or as long and ahead of it in the sorted list |
| Filtering.SweepKeepsTiling | lexer.cpp:116-128 | a list whose adjacent candidates all touch passes the sweep unchanged and without error |
| Filtering.FilterSound | lexer.cpp:106-169 | on a sorted list: the result is a sorted subsequence, empty only when the input is; fewer than two candidates are left alone; success means no overlap; failure reports a gap between adjacent survivors |
| Filtering.FilterDiscardsOnlyBeaten | lexer.cpp:141-167 | on a sorted list with equal starts in registration order, every discarded candidate loses to a different intersecting one; `Filtering.FilterTieBreak` states the other half of the tie-break |
| Filtering.ShadowedNeverKept | lexer.cpp:141-163 | once the first iterator rests on a candidate that starts no later than `b`, reaches past `b`'s start and is at least as long, every copy of `b` ahead is erased as the second of a pair, so a successful sweep does not keep `b` |
| Filtering.EqualLaterNeverKept | lexer.cpp:116-163 | a candidate `b` with the same non-empty span as a candidate `a` that lies before every copy of `b` is not kept by a successful sweep |
| Filtering.EqualLaterOverlap | lexer.cpp:141-163 | the same in the overlap branch: `a` either loses to the first iterator, which then shadows `b`, or stays ahead one place earlier |
| Filtering.FilterTieBreak | lexer.cpp:153-158 | on a sorted list with equal starts in registration order, when the sweep succeeds, of two non-empty candidates with the same span the one of the later-registered type is never kept |
| Filtering.EmptyTieKeepsBoth | lexer.cpp:122-128 | two zero-length candidates at the same offset touch, so the sweep keeps both and raises no error |
| Filtering.OverlapIntersects | lexer.cpp:141-144 | the overlap branch of the sweep is only reached by pairs that `intersects` reports as intersecting |
| Filtering.NoOverlapPairwise | lexer.cpp:116-128 | without adjacent overlap, a candidate ends no later than any later candidate starts |
| Filtering.GapReportExact | lexer.cpp:129-134 | a gap between candidates inside the text is reported with a positive length, inside the text, with its exact text |
| Lexing.Convert | lexer.cpp:192-196 | one token per candidate |
| Lexing.Lexer.constructor | lexer.hpp:46-60 | a new lexer has no types, texts, candidates or tokens |
| Lexing.Lexer.RegisterTokenType | lexer.cpp:77-80 | the type is appended after those registered before it |
| Lexing.Lexer.FindCandidates | lexer.cpp:83-97 | the candidates found are appended to the list as `Discover` gives them; a malformed pattern stops the scan with `BadPattern` and keeps the candidates of the earlier types |
| Lexing.Lexer.SortCandidates | lexer.cpp:100-103 | the list becomes its stable sort by start |
| Lexing.Lexer.FilterCandidates | lexer.cpp:106-169 | the in-place two-iterator loop leaves exactly the list and error of `Filter` |
| Lexing.Lexer.ConvertCandidates | lexer.cpp:192-196 | one token per candidate is appended, in list order |
| Lexing.Lexer.Lex | lexer.cpp:172-197 | the text is kept; on a malformed pattern the candidates found so far stay and no token is added; otherwise the list becomes the sorted and filtered list (leftovers of earlier calls included); tokens are appended only on success |
| Lexing.FreshLexSound | lexer.cpp:172-197 | one call on an empty candidate list leaves a sorted subsequence of the sorted discoveries, all from the text and convertible, pairwise non-overlapping on success |
| Lexing.FilterGapReport | lexer.cpp:129-134 | a failed sweep over candidates of `s` names a non-empty gap of `s` between adjacent survivors, with its exact text |
| Lexing.FreshLexGapReport | lexer.cpp:129-134 | the same for one call of `lex` on an empty candidate list |
| Lexing.FreshLexDiscardsOnlyBeaten | lexer.cpp:141-167 | over the discovered candidates: a discarded one loses to a different intersecting one that is strictly longer, or as long and starting earlier, or as long at the same offset and registered strictly earlier; `Lexing.FreshLexTieBreak` states the other half |
| Lexing.FreshLexTieBreak | lexer.cpp:141-167 | one call of `lex` on an empty candidate list: when the sweep succeeds, of two discovered non-empty candidates with the same span, the one of the later-registered type is not kept |
| Lexing.TiledLexemes | lexer.cpp:192-196 | tokens made from tiling candidates spell the text from the first start to the last end |
| Lexing.FilterOfTiling | lexer.cpp:106-128 | candidates that tile the whole text survive the sweep without error, and their tokens spell the text |
| Lexing.DiscoverNothing | lexer.cpp:83-97 | when no pattern matches the text, discovery adds no candidate and reports no error |
| Lexing.FreshLexEmptyText | lexer.cpp:172-197 | an empty text that no pattern matches lexes to no candidate, no token and no error |
| Lexing.FreshLexOfTiling | lexer.cpp:172-197 | when the sorted discoveries tile the whole text, `lex` succeeds, keeps every candidate, and its tokens spell the text |
| Scenarios.SampleDiscovery | tests.cpp:113-123 | whitespace, uint and int registered in that order find the space, "12" and "24", and "12" and "-24" in "12 -24" |
| Scenarios.SampleSort | tests.cpp:113-123 | the stable sort puts uint's "12" ahead of int's "12" |
| Scenarios.SampleSweep | tests.cpp:113-123 | the sweep keeps uint's "12", the space and int's "-24" |
| Scenarios.TieBreakScenario | tests.cpp:113-135 | the tokens are uint "12", whitespace " ", int "-24", the first three lines the test expects |
| Scenarios.LexSampleProgram | tests.cpp:113-135 | the same outcome through the class: register the three types, lex, read the tokens |
| Scenarios.UnmatchedScenario | tests.cpp:158-198 | with only uint and int registered, lexing fails with the unmatched space at offset 2, length 1 |
| Scenarios.UncheckedGapScenario | lexer.cpp:144-150 | erasing the first candidate of a pair leaves its gap to the previous survivor unchecked: "b" of "abcde" is covered by no survivor and no error is raised |

## Left out

- The regex engine (`std::regex`, `sregex_iterator`) is a parameter. Its matches are taken as given, and only their offsets and lengths are used.
- The conversion callbacks (`TokenType::lex`) and the `BaseToken` hierarchy are left out. A token is its type plus the matched slice handed to the callback. A callback that throws is not modelled.
- Memory management is left out: `new`/`delete`, the destructor, and list-node identity. Candidates are values, so two equal matches of the same type are indistinguishable in the model.
- The debug-only string methods (`toString`, `candidatesString`, `tokensString`) are left out, because they only format output.
- Offsets in the source are `unsigned int`. The model uses unbounded naturals, so wrap-around for texts of 2^32 characters or more is not modelled.
- Overriding `handleUnmatched` so that it returns instead of throwing is left out. The model takes the default policy, which aborts the call.
- The source defines no token-queue type, so none is modelled.
