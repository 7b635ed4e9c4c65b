# Recruitment dashboard rules in Dafny

This project models the rules inside a React recruitment dashboard (RecruitHub).
The dashboard works over lists of candidates, clients, open positions and team members.
It holds no engine of its own: what can be stated exactly is the layer of small
rules written inline in its components. The model covers these rules:

- the record shapes and closed enumerations (`Types`);
- the status colour badge (`StatusBadge`);
- the role-based side menu and its highlighting (`Sidebar`);
- the route table with its login guard (`App`);
- the search and status filter, the status dropdown and the bulk-selection
  set of the candidates list (`CandidatesPage`);
- the user search, avatar initials, role badges, role counts and
  hierarchy sections of the team page (`TeamPage`);
- the client search (`ClientsPage`);
- the position search, open count and skill preview (`PositionsPage`);
- the candidate lookup, interview timeline, edit flag and comment draft of
  the detail page (`CandidateDetailPage`).

Two helper modules stand for the JavaScript built-ins the pages call:

- `Text` covers `toLowerCase`/`toUpperCase` on ASCII, `includes`, `trim`
  over the ECMAScript whitespace set, and `split`/`join`.
- `Seqs` covers `Array.prototype.filter`, with the facts every list page
  relies on: the filter keeps exactly the passing elements, in order.

Pure code is modelled as functions and lemmas. Two places update state step by step, and both are classes:

- `CandidatesPage.Selection` holds the `selectedCandidates` set.
- `CandidateDetailPage.DetailState` holds `isEditing` and `newComment`.

The record lists, the interview and comment tables and "is a user signed in"
are parameters. The mock data module and the session store are not part of
this model.

The search query is not trimmed: a whitespace-only query is not treated as
empty, and a query of one space matches only records with a space in a
searched field (`CandidatesPage.SpaceQueryIsNotEmpty`,
`Text.SpaceQueryNeedsSpace`).

Route patterns are matched as the router matches them by default: letters
without regard to case, trailing slashes ignored, and `:id` standing for one
non-empty segment (`App.MatchPath`, `App.DetailRoute`,
`App.MatchedButNotHighlighted`).

## Model

| member | source | states |
|---|---|---|
| `Types.RoleFromName` | src/app/types/index.ts:1 | a role parsed from text has exactly that text as its name |
| `Types.RolesClosed` | src/app/types/index.ts:1 | there are exactly four roles, all listed, with distinct names that parse back to them |
| `Types.CandidateStatusFromName` | src/app/types/index.ts:3-13 | a stage parsed from text has exactly that text as its name |
| `Types.CandidateStatusesClosed` | src/app/types/index.ts:3-13 | there are exactly ten stages, each listed once, and every name parses back to its stage |
| `Types.CandidateStatusNameInjective` | src/app/types/index.ts:3-13 | two stages share a name only if they are the same stage |
| `Text.IncludesIgnoringCaseAt` | src/app/pages/CandidatesPage.tsx:36 | the case-insensitive `includes` holds iff the lowered query starts at some offset of the lowered field |
| `Text.EmptyQueryIncluded` | src/app/pages/ClientsPage.tsx:23 | the empty query matches every field |
| `Text.SpaceQueryNeedsSpace` | src/app/pages/CandidatesPage.tsx:36 | a one-space query matches a field iff the field holds a space (no trimming) |
| `Text.IncludesIgnoresCase` | src/app/pages/TeamPage.tsx:24 | upper-casing the field or the query, or lowering the query, never changes the outcome |
| `Text.TrimBlankIff` | src/app/pages/CandidateDetailPage.tsx:56 | `trim()` gives "" iff every character is ECMAScript whitespace |
| `Text.JoinSplit` | src/app/pages/TeamPage.tsx:31 | joining the pieces of `split(' ')` with the separator gives back the name |
| `Seqs.FilterMembers` | src/app/pages/CandidatesPage.tsx:34 | every kept element passes and comes from the input; every passing input element is kept |
| `Seqs.FilterKeepsExactly` | src/app/pages/CandidatesPage.tsx:34-44 | the kept positions are exactly the passing ones, and the result lists them in increasing order |
| `Seqs.FilterIsSubsequence` | src/app/pages/ClientsPage.tsx:22 | the result is an order-preserving subsequence of the input |
| `Seqs.FilterKeepsAll` | src/app/pages/TeamPage.tsx:23 | when everything passes, the input comes back unchanged |
| `Seqs.FilterKeepsNone` | src/app/pages/CandidatesPage.tsx:41 | when nothing passes, the result is empty |
| `Seqs.FilterIdempotent` | src/app/pages/PositionsPage.tsx:21 | filtering twice with the same test equals filtering once |
| `Seqs.FilterCongruent` | src/app/pages/CandidatesPage.tsx:36 | tests that agree on every element give the same result |
| `StatusBadge.StatusColor` | src/app/components/StatusBadge.tsx:9-35 | every string, known or not, gets one of the seven palette classes |
| `StatusBadge.StatusBadgeView` | src/app/components/StatusBadge.tsx:37-41 | the badge's text is the status string itself and its class starts with the status colour |
| `StatusBadge.PaletteDistinct` | src/app/components/StatusBadge.tsx:9-35 | the seven palette classes are pairwise different |
| `StatusBadge.StatusColorGroups` | src/app/components/StatusBadge.tsx:11-29 | all four interview stages share yellow; New and Open share blue; Joined and Active share green; Rejected, Closed and Inactive share red |
| `StatusBadge.OnHoldIsDefault` | src/app/components/StatusBadge.tsx:30-33 | "On Hold", for candidates and for positions, gets the same gray as any unknown string |
| `StatusBadge.CandidateStageColours` | src/app/components/StatusBadge.tsx:9-35 | among stages only On Hold is gray, and two stages share a colour iff they are equal or both interview stages |
| `Sidebar.VisibleItemsSpec` | src/app/components/Sidebar.tsx:72-74 | the visible items are exactly the table items admitting the role, in table order |
| `Sidebar.RecruiterMenu` | src/app/components/Sidebar.tsx:30-74 | a recruiter sees exactly Dashboard, Candidates, Clients |
| `Sidebar.AssistantManagerMenu` | src/app/components/Sidebar.tsx:30-74 | an assistant manager sees everything except Reports, in table order |
| `Sidebar.FullMenuRoles` | src/app/components/Sidebar.tsx:30-67 | Admin and BDM see the whole table |
| `Sidebar.CommonItems` | src/app/components/Sidebar.tsx:31-48 | Dashboard, Candidates and Clients lead every role's menu |
| `Sidebar.MenusNest` | src/app/components/Sidebar.tsx:30-67 | the menus nest as prefixes: Recruiter, then AM, then BDM, and BDM equals Admin |
| `Sidebar.HeadFiltered` | src/app/components/Sidebar.tsx:30-48 | the first three items pass for every role and the rest are filtered on their own |
| `Sidebar.TailFiltered` | src/app/components/Sidebar.tsx:49-66 | Positions, Team and Reports are each kept iff their role list includes the role |
| `Sidebar.AtMostOneActive` | src/app/components/Sidebar.tsx:101 | no two items share a path, so at most one is highlighted |
| `Sidebar.DetailPathHighlightsNothing` | src/app/components/Sidebar.tsx:101 | a detail path such as `/candidates/c1` highlights no item, Candidates included |
| `App.MatchPath` | src/app/App.tsx:28-112 | the root route is selected iff the location is "/" once trailing slashes are removed; no guarded route holds the login page |
| `App.LoginOnlyAtRoot` | src/app/App.tsx:14-32 | the login page renders iff no user is signed in and the location is "/" up to trailing slashes |
| `App.ProtectedRoute` | src/app/App.tsx:14-22 | it redirects to "/" iff there is no user, and otherwise renders exactly the wrapped page |
| `App.RouteTable` | src/app/App.tsx:29-109 | each literal path of the table selects its own route |
| `App.SignedOutLandsOnLogin` | src/app/App.tsx:14-32 | without a user "/" renders login, every other location redirects to "/", and one redirect reaches login |
| `App.SignedInLanding` | src/app/App.tsx:29-111 | with a user guarded paths render their page, "/" redirects to the dashboard, unknown paths redirect to "/", and two redirects always reach a page |
| `App.DetailRoute` | src/app/App.tsx:56-65 | `/candidates/<id>` with a non-empty id free of '/' selects the detail page with that id |
| `App.DetailRouteOneSegmentOnly` | src/app/App.tsx:56-111 | a second segment after the id falls to the catch-all |
| `App.RoutingIgnoresRole` | src/app/App.tsx:100-109 | a signed-in user reaches Reports by path although recruiters' and assistant managers' menus hide it |
| `App.MenuPathsAreRoutes` | src/app/App.tsx:34-109 | every menu destination is a guarded route |
| `App.MatchedButNotHighlighted` | src/app/App.tsx:100-109 | `/Reports/` renders Reports but highlights no menu item |
| `CandidatesPage.FilteredCandidatesSpec` | src/app/pages/CandidatesPage.tsx:33-45 | a position is kept iff its candidate matches both search and status; the result is those candidates in list order |
| `CandidatesPage.MatchesSearchAt` | src/app/pages/CandidatesPage.tsx:35-39 | the search holds iff the lowered query occurs in the lowered name, email, position or client name |
| `CandidatesPage.SearchReadsFourFields` | src/app/pages/CandidatesPage.tsx:35-39 | no other field is searched |
| `CandidatesPage.EmptyQueryShowsAll` | src/app/pages/CandidatesPage.tsx:36-41 | an empty query with "all" returns the list unchanged |
| `CandidatesPage.SpaceQueryIsNotEmpty` | src/app/pages/CandidatesPage.tsx:36-39 | a one-space query drops a candidate with no space in any searched field |
| `CandidatesPage.QueryCaseInsensitive` | src/app/pages/CandidatesPage.tsx:35-39 | the query's letter case never changes the result |
| `CandidatesPage.StatusFilterIsExact` | src/app/pages/CandidatesPage.tsx:41-43 | filtering by a stage's name keeps exactly the matching candidates of that stage |
| `CandidatesPage.UnknownStatusKeepsNothing` | src/app/pages/CandidatesPage.tsx:41 | a filter value that is neither "all" nor an exact stage name keeps nothing |
| `CandidatesPage.FilterAgainChangesNothing` | src/app/pages/CandidatesPage.tsx:33-45 | the filter is idempotent |
| `CandidatesPage.StatusOptionsSpec` | src/app/pages/CandidatesPage.tsx:65-115 | the dropdown offers "all" and then each of the ten stages exactly once, none equal to "all" |
| `CandidatesPage.IdsOf` | src/app/pages/CandidatesPage.tsx:49 | the id set holds the id of every listed candidate and nothing else |
| `CandidatesPage.DistinctIdsCount` | src/app/pages/CandidatesPage.tsx:49 | with distinct ids the id set has one element per candidate |
| `CandidatesPage.Selection.constructor` | src/app/pages/CandidatesPage.tsx:31 | the selection starts empty |
| `CandidatesPage.Selection.SelectAll` | src/app/pages/CandidatesPage.tsx:47-53 | checking makes the selection exactly the visible ids; unchecking empties it |
| `CandidatesPage.Selection.SelectCandidate` | src/app/pages/CandidatesPage.tsx:55-63 | the id is in the selection iff checked, and no other id changes |
| `CandidatesPage.HeaderCheckedWithNothingVisibleSelected` | src/app/pages/CandidatesPage.tsx:150 | as written, selection {c1} over a list showing only c2 checks the header, though no visible row is checked |
| `CandidatesPage.HeaderClearWithEveryVisibleSelected` | src/app/pages/CandidatesPage.tsx:150 | as written, selection {c1, c2} over a list showing only c1 leaves the header clear, though every visible row is checked |
| `CandidatesPage.AllVisibleSelectedSpec` | src/app/pages/CandidatesPage.tsx:150 | the intended header test holds iff some row is visible and all visible ids are selected; select-all sets it, an empty selection clears it |
| `CandidatesPage.HeaderTestsAgreeOnVisibleSelection` | src/app/pages/CandidatesPage.tsx:150 | when the selection holds only visible ids and ids are distinct, the written and intended header tests agree |
| `CandidatesPage.SelectAllDrivesHeader` | src/app/pages/CandidatesPage.tsx:124-150 | after select-all over distinct ids the header is checked and the bulk bar shows; after deselect-all neither |
| `TeamPage.FilteredUsersSpec` | src/app/pages/TeamPage.tsx:23-27 | a user is kept iff the query occurs, ignoring case, in the name, email or role; order is kept |
| `TeamPage.EmptyQueryShowsAllUsers` | src/app/pages/TeamPage.tsx:23-27 | an empty query lists every user |
| `TeamPage.RoleNameQueryFindsRole` | src/app/pages/TeamPage.tsx:26 | searching a role's name in any letter case finds every user of that role |
| `TeamPage.FirstCharsSkipsEmpty` | src/app/pages/TeamPage.tsx:32-33 | mapping parts to their first character and joining equals taking the first characters of the non-empty parts |
| `TeamPage.InitialsSpec` | src/app/pages/TeamPage.tsx:29-35 | the initials are the upper-cased first characters of the non-empty space-separated parts, one per part, in order |
| `TeamPage.InitialsHaveNoSpace` | src/app/pages/TeamPage.tsx:29-35 | initials never contain a space |
| `TeamPage.RoleBadgeColor` | src/app/pages/TeamPage.tsx:37-50 | every string gets one of five classes |
| `TeamPage.RoleBadgeColorSpec` | src/app/pages/TeamPage.tsx:37-50 | the four roles get four different non-gray classes and any other string gets gray |
| `TeamPage.UsersWithRoleSpec` | src/app/pages/TeamPage.tsx:201 | a hierarchy section lists exactly the users of its role, in list order |
| `TeamPage.SectionsPartition` | src/app/pages/TeamPage.tsx:201-261 | the four sections together hold every user exactly as often as the list does |
| `TeamPage.RoleCountsSum` | src/app/pages/TeamPage.tsx:52-57 | the four role counts add up to the number of users |
| `TeamPage.OneSectionPerUser` | src/app/pages/TeamPage.tsx:201-261 | every user appears in the section of its role and in no other |
| `ClientsPage.FilteredClientsSpec` | src/app/pages/ClientsPage.tsx:21-27 | a client is kept iff the query occurs, ignoring case, in name, industry or location; order is kept |
| `ClientsPage.SearchReadsThreeFields` | src/app/pages/ClientsPage.tsx:22-26 | contact fields and status are not searched |
| `ClientsPage.EmptyQueryShowsAllClients` | src/app/pages/ClientsPage.tsx:22-26 | an empty query lists every client |
| `ClientsPage.HeaderCount` | src/app/pages/ClientsPage.tsx:35 | the header count never exceeds the number of clients |
| `ClientsPage.HeaderCountsInactiveClients` | src/app/pages/ClientsPage.tsx:35 | the "active clients" count includes inactive clients |
| `PositionsPage.FilteredPositionsSpec` | src/app/pages/PositionsPage.tsx:21-24 | a position is kept iff the query occurs, ignoring case, in its title or client name; order is kept |
| `PositionsPage.HeaderCount` | src/app/pages/PositionsPage.tsx:32 | the header count never exceeds the number of positions |
| `PositionsPage.EmptyQueryShowsAllPositions` | src/app/pages/PositionsPage.tsx:21-32 | an empty query lists every position, closed ones too, and the header counts them all |
| `PositionsPage.OpenCount` | src/app/pages/PositionsPage.tsx:89 | open plus filled equals openings; the count is negative iff more are filled than opened |
| `PositionsPage.ShownSkills` | src/app/pages/PositionsPage.tsx:103 | the preview is a prefix of the skills of length min(4, number of skills) |
| `PositionsPage.Overflow` | src/app/pages/PositionsPage.tsx:108-112 | the `+n` badge appears iff there are more than four skills |
| `PositionsPage.SkillsAccountedFor` | src/app/pages/PositionsPage.tsx:103-112 | preview and badge account for every skill, and the badge appears iff the preview leaves some out |
| `CandidateDetailPage.FindCandidate` | src/app/pages/CandidateDetailPage.tsx:38 | the lookup succeeds iff some candidate has the id, and then returns the first such candidate |
| `CandidateDetailPage.EntryOrEmptySpec` | src/app/pages/CandidateDetailPage.tsx:39-40 | levels and comments are the stored entry for a present id, and empty when the id is absent, empty or unknown |
| `CandidateDetailPage.View` | src/app/pages/CandidateDetailPage.tsx:38-53 | "Candidate not found" iff no candidate has the id; otherwise a listed candidate with that id |
| `CandidateDetailPage.FoundViewSpec` | src/app/pages/CandidateDetailPage.tsx:38-40 | a found page shows the first candidate with the id and the entries stored under it |
| `CandidateDetailPage.IconAndBadgeDisagreeOnlyOnCompleted` | src/app/pages/CandidateDetailPage.tsx:62-72 | icon and badge group the five states alike, except Completed, whose icon matches Passed and whose badge matches Pending |
| `CandidateDetailPage.LevelBadgeClass` | src/app/pages/CandidateDetailPage.tsx:240-243 | every state gets one of four classes |
| `CandidateDetailPage.IndicesBelow` | src/app/pages/CandidateDetailPage.tsx:227 | the indices handed out by `map` over n rounds are exactly 0 to n-1, n of them |
| `CandidateDetailPage.TimelineConnectors` | src/app/pages/CandidateDetailPage.tsx:220-233 | a shown timeline of n rounds draws n-1 connectors, below every round but the last, each leading to a next round; a hidden timeline (no rounds) draws none |
| `CandidateDetailPage.DraftAfterSave` | src/app/pages/CandidateDetailPage.tsx:55-60 | the draft is kept iff it is all whitespace, and otherwise cleared |
| `CandidateDetailPage.DetailState.constructor` | src/app/pages/CandidateDetailPage.tsx:35-36 | the page opens out of edit mode with an empty draft |
| `CandidateDetailPage.DetailState.SetDraft` | src/app/pages/CandidateDetailPage.tsx:297 | typing replaces the draft and leaves edit mode alone |
| `CandidateDetailPage.DetailState.SaveComment` | src/app/pages/CandidateDetailPage.tsx:55-60 | it confirms iff the draft has a non-whitespace character, and then clears the draft |
| `CandidateDetailPage.DetailState.Edit` | src/app/pages/CandidateDetailPage.tsx:103 | Edit turns edit mode on |
| `CandidateDetailPage.DetailState.Cancel` | src/app/pages/CandidateDetailPage.tsx:94 | Cancel turns edit mode off and keeps the draft |
| `CandidateDetailPage.DetailState.SaveChanges` | src/app/pages/CandidateDetailPage.tsx:97 | Save Changes turns edit mode off and keeps the draft |

## Left out

- The session store (`AuthContext`, with login, logout and role switching) is not part of this model. Whether a user is signed in is the `hasUser` parameter, and the role is a parameter of the menu.
- The Navbar is not modelled, including its copy of the initials rule. Layout, the sidebar's collapse and mobile-sheet toggles, and all rendering are left out too.
- The dashboard and reports pages are left out. They are static chart fixtures drawn by a foreign charting library.
- The position progress bar `(filled / openings) * 100` is left out. It is floating point, and it divides by zero when `openings` is 0.
- Date formatting, the success toasts and navigation side effects are left out. The comment toast appears only as the `saved` result of `SaveComment`. The navigation side effects are a row click to the detail page and the back buttons.
- The mock data module is not part of this model. Record lists and the interview and comment tables are arbitrary inputs.
- `Text.Lower`, `Text.Upper`: only ASCII letters change case. JavaScript's full Unicode case mapping is not modelled, so non-ASCII letters compare unchanged.
- `App.MatchPath`: percent-decoding of the location (every segment, `:id` included) is left out. The router decodes the location before it compares segments, so `/%64ashboard` renders the dashboard there, while the model sends it to the catch-all. Case-insensitive letters, ignored trailing slashes and the one-segment `:id` are modelled.
- `CandidateDetailPage.EntryOrEmpty`: inherited object keys such as `constructor` are not modelled. In JavaScript, `table[id]` returns them; the model's map holds only the stored entries.
- `TeamPage.FirstChars`: `n[0]` takes one UTF-16 code unit. The model takes one whole character, so characters outside the Basic Multilingual Plane are not split.
- The candidate's comment is not appended anywhere when saved, in the code or in the model. Only the draft and the toast change.

## Findings

| source | as written | input that shows it | evidently intended | confidence | as-written member | corrected member |
|---|---|---|---|---|---|---|
| src/app/pages/CandidatesPage.tsx:150 | the header checkbox is checked when the selection's size equals the number of visible rows | select candidate c1, then narrow the list until only c2 shows: selection {c1}, one visible row, header checked while c2's own box is clear; conversely selection {c1, c2} over visible [c1] leaves the header clear | checked iff at least one row is visible and every visible row is selected | medium, not executed | `CandidatesPage.HeaderCheckedWithNothingVisibleSelected` | `CandidatesPage.AllVisibleSelectedSpec` |
