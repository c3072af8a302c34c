# ScholarShare client logic in Dafny

This project models the client-side logic of ScholarShare. ScholarShare is a
React application where students upload study materials (PDFs with a title,
description, category and academic year), browse and search them, vote on
them, report them, and keep a profile with points and badges.

The model covers these parts of the client:

- **The materials listing** (`MaterialsPage`). Its effect filters the fetched
  list by a case-insensitive search, by category and by year, then sorts it by
  newest, oldest or popular. The sort runs in place on a copied array,
  `SortInPlace`, and is proved equal to a stable insertion sort
  (`StableSort.Sort`). That sort is proved to be a permutation, ordered by key,
  and stable. The filters are proved to select exactly the materials that pass
  every active filter, keeping the fetched order.
- **Vote, report and delete bookkeeping.** This covers:
  - the already-voted guard;
  - the detail page's record update (`MaterialDetail.RecordVote`), which keeps
    `upvotes + downvotes - |voted|` fixed;
  - the card's `onVote` report;
  - the three list pages' `map`-with-spread updates (`ListVotes`);
  - the report guards with ECMAScript `trim`;
  - removal from the my-materials list.

  Service calls are a boolean parameter, `callSucceeds`: whether the call
  returned or threw.
- **Input validation.** This covers the upload schema and PDF check
  (`UploadForm`), and the profile dialog's image check and its
  changed-fields-only update (`EditProfile`).
- **Points and initials.** This covers the points-to-rank classification
  (`ProfileInfo`), the profile page's badge grid and progress cap
  (`ProfilePage`), and `getInitials` (`Initials`). `getInitials` models
  `split(' ')`, `part[0]` on empty parts, `join`, ASCII `toUpperCase` and
  `substring(0, 2)`. It is proved equal to an independent "first character of
  every word" definition.

Timestamps are abstract integers and strings are `seq<char>`. Case mapping is
ASCII, and lengths are sequence lengths.

## Model

| member | source | states |
|---|---|---|
| Types.ParseCategory | src/types/index.ts:23 | a string parses to a category exactly when it is one of the five category literals, and the parse inverts the literal map |
| Types.ParseYear | src/types/index.ts:24 | a string parses to a year exactly when it is one of '1st Year'..'4th Year', inverting the literal map |
| Types.ParseStatus | src/types/index.ts:41 | a string parses to a report status exactly when it is pending, reviewed or resolved |
| Types.EnumNamesInjective | src/types/index.ts:23-41 | distinct categories, years and statuses have distinct literals, so each value is exactly one of them |
| Text.Lower | src/pages/Materials.tsx:51-55 | `toLowerCase` keeps the length and lower-cases every character |
| Text.Upper | src/components/Profile/ProfileInfo.tsx:24 | `toUpperCase` keeps the length and upper-cases every character |
| Text.ContainsLower | src/pages/Materials.tsx:54-55 | a substring stays a substring after both strings are lower-cased |
| Text.TrimEmptyIffBlank | src/components/Materials/MaterialCard.tsx:86 | `trim()` gives '' exactly when every character is ECMAScript white space or a line terminator |
| Seqs.Filter | src/pages/MyMaterials.tsx:62 | `filter` returns only elements of the input that pass, every passing element, and is no longer than the input |
| Seqs.FilterKeepsOrder | src/pages/Materials.tsx:52-66 | a filtered list is an order-preserving subsequence holding each passing element as often as the input and no failing one |
| Seqs.FilterThenFilter | src/pages/Materials.tsx:50-67 | two successive filters equal one filter by the conjunction |
| Seqs.FilterAllPass | src/pages/Materials.tsx:50 | a filter every element passes returns the list unchanged |
| StableSort.SortCorrect | src/pages/Materials.tsx:70-82 | the stable sort returns a permutation in non-decreasing key order, and elements of equal key keep their input order |
| MaterialCard.UploaderName | src/components/Materials/MaterialCard.tsx:47-52 | a bare uploader id shows 'Unknown User'; an uploader object shows its name, even an empty one |
| MaterialCard.HandleVote | src/components/Materials/MaterialCard.tsx:54-78 | refused without a service call exactly when not logged in or already voted; `onVote` is called only after the call returns, with `upvotes + 1` for an up-vote and the unchanged `upvotes` for a down-vote |
| MaterialCard.ButtonsDisabledIffRefused | src/components/Materials/MaterialCard.tsx:150-160 | while no vote is in flight, the vote buttons' `disabled` condition (`VoteButtonsDisabled`, built on the `voted.includes(user._id)` test `HasUserVoted` of line 40) holds exactly when a click would be refused |
| MaterialCard.HandleReport | src/components/Materials/MaterialCard.tsx:80-102 | refused when not logged in or the trimmed reason is empty; the untrimmed reason is sent otherwise; success clears the reason and closes the dialog; every other outcome keeps them |
| MaterialCard.EnabledReportIsNotBlank | src/components/Materials/MaterialCard.tsx:200 | the submit button (`ReportButtonDisabled`) is enabled exactly when a logged-in report would pass the blank-reason check |
| MaterialDetail.RecordVote | src/pages/MaterialDetail.tsx:76-84 | a confirmed vote raises exactly the chosen counter by one and appends exactly the voter id; no other field changes, so up-votes plus down-votes minus the length of `voted` is preserved |
| MaterialDetail.HandleVote | src/pages/MaterialDetail.tsx:58-92 | refused without a call when the material is absent, the user is logged out, or the user's id is in `voted`; a failing call leaves the material; success applies `RecordVote` with the user's id, or '' without a user |
| MaterialDetail.RepeatVoteRefused | src/pages/MaterialDetail.tsx:64-82 | after a signed-in user's confirmed vote, the same user's next vote on the page is refused as already voted |
| MaterialDetail.UploaderName | src/pages/MaterialDetail.tsx:149-151 | a bare id or an empty name shows 'Unknown User', otherwise the object's name |
| MaterialDetail.UploaderNamesAgree | src/pages/MaterialDetail.tsx:149-151 | the detail page and the card show the same uploader name exactly unless the uploader object's name is empty |
| MaterialDetail.HandleReport | src/pages/MaterialDetail.tsx:94-116 | with no material loaded the report is refused like a missing login and nothing is sent; the reason is sent exactly when the service is called; otherwise the card's report rules apply |
| ListVotes.ApplyListVote | src/pages/MyMaterials.tsx:47-56 | the list update keeps the length and every other entry; matching entries take the new up-vote count and one more `voted` id at the end, all else unchanged |
| ListVotes.ListVoteBalance | src/components/Materials/MaterialCard.tsx:70 | on an updated list entry, up-votes plus down-votes minus the length of `voted` moves by the change in up-votes minus one |
| ListVotes.ApplyTypedListVote | src/pages/MaterialDetail.tsx:78-83 | corrected list update: matching entries get the detail page's `RecordVote`, and every entry's balance is preserved |
| MyMaterials.HandleVote | src/pages/MyMaterials.tsx:45-57 | only entries with the id change: new up-vote count and the user's id (or '') appended |
| MyMaterials.ListDownvoteIsLost | src/pages/MyMaterials.tsx:47-55 | a confirmed down-vote from a card leaves the entry's down-votes unchanged and its balance one lower, where the detail page's rule counts it |
| MyMaterials.HandleDelete | src/pages/MyMaterials.tsx:59-68 | a throwing call keeps the list; otherwise no entry with the id remains and every other entry stays, as often and in the same order |
| ProfileInfo.DetermineBadge | src/components/Profile/ProfileInfo.tsx:29-34 | Scholar for at least 100 points, Expert for 50 to 99, Contributor for 20 to 49, Newcomer below 20 |
| ProfileInfo.DetermineBadgeMonotone | src/components/Profile/ProfileInfo.tsx:29-34 | more points never give a lower rank |
| ProfileInfo.ShownBadge | src/components/Profile/ProfileInfo.tsx:36 | the card's badge is the rank of the user's points, and 0 points give Newcomer |
| ProfileInfo.AvatarInitials | src/components/Profile/ProfileInfo.tsx:19-26 | the card's avatar shows the upper-cased first characters of the first two words, at most two characters, and nothing for an empty name |
| ProfilePage.HandleVote | src/pages/Profile.tsx:47-59 | only entries with the id change: new up-vote count and the user's id (or '') appended |
| ProfilePage.ShownPoints | src/pages/Profile.tsx:125 | the shown total, `user?.points` with the fallback 0, is a signed-in user's points unchanged, and 0 without a user |
| ProfilePage.EarnedBadges | src/pages/Profile.tsx:144-184 | Contributor, Expert and Scholar are earned exactly at 20, 50 and 100 shown points; Scholar implies Expert implies Contributor |
| ProfilePage.CardBadgeMatchesGrid | src/pages/Profile.tsx:144-184 | the profile card's rank, and so its label, is the highest badge the grid marks earned, or Newcomer when none is |
| ProfilePage.ProgressWidth | src/pages/Profile.tsx:130 | the points bar never exceeds 100 and equals the points below that |
| Initials.SplitRoundTrip | src/components/Profile/ProfileInfo.tsx:21 | `split(' ')` loses nothing: joining the parts with spaces gives the name back, and no part holds a space |
| Initials.FirstCharsAreWordStarts | src/components/Profile/ProfileInfo.tsx:21-23 | the first characters of the split parts are exactly the characters that start a word, empty parts giving none |
| Initials.GetInitialsSpec | src/components/Profile/ProfileInfo.tsx:19-26 | `getInitials` (`Initials.GetInitials`: split, first characters, join, upper-case, first two) is the first two upper-cased word-start characters, so at most two characters |
| Initials.BlankNameNoInitials | src/components/Layout/Navbar.tsx:23-25 | a name of only spaces, or the empty name, gives '' |
| Initials.SingleWordInitial | src/components/Layout/Navbar.tsx:24-27 | a name without spaces gives exactly its upper-cased first character |
| Initials.AvatarText | src/components/Profile/EditProfileDialog.tsx:125 | an empty name shows 'U', otherwise the initials, at most two characters |
| Navbar.AvatarFallback | src/components/Layout/Navbar.tsx:65 | no user or an empty name shows 'U', otherwise the user's initials, at most two characters |
| EditProfile.InitialForm | src/components/Profile/EditProfileDialog.tsx:28-31 | the form starts from the stored name and the stored bio, or '' without one |
| EditProfile.HandleInputChange | src/components/Profile/EditProfileDialog.tsx:35-38 | the edited input takes the new value and the other keeps its own |
| EditProfile.HandleImageChange | src/components/Profile/EditProfileDialog.tsx:40-64 | an image is accepted exactly when its type starts with 'image/' and it has at most 2·1024·1024 bytes; each verdict (no file, not an image, too large, accepted) is stated exactly; a rejection keeps the earlier selection |
| EditProfile.UpdateData | src/components/Profile/EditProfileDialog.tsx:75-79 | the update holds the name exactly when it differs from the stored name, the bio exactly when it differs from the stored bio, and the selected picture |
| EditProfile.HandleSubmit | src/components/Profile/EditProfileDialog.tsx:66-96 | an empty name is blocked by the input's `required` attribute (line 154) before `handleSubmit` runs; no user does nothing; an empty update closes the dialog without a call; otherwise the changed fields are sent, and the dialog closes exactly when there is nothing to send or the call succeeds |
| EditProfile.UntouchedFormUpdate | src/components/Profile/EditProfileDialog.tsx:78 | submitting the untouched form sends nothing when a bio is stored, but always sends bio '' when none is |
| EditProfile.DialogAvatar | src/components/Profile/EditProfileDialog.tsx:125 | the dialog's avatar shows 'U' for an empty name and `getInitials` of the name otherwise, at most two characters |
| UploadForm.SchemaEnumsMatchTypes | src/components/Materials/UploadMaterialForm.tsx:35-42 | the schema's category and year enumerations accept exactly the literals of the record types |
| UploadForm.IssuesAreFailures | src/components/Materials/UploadMaterialForm.tsx:32-44 | the schema reports exactly the checks the values fail |
| UploadForm.ValidIff | src/components/Materials/UploadMaterialForm.tsx:32-44 | values pass exactly when the title has 3 to 100 characters, the description 10 to 500, the category and year are listed, and a file is set |
| UploadForm.InitialStateIssues | src/components/Materials/UploadMaterialForm.tsx:55-63 | the defaults 'Previous Year Papers' and '1st Year' pass, and the empty title, description and file are the only failures |
| UploadForm.HandleFileChange | src/components/Materials/UploadMaterialForm.tsx:65-91 | a file is accepted exactly when its type is 'application/pdf' and it has at most 10·1024·1024 bytes; acceptance sets both the selection and the form value; anything else leaves the state |
| UploadForm.SetField | src/components/Materials/UploadMaterialForm.tsx:133-211 | a text or select change sets only that value and never the file |
| UploadForm.Submit | src/components/Materials/UploadMaterialForm.tsx:93-118 | the schema runs first; then a missing selection aborts; otherwise the payload is title, description, category, year, file in that order, and success navigates away |
| UploadForm.NoFileBranchUnreachable | src/components/Materials/UploadMaterialForm.tsx:94-97 | while the selection and the form value agree, the no-file branch is never reached because the schema already rejects a missing file |
| UploadForm.RejectedFileKeepsSubmit | src/components/Materials/UploadMaterialForm.tsx:70-79 | a rejected file changes nothing that submitting depends on |
| MaterialFilters.HandleFilterChange | src/components/Materials/MaterialFilters.tsx:71-75 | the named field takes the value, the other three keep theirs, and the callback receives exactly the stored state |
| MaterialFilters.MenusCoverEnums | src/components/Materials/MaterialFilters.tsx:27-42 | 'All Categories' and 'All Years' store ''; every other entry is a listed category or year, each appears, and each is labelled by its value |
| MaterialFilters.DebounceFire | src/components/Materials/MaterialFilters.tsx:61-69 | given the filters the timer reads, the typed search is passed on exactly when it differs from their search, and the result is those filters with the new search |
| MaterialFilters.DebounceSettles | src/components/Materials/MaterialFilters.tsx:61-69 | given the filters the timer reads, a second firing with the same text passes nothing on, and firing keeps those filters' menu fields |
| MaterialsPage.ParseSort | src/pages/Materials.tsx:70-82 | 'newest', 'oldest' and 'popular' select their sort; any other value selects none |
| MaterialsPage.ComparatorIsKeyDifference | src/pages/Materials.tsx:72-78 | each comparator is a difference of keys, so it swaps exactly when the left key is larger |
| MaterialsPage.VerbatimHitFound | src/pages/Materials.tsx:51-56 | a term occurring verbatim in the title or description is found by the case-insensitive search |
| MaterialsPage.BySearchIsFilter | src/pages/Materials.tsx:50-57 | the search step (`BySearch`) equals a filter whose test passes on an empty search |
| MaterialsPage.ByCategoryIsFilter | src/pages/Materials.tsx:60-62 | the category step (`ByCategory`) equals a filter whose test passes on an empty category |
| MaterialsPage.ByYearIsFilter | src/pages/Materials.tsx:65-67 | the year step (`ByYear`) equals a filter whose test passes on an empty year |
| MaterialsPage.FilteredIsConjunction | src/pages/Materials.tsx:47-67 | the three filter steps (`Filtered`) equal one filter by the conjunction of the active tests |
| MaterialsPage.FilteredSpec | src/pages/Materials.tsx:47-67 | the filtered list holds exactly the fetched materials passing every active filter, as often as fetched and in fetched order |
| MaterialsPage.EmptyFiltersKeepAll | src/pages/Materials.tsx:50-66 | empty search, category and year keep the whole fetched list |
| MaterialsPage.SortOptionsAreModes | src/components/Materials/MaterialFilters.tsx:44-56 | the three sort options select newest, oldest and popular, and the initial sort is newest |
| MaterialsPage.ListingSelects | src/pages/Materials.tsx:47-82 | the shown list (`Listing`: the filtered list sorted by the chosen comparator) is a permutation of the filtered list and holds exactly the fetched materials passing the filters |
| MaterialsPage.ListingOrder | src/pages/Materials.tsx:70-82 | newest gives non-increasing creation times, oldest non-decreasing, popular non-increasing up-votes; an unknown sort keeps the filtered order |
| MaterialsPage.ListingStable | src/pages/Materials.tsx:72-78 | materials that tie under the chosen sort keep their filtered order |
| MaterialsPage.RecomputeShown | src/pages/Materials.tsx:43-85 | with an empty fetched list the shown list is untouched; otherwise it becomes the filtered, sorted listing |
| MaterialsPage.SortInPlace | src/pages/Materials.tsx:72-78 | sorting the array in place leaves the stable sort of its old contents by the comparator's key |
| MaterialsPage.InsertLast | src/pages/Materials.tsx:72-78 | one insertion pass places the last element after every element of no larger key and shifts the rest right |
| MaterialsPage.HandleVote | src/pages/Materials.tsx:91-106 | both the fetched and the shown list take the new up-vote count and the literal 'user-voted' on matching entries only |
| MaterialsPage.MarkerAllowsRevote | src/pages/Materials.tsx:98 | after a confirmed vote from this page the voter's id is not in `voted`, so the same user's next vote passes the guard |
| MaterialsPage.HandleVoteForUser | src/pages/Materials.tsx:91-106 | corrected update: both lists record the user's id (or '') on matching entries only |
| MaterialsPage.RecordedVoterBlocksRevote | src/pages/Materials.tsx:98 | with the corrected update the same user's next vote is refused as already voted, in both lists |

## Left out

- Network I/O through `materialsService` and `authService` (src/services/api.ts is not part of this model). Each call is a `callSucceeds` parameter; the server's responses, its already-voted check, its points bookkeeping and its authorisation are not modelled.
- Toasts, console output, navigation, loading flags, error message strings, and `FileReader` previews. Of the in-flight flags, `isVoting` and `isReporting` are modelled only in the `disabled` conditions (`MaterialCard.VoteButtonsDisabled`, `MaterialCard.ReportButtonDisabled`); `isSubmitting` and the submit buttons' `disabled={isSubmitting}` are not modelled at all.
- React scheduling: effects, state batching and stale closures over `materials` in the vote handlers. Each handler is a function of the state it reads.
- The debounce timer itself (`setTimeout` and `clearTimeout`): only its compare-and-propagate step is modelled.
- MaterialFilters.DebounceSettles: the timer callback is created when `searchInput` changes and reads the filters captured at that keystroke, so a menu change made during the 300 ms delay is lost when it fires (the stored record is overwritten with the captured menu values). The model's `DebounceFire` takes the filters the timer reads as its argument and does not model which render captured them.
- The fetch effect of the listing page, which stores the service's response in both lists.
- Dates: `new Date(createdAt).getTime()` is an abstract integer. Malformed dates (NaN comparisons) and `formatDistanceToNow` are not modelled.
- ProfilePage.ProgressWidth: floating-point arithmetic is not modelled. Only the integer cap `Math.min(100, points)` is kept, and the MB display of the upload form is not modelled at all.
- Text.Lower, Text.Upper: only ASCII is mapped. Unicode case mapping, including mappings that change the length, is not modelled. Lengths are sequence lengths, standing for UTF-16 code units.
- Data that breaks the declared types: an uploader object without `name`, a user without `points`, a category or year outside its union. The datatypes rule these out.
- `handleDeleteClick` and the card's delete button: they only forward to an optional `onDelete` and swallow its error. The my-materials page renders its cards without `onDelete`, so `MyMaterials.HandleDelete` is not reachable from its UI.
- The navigation bar's links and mobile-menu toggle, and the login form and pages that hold no logic.
- The client never adopts the server's vote response; it updates locally. Only the detail page's update keeps `upvotes + downvotes - |voted|` fixed (`MaterialDetail.RecordVote`); the list pages' updates do not (`ListVotes.ListVoteBalance`).

## Findings

| source | as written | input that shows it | evidently intended | confidence | as-written member | corrected member |
|---|---|---|---|---|---|---|
| src/pages/Materials.tsx:98 | a confirmed vote appends the literal 'user-voted' to `voted` | a signed-in user with id 'u1' up-votes a material on the listing page; the card's guard then checks 'u1' in `voted`, finds it absent, and lets 'u1' vote again | append the user's id, as the detail, profile and my-materials pages do | not executed | MaterialsPage.MarkerAllowsRevote | MaterialsPage.RecordedVoterBlocksRevote |
| src/components/Materials/MaterialCard.tsx:70 | the card reports only the up-vote count, so a list page records a down-vote as an unchanged `upvotes` plus one `voted` id | a confirmed down-vote on a material with upvotes 3, downvotes 1, voted of length 4: the list entry becomes upvotes 3, downvotes 1, voted of length 5 | count the down-vote, as the detail page's update does | not executed | MyMaterials.ListDownvoteIsLost | ListVotes.ApplyTypedListVote |
