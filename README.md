# TubeSurf front end: word filter, description and count display, comment cards

A Dafny model of the logic in the TubeSurf React front end. The dashboard shows a
YouTube video's statistics and analyses its comments. Three components hold that logic:

- **VideoCommentsAnalysis**: the comment-analysis panel. The panel fetches a summary
  once. It draws a bar chart of the summary's word frequencies and lists the
  top-rated comments. Clicking a bar filters the list down to the comments that
  contain that word as a whole word, ignoring case. Clicking the selected word
  again, or pressing "Clear Filter", restores the full list. The selected word's
  bar is drawn in the highlight colour.
- **VideoPlayer**: the player panel. The description is cut at its first blank
  line (`"\n\n"`). It is collapsed to 300 characters plus `"... "` until
  expanded. The view, like and comment counts are shown with thousands separators.
- **CommentListItem**: a comment card. The same 300-character collapse applies to
  the comment's decoded text, with a show-more/show-less control.

Files:

- `js_text.dfy` (module `JsText`): `Option`, the regular-expression classes `\w`
  and `\d`, the assertion `\b`, ASCII lower-casing and `indexOf`.
- `truncation.dfy` (module `Truncation`): the collapse-or-expand rule and the
  control's label. Both components use it.
- `video_comments_analysis.dfy` (module `VideoCommentsAnalysis`):
  - the whole-word search;
  - the filter, with its order-preserving-subsequence proof;
  - the toggle, as a pure function;
  - the bar colours;
  - the class `AnalysisView`, holding the panel's React state
    (`initialCommentsSummary`, `loading`, `filteredComments`, `selectedWord`).
    Its methods are tied to the pure functions.
- `video_player.dfy` (module `VideoPlayer`):
  - the description trimming;
  - the thousands-separator regular expression, modelled for any string. It is
    proved equal, on digit strings, to an independent reference grouping.
  - the class `PlayerView` with its `descExpanded` flag.
- `comment_list_item.dfy` (module `CommentListItem`): the class `CommentCard`
  with its `expanded` flag. The list keys its cards by position, so a card
  keeps its flag when a different comment lands at its position.

Behaviours kept as the code has them:

- **Selecting the same word twice does not always clear the filter.** The first
  pick clears the filter, and the second selects the word again. If the word was
  already selected before the two picks, the panel ends with that word selected
  and the list filtered. From any other state it ends with no selection and the
  full list. `ToggleTwice` states both cases.
- **A new summary keeps the old selected word.** When the summary for a new video
  arrives, `filteredComments` becomes the new full list. `selectedWord` is not
  reset. So the panel can show "Filtering by" a word while it lists every comment.
  Once a summary is loaded, `AnalysisView.Valid` promises three things. The
  summary's keys are distinct. The list shown is an order-preserving subsequence
  of the summary's list. And it is the whole list while nothing is selected. It
  does not promise that the list always equals the filter of the selected word.
- **Key order.** The chart's words are `Object.keys(wordsFrequency)`. The model
  takes the frequency object as its keys in enumeration order. This is the order
  JavaScript gives, which puts integer-like keys first.
- **No pagination or sentiment jobs.** The source has no paginated comment feed,
  sentiment-job submission or polling. The sentiment column is a static
  placeholder at `src/components/videoStats/VideoCommentsAnalysis.js:26-31`.
  None of these is modelled.

## Model

| member | source | states |
|---|---|---|
| `JsText.IndexOf` | src/components/videoStats/VideoPlayer.js:24 | `indexOf` returns -1 exactly when the pattern does not occur; otherwise it returns an occurrence with no earlier one |
| `Truncation.Clip` | src/components/videoStats/CommentListItem.js:29-31 | an expanded or short text is shown whole; a long collapsed one is its first `limit` characters followed by `"... "`, `limit + 4` long; a collapsed display is never longer than `limit + 4` |
| `Truncation.ClipShowsAPrefix` | src/components/videoStats/VideoPlayer.js:38-40 | the display is the text itself, or a prefix of the text followed by the ellipsis |
| `Truncation.ToggleLabel` | src/components/videoStats/CommentListItem.js:32-39 | the control exists exactly for a long text; it reads " show less" when expanded and " show more..." when collapsed |
| `VideoCommentsAnalysis.Words` | src/components/videoStats/VideoCommentsAnalysis.js:101 | one label per key of `wordsFrequency`, in key order; the labels of a well-formed summary are pairwise distinct |
| `VideoCommentsAnalysis.FirstMatchFrom` | src/components/videoStats/VideoCommentsAnalysis.js:88-89 | the search returns the leftmost index at or after `from` where `\b<word>\b` matches ignoring case, or None when no index matches |
| `VideoCommentsAnalysis.LowerCasedPatternFindsWord` | src/components/videoStats/VideoCommentsAnalysis.js:88 | with ASCII lower-casing, lower-casing the word before building the pattern changes nothing under the `i` flag: the leftmost-match search for the lower-cased pattern succeeds exactly when the word as given occurs as a whole word, ignoring ASCII case |
| `VideoCommentsAnalysis.RegexTest` | src/components/videoStats/VideoCommentsAnalysis.js:88-89 | the regex test built from `word.toLowerCase()` with the `i` flag succeeds exactly when the word occurs in the text, case-insensitively, with a word boundary on both sides |
| `VideoCommentsAnalysis.IsKept` | src/components/videoStats/VideoCommentsAnalysis.js:85-89 | the filter callback keeps a comment exactly when it has non-empty text that contains the word as a whole word, ignoring case |
| `JsText.LowerAsciiString` | src/components/videoStats/VideoCommentsAnalysis.js:88 | the ASCII lower-casing that stands for `toLowerCase`: it keeps the length and lower-cases each ASCII capital in place, leaving every other character alone |
| `VideoCommentsAnalysis.FilterByWord` | src/components/videoStats/VideoCommentsAnalysis.js:85-90 | a comment is in the filtered list exactly when it is in the full list and is kept (non-empty text containing the word); the list is never longer than the full list |
| `VideoCommentsAnalysis.FilterSelectsKeptComments` | src/components/videoStats/VideoCommentsAnalysis.js:85-92 | the filtered list consists of the comments at strictly increasing positions of the full list, and a position is taken exactly when the callback keeps its comment |
| `VideoCommentsAnalysis.FilterIsSubsequence` | src/components/videoStats/VideoCommentsAnalysis.js:85-92 | the filtered list is an order-preserving subsequence of `topRatedComments` |
| `VideoCommentsAnalysis.FilteredCommentsHaveText` | src/components/videoStats/VideoCommentsAnalysis.js:86 | no comment with missing or empty text is ever in a filtered list |
| `VideoCommentsAnalysis.ToggleWord` | src/components/videoStats/VideoCommentsAnalysis.js:81-93 | picking the selected word clears the selection and restores the full list; picking another word selects it and shows exactly `FilterByWord` of the full list, whose members are the comments containing the word |
| `VideoCommentsAnalysis.ToggleLeavesSubsequence` | src/components/videoStats/VideoCommentsAnalysis.js:81-94 | after either branch the list is an order-preserving subsequence of the full list, no longer than it |
| `VideoCommentsAnalysis.ToggleTwice` | src/components/videoStats/VideoCommentsAnalysis.js:81-94 | picking a word twice ends with no selection and the full list, unless the word was already selected, in which case it ends selected with the filtered list |
| `VideoCommentsAnalysis.BarColours` | src/components/videoStats/VideoCommentsAnalysis.js:120-125 | one colour per bar; a bar gets the highlight colour exactly when its word is the selected word, and the normal colour otherwise |
| `VideoCommentsAnalysis.OneBarHighlighted` | src/components/videoStats/VideoCommentsAnalysis.js:120-125 | with distinct keys at most one bar is highlighted, and one is exactly when the selected word is one of the chart's words |
| `VideoCommentsAnalysis.AnalysisView.constructor` | src/components/videoStats/VideoCommentsAnalysis.js:37-40 | on mount nothing is loaded, `loading` is set, the list is empty and nothing is selected |
| `VideoCommentsAnalysis.AnalysisView.ReceiveSummary` | src/components/videoStats/VideoCommentsAnalysis.js:61-71 | a received summary is stored and its full list shown; a `null` payload clears the stored summary and leaves the list shown; a failed fetch changes neither; `loading` ends false; the selected word is kept in every case |
| `VideoCommentsAnalysis.AnalysisView.FilterCommentsByWord` | src/components/videoStats/VideoCommentsAnalysis.js:78-95 | before a summary is loaded nothing changes; afterwards the new selection and list are `ToggleWord` of the old ones, and the invariant is kept |
| `VideoCommentsAnalysis.AnalysisView.HandleBarClick` | src/components/videoStats/VideoCommentsAnalysis.js:98-105 | a click on no bar changes nothing; a click on bar i toggles the i-th key of `wordsFrequency` |
| `VideoCommentsAnalysis.AnalysisView.ClearFilter` | src/components/videoStats/VideoCommentsAnalysis.js:179-185 | "Clear Filter", rendered only while a non-empty word is selected, leaves no selection and the full list |
| `VideoCommentsAnalysis.AnalysisView.ChartColours` | src/components/videoStats/VideoCommentsAnalysis.js:120-125 | exactly the bar whose word equals the current `selectedWord` gets the highlight colour `#ff6384`; every other bar gets `#36A2EB` |
| `VideoPlayer.TrimDescription` | src/components/videoStats/VideoPlayer.js:20-29 | a missing description trims to ""; the result is a prefix of the input; without `"\n\n"` it is the whole input; otherwise it ends exactly at the first `"\n\n"`; it never contains `"\n\n"` |
| `VideoPlayer.TrimIdempotent` | src/components/videoStats/VideoPlayer.js:20-29 | trimming a trimmed description returns it unchanged |
| `VideoPlayer.DisplayDescription` | src/components/videoStats/VideoPlayer.js:36-40 | a trimmed description of at most 300 characters, or an expanded one, is shown as is; otherwise the first 300 characters plus `"... "`, 304 in all |
| `VideoPlayer.SeparatorAt` | src/components/videoStats/VideoPlayer.js:68 | the regular expression matches the empty string at a position exactly when `\B` holds there and the lookahead, read literally, holds there |
| `VideoPlayer.GroupThousands` | src/components/videoStats/VideoPlayer.js:68 | removing the commas from the output gives the same string as removing them from the input, for every string |
| `VideoPlayer.LookaheadIsWholeGroups` | src/components/videoStats/VideoPlayer.js:68 | the lookahead `(?=(\d{3})+(?!\d))` holds at a position exactly when the digit run starting there is a non-zero multiple of three long |
| `VideoPlayer.NoSeparatorAtStart` | src/components/videoStats/VideoPlayer.js:68 | the regular expression never matches before the first character |
| `VideoPlayer.SeparatorInDigits` | src/components/videoStats/VideoPlayer.js:68 | in a digit string a comma goes exactly before the interior positions whose distance from the end is a multiple of three |
| `VideoPlayer.ShortCountUnchanged` | src/components/videoStats/VideoPlayer.js:68 | strings of at most three characters are shown unchanged |
| `VideoPlayer.GroupMatchesReference` | src/components/videoStats/VideoPlayer.js:68 | on digit strings the regex replacement equals the reference grouping that splits three digits off the end at a time |
| `VideoPlayer.GroupSplitsOffLastGroup` | src/components/videoStats/VideoPlayer.js:68 | the replacement on a digit string longer than three is the replacement on all but the last three digits, a comma, and those three digits |
| `VideoPlayer.ReferenceGroupShape` | src/components/videoStats/VideoPlayer.js:68 | the reference grouping of a non-empty digit string is well formed |
| `VideoPlayer.GroupThousandsShape` | src/components/videoStats/VideoPlayer.js:78-80 | the grouped output of a non-empty digit string has only digits and commas, no leading or trailing comma, exactly three digits after each comma before the next comma or the end, and a leading group of one to three digits |
| `VideoPlayer.FormatCount` | src/components/videoStats/VideoPlayer.js:90-92 | a displayed digit count is well formed and gives back the count when its commas are removed |
| `VideoPlayer.PlayerView.constructor` | src/components/videoStats/VideoPlayer.js:10 | the description starts collapsed |
| `VideoPlayer.PlayerView.IsLong` | src/components/videoStats/VideoPlayer.js:37 | long exactly when the trimmed description exceeds 300 characters |
| `VideoPlayer.PlayerView.Displayed` | src/components/videoStats/VideoPlayer.js:38-40 | a short or expanded description shows the trimmed text; a long collapsed one shows the first 300 characters of the trimmed text followed by `"... "`, 304 characters in all |
| `VideoPlayer.PlayerView.ControlLabel` | src/components/videoStats/VideoPlayer.js:49-57 | the show-more/show-less control is present exactly for a long description; it reads " show less" when expanded and " show more..." when collapsed |
| `VideoPlayer.PlayerView.ToggleDescription` | src/components/videoStats/VideoPlayer.js:53 | the click flips `descExpanded` |
| `CommentListItem.CommentCard.constructor` | src/components/videoStats/CommentListItem.js:8 | a card starts collapsed |
| `CommentListItem.CommentCard.IsLong` | src/components/videoStats/CommentListItem.js:10 | a card is long exactly when its decoded text exceeds 300 characters |
| `CommentListItem.CommentCard.ShownText` | src/components/videoStats/CommentListItem.js:29-31 | a long collapsed card shows the first 300 characters followed by `"... "`; a short or expanded card shows the whole decoded text |
| `CommentListItem.CommentCard.ControlLabel` | src/components/videoStats/CommentListItem.js:32-39 | the control is present only on a long card and reads " show less" when expanded, " show more..." otherwise |
| `CommentListItem.CommentCard.ToggleExpand` | src/components/videoStats/CommentListItem.js:12 | `toggleExpand` flips `expanded` and leaves the text alone |
| `CommentListItem.CommentCard.ReceiveComment` | src/components/videoStats/VideoCommentsAnalysis.js:200-201 | the cards are keyed by list position, so when the filtered list changes a card is handed the comment now at its position and keeps its `expanded` state: the new text is shown collapsed or whole as the old one was |
| `CommentListItem.ToggleTwice` | src/components/videoStats/CommentListItem.js:12 | toggling twice restores `expanded` and the text shown |

## Left out

- Network requests are not modelled: the summary POST (`src/components/videoStats/VideoCommentsAnalysis.js:42-75`) and the video-details and search fetches in the other components. Their outcome is a parameter of `AnalysisView.ReceiveSummary`.
- `VideoCommentsAnalysis.AnalysisView.ReceiveSummary`: a payload that has `wordsFrequency` but no `topRatedComments` is not modelled; a summary always carries a list. In the source such a payload is stored while the old list stays shown, and the filter then throws on the missing list at `src/components/videoStats/VideoCommentsAnalysis.js:85`, or, after the selected word is picked again, the render throws at line 195. (A JSON `null` payload is modelled: the summary is cleared, "No data found" is rendered, and a filter returns at once.)
- `VideoCommentsAnalysis.RegexTest`: letters are case-folded for ASCII only. For a word of ASCII characters this is exactly what the `i` flag does without the `u` flag. Words with non-ASCII letters would also match their other-case forms in JavaScript, and the model does not capture that.
- `JsText.LowerAsciiString`: lower-cases ASCII capitals only, and with it `VideoCommentsAnalysis.LowerCasedPatternFindsWord` holds only for ASCII lower-casing. JavaScript's `toLowerCase` also lower-cases non-ASCII capitals (`'Ä'` to `'ä'`, `U+1E9E` to `'ß'`) and can lengthen the string (`U+0130`). The non-unicode `i` flag does not undo every such change, so for some non-ASCII words JavaScript's lower-cased pattern stops matching the word as given (the word `"MAẞSTAB"` does not find the text `"MAẞSTAB"`), while the model finds it.
- `VideoCommentsAnalysis.AnalysisView.FilterCommentsByWord`: requires that a newly selected word contain no regular-expression metacharacter. The source splices the word into the pattern unescaped, so such a word would change the pattern's meaning or throw.
- `VideoCommentsAnalysis.AnalysisView.HandleBarClick`: requires the reported index to be a bar's index and a summary to be loaded. The chart is drawn only once a summary is loaded, and it reports only existing bars.
- `Truncation.Clip`: lengths count Unicode scalar values. JavaScript counts UTF-16 code units, so texts with characters outside the Basic Multilingual Plane are cut at a different place.
- `VideoPlayer.FormatCount`: takes the count as the decimal string the statistics API sends. A missing count, on which `toString` would throw, is not modelled.
- HTML-entity decoding (`he.decode`, `src/components/videoStats/CommentListItem.js:9`) is a library call. The card takes the decoded text as its input.
- Date formatting (`src/utils/Utils.js`, `src/components/VideoSearch.js`) is not modelled. It depends on the `Date` object and the local time zone.
- Chart.js registration and options, the embedded YouTube player, the loading and "No data found" screens, the comment count header and all markup are rendering only.
- `VideoCommensAnalysis.js`, `SentimentAnalysis.js`, `VideoDisplayWrapper.js`, `VideoDetails.js`, `VideoSearch.js`, `TubeSurfMain.js` and `App.js` are not part of this model. They are rendering, fetching or trivial state.
