# magit-atom core, modelled in Dafny

magit-atom is an Atom package that shows a Magit-style status report for a
git repository. This project models the logic under that report that does
not depend on Atom:

- the section fold tree of the report (`FoldInfo` / `FoldManager`);
- the line parsers that read `git status`, `git log --oneline
  --decorate=full`, `git diff`, `git stash list` and `git describe` output;
- the parsers of the rebase sequencer files and the arguments of `git log`;
- the column layout of the key-binding popup.

Each part is proved against a specification. The parsers that update an
object field by field (`GitStatus.append`, `GitLog.parseOneLine`,
`GitDiff.append`) are classes whose methods change their fields. Each
method's postcondition says the new state is a pure function (`Step`,
`ParseOneLineOf`, ...) of the old state and the line. Lemmas then state what
that function does to the fields.

Files and modules:

| file | module | models |
|---|---|---|
| `JsString.dfy` | `JsString` | JavaScript `indexOf`, `substring`, `split`, `padEnd` and `parseInt`, with their ECMAScript behaviour on out-of-range and missing arguments, lengths counted in characters (see "Left out"); `parseInt` returns `Option<int>`, `None` being NaN |
| `FoldManager.dfy` | `FoldTree` | `lib/fold-manager.js`: `FoldInfo` and `FoldManager` as classes; the host editor and gutter become a `Host` class; the tree's shape becomes a ghost `Node` value |
| `GitStatus.dfy` | `StatusParser` | `lib/git-status.js` |
| `GitLog.dfy` | `LogParser` | `lib/git-log.js` |
| `GitDiff.dfy` | `DiffParser` | `lib/git-diff.js` |
| `GitStash.dfy` | `Stash` | `lib/git-stash.js` |
| `Git.dfy` | `Git` | the string parsing in `lib/git.js` |
| `MagitPopup.dfy` | `Popup` | `update` of `lib/magit-popup.js`; the editor is seen as the list of `insertText` calls made on it |

A file that may be missing is an `Option<string>` holding its contents.
Output of a process is a `string`.

## Model

| member | source | states |
|---|---|---|
| JsString.IndexOf | lib/git-status.js:92-93 | `indexOf(t, from)`: `-1` exactly when `t` occurs nowhere at or after the clamped start; otherwise the first such position |
| JsString.Clamp | lib/git-status.js:94 | a `substring` index is brought into `[0, length]`, and an index already in range is kept |
| JsString.ClampOutside | lib/git-status.js:94 | a negative index becomes 0 and one past the end becomes the length |
| JsString.SubstringSlice | lib/git-status.js:94 | within bounds, `substring(start, end)` is the slice from `start` up to `end` |
| JsString.SubstringSwap | lib/git-status.js:94 | `substring(a, b)` equals `substring(b, a)`: reversed arguments are swapped |
| JsString.SubstringClamps | lib/git-log.js:62 | a negative start counts as 0 and an end past the length as the length, so `substring(start + 1, ...)` with `start == -1` reads from the beginning; the result is never longer than the string |
| JsString.SubstringToEnd | lib/git-stash.js:15 | `substring(start)` runs to the end of the string, and a negative start gives the whole string |
| JsString.Split | lib/git-diff.js:45 | `split` with a non-empty separator always yields at least one piece |
| JsString.SplitJoin | lib/git-diff.js:45 | joining the pieces of `split(sep)` with `sep` gives back the string |
| JsString.SplitPiecesFree | lib/git-diff.js:45 | no piece of `split(sep)` contains `sep` |
| JsString.SplitCount | lib/git-diff.js:45-46 | splitting on a character yields one more piece than the character has occurrences |
| JsString.SplitThree | lib/git-diff.js:45 | a string with two separator characters and none elsewhere splits into exactly its three parts |
| JsString.TwoSeparators | lib/git.js:375-380 | in `x c y c z`, the first two `indexOf(c)` results are where `x` and `y` end, so `substring` recovers `x`, `y` and `z` |
| JsString.FirstPiece | lib/git.js:319 | `split(sep)[0]`: a prefix of the string that contains no `sep` and ends at the string's end or at a `sep` |
| JsString.PadEnd | lib/magit-popup.js:81-82 | `padEnd(n)`: length `max(|s|, n)`, the string itself as prefix, spaces after it |
| JsString.LeadingRun | lib/git-stash.js:15 | the digits `parseInt` reads: a prefix of digits, followed by a non-digit or nothing |
| JsString.DecimalNumeral | lib/git-stash.js:15 | `parseInt` of a non-empty run of decimal digits is its value |
| JsString.NoLeadingDigit | lib/git-stash.js:15 | `parseInt` of a string starting with neither a space, a sign nor a digit is NaN |
| JsString.NatToStringRoundTrip | lib/git-stash.js:15 | `parseInt` reads back the decimal numeral of any natural number |
| JsString.ParseIntSkipsSpace | lib/git-status.js:106 | `parseInt` skips a leading white-space character, so `parseInt(" X")` is `parseInt("X")` |
| JsString.ParseIntStopsAtNonDigit | lib/git-status.js:106 | `parseInt` reads the leading digits and ignores whatever follows a non-digit (`parseInt("3 commits")` is 3), unless an `x` after a lone `0` makes the numeral hexadecimal |
| JsString.ParseInt | lib/git-stash.js:15 | no contract of its own (a contract on it would be assumed at every use); what it promises is stated by `DecimalNumeral`, `NatToStringRoundTrip`, `NoLeadingDigit`, `ParseIntSkipsSpace` and `ParseIntStopsAtNonDigit` |
| JsString.IndexOfFirst | lib/git-status.js:104 | `indexOf(t, from)` is `k` when `t` occurs at `k` and at no position from `from` up to `k` |
| JsString.FirstAfterPrefix | lib/git-status.js:104 | a two-character `t` right after a prefix that holds no `t`, and not straddling the prefix's end, is the first `indexOf(t)` |
| FoldTree.Unfolded | lib/fold-manager.js:50-51 | `unfoldBufferRow(row)` leaves no fold over the row and keeps every fold that does not contain it |
| FoldTree.FirstContaining | lib/fold-manager.js:26-35 | the child `add` and `toggle` choose: the first, in array order, whose rows contain the range (both ends inclusive); `|children|` if none does |
| FoldTree.Insert | lib/fold-manager.js:25-38 | `add` keeps the node's own range, item and marker, adds at most one child, and keeps the children's ranges |
| FoldTree.InsertSplices | lib/fold-manager.js:25-38 | `add` splices the new subtree into the tree's pre-order as one block after the root; no existing node is detached, moved or reparented |
| FoldTree.AddOneNode | lib/fold-manager.js:84-90 | adding a fresh node grows the tree by exactly one node |
| FoldTree.InsertKeepsNesting | lib/fold-manager.js:25-38 | after `add`, every non-root node still lies inside its parent's rows; the root's own range is never checked |
| FoldTree.InsertKeepsSections | lib/fold-manager.js:84-90 | `FoldManager.add` keeps every node below the root an item-and-marker section |
| FoldTree.DescendIsDeepest | lib/fold-manager.js:41-49 | the walk of `toggle` stops at the root or at a node containing the row, and none of that node's children contains it |
| FoldTree.InsertThenDescend | lib/fold-manager.js:25-49 | after `add(x)`, the walk for `x`'s range reaches the node the walk from `x` itself reaches; an identical range nests inside the existing node |
| FoldTree.ToggleTargetHasItem | lib/fold-manager.js:50-57 | on the manager's tree, `toggle` reaches a node with an item exactly when some top-level section contains the row; otherwise it reaches the root, which has none |
| FoldTree.DescendStaysInSection | lib/fold-manager.js:41-49 | the walk from a section ends at a section |
| FoldTree.FoldThenUnfold | lib/fold-manager.js:50-56 | folding a range over an unfolded row, then unfolding that row, restores the folds |
| FoldTree.Host.UnfoldBufferRow | lib/fold-manager.js:51 | the editor's folds become `Unfolded(folds, row)`; nothing else changes |
| FoldTree.Host.FoldRange | lib/fold-manager.js:54-55 | selecting the range and folding it adds exactly that range to the folds |
| FoldTree.Host.DestroyMarker | lib/fold-manager.js:21 | destroying a marker appends it to the released log |
| FoldTree.FoldInfo.constructor | lib/fold-manager.js:11-14 | a new node has its range and no children, item or marker |
| FoldTree.FoldInfo.Destroy | lib/fold-manager.js:16-23 | releases the markers of the children first, in order, then the node's own marker, if it has one |
| FoldTree.FoldInfo.Add | lib/fold-manager.js:25-38 | the new shape is `Insert(old shape, info)`; the footprint grows by `info`'s |
| FoldTree.FoldInfo.Append | lib/fold-manager.js:36 | pushes `info` as the last child |
| FoldTree.FoldInfo.AddInto | lib/fold-manager.js:33 | recurses into child `k`, which becomes `Insert(child k, info)` |
| FoldTree.FoldInfo.Toggle | lib/fold-manager.js:40-59 | at the node the walk reaches: a folded row is unfolded and the glyph becomes ▼; otherwise the node's range is folded and the glyph becomes ▶; the result is false exactly when that node has no item |
| FoldTree.FoldManager.constructor | lib/fold-manager.js:68-73 | a bare root over the buffer's whole range |
| FoldTree.FoldManager.Destroy | lib/fold-manager.js:75-77 | every marker of the tree is released, in post-order |
| FoldTree.FoldManager.Reset | lib/fold-manager.js:79-82 | releases the old tree's markers, then starts a fresh bare root over the buffer's current range |
| FoldTree.FoldManager.Add | lib/fold-manager.js:84-95 | a fresh node with glyph ▼ and a marker at its first row is inserted with `Insert` |
| FoldTree.FoldManager.Toggle | lib/fold-manager.js:97-99 | `Toggle` from the root; it succeeds exactly when some top-level section contains the row |
| FoldTree.FoldManager.Click | lib/fold-manager.js:91-93 | the click handler of a node toggles from that node at its own first row |
| StatusParser.HeaderState | lib/git-status.js:76-82 | the state a line selects: the first header, in declaration order, that starts the line; `None` exactly when none does |
| StatusParser.NextState | lib/git-status.js:76-82 | the header loop either keeps the section or moves to a section; it never moves back to "no section" |
| StatusParser.TrackedFileOf | lib/git-status.js:133-134 | the file is the tail of the line (`substring(13)`), and empty for a line of 13 characters or fewer |
| StatusParser.WithinSection | lib/git-status.js:83-159 | the `switch` never changes the section, and each of the three file lists keeps its old entries as a prefix |
| StatusParser.Step | lib/git-status.js:75-160 | `append` keeps the section or moves to a real one, and each file list keeps its old entries as a prefix |
| StatusParser.GitStatus.constructor | lib/git-status.js:40-49 | a fresh status: no section, empty branches, both counts -1, empty file lists |
| StatusParser.GitStatus.Append | lib/git-status.js:75-160 | `append(line)` moves the object to `Step(old state, line)` |
| StatusParser.GitStatus.SelectSection | lib/git-status.js:76-82 | only the section changes, to `NextState` |
| StatusParser.GitStatus.ReadInSection | lib/git-status.js:83-159 | the `switch` on the section, as `WithinSection` |
| StatusParser.GitStatus.ReadUpdateLine | lib/git-status.js:90-130 | the `update` section, as `UpdateLine` |
| StatusParser.GitStatus.ReadYourBranch | lib/git-status.js:91-120 | a `Your branch` line, as `YourBranch` |
| StatusParser.GitStatus.ReadAndHave | lib/git-status.js:121-129 | an `and have` line, as `AndHave` |
| StatusParser.YourBranch | lib/git-status.js:91-120 | a `Your branch` line changes only the upstream and the two counts |
| StatusParser.UpdateLine | lib/git-status.js:90-130 | a line in the `update` section changes only the upstream and the two counts |
| StatusParser.AndHave | lib/git-status.js:121-129 | an `and have` line changes only the two counts |
| StatusParser.StateFollowsHeaders | lib/git-status.js:76-82 | a line starting with no header keeps the section; otherwise the first matching header, in declaration order, decides it |
| StatusParser.OnBranchLine | lib/git-status.js:84-88 | `On branch NAME` selects the branch section and sets the current branch to NAME, the text from index 10 |
| StatusParser.TabLineKeepsState | lib/git-status.js:76-82 | a tab-prefixed file line never changes the section |
| StatusParser.FileLineAppends | lib/git-status.js:131-154 | in the staged or unstaged section, a tab line appends exactly one `TrackedFile` to that list; in the untracked section, it appends the line without its tab; no other list changes |
| StatusParser.ListsOnlyGrow | lib/git-status.js:75-160 | the three file lists only grow, by at most one entry in total; a line without a tab leaves them all alone |
| StatusParser.TrackedFileRoundTrip | lib/git-status.js:133-134 | a `git status` file line `\tSTATUS:` padded to 12 and then PATH reads back as `(STATUS, PATH)` |
| StatusParser.YourBranchLine | lib/git-status.js:91 | a `Your branch` line selects the update section and is read by `YourBranch` |
| StatusParser.RemoteBranchBetweenQuotes | lib/git-status.js:92-94 | the upstream is exactly the text between the first two single quotes |
| StatusParser.CountsByQuoteOffset | lib/git-status.js:97-120 | a first quote at 31 sets both counts to 0; at 22, ahead becomes 0; at 24, behind becomes 0; at any other offset, 16 included, the counts stay (the counts read at 22 and 24 are stated by `ByCounts`) |
| StatusParser.ByCounts | lib/git-status.js:91-114 | a line `HEAD R' by N commit...`, with the first quote closing `HEAD`, a quote-free upstream `R` and no "by" before the count's, is read as upstream `R`; with the quote at 22, behind `N` and ahead 0; at 24, behind 0 and ahead `N` |
| StatusParser.BehindCounts | lib/git-status.js:103-108 | `Your branch is behind 'R' by N commits...` with no "by" in the opening or `R` gives upstream `R`, behind `N`, ahead 0 |
| StatusParser.AheadCounts | lib/git-status.js:109-114 | `Your branch is ahead of 'R' by N commits...` with no "by" in the opening or `R` gives upstream `R`, behind 0, ahead `N` |
| StatusParser.BehindUpstreamHoldingBy | lib/git-status.js:103-106 | as written, a behind line whose upstream holds "by" only at its end (`origin/hobby`) hands `parseInt` the text `" by N"`, and the behind count is NaN |
| StatusParser.YourBranchIntended | lib/git-status.js:91-120 | the corrected reading of a `Your branch` line changes only the upstream and the two counts |
| StatusParser.IntendedCounts | lib/git-status.js:103-114 | read as intended (the "by" searched for after the closing quote), `HEAD R' by N commit...` gives upstream `R` and count `N` for every quote-free `R`, "by" inside it or not |
| StatusParser.AndHaveOnlyOnce | lib/git-status.js:121 | an `and have` line sets the counts only while both are still -1, and otherwise changes nothing |
| StatusParser.NumberThenWord | lib/git-status.js:123-127 | in `... DIGITS WORD ...`, `indexOf(WORD)` lands just past the digits and one space, so `substring` recovers the digits |
| StatusParser.AndHaveReads | lib/git-status.js:124-127 | when the two cut-out texts are numerals, ahead and behind are their values |
| StatusParser.AndHaveCounts | lib/git-status.js:121-129 | `and have A and B different ...` read from a fresh status yields ahead A and behind B |
| LogParser.RefOf | lib/git-log.js:43-44 | the key `setLabel` picks: the first, in `GIT_REFS` order, whose prefix starts the label; `None` when no prefix does |
| LogParser.SetLabelOf | lib/git-log.js:42-50 | `setLabel` never adds or removes a key |
| LogParser.SetLabels | lib/git-log.js:67-69 | filing a list of labels never adds or removes a key |
| LogParser.NextSep | lib/git-log.js:67 | the next `, ` or ` -> ` separator at or after a position, or the end |
| LogParser.SplitCapture | lib/git-log.js:67 | the capturing split yields at least one piece, and the first piece is a prefix of the text |
| LogParser.EmptyLabelsSpec | lib/git-log.js:21-23 | the constructor's label map has exactly the `GIT_REFS` keys, each holding an empty list |
| LogParser.FreshLabels | lib/git-log.js:3-11 | a fresh `GitLog` has an empty list for each of the seven `GIT_REFS` keys |
| LogParser.GitLog.constructor | lib/git-log.js:19-26 | a fresh log: empty hash, subject and body, an empty list per key |
| LogParser.GitLog.Create | lib/git-log.js:28-32 | `create(line)` is a fresh log after `parseOneLine(line)` |
| LogParser.GitLog.SetLabel | lib/git-log.js:42-50 | the labels become `SetLabelOf(labels, label)`; hash, subject and body are untouched |
| LogParser.GitLog.SetEachLabel | lib/git-log.js:67-69 | the loop over the split labels |
| LogParser.GitLog.ParseOneLine | lib/git-log.js:60-73 | the object becomes `ParseOneLineOf(old object, line)` |
| LogParser.SetLabelFiles | lib/git-log.js:42-50 | a label matching no prefix changes nothing; otherwise exactly the first matching key's list gains the label without its prefix |
| LogParser.RefKeysDistinct | lib/git-log.js:3-11 | the seven keys are distinct |
| LogParser.SeparatorsFiledNowhere | lib/git-log.js:67-68 | the captured separators `, ` and ` -> `, and the empty string, match no prefix and add nothing |
| LogParser.SplitCaptureConcat | lib/git-log.js:67 | the capturing split loses nothing: its pieces concatenate back to the text |
| LogParser.SplitCaptureShape | lib/git-log.js:67 | the capturing split alternates decorations and separators, and no decoration contains a separator |
| LogParser.SetLabelsAppend | lib/git-log.js:67-69 | filing two lists of labels one after the other is filing their concatenation |
| LogParser.CaptureFilesDecorations | lib/git-log.js:67-69 | filing the capturing split's pieces files exactly the decorations |
| LogParser.HashBeforeFirstSpace | lib/git-log.js:61-63 | the hash is the text before the first space, or empty when the line has none |
| LogParser.ParseOneLineOf | lib/git-log.js:60-73 | `parseOneLine` sets a hash that is a prefix of the line, leaves the body alone and adds or removes no label key |
| LogParser.DecoratedLine | lib/git-log.js:64-69 | `HASH (REFS) SUBJECT` gives that hash and subject, and files the decorations of REFS; the body is untouched |
| LogParser.PlainLine | lib/git-log.js:70-72 | a line without a `(`...`)` after the hash gives the text after the first space as subject and adds no label |
| DiffParser.Hunk.constructor | lib/git-diff.js:7-10 | a hunk starts with its head line and an empty body |
| DiffParser.HunkViews | lib/git-diff.js:38-40 | the hunks seen as values, one per hunk, in order |
| DiffParser.HeadLine | lib/git-diff.js:43-65 | the head state leaves the hunks alone and moves to the hunk state only with a file and a from-revision known |
| DiffParser.HunkLine | lib/git-diff.js:66-75 | the hunk state changes only the hunks, adding at most one |
| DiffParser.Step | lib/git-diff.js:42-76 | the hunk state is never left, and the head state never touches the hunks |
| DiffParser.GitDiff.constructor | lib/git-diff.js:29-36 | a fresh diff: head state, empty files and revisions, no hunks |
| DiffParser.GitDiff.Append | lib/git-diff.js:42-76 | `append(line)` moves the diff to `Step(old, line)`; the hunks stay distinct, and every hunk is an old one or a new one |
| DiffParser.GitDiff.ReadHeadLine | lib/git-diff.js:43-65 | the head state, as `HeadLine`; no hunk changes |
| DiffParser.GitDiff.ReadDiffLine | lib/git-diff.js:44-50 | a `diff` line in the head state |
| DiffParser.GitDiff.ReadIndexLine | lib/git-diff.js:51-62 | an `index` line in the head state |
| DiffParser.GitDiff.SettleState | lib/git-diff.js:63-65 | moves to the hunk state once a file and a revision are known |
| DiffParser.GitDiff.ReadHunkLine | lib/git-diff.js:66-75 | the hunk state, as `HunkLine` |
| DiffParser.GitDiff.OpenHunk | lib/git-diff.js:67-68 | an `@@ ` line appends a new hunk with that head and an empty body |
| DiffParser.GitDiff.AddToLastHunk | lib/git-diff.js:69-73 | any other line goes to the body of the last hunk |
| DiffParser.DiffGitLine | lib/git-diff.js:44-65 | `diff --git A B` sets the files to A and B; the state moves to hunk exactly when A and the from-revision are non-empty |
| DiffParser.DiffGitFields | lib/git-diff.js:45 | `diff --git A B` splits into exactly four fields |
| DiffParser.ShortDiffLine | lib/git-diff.js:46-48 | a `diff` line with fewer than four fields changes nothing, the state included |
| DiffParser.IndexLine | lib/git-diff.js:51-65 | `index A..B REST` sets the revisions to A and B; the state moves to hunk exactly when a file is known and A is non-empty |
| DiffParser.RangeSplit | lib/git-diff.js:56 | `A..B` splits on `..` into exactly A and B |
| DiffParser.IndexWithoutRange | lib/git-diff.js:56-59 | an `index` line whose second field has no `..` changes nothing |
| DiffParser.HunkPartKept | lib/git-diff.js:63-66 | the hunk state needs a file and a revision, and is never left |
| DiffParser.PartsSeparate | lib/git-diff.js:43-75 | the head state never touches the hunks; the hunk state touches nothing else |
| DiffParser.HunksOnlyGrow | lib/git-diff.js:66-75 | at most one hunk is added; heads never change; only the last hunk's body grows; earlier hunks never change |
| DiffParser.ReadOneHunk | lib/git-diff.js:67-73 | an `@@ ` line and the lines after it that are not hunk heads make exactly one new hunk with that head and body |
| Stash.CreateStashLine | lib/git-stash.js:12-18 | `stash@{N}: S` reads back as id N and subject S, whatever S holds |
| Stash.CreateWithoutColon | lib/git-stash.js:14-16 | a `stash@{` line without `:` gives id NaN and, as subject, the line without its first character |
| Stash.Create | lib/git-stash.js:12-18 | the subject is a tail of the line (`substring(sep + 2)`), whatever the line holds |
| Git.GetVersion | lib/git.js:165-184 | on success, at least three dotted parts, none of them containing a dot |
| Git.VersionOfRelease | lib/git.js:165-184 | `git version X.Y.Z` yields exactly `[X, Y, Z]`, e.g. `2.29.2` gives `['2','29','2']` as spec/git-spec.js:12-18 expects |
| Git.VersionLineTokens | lib/git.js:172 | `git version V` splits into three space-separated tokens |
| Git.DottedParts | lib/git.js:177 | `X.Y.Z` splits on `.` into exactly its parts |
| Git.VersionNeedsThreeTokens | lib/git.js:173-176 | output with fewer than three space-separated tokens is rejected |
| Git.TagOf | lib/git.js:280-305 | the tag name is a prefix of the output without the separator, ending at the end of the output or at the first separator |
| Git.GetCurrTag | lib/git.js:280-290 | the name read from `git describe --tags --long` is a prefix of the output and never holds a `-` |
| Git.GetNextTag | lib/git.js:295-305 | the name read from `git describe --contains --long` is a prefix of the output and never holds a `~` |
| Git.TagWithoutSeparator | lib/git.js:285-288 | output without the separator is the tag name with distance 0 |
| Git.NextTagRoundTrip | lib/git.js:295-305 | `TAG~N` gives name TAG and distance N |
| Git.CurrTagRoundTrip | lib/git.js:280-290 | `TAG-N-gHASH` gives name TAG and distance N when TAG has no hyphen |
| Git.DescribeSplit | lib/git.js:285 | the pieces of `TAG-N-gHASH` are TAG's pieces, then N, then `gHASH` |
| Git.DescribeTag | lib/git.js:280-290 | the corrected reading still takes the name as a prefix of the output |
| Git.CurrTagHyphenatedName | lib/git.js:280-290 | the code as written reads `release-1.0-3-gabc` as tag `release` at distance 1 |
| Git.DescribeTagRoundTrip | lib/git.js:280-290 | the corrected reading gives back any tag name, hyphens included, and its distance |
| Git.GetLine | lib/git.js:314-320 | the first line: a prefix of the file without newline that ends at the first newline or the end; `''` for an absent file |
| Git.GetLines | lib/git.js:325-338 | exactly the non-empty lines, in order |
| Git.NonEmptyMembers | lib/git.js:332-335 | a string is kept exactly when it is a line and non-empty |
| Git.NonEmptyConcat | lib/git.js:331-336 | filtering distributes over concatenation, so the order of lines is kept |
| Git.GetPairs | lib/git.js:343-360 | one pair per line with at least two fields, in order |
| Git.PairOfOccurrence | lib/git.js:353-357 | a line yields a pair exactly when it contains the separator; the first item is the text before it |
| Git.PairOfFields | lib/git.js:353-357 | `A sep B` with no separator in A or B gives the pair (A, B) |
| Git.GetSeqLogs | lib/git.js:365-384 | one entry per line that is neither empty nor a `#` comment, in order |
| Git.SeqLogRoundTrip | lib/git.js:375-381 | `ACT HASH SUBJECT` gives those three fields, whatever SUBJECT holds |
| Git.SeqLogWithoutSpace | lib/git.js:375-381 | a line without spaces gives empty act and hash, and the whole line as subject |
| Git.GetLogsArgs | lib/git.js:519-525 | always `log`, `--oneline`, `--decorate=full`, then the caller's arguments in order |
| Popup.KeyWidth | lib/magit-popup.js:61-65 | the widest key of a column, 0 for an empty column |
| Popup.DescWidth | lib/magit-popup.js:61-69 | the widest description of a column, 0 for an empty column |
| Popup.RowCount | lib/magit-popup.js:55-59 | the number of rows: the length of the longest column, 0 with no columns |
| Popup.SectionText | lib/magit-popup.js:51-86 | a section's text starts with its name in the section colour |
| Popup.Visible | lib/magit-popup.js:42-45 | the sections shown are among the given ones and none of them is hidden (name starting with a space) |
| Popup.Render | lib/magit-popup.js:41-87 | nothing is inserted exactly when every section is hidden |
| Popup.RenderJoins | lib/magit-popup.js:41-51 | the popup's text is the shown sections' texts with `\n\n` between each two and never before the first; sections whose name starts with a space leave no trace |
| Popup.RowsBreaks | lib/magit-popup.js:75-76 | `n` rows start exactly `n` lines |
| Popup.SectionLines | lib/magit-popup.js:55-76 | a section takes as many lines below its name as its longest column has entries |
| Popup.CellAligned | lib/magit-popup.js:81-84 | every cell of a column is as wide as the column's widest key and widest description, and shows its own key and description in full |
| Popup.MagitPopup.InsertText | lib/magit-text-editor.js:149-163 | one more insertion at the end of the text |
| Popup.MagitPopup.Update | lib/magit-popup.js:33-90 | the text becomes `Render(sections)` |
| Popup.MagitPopup.WriteSection | lib/magit-popup.js:51-86 | one section: its name, then its rows |
| Popup.MagitPopup.WriteRows | lib/magit-popup.js:74-86 | the row loop |
| Popup.MagitPopup.WriteRow | lib/magit-popup.js:77-85 | the column loop of one row |
| Popup.MagitPopup.WriteCell | lib/magit-popup.js:81-84 | a padded key, then a padded description |
| Popup.MeasureColumns | lib/magit-popup.js:52-72 | the widths are exactly `KeyWidth`/`DescWidth` of each column, and `line` is exactly `RowCount` |
| Popup.MeasureColumn | lib/magit-popup.js:60-70 | the longest key and the longest description of a column |

## Left out

- Process spawning, stream events and promises (`execute`, `executeAppend`, `executeLine` in lib/git.js) are left out. Their output arrives as a string parameter. A rejected promise is `None`.
- The file-system probes of lib/git.js are left out. A file is its contents, or `None` when it does not exist.
- `Log` calls are left out: they only write logs.
- Atom's editor, gutter, markers and DOM elements are not modelled. The fold tree sees them as a `Host`: a set of folded row ranges, a log of destroyed markers and the buffer's extent. An `Item` holds only its glyph.
- Editor options, hiding the gutter and resetting the cursor in `update` are left out.
- lib/magit-status.js, lib/magit-atom.js, lib/magit-atom-view.js and lib/git-tag.js are not part of this model.
- `GitTag`, `GitSeqLog` and `GitPairLog` (lib/git.js:12-42) are plain datatypes.
- JavaScript string lengths and indices count UTF-16 code units; a Dafny `string` counts Unicode characters. For text holding a character outside the Basic Multilingual Plane (an emoji, say), every `length`, `indexOf`, `substring` and `padEnd` of the model differs from the code's, and so do the popup's column widths (Popup.KeyWidth, Popup.DescWidth, Popup.CellAligned). The model is exact only for text within that plane.
- JavaScript numbers are unbounded integers, and NaN is `None`. Number precision and `parseInt` of fractions or exponents beyond the leading digits are left out.
- Popup.MagitPopup.InsertText: the marker and colour decoration are reduced to the colour string of the insertion. `setText('')` clears the insertion list.
- The inactive description colour (lib/magit-popup.js:9) is declared as a constant but never used by the code.
- `key` and `desc` (lib/magit-popup.js:81-82) and `items` (lib/git.js:353) are assigned without a declaration. In strict module code that would throw. The model follows the evident intent, the local value, and does not model the exception.
- `getLabels(key)` returns `undefined` for a key that is neither in `GIT_REFS` nor an inherited property of a plain object (`labels` is an object literal, so `getLabels('toString')` returns an inherited function). Here the key is a string, inherited properties are not modelled, and the result for any key outside `GIT_REFS` is `None`.
- The fold tree follows the code, not a descriptive reading of it. An `add` never reparents existing children under a larger, later range. A `toggle` never changes the glyphs of descendants.
- FoldTree.FoldInfo.Toggle and FoldTree.FoldManager.Toggle: toggling a row that lies inside no section reaches the root, which has no item. The code would throw after it has already folded or unfolded the editor. The model makes that fold change too and then returns `false` instead of throwing.
- FoldTree.FoldManager.Click: the node whose handler runs is named by a ghost path of child indices from the root.
- FoldTree.FoldInfo.Valid: the children's footprints are disjoint and inside the node's, but the footprint is not required to hold only the node and its descendants.
- DiffParser.GitDiff.Append: aliasing of `Hunk` objects is modelled only as far as distinct hunks in the list. A caller holding a hunk from `getHunks` is not modelled.

## Findings

| source | as written | input that shows it | evidently intended | confidence | as-written member | corrected member |
|---|---|---|---|---|---|---|
| lib/git-status.js:103-114 | the count's "by" is found with `line.indexOf('by')`, from the start of the line | `Your branch is behind 'origin/hobby' by 3 commits.`: the first "by" is inside `hobby`, `parseInt(" by 3")` is NaN | search for "by" after the upstream's closing quote, `line.indexOf('by', end)` | not executed | StatusParser.BehindUpstreamHoldingBy | StatusParser.IntendedCounts |
| lib/git.js:280-290 | `getCurrTag` takes the text before the first `-` as the tag name and the second `-` piece as the distance | `release-1.0-3-gabc` (tag `release-1.0`, 3 commits ahead) reads as tag `release`, distance 1 | `git describe --long` appends exactly two `-` fields, so the name is everything before the last two and the distance is the second-to-last field | not executed | Git.CurrTagHyphenatedName | Git.DescribeTagRoundTrip |
