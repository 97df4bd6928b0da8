# Verified model of parts of mcwin32 / Midnight Commander

A Dafny model of the parts of the repository where the logic is hardest, with proofs of what they are for.
`dafny verify dfyconfig.toml` checks everything.

**The diff engine (`mcwin32/diff/diffreg.c`).** The model follows the whole pipeline on two texts: reading and
hashing lines, pruning the common ends, shellsorting both line tables, building the equivalence classes inside the
memory that is being read (`member` and `class` are the first cells of the two tables), Stone's search for a longest
common subsequence with its candidate pool, unravelling it into the match vector `J`, re-checking `J` against the
text character by character, walking over `J` forward or backward to find the hunks, and printing them as default,
ed, RCS or unified output. Each format has two readers of its own: one that applies it to file 1 (a small ed, an RCS
patcher, a `patch` for the default and the unified format), and one that finds the hunks in the text without the
files. The end-to-end result is `Diff.Diff`: whatever the hash function and the search bound, the first reader turns
file 1 into file 2, and the second finds hunks that do; and when no two lines collide, nothing that turns file 1 into
file 2 deletes or adds fewer lines, with `-d` and also without it unless a hash value is in file 2 more often than the
search bound.

**The path canonicalizer (`mcsrc/lib/utilunix.c`).** `canonicalize_pathname_custom` edits a NUL-terminated buffer in
place in several passes, the last of which moves backward. It is proved to compute the normal form that a simple
component stack gives, with a leading `//server` untouched.

**The config serializer (`mcsrc/lib/serialize.c`)**, its frames and its three-state reader, with the exact condition
under which a config survives the round trip.

**The background protocol (`mcsrc/src/background.c`)**, once as the methods of the two ends over pipes and a linked
task list, and once as a state machine in which every read and write of any number of children is a step of its own.

**The overflow predicates and the digit bound (`mcsrc/lib/intprops.h`)** and **the size abbreviator
(`mcsrc/lib/util.c`)**.

## How the files fit together

| files | what they hold |
|---|---|
| `CommonSubsequence`, `Stone` | chains of pairs and when one is longest; stone, search, newcand, unravel |
| `LineTable`, `Pruning`, `Shellsort`, `Equivalence`, `DiffReg` | the line tables in memory; prune, sort, equiv, unsort; the stages up to `J` |
| `FileText`, `Check` | a file as characters behind a position; check and skipline |
| `Hunks`, `HunkWalk`, `OutputWalk` | the hunks of a match vector; the two walks of output |
| `Decimal`, `Scripts`, `EdScript`, `RcsScript`, `NormalScript`, `Unified` | the text of a hunk in each format; a reader for each that applies it, one that finds the hunks in it, and what the readers make of the text |
| `UnifiedGroups` | what unified output shows: groups, context, hunks |
| `Printer` | change, fetch, range, uni_range, dump_unified_vec, character by character |
| `Minimality`, `Diff`, `OutputExample` | how many lines hunks change; everything put together; one example in full |
| `PathMeaning`, `PathCanon` | the reference normal form; the passes in place |
| `Serialize` | frames, the reader's automaton, the round trip |
| `Wire`, `TaskList`, `Background`, `Rpc` | bytes of requests and replies; the task list; the two ends; the state machine |
| `IntProps`, `SizeTrunc` | the macros; size_trunc_len |
| `Powers`, `Sequences`, `Wrappers` | powers and products; joining and cutting sequences; the option type |

Where a source loop modifies its arrays or files inside a larger function, it is often a method of its own here
(`Stone.CandidatePool.Offer` is the body of stone's inner loop, `OutputWalk.ScanForward` the two scanning loops of a
round). Ghost parameters (`ghost t`, `ghost row`, `ghost all`) name the abstract value that the memory holds.

## Model

| member | source | states |
|---|---|---|
| Diff.Diff | mcwin32/diff/diffreg.c:270-468 | for any hash function and search bound and each of the four formats: the output names hunks, read off its commands or marks alone, that turn file 1 into file 2; a reader that applies it to file 1 gets file 2; unified output shows exactly the context asked for; with -d, or when no hash value is in file 2 more often than 256 times, or than the search bound when that is more, and no two lines collide, no covering hunks delete or add fewer lines than the output does; and a change is reported, and something printed, exactly when the two files differ |
| Diff.SameFiles | mcwin32/diff/diffreg.c:572-579 | for equal files the match is kept whole whatever the hash and the search bound, so the walk finds every line in step |
| Diff.OutputPatches | mcwin32/diff/diffreg.c:901-982 | the text printed for any hunks that cover the two files, read by the reader of its format starting from file 1, gives exactly file 2 |
| Diff.OutputNames | mcwin32/diff/diffreg.c:901-982 | a reader that sees only the output, not the files, finds exactly the hunks it was made from, with their line numbers in both files |
| OutputExample.Output | mcwin32/diff/diffreg.c:985-1666 | what the five outputs of one pair of files look like, line by line |
| Hunks.HunksApart | mcwin32/diff/diffreg.c:906-966 | between two hunks there is always a matched line |
| Hunks.LocatedHunks | mcwin32/diff/diffreg.c:906-966 | where a hunk lies in file 2 follows from how much the hunks before it add and delete |
| Diff.Compare | mcwin32/diff/diffreg.c:418-444 | from the two open files: the checked match pairs only equal lines, strictly increasing, is a longest common subsequence of lines when the search is exhaustive and nothing collides, and both offset tables are exact |
| Diff.CheckedMatch | mcwin32/diff/diffreg.c:717-842 | what check leaves of a match by hash is an increasing match of equal lines, and all of it when no two different lines collide |
| Diff.ReadHash | mcwin32/diff/diffreg.c:1376-1427 | returns the hash of exactly the next line's characters and stops at the start of the line after it; end of file exactly when no line is left |
| Diff.Prepare | mcwin32/diff/diffreg.c:533-565 | the table holds one entry per line, with the line's hash |
| DiffReg.Match | mcwin32/diff/diffreg.c:418-439 | from two line tables to J: strictly increasing, in range, pairing equal hashes only, the common ends always matched line by line; when the search is exhaustive the number of pairs is the length of a longest common subsequence of the two whole hash sequences |
| DiffReg.NoZeroHash | mcwin32/diff/diffreg.c:604-613 | the sentinel 0 is safe when no line of file 2 hashes to 0 |
| DiffReg.Classify | mcwin32/diff/diffreg.c:418-430 | prune, the two sorts, equiv and unsort leave in the tables' own memory exactly the equality classes of the lines between the common ends |
| DiffReg.EndsOfWhole | mcwin32/diff/diffreg.c:567-715 | the common prefix and suffix are matched line by line, however the search in between went |
| DiffReg.PrunedOnce | mcwin32/diff/diffreg.c:572-579 | the two scans determine prefix and suffix uniquely |
| DiffReg.MatesMatch | mcwin32/diff/diffreg.c:704-715 | a match vector that answers every line as a chain does is increasing and pairs equal values, and is longest when the chain is |
| Pruning.Prune | mcwin32/diff/diffreg.c:567-586 | prefix and suffix are common and cannot be made longer, and the lines between are numbered from 1 with their values kept |
| Pruning.CommonEnds | mcwin32/diff/diffreg.c:572-579 | both scans stop exactly at the first difference and never overlap |
| CommonSubsequence.PruningBound | mcwin32/diff/diffreg.c:567-586 | no common subsequence is longer than prefix plus suffix plus a longest one of the middle parts |
| CommonSubsequence.WholeLongest | mcwin32/diff/diffreg.c:704-715 | prefix, moved middle chain and suffix together are a longest common subsequence of the whole files when the middle chain is one of the middle parts |
| CommonSubsequence.WholeChain | mcwin32/diff/diffreg.c:704-715 | prefix, middle chain and suffix join to one strictly increasing chain of equal lines, of the sum of their lengths |
| CommonSubsequence.MateOfWhole | mcwin32/diff/diffreg.c:710-714 | what the joined chain pairs with line i is i in the prefix, i moved by the length difference in the suffix, and the middle chain's mate in between |
| CommonSubsequence.PairsOfIsChain | mcwin32/diff/diffreg.c:704-715 | the nonzero entries of an increasing vector of equal lines are a common subsequence |
| Shellsort.Sort | mcwin32/diff/diffreg.c:845-875 | for every n, the entries are a permutation of what they were, in order of value and then serial, and everything outside them, slot 0 included, is untouched |
| Shellsort.Pass | mcwin32/diff/diffreg.c:856-873 | a pass leaves the entries ordered at its gap and a permutation of what they were |
| Shellsort.Sift | mcwin32/diff/diffreg.c:858-872 | one entry sinks until its chain of the gap is in order again |
| LineTable.GapOneSorts | mcwin32/diff/diffreg.c:855-873 | entries in order at gap 1 are sorted |
| Equivalence.Equiv | mcwin32/diff/diffreg.c:588-614 | although member overlays the table that is read, each line of file 1 gets the first index of its class or 0, and member lists the serials in order with the first of each class negated and -1 at the end |
| Equivalence.LookUp | mcwin32/diff/diffreg.c:593-603 | each value of the first table becomes the first index with that value in the second, 0 if there is none |
| Equivalence.Squeeze | mcwin32/diff/diffreg.c:604-613 | the cells written never reach a cell that is still to be read: the result is that of separate arrays |
| Equivalence.Unsort | mcwin32/diff/diffreg.c:877-888 | cell s of the same memory gets the value of the entry with serial s |
| Equivalence.ClassFound | mcwin32/diff/diffreg.c:606-613 | the members listed from the first index of a value are exactly the lines of file 2 with that value, ascending |
| Equivalence.ClassesExact | mcwin32/diff/diffreg.c:588-614 | class and member together give for every line of file 1 exactly the lines of file 2 that equal it |
| Equivalence.NumberedPermutation | mcwin32/diff/diffreg.c:583-584 | after sorting, every serial is there once, with the value of its line |
| Stone.CandidatePool.Stone | mcwin32/diff/diffreg.c:616-662 | the klist holds one candidate per length with strictly increasing y; with -d, or when no value is in file 2 more often than 256 times, or than sq times when that is more, no common subsequence is longer and none of a length ends before that length's candidate; without -d no line of file 1 gets more candidates than the larger of 256 and sq |
| Stone.CandidatePool.StoneRow | mcwin32/diff/diffreg.c:634-660 | a row is cut short only after bound candidates have been added with members left, and keeps the klist well formed either way |
| Stone.CandidatePool.Offer | mcwin32/diff/diffreg.c:640-658 | one member keeps the row invariant although klist entries are replaced during the row: oldc is always the candidate its level held when the row began |
| Stone.CandidatePool.Search | mcwin32/diff/diffreg.c:680-702 | the level found is the one between whose neighbours y lies |
| Stone.CandidatePool.NewCand | mcwin32/diff/diffreg.c:664-678 | the pool grows by exactly the new candidate, whose index is returned |
| Stone.CandidatePool.Unravel | mcwin32/diff/diffreg.c:704-715 | every entry of J is the mate of its line in prefix, chain of the candidate, and suffix; it ends because pred always points back |
| Stone.FoundLevel | mcwin32/diff/diffreg.c:640-643 | the level found lies above the one last replaced, and oldc after the update is that level's predecessor as it was when the row began |
| Stone.InstallKList | mcwin32/diff/diffreg.c:644-658 | replacing or appending a candidate at the level found keeps y strictly increasing and every chain of its length |
| Stone.InstallRow | mcwin32/diff/diffreg.c:647-652 | a replacement makes no level worse and serves the member offered |
| Stone.ExtendRow | mcwin32/diff/diffreg.c:653-657 | appending a candidate ends the row without losing anything: all members still to come lie beyond it |
| Stone.Reaches | mcwin32/diff/diffreg.c:623-659 | a class is offered whole when its line is in file 2 no more often than the bound |
| Stone.OptimalStep | mcwin32/diff/diffreg.c:616-662 | a complete row keeps the klist optimal: the least end for every length after one more line |
| Stone.PathLongest | mcwin32/diff/diffreg.c:704-715 | the chain of the last klist entry is a common subsequence of exactly that length, and a longest one when the klist is optimal |
| Stone.PathIsChain | mcwin32/diff/diffreg.c:664-678 | following pred from any candidate gives strictly increasing pairs of equal lines |
| Check.Check | mcwin32/diff/diffreg.c:723-842 | J keeps a pair exactly when its two lines read the same; ixold is the exact prefix sums of line lengths; ixnew is so if and only if no pair makes it lose its place, and at such a pair it holds the start of the line plus the characters that were counted, never the right offset |
| Check.CompareLines | mcwin32/diff/diffreg.c:815-829 | reads both lines to their ends, counting all their characters, unless the pair is one that loses the place, for which it gives the count that comes out |
| Check.SkipLine | mcwin32/diff/diffreg.c:890-898 | counts the characters up to and including the next newline or the end of the file, and moves past them |
| Check.LosesPlaceWhen | mcwin32/diff/diffreg.c:818-828 | testing c instead of d for the second skip goes wrong exactly for an unterminated last line of file 1 that is a proper prefix of its partner, or an unterminated last line of file 2 that is a prefix of its partner other than an equal unterminated line |
| Check.TerminatedFiles | mcwin32/diff/diffreg.c:815-829 | with both files newline-terminated the place is never lost and a pair survives exactly when the lines are equal |
| Check.LosesPlaceExample | mcwin32/diff/diffreg.c:821-824 | the files "x\n" and "x", whose only lines hash alike and are matched, are such a pair: offset 3 is recorded where the line ends at 2 |
| Check.UnterminatedExample | mcwin32/diff/diffreg.c:723-842 | check itself, started on those two files, leaves 3 in ixnew |
| FileText.Split | mcwin32/diff/diffreg.c:895-897 | every text is the text of exactly described lines, with or without a final newline |
| FileText.Doc.Read | mcwin32/diff/diffreg.c:895-897 | the character at a line's offset plus k is the line's k-th, its terminator or the end of the file included |
| Hunks.HunksCover | mcwin32/diff/diffreg.c:906-966 | the hunks between the anchors of a match vector of equal lines are in range, disjoint, ascending, not empty, and leave only common lines between them |
| HunkWalk.HunksSplit | mcwin32/diff/diffreg.c:952-963 | at every matched line the forward and the backward reading of the hunks meet: before it plus after it is all of them |
| OutputWalk.Forward | mcwin32/diff/diffreg.c:911-951 | the forward walk ends, although i0 need not advance in a round, and prints exactly the hunks of J in order, J being patched on the way |
| OutputWalk.Backward | mcwin32/diff/diffreg.c:953-963 | the backward walk ends and prints exactly the forward walk's hunks in reverse |
| OutputWalk.ScanForward | mcwin32/diff/diffreg.c:912-924 | finds the end of the lines in step and of the unmatched lines after them, and must advance when the round starts behind a patched entry |
| OutputWalk.Output | mcwin32/diff/diffreg.c:900-982 | brackets J, takes the walk of the format (the single change call for an empty file 1), and all that is printed is the text of the hunks in the order of the format |
| OutputWalk.FoundHunk | mcwin32/diff/diffreg.c:921-926 | the four numbers of a round are the next hunk, and storing j1 at i1 makes the next line look in step |
| Printer.Report.Change | mcwin32/diff/diffreg.c:1045-1243 | after every call the output so far, and the hunks still waiting, are what the format prescribes for the hunks so far; empty hunks print nothing |
| Printer.Report.EmitEd | mcwin32/diff/diffreg.c:1138-1238 | one ed hunk with all its restarts prints the ed text of the hunk |
| Printer.Report.EmitRcs | mcwin32/diff/diffreg.c:1150-1159 | one RCS hunk prints its d and a commands with counts, then the new lines |
| Printer.Report.EmitNormal | mcwin32/diff/diffreg.c:1137-1221 | one default hunk prints its command, the old lines, the separator when both sides have lines, the new lines |
| Printer.Report.Fetch | mcwin32/diff/diffreg.c:1245-1371 | prints exactly lines a..b, found by their offsets, each behind its mark; for ed it stops after doubling a lone dot and reports where |
| Printer.Report.FetchLine | mcwin32/diff/diffreg.c:1278-1366 | one line, character by character |
| Printer.Report.Collect | mcwin32/diff/diffreg.c:1092-1131 | a unified hunk joins the waiting group unless it is far from it on both sides, in which case the group is printed first |
| Printer.Report.DumpUnified | mcwin32/diff/diffreg.c:1599-1669 | prints the waiting group with its header and its context and forgets it |
| Printer.Report.Finish | mcwin32/diff/diffreg.c:976-981 | after the last group all hunks have been printed |
| Printer.UniStateOk | mcwin32/diff/diffreg.c:1108-1129 | what waits is always a non-empty final part of the hunks so far |
| Printer.UniStateRest | mcwin32/diff/diffreg.c:1108-1129 | printing groups as the hunks come gives the same text as grouping all hunks at the end |
| EdScript.EdPatches | mcwin32/diff/diffreg.c:952-1238 | the ed script of the backward walk, run by an ed with a, c, d, the lone dot and s/.//, turns file 1 into file 2, for any text, lone dots included |
| EdScript.RunHunk | mcwin32/diff/diffreg.c:1220-1238 | running the text of one hunk, through any number of escaped dots and restarts, replaces exactly lines a..b by lines c..d |
| EdScript.EdHunks | mcwin32/diff/diffreg.c:985-1238 | the commands of the ed script, with the text behind them counted through every restart, name exactly the hunks, last one first; a second address is there only when it is above the first |
| EdScript.EnteredHunk | mcwin32/diff/diffreg.c:1220-1238 | however often the text of a hunk is interrupted by an escaped dot, the lines entered are counted to that hunk, and nothing that follows is |
| EdScript.ParseCommand | mcwin32/diff/diffreg.c:985-990 | a command line reads back, by a reader that takes a second address only when it is above the first |
| EdScript.DottedBuffer | mcwin32/diff/diffreg.c:1222-1235 | after the substitution the escaped line is a lone dot again and the rest goes in right behind it |
| RcsScript.RcsPatches | mcwin32/diff/diffreg.c:1150-1221 | the RCS script, its line numbers all referring to the original file, turns file 1 into file 2, for any text |
| RcsScript.RunHunk | mcwin32/diff/diffreg.c:1150-1159 | the reader takes exactly the counted lines of a hunk and goes on behind them |
| RcsScript.RcsHunks | mcwin32/diff/diffreg.c:1150-1159 | the d and a commands of the RCS script name exactly the hunks |
| NormalScript.NormalPatches | mcwin32/diff/diffreg.c:985-1221 | the default output turns file 1 into file 2, and every old line it shows is checked against file 1 |
| NormalScript.NormalNames | mcwin32/diff/diffreg.c:985-1221 | the command lines of the default output name exactly the hunks, by their short ranges on both sides and the letter that goes with them |
| Unified.RestRead | mcwin32/diff/diffreg.c:1092-1669 | the unified output of any hunks that cover the files, for every context size, applied group by group, turns the rest of file 1 into the rest of file 2 |
| Unified.GroupFills | mcwin32/diff/diffreg.c:1108-1614 | each group's windows are within the files and equally far from the old position on both sides, and the next group's windows start strictly behind them |
| UnifiedGroups.UnifiedShown | mcwin32/diff/diffreg.c:1108-1666 | a reader of the headers and marks alone finds exactly the hunks; every group shows exactly ctx lines before its first hunk and after its last, or all there are, on both sides; neighbouring hunks share a group exactly when at most 2 * ctx lines lie between them |
| UnifiedGroups.DumpShown | mcwin32/diff/diffreg.c:1599-1669 | a printed group reads back as its window and its hunks, from its header and marks |
| UnifiedGroups.BodyShown | mcwin32/diff/diffreg.c:1632-1665 | the runs of '-' and '+' in the body are the hunks of the group, in their places on both sides |
| UnifiedGroups.WindowContext | mcwin32/diff/diffreg.c:1611-1614 | the window of a group starts ctx lines before its first hunk or at line 1, and ends ctx lines after its last or at the end of the file |
| Unified.DumpRead | mcwin32/diff/diffreg.c:1616-1666 | a printed group reads back: the header counts are used up exactly by the body, ' ' and '-' lines are old lines lowa..upb, ' ' and '+' lines are new lines lowc..upd |
| Unified.BodyRead | mcwin32/diff/diffreg.c:1632-1665 | the body lines of the hunks of a group count down the header exactly |
| Unified.ParseHeaderText | mcwin32/diff/diffreg.c:992-1626 | the header line reads back as the two windows, in each of its short forms |
| Unified.ParseUniRange | mcwin32/diff/diffreg.c:992-1001 | a range reads back, by a reader that refuses a count of 1 |
| Minimality.CommonLines | mcwin32/diff/diffreg.c:623-624 | any hunks that turn A into B leave a common subsequence: as many pairs as lines of A not deleted |
| Minimality.DeletedUnmatched | mcwin32/diff/diffreg.c:906-966 | the hunks of a match vector delete exactly the unmatched lines |
| Minimality.FewestChanges | mcwin32/diff/diffreg.c:623-624 | with a longest match no hunks that turn A into B delete or add fewer lines |
| Decimal.ReadDec | mcwin32/diff/diffreg.c:985-1001 | a printed number followed by something else is read back whole |
| Decimal.DecPlace | mcwin32/diff/diffreg.c:985-1001 | the digits of a printed number are its decimal digits in their places, without leading zeros |
| PathCanon.Canonicalize | mcsrc/lib/utilunix.c:816-1057 | on a NUL-terminated buffer, in place: the result is the //server part as it was followed by the reference normal form of the rest |
| PathCanon.CanonicalTwice | mcsrc/lib/utilunix.c:816-1057 | canonicalizing twice is canonicalizing once, and the result is never longer than the path |
| PathCanon.SettledIsNormal | mcsrc/lib/utilunix.c:835-1055 | a path in which no pass finds anything is its own normal form |
| PathCanon.JoinSlashes | mcsrc/lib/utilunix.c:837-845 | no two separators in a row are left, and the path means the same |
| PathCanon.JoinDots | mcsrc/lib/utilunix.c:847-852 | no "/./" is left, no "//" comes back, and the path means the same |
| PathCanon.TrimTrailing | mcsrc/lib/utilunix.c:859-866 | no trailing separator is left but a lone one |
| PathCanon.TrimLeading | mcsrc/lib/utilunix.c:868-878 | no leading "./" is left, one character remains when it was all there was |
| PathCanon.TrimTrailingDot | mcsrc/lib/utilunix.c:880-899 | no trailing "/." is left and nothing removed before comes back |
| PathCanon.Collapse | mcsrc/lib/utilunix.c:902-1055 | ends although the cursor moves back after each deletion; no ".." that could take back a component is left, and the path means the same |
| PathCanon.TakeBack | mcsrc/lib/utilunix.c:967-999 | removing "token/.." or the ".." after the root keeps the meaning, and nothing before the new cursor becomes removable |
| PathCanon.TakeBackLast | mcsrc/lib/utilunix.c:1001-1054 | a trailing ".." leaves ".", "/" or the path before the token, in each case with the same meaning |
| PathCanon.PreviousToken | mcsrc/lib/utilunix.c:918-958 | the backward search finds where the component before the ".." starts |
| PathCanon.PopMeaning | mcsrc/lib/utilunix.c:974-995 | a name followed by ".." means nothing, wherever it stands |
| PathCanon.PopSettled | mcsrc/lib/utilunix.c:997 | after the deletion everything before the moved-back cursor is still settled |
| PathCanon.StrMove | mcsrc/lib/utilunix.c:844-972 | moving the tail down within the buffer cuts out exactly the characters between |
| PathCanon.ServerPart | mcsrc/lib/utilunix.c:823-830 | a leading //server is kept exactly when the name is not empty and a separator follows |
| PathMeaning.NormalizedTwice | mcsrc/lib/utilunix.c:816-1057 | the reference normal form means what the path means and is its own normal form |
| PathMeaning.NeverLonger | mcsrc/lib/utilunix.c:816-1057 | the reference normal form of a non-empty path is never longer than the path |
| PathMeaning.WalkSplit | mcsrc/lib/utilunix.c:902-1055 | what a path means can be worked out part by part at any separator |
| Serialize.ConfigRoundTrip | mcsrc/lib/serialize.c:198-349 | reading back a serialized config gives the same groups, keys and values in order, whatever their text, exactly when it is not empty and every group has a key |
| Serialize.EmptyGroupLost | mcsrc/lib/serialize.c:321-334 | what exactly happens otherwise: a last group without keys is lost silently, an earlier one is an error at the group after it |
| Serialize.DeserializeConfig | mcsrc/lib/serialize.c:280-349 | the loop over the three states ends on every input and gives what the automaton on the text gives, error positions included |
| Serialize.RunText | mcsrc/lib/serialize.c:300-343 | on the text of frames the automaton does what it does on the frames themselves, whatever characters they contain |
| Serialize.SerializeConfig | mcsrc/lib/serialize.c:198-251 | writes the frames of the groups, keys and values in order |
| Serialize.DeserializeAccepts | mcsrc/lib/serialize.c:134-184 | accepts exactly the texts that start with prefix, a numeral of fewer than 64 characters, the delimiter and at least that much text, and returns just that much |
| Serialize.DeserializeRefuses | mcsrc/lib/serialize.c:134-184 | for each of the five errors, exactly the texts that give it |
| Serialize.KindsDecide | mcsrc/lib/serialize.c:300-343 | frames in any order: a config is read exactly when a group comes first, a key after a group, a value after a key, and a key or a group after a value; it has for every key the value given last; otherwise the error is reported at the first frame out of order |
| Serialize.SetThenGet | mcsrc/lib/serialize.c:334 | a key has the value it was set to last, and setting it changes nothing else |
| Serialize.ConfigExample | mcsrc/lib/serialize.c:198-251 | the text of a config with one key, character by character |
| Serialize.FrameRoundTrip | mcsrc/lib/serialize.c:80-184 | a frame is read back whole whatever its text and whatever follows, and the next one starts right behind it |
| Serialize.FramesSelfDelimiting | mcsrc/lib/serialize.c:80-120 | two different lists of frames never give the same text |
| Serialize.FitsSizeT | mcsrc/lib/serialize.c:150-171 | every length that fits a 64-bit size_t is short enough for the numeral buffer |
| Serialize.FeedEmptyGroup | mcsrc/lib/serialize.c:305-334 | the automaton on the frames of a config with a group without keys |
| Wire.ReaderTracks | mcsrc/src/background.c:225-442 | each read of the parent asks for exactly the bytes of one write of the child, and after the last it holds the child's request |
| Wire.ReplyTracks | mcsrc/src/background.c:336-482 | the child reads a reply to its end, no more and no less, and then has the parent's answer, but for the empty string, which comes back as NULL |
| Wire.IntRoundTrip | mcsrc/src/background.c:242-414 | an int goes through the pipe unchanged, negative ones included |
| Wire.LittleAt | mcsrc/src/background.c:242-414 | byte i of a number is its digit to the base 256, the lowest first |
| Background.BackgroundAttention | mcsrc/src/background.c:187-398 | consumes exactly one request, calls the routine once, sends its answer to the child found by descriptor, also when the routine called is the one that takes that child off the list; the list changes only then and when the child has ended |
| Background.SendCall | mcsrc/src/background.c:405-473 | writes exactly the bytes of the request |
| Background.RequestLayout | mcsrc/src/background.c:137-150 | where the routine, the number of arguments, the return type, the flag and the context are in the bytes of a request |
| Background.ArgumentLayout | mcsrc/src/background.c:137-150 | each argument is its length in 4 bytes and then so many bytes |
| Background.ReplyLayout | mcsrc/src/background.c:156-170 | a reply is an int and then the context, or a length and then the characters |
| Background.ReadRequest | mcsrc/src/background.c:242-270 | reads back the request and leaves what follows it in the pipe |
| Background.SendReply | mcsrc/src/background.c:336-388 | writes exactly the bytes of the reply, length 0 for NULL and for the empty string |
| Background.ReceiveInteger | mcsrc/src/background.c:444-451 | gets the result the routine returned, and the context if one was sent, and leaves what follows |
| Background.ReceiveString | mcsrc/src/background.c:474-484 | gets the routine's string, NULL for an empty one, and leaves what follows |
| TaskList.Tasks.RegisterTaskRunning | mcsrc/src/background.c:88-103 | the new task is in front of the unchanged list |
| TaskList.Tasks.DestroyTask | mcsrc/src/background.c:107-132 | takes exactly the first task of the process off the linked list and returns its descriptor, -1 and no change if there is none |
| TaskList.Tasks.FindToChild | mcsrc/src/background.c:272-279 | the reply pipe of the first task in the list that is heard on the descriptor, -1 if there is none |
| Rpc.AlwaysInSync | mcsrc/src/background.c:187-485 | after any run with any number of children in any interleaving, a child that is not in a call has both pipes empty and the parent is not in the middle of anything of its |
| Rpc.RepliesReachTheAsker | mcsrc/src/background.c:272-388 | the k-th call that returned in a child is the k-th the parent served for it, and what it returned is the parent's answer to that very call, unchanged but for an empty string, which becomes NULL; the last call of a child, which takes it off the list, included |
| Rpc.EndIsLast | mcsrc/src/filemanager/file.c:2227-2240 | once the parent has served a child's last call the child is off the list and never heard again, no other call of it is served after that one, and it is gone when that call has returned |
| Rpc.ServesTheCall | mcsrc/src/background.c:242-279 | when the parent calls a routine, what it has read is the call the child is waiting in, the pipe is empty, and the child's reply pipe is found |
| Rpc.CallsReturn | mcsrc/src/background.c:187-485 | the calls under way take a bounded number of further steps in any order, and when no step is possible all have returned and all pipes are empty |
| Rpc.SomeStepCarriesOn | mcsrc/src/background.c:187-485 | no deadlock: while a call is under way some read or write is possible |
| Rpc.StepKeepsInv | mcsrc/src/background.c:187-485 | every single read, write, registration and removal, the removal during a served call included, keeps the invariant |
| Rpc.ParentReadOk | mcsrc/src/background.c:225-270 | a read of the parent gets exactly the next piece of the request, even before the child has written the rest |
| Rpc.ChildReadOk | mcsrc/src/background.c:444-482 | a read of the child gets exactly the next piece of its own reply |
| IntProps.AddExact | mcsrc/lib/intprops.h:114-129 | the macros for +, - and negation are true exactly when the result leaves the range, and nothing overflows while they are evaluated, for signed and unsigned types of every width |
| IntProps.MultiplyExact | mcsrc/lib/intprops.h:135-146 | the macro for * is true exactly when the product leaves the range, its truncating divisions never overflow |
| IntProps.DivideExact | mcsrc/lib/intprops.h:150-159 | the macros for / and % are true exactly when the truncated quotient leaves the range |
| IntProps.LeftShiftExact | mcsrc/lib/intprops.h:161-171 | for signed and unsigned types of every width and every shift count: the macro for << says whether a times 2^b leaves the range, except exactly when a is -1 and b is at least the width |
| IntProps.BitsFit | mcsrc/lib/intprops.h:52-55 | 2^b is at most ten to the power of the bound, for every b |
| IntProps.DigitsSuffice | mcsrc/lib/intprops.h:52-68 | every b-bit unsigned value, and every magnitude of a signed type with b value bits, prints in no more digits than the bound |
| IntProps.TightBelow | mcsrc/lib/intprops.h:50-52 | up to 2620 bits the largest value has just as many digits as the bound says; 2621 is the first number of bits for which it has fewer |
| IntProps.BelowBits | mcsrc/lib/intprops.h:50-52 | below 2621 bits the power of ten one digit under the bound is below 2^b |
| IntProps.LogBound | mcsrc/lib/intprops.h:52-54 | log10 (2) is below 146/485 |
| SizeTrunc.SizeTruncLen | mcsrc/lib/util.c:424-538 | in the first unit in which number and letter have room in len characters the text reads back as just that number of that unit; nothing at all is "0" in the given unit and the unit below with a "~" in any other; the buffer is left alone exactly when there is room in no unit |
| SizeTrunc.ShownSays | mcsrc/lib/util.c:507-531 | read by the usual meaning of the letters, K for the first power up to Q for the tenth, in lower case for 1000-based units, the text says the number and the unit |
| SizeTrunc.StopsWhen | mcsrc/lib/util.c:526 | the comparison with a power of ten is whether number and letter have room |
| SizeTrunc.ShownBytes | mcsrc/lib/util.c:482-536 | in bytes, what the text says is the size that was given, up to the conversion to 1000-based units, which loses less than 1000 * (1024^units - 1000^units) / 24 bytes, and the roundings |
| SizeTrunc.ConvertedBytes | mcsrc/lib/util.c:490-504 | the bound on what all conversions lose together, when nothing wraps |
| SizeTrunc.ShownFits | mcsrc/lib/util.c:509-530 | number and suffix fit in len, so the printing never cuts them |
| SizeTrunc.RoundingBound | mcsrc/lib/util.c:532-536 | a number after k roundings is off by at most (base/2)(base^k - 1)/(base - 1) bytes, base 1024 or 1000 |
| SizeTrunc.RoundStep | mcsrc/lib/util.c:532-536 | one rounding is to the nearest exactly when adding half a unit does not wrap |
| SizeTrunc.SiStepExact | mcsrc/lib/util.c:490-504 | one conversion to 1000-based units is floor (size * 1024 / 1000) exactly when that fits 64 bits |
| SizeTrunc.LargestSizeWraps | mcsrc/lib/util.c:509-536 | the largest 64-bit size wraps to 0 when rounded and shows as "~B" |

## What the code requires, and where it falls short

- Zero hashes. `equiv` ends its scan on the value 0 that it writes behind the last entry, so the largest value left
  between the common ends of file 2 must not be 0. `DiffReg.SentinelSafe` asks for no more than that; a file 2 in
  which no line hashes to 0 meets it (`DiffReg.NoZeroHash`).
- Unterminated last lines. `check` tests `c` where it means `d` before skipping the rest of a line of file 2.
  `Check.LosesPlaceWhen` gives the exact condition, `Check.Check` what is recorded then, and
  `Check.LosesPlaceExample` and `Check.UnterminatedExample` the files "x\n" and "x", for which the offset recorded
  is 3 instead of 2.
- The macro for << takes every right shift of -1 for in range, so it misses the overflow of -1 << b when b is at least
  the width, and only that (`IntProps.LeftShiftExact`).
- `mc_deserialize_config` rejects what `mc_serialize_config` writes for an empty config, and does not get back groups
  without keys (`Serialize.ConfigRoundTrip`, `Serialize.EmptyGroupLost`).
- `background_attention` reports more than four arguments but reads them all the same, past its array; requests have
  at most `MAXCALLARGS` arguments here (`Wire.Proper`).
- The routine of a child's last call unregisters the child while the call is being served
  (`mcsrc/src/filemanager/file.c:2227-2240`, `3745-3748`); the reply still arrives because the reply pipe is looked up
  before the routine is called (`mcsrc/src/background.c:272-279`). `Background.BackgroundAttention` and the `Serve` step
  of `Rpc` do both in that order.
- `size_trunc_len` rounds in 64 bits without care for wrapping (`SizeTrunc.LargestSizeWraps`).

Where comment and code differ, the model follows the code: `change` dumps a group when the next change starts more
than twice the context plus one line behind it in both files, not when it is "more than diff_context lines" away
(`mcwin32/diff/diffreg.c:1114-1119`); and a request also carries a flag and the file operation context, which the
protocol comment does not list (`mcsrc/src/background.c:137-150`, `405-419`).

## Left out

- Diff.Diff: text output is proved for files whose last line ends in a newline; the note printed for a missing one, and a NUL that makes a file binary, are not modelled.
- Diff.Diff: the search bound of stone without -d is any number at least 256, not the square root the code computes in floating point; the hash is any function of the line, not the one the code uses.
- Shellsort.Sort: the gap variable is an unbounded number, so tables of 2^30 lines or more, for which 2 * j - 1 would overflow an int, are not told apart.
- Stone.CandidatePool.NewCand: the pool is a sequence that grows; the reallocation by 11/10 is not modelled.
- Printer.Report.Change: the context, brief, reversed ed (-f), #ifdef, group, side-by-side and Midnight Commander formats, ignore patterns and -B, colour, -t, -T, -p and the file headers with their time stamps.
- Check.Check: the comparison with -b, -w, -i or --strip-trailing-cr.
- Opening files, standard input, temporary files, binary detection, pr, directories and option parsing in mcwin32/diff.
- PathCanon.Canonicalize: paths with ':' (URL prefixes, "#enc:" and the VFS class lookup), systems on which '\\' also separates, and calls with only some of the flags.
- Serialize.ConfigRoundTrip: strings are sequences without a terminator and never NULL; the config store keeps them exactly, in order, without the character set conversion and escaping of the key file behind it; error messages are an error kind and a position.
- Serialize.DeserializeStr: atol is unbounded; a saturated long is greater than any string length just as the number itself is.
- Background.BackgroundAttention: short reads inside a request and their error dialog, waiting for the process and killing it, screen repainting, and the dispatch on argument count (the routine is any function of the request).
- Rpc.AlwaysInSync: a task that the jobs dialog kills in the middle of a call (mcsrc/src/filemanager/boxes.c:508-515) is not a step of the machine.
- Rpc.AlwaysInSync: pipes never fill up, and descriptors and process numbers are those the operating system hands out, a process number being free again once its task is off the list.
- Wire.IntBytes: ints are 4 bytes and pointers 8, least significant byte first; the context is a block of a fixed positive size.
- IntProps.AddExact: the variants for mixed types, and the choice of compiler builtins, in mcsrc/lib/intprops-internal.h.
- SizeTrunc.SizeTruncLen: negative units, which the code uses as an index, and 4-byte uintmax_t.
- The rest of the repository: panels, editor, viewer, dialogs, key maps, help, VFS, character sets, user menu, console and Windows layers.
