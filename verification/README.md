# Tethra: proofs about its validation, refresh, backup and stores

A Dafny model of the parts of Tethra whose correctness spans several functions or a whole run,
with proofs of what they promise. Code that updates things step by step is modelled by classes
and loops proved against functions; the functions carry the theorems.

* **Validation manifest.** `ShellQuotes`, `ShellLabels`, `LabelSafety`, `LabelSplitting`,
  `QuoteRegions`, `WordBreaks`, `Substitutions`, `LogicalLines`, `JoinedLines` and `BrokenLabels` are
  the shell reading of the generator; `GatewaySites` is its stack machine over logical lines.
  `GatewayScript` proves that machine equal to recursion on script trees, `GatewayRefusals` says
  which scripts it refuses. `ShellLists` and `GatewayLines` say what one line can emit,
  `GatewayPaths` what an execution of a script can, `GatewayCounts` how many rows that makes at
  least and at most. `GatewaySoundness` and `GatewayExactness` prove which accepted scripts emit
  exactly their sites, `GatewayGroups` in which groups, `GatewayOptionals` where the optional rows
  stay, and `GatewayGaps` shows one script for each way to miss. `Manifest`, `Assignment`,
  `ResultsValidator`, `RegisterGuarantees` and `DocumentGuarantees` cover the manifest and its
  validator; `EndToEnd` joins everything, and `GatewayLabels` starts it from the literals in the
  script.
* **Live refresh.** `LiveRefreshSpec` is the loop as a state machine with one atomic step per
  callback, effect or promise continuation; `LiveRefresh` is the hook itself, refs and callbacks,
  proved to take those steps; `LiveRefreshRuns` and `LiveRefreshFreshness` hold the run theorems.
* **Backup.** `Base64`, `BackupCells`, `Utf8Texts`, `Backup`, `BackupSnapshot`, `Restore`,
  `RestoreSteps`, `RestoreRefusals`, `BackupRoundTrip`, `BackupCounters` and `VaultAside`: collecting
  under concurrent commits, restoring and migrating, setting the old vault aside.
* **Stores.** `RateLimiter`, `RateCleanup` and `ExpiryCleanup` for the waitlist function; `Alerts`,
  `AlertCycles`, `AlertRuns` and `AlertSweeps` for the alert table, alone and with interleaved
  monitors; `Sql` for the pattern matching both it and the backup use.

`dafny verify dfyconfig.toml` checks the whole project.

## Where the code and its documentation differ

The model follows the code. Each point has a lemma.

* An escaped dollar before the first expansion changes what is kept of a label once the label has
  been split into words, although the docstring of `static_prefix` says it survives
  (`LabelSplitting.EscapedDollarExactly`, and `LabelSplitting.KeepsPrefixExactly` with escaped
  backslashes); an escaped backslash can even make the kept part wrong
  (`LabelSafety.SplitPrefixIsExact` says exactly when).
* The opening of a command substitution is counted as two open parentheses, so a label after one
  is swallowed unless one more parenthesis closes (`Substitutions.LabelAfterSubstitution`).
* The end of a physical line inside a label becomes a blank, which the shell never prints there. The
  kept part is right only if it ends on the first line (`BrokenLabels.LabelOverLines`).
* The line behind a here-document is joined to the line that opened it, also where that line was
  complete, so a check on it no longer begins a line (`JoinedLines.AfterHereDocument`).
* A line with several labels is taken to emit one check, which `;`, `&&` and `||` need not keep to
  (`GatewayGaps.AndOrLines`). A check in a loop on one line is accepted as one check, a check beside
  a closing keyword, a `group` name or the word of a `case` is passed over, one in a condition is
  taken to belong to the first branch, and an `if`/`elif` without `else` can lose one.
  `GatewayExactness.PinnedIsExact` gives the exact condition, `GatewayGroups.GroupsAreExact` that
  for groups, `GatewayOptionals.OptionalsExactly` that for optional rows, `GatewayGaps` the scripts.
* The comment on generations in the refresh hook rules out polling a superseded fetcher; the
  focus, visibility and manual paths re-arm without that check
  (`LiveRefreshFreshness.ForeignResultExactly`).
* `upsert` reports a creation also when its INSERT refreshed an alert opened in between, and can
  leave a reported condition closed (`AlertRuns.ReportedCreated`, `AlertRuns.UpsertOutcome`).
* The number of alerts a sweep says it resolved can be too high when another closes one of them
  first (`AlertSweeps.SweepCountExactly`), and their resolution times can be overwritten
  (`AlertSweeps.OverwrittenExactly`).
* The cleanup deletes what its query listed even if it has been written anew since, and a live
  rate record with it (`RateCleanup.CleanupInvisibleExactly`, `RateCleanup.TenInOneInterval`).
* Every user table is said to be in a backup; the listing pattern also leaves out a table whose
  name merely looks like an internal one, and a column with a name that is not plain is exported
  but refused on restore (`BackupRoundTrip.ImportBringsBack`).
* A sidecar without its database is not set aside (`VaultAside.NoStaleSidecar`).

## What the theorems assume

* Executions of a gateway script follow its tree. Check calls succeed, any other command of a line
  may succeed or fail, and a piece of a line beside a keyword runs after either. The exact condition
  for required rows is for scripts whose scanned lines can each run one of their checks, and whose
  one-line arms can run all of theirs: lines that begin with a command always can
  (`GatewayExactness.LinesAreCapable`), and without it two wrongs can make up for each other
  (`GatewayGaps.TwoWrongs`). That for optional rows is for scripts with no optional label twice. In
  `EndToEnd` names begin with the found labels; in `GatewayLabels` they are the expansions of safe
  literals, over any number of lines that end in one backslash or in none.
* Refresh: a render and its effects are one step; fetches settle in any order, or never.
* Limiter: times do not decrease and are at least one window after the epoch; a transaction is
  atomic on the two documents, a cleanup's query and the commit of its batch each on the collection.
* Alerts: each SQL statement is atomic; identifiers of new alerts are unused; `LIKE` folds ASCII
  letters, as SQLite does by default.
* Backup: every table has a column; the tables the database keeps for itself are not tables of the
  model, its id counters stand apart; row constraints that hold of a table hold of fewer of its
  rows; references are checked at commit; a schema built from nothing has the shape of any
  database at its version, and no rows.

## Model

| member | source | states |
|---|---|---|
| `ShellQuotes.QuoteMask` | scripts/gen_validation_manifest.py:147-186 | The index loop marks a character exactly when the quoting automaton has a quote open just before or just after it |
| `ShellQuotes.OpenQuote` | scripts/gen_validation_manifest.py:438-460 | The second scanner ends in the quote which the same automaton has open at the end of the text |
| `ShellQuotes.StateOfSuffix` | scripts/gen_validation_manifest.py:438-460 | Scanning a concatenation whose first part ends outside quotes is scanning the second part afresh, which is what makes joined lines scannable one by one |
| `ShellQuotes.SplitUnquoted` | scripts/gen_validation_manifest.py:292-306 | The pieces are cut exactly at the leftmost separators that start outside quotes, never inside, and joining them with the separator restores the text |
| `ShellQuotes.JoinWellCut` | scripts/gen_validation_manifest.py:292-306 | Any sequence of pieces cut that way joins back to the text it was cut from |
| `ShellQuotes.WellCutIsUnique` | scripts/gen_validation_manifest.py:292-306 | Text and separator determine the pieces: no other cut meets the description |
| `ShellQuotes.PiecesWellCut` | scripts/gen_validation_manifest.py:292-306 | The recursive description of the cut, from any position at which no separator was missed, meets it |
| `QuoteRegions.MaskExactly` | scripts/gen_validation_manifest.py:147-186 | In a fragment of plain characters, escaped ones and whole quotations exactly the characters of the quotations are marked, delimiters and escapes included, and no quote is open at its end |
| `QuoteRegions.OpenToTheEnd` | scripts/gen_validation_manifest.py:438-460 | A quotation that is begun and not closed is open at the end, as the quote it is |
| `ShellLabels.StaticPrefix` | scripts/gen_validation_manifest.py:260-286 | The character loop returns the fixed part of a label as a function of the literal |
| `ShellLabels.PrefixOfExpansion` | scripts/gen_validation_manifest.py:260-286 | For a literal without a joined line before its first expansion the fixed part begins what the shell prints (section 2.2.3 of POSIX.1-2017), in every environment |
| `ShellLabels.SilentExpansion` | scripts/gen_validation_manifest.py:260-286 | With all expansions empty the printed text is no longer than the fixed part, and shorter if a backslash-newline was removed |
| `ShellLabels.RawPrefixIsExact` | scripts/gen_validation_manifest.py:260-286 | The fixed part of a raw literal begins its expansion in every environment if and only if no backslash-newline precedes the first expansion, and then it is the longest such text |
| `ShellLabels.OneLineHasNoJoin` | scripts/gen_validation_manifest.py:260-286 | A literal without a newline meets that condition |
| `ShellLabels.ReadDouble` | scripts/gen_validation_manifest.py:225-234 | Reading a double-quoted piece appends the piece with its escapes resolved and stops just after the closing quote, or at the end |
| `ShellLabels.ReadSingle` | scripts/gen_validation_manifest.py:235-243 | Reading a single-quoted piece appends it unchanged and stops after the closing quote |
| `ShellLabels.ReadWord` | scripts/gen_validation_manifest.py:212-256 | One word is read with its kind, text and end as the grammar of words gives them, counting parentheses as the code does |
| `ShellLabels.SplitWords` | scripts/gen_validation_manifest.py:189-257 | The whole loop yields the words of the argument list, up to an unquoted end of command |
| `WordBreaks.SeparatorsExactly` | scripts/gen_validation_manifest.py:199-256 | Of all characters but quotes exactly the blank and the tabulator separate words, and exactly the semicolon and the bar end the command |
| `WordBreaks.AndEnds` | scripts/gen_validation_manifest.py:199-211 | Two ampersands end the command |
| `WordBreaks.EscapesExactly` | scripts/gen_validation_manifest.py:225-283 | Behind a backslash exactly four characters stand for themselves, in splitting, extraction and the shell alike |
| `WordBreaks.StopsExactly` | scripts/gen_validation_manifest.py:270-283 | Extraction stops at the dollar sign and the backquote and at no other character |
| `WordBreaks.SingleQuotedWord` | scripts/gen_validation_manifest.py:235-243 | A text in single quotes is one word of its own kind, kept as it stands |
| `LabelSafety.BodyOfLiteral` | scripts/gen_validation_manifest.py:225-234 | A literal whose quotes are all escaped is read up to its own closing quote, whatever follows |
| `LabelSafety.SplitOfRendered` | scripts/gen_validation_manifest.py:189-257 | Round trip: arguments written each in double quotes are split back into just those arguments, in order, before the words that follow |
| `LabelSafety.DeepWordTakesAll` | scripts/gen_validation_manifest.py:245-256 | A word with more parentheses open than closing ones left takes all the remaining text |
| `LabelSafety.SubstitutionSwallowsLabel` | scripts/gen_validation_manifest.py:245-256 | A text that starts a substitution and has at most one closing parenthesis is one single word to its end, labels included |
| `LabelSafety.RunVerdict` | scripts/gen_validation_manifest.py:227-283 | For a run of backslashes left by splitting: the extracted prefix begins the printed text exactly under a condition on the length of the run and the next character |
| `LabelSafety.SplitPrefixIsExact` | scripts/gen_validation_manifest.py:189-286 | After splitting and extraction together the kept identity begins the printed label if and only if the label keeps its escaped backslashes in the safe places, for every environment |
| `LabelSafety.NoEscapedBackslashIsSafe` | scripts/gen_validation_manifest.py:227-283 | A label without an escaped backslash is always safe |
| `LabelSafety.EscapedDollarIsCut` | scripts/gen_validation_manifest.py:260-283 | A family of labels that lose their escaped dollar to splitting, which extraction alone would have kept |
| `LabelSplitting.AfterEscapedBackslash` | scripts/gen_validation_manifest.py:227-283 | After an escaped backslash splitting and extraction keep what extraction keeps exactly when the label ends there or goes on with an ordinary character |
| `LabelSplitting.KeepsPrefixExactly` | scripts/gen_validation_manifest.py:227-283 | For every label: extraction after splitting keeps what extraction alone keeps if and only if no expansion character is escaped before the first expansion and every escaped backslash is harmless |
| `LabelSplitting.EscapedDollarExactly` | scripts/gen_validation_manifest.py:263-283 | Without escaped backslashes, the promise that an escaped dollar survives holds if and only if none comes before the first expansion |
| `Substitutions.ReadThrough` | scripts/gen_validation_manifest.py:212-256 | Reading on in a word over any well-quoted text keeps that text with its quotations resolved, and ends at the depth that counting its parentheses gives |
| `Substitutions.SubstitutionDepth` | scripts/gen_validation_manifest.py:245-253 | Whatever its body, a substitution leaves the depth its parentheses give when its opening is counted as two, or the word has ended inside it |
| `Substitutions.SubstitutionLeavesOne` | scripts/gen_validation_manifest.py:245-253 | A command substitution without further parentheses outside quotes leaves one parenthesis open |
| `Substitutions.WordEndsAfterSubstitution` | scripts/gen_validation_manifest.py:217-256 | For any body: the word ends with its substitution if and only if the text does, or the body has closed both parentheses and an end of word follows |
| `Substitutions.LabelAfterSubstitution` | scripts/gen_validation_manifest.py:199-256 | For any body: a label after a substitution and more text of that word is a word of its own if and only if that text closes what is still open; all words of the line either way |
| `Substitutions.OneMoreParenthesis` | scripts/gen_validation_manifest.py:245-253 | Directly after a plain substitution the depth is one, after one more closing parenthesis none |
| `Substitutions.NestedQuoteExactly` | scripts/gen_validation_manifest.py:212-283 | A label with quotes inside its substitution is read as pieces of one word, and what is kept of it begins what the shell prints if and only if the part before the inner quote is safe |
| `LogicalLines.JoinLines` | scripts/gen_validation_manifest.py:470-522 | The loop over physical lines yields the logical lines of the joining rules: continuations, open quotes, here-documents, comments and blanks |
| `LogicalLines.LinesAreCovered` | scripts/gen_validation_manifest.py:470-522 | Every physical line that is not skipped goes into exactly one logical line, in order |
| `LogicalLines.LinesAreOrdered` | scripts/gen_validation_manifest.py:470-522 | Logical lines start at strictly increasing lines, and each but a final flush ends outside quotes |
| `LogicalLines.TextIsConserved` | scripts/gen_validation_manifest.py:470-522 | Apart from blanks and backslashes a logical line holds exactly the characters of its physical lines |
| `LogicalLines.LinesStaySingle` | scripts/gen_validation_manifest.py:470-522 | No logical line contains a newline |
| `JoinedLines.JoinedExactly` | scripts/gen_validation_manifest.py:470-522 | Main result: outside all groups stand exactly the blank and comment lines; a group begins with any other line, takes the next line in after a backslash or in a quote, and after a here-document the line behind the first terminator, and ends as soon as neither is so, or with the file; its text is that of its lines so joined |
| `JoinedLines.StripMeans` | scripts/gen_validation_manifest.py:470-522 | Stripping takes exactly the blanks at both ends |
| `JoinedLines.AfterHereDocument` | scripts/gen_validation_manifest.py:470-522 | The line behind a here-document is joined to the line that opened it even if that was complete |
| `BrokenLabels.LabelIsJoined` | scripts/gen_validation_manifest.py:470-522 | A label written over several physical lines reaches the scan as one text, with a blank, or two for a backslash, at each end of line |
| `BrokenLabels.LabelOverLines` | scripts/gen_validation_manifest.py:260-522 | Main result: what is kept of such a label begins what the shell prints, in every environment, if and only if splitting leaves an expansion in its first line and that line is safe; on one line, if and only if it is safe |
| `GatewaySites.Scanner.AddRequiredSites` | scripts/gen_validation_manifest.py:555-560 | Required sites are appended to the last branch of the innermost block, or to the result outside all blocks; nothing else changes |
| `GatewaySites.Scanner.AddOptionalSites` | scripts/gen_validation_manifest.py:607-610 | Optional sites are appended to the innermost block or to the result |
| `GatewaySites.Scanner.EmitOptional` | scripts/gen_validation_manifest.py:562-568 | Each optional label becomes a site of its own |
| `GatewaySites.Block.Complete` | scripts/gen_validation_manifest.py:570-577 | Closing adds an empty branch to a lone `if` and to a `case` without default |
| `GatewaySites.Block.Pairing` | scripts/gen_validation_manifest.py:570-604 | A block is refused exactly when a loop holds a check or branches differ in size; otherwise its branches are paired |
| `GatewaySites.Scanner.CloseBlock` | scripts/gen_validation_manifest.py:570-610 | A loop with any check and branches of different sizes are refused; otherwise the paired sites and the optional ones go to the block below |
| `GatewaySites.PairBranches` | scripts/gen_validation_manifest.py:596-604 | Branches of equal size are merged position by position, group from the first branch |
| `GatewaySites.LabelsAtHolds` | scripts/gen_validation_manifest.py:597-604 | A merged site has exactly the labels some branch has at its position |
| `GatewaySites.MergeHolds` | scripts/gen_validation_manifest.py:598-603 | Merging keeps the union of the labels |
| `GatewaySites.MergeIsOrdered` | scripts/gen_validation_manifest.py:598-603 | Merging keeps the labels there are in their places and adds none twice |
| `GatewaySites.AlternativesHold` | scripts/gen_validation_manifest.py:653-660 | Each pair of a one-line conditional carries exactly the two labels that stand there |
| `GatewaySites.PairArms` | scripts/gen_validation_manifest.py:653-660 | The arms of a one-line conditional are paired label by label |
| `GatewaySites.Scanner.OneLine` | scripts/gen_validation_manifest.py:628-664 | A one-line conditional is refused exactly when its arms have different numbers of required labels; otherwise it adds the pairs and all optional labels |
| `GatewaySites.Scanner.PopBlock` | scripts/gen_validation_manifest.py:669-673 | A closing keyword is refused with nothing open, and otherwise closes the top block whatever its kind |
| `GatewaySites.Scanner.NextBranch` | scripts/gen_validation_manifest.py:674-680 | A further branch is opened on the top block whatever its kind |
| `GatewaySites.Scanner.Open` | scripts/gen_validation_manifest.py:681-687 | A block of the given kind with one empty branch is pushed |
| `GatewaySites.Scanner.EmitChecks` | scripts/gen_validation_manifest.py:696-710 | A line that mixes required and optional checks is refused; required labels become one site, optional ones a site each |
| `GatewaySites.Scanner.ReadLine` | scripts/gen_validation_manifest.py:612-710 | One logical line, with whatever stands on it, takes the mutable stack of blocks to the state the specification gives, or aborts on the same lines; checks on lines the scan passes over leave it as it is |
| `GatewaySites.GatewaySites` | scripts/gen_validation_manifest.py:534-717 | The whole scan yields the two site lists, and aborts also when a block is left open |
| `GatewayScript.Simulates` | scripts/gen_validation_manifest.py:612-717 | From any state of the stack, running over the lines of a well-nested stretch of script, to any depth, adds what structural recursion on its tree finds, or aborts on the same trees |
| `GatewayScript.ScannerMatchesTree` | scripts/gen_validation_manifest.py:534-717 | Main result: over the linearised lines of any script the stack machine finds the same required and optional lists as the recursion that pairs branches, or both refuse |
| `GatewayScript.ScannerMatchesScript` | scripts/gen_validation_manifest.py:612-717 | The same for a script from its first `group` line on, whatever precedes it |
| `GatewayRefusals.FindRefuses` | scripts/gen_validation_manifest.py:534-717 | A script tree is refused if and only if some scanned line holds both kinds of checks, a loop holds a check, or arms or branches differ in size, the implied empty ones included: said of its labels alone, in whatever group |
| `GatewayRefusals.ScanRefusesExactly` | scripts/gen_validation_manifest.py:534-717 | Main result: the stack machine aborts on the lines of a script if and only if the script is refused for that |
| `GatewayRefusals.AcceptedBalances` | scripts/gen_validation_manifest.py:612-717 | Main result: on any lines at all, if the scan does not abort then openings and closings balance, no closing, `else` or `elif` stands where nothing is open, and no scanned line holds both kinds of checks |
| `GatewayLines.EmitsBetween` | scripts/gen_validation_manifest.py:696-706 | A line of commands joined by `;`, `&&` and `||` emits between its least and its greatest number of required checks, whatever its other commands do |
| `GatewayLines.SomeEmission` | scripts/gen_validation_manifest.py:696-706 | Both numbers are reached |
| `GatewayLines.LinePicks` | scripts/gen_validation_manifest.py:696-710 | What a line emits are checks under its labels, each at most once and in order |
| `GatewayPaths.FoundSize` | scripts/gen_validation_manifest.py:570-610 | An accepted script has as many required sites as its text has required checks along first branches |
| `GatewayPaths.FoundInGroup` | scripts/gen_validation_manifest.py:596-604 | Without nested `group` lines every found site carries the group in effect |
| `GatewaySoundness.Sound` | scripts/gen_validation_manifest.py:534-717 | Main result: on an accepted pinned script every execution, with any branch choices and loop counts, emits exactly one check for each required site, in order, under one of its labels, and when asked for also under its group and with the optional rows placed |
| `GatewaySoundness.PairMatches` | scripts/gen_validation_manifest.py:588-604 | Rows that match any one branch match the paired sites |
| `GatewaySoundness.CaseIsEmpty` | scripts/gen_validation_manifest.py:525-531 | An accepted `case` has no required check in any arm, because its branch list starts with an empty one |
| `GatewayCounts.RowsBetween` | scripts/gen_validation_manifest.py:612-717 | Every execution of a script emits between the least and the greatest number of required checks read off its tree |
| `GatewayCounts.OffCount` | scripts/gen_validation_manifest.py:612-717 | Where the two numbers are not both `n`, some execution emits another number than `n` |
| `GatewayCounts.CountIsExact` | scripts/gen_validation_manifest.py:612-717 | All executions emit `n` required checks if and only if both numbers are `n` |
| `GatewayExactness.SizeIsReached` | scripts/gen_validation_manifest.py:570-610 | An accepted script can emit as many required checks as it has sites |
| `GatewayExactness.LinesAreCapable` | scripts/gen_validation_manifest.py:696-706 | A line that begins with a command can run its first check |
| `GatewayExactness.PlainArmsAreCapable` | scripts/gen_validation_manifest.py:628-664 | An arm of checks joined by `;` or `&&` emits all of them |
| `GatewayExactness.Tight` | scripts/gen_validation_manifest.py:534-717 | An accepted script whose least and greatest number are both the number of its sites is pinned |
| `GatewayExactness.PinnedIsExact` | scripts/gen_validation_manifest.py:534-717 | Main result: all executions of an accepted script match its sites if and only if each scanned line emits exactly one check whatever its other commands do, a one-line arm all of its checks, and nothing required can run elsewhere: in a condition, beside a `group` name, a `case` word or a closing keyword, on an `elif` line, in a loop on one line, nor in a conditional with `elif` and no `else` |
| `GatewayGroups.OutIsExact` | scripts/gen_validation_manifest.py:619-621 | The groups a script can end in, computed by recursion on its tree, are exactly those in which some execution ends |
| `GatewayGroups.GroupsAreExact` | scripts/gen_validation_manifest.py:596-621 | Main result: on all executions of an accepted pinned script each required check also runs in the group of its site if and only if on every path of the tree the group in effect is the one found at that position |
| `GatewayGroups.FlatGroupsAgree` | scripts/gen_validation_manifest.py:619-621 | Groups named only outside all blocks agree |
| `GatewayOptionals.FoundOptional` | scripts/gen_validation_manifest.py:562-610 | The optional sites found carry exactly the optional labels the scan looks at, one each and in order |
| `GatewayOptionals.Placed` | scripts/gen_validation_manifest.py:562-710 | If no optional check can run where the scan does not look or in a loop on one line, the optional rows of every execution are some of these labels in order |
| `GatewayOptionals.StrayRun` | scripts/gen_validation_manifest.py:612-710 | If one can, some execution shows a label more often than the scan looks at it |
| `GatewayOptionals.OptionalsExactly` | scripts/gen_validation_manifest.py:534-717 | Main result: for an accepted script with no optional label twice, the optional rows of all executions have sites of their own in order if and only if no optional check can run there |
| `GatewayGaps.AndOrLines` | scripts/gen_validation_manifest.py:696-706 | `probe && a || b` emits exactly one check; `probe && a`, `probe || b` and `a; b` do not, though each is accepted as one site |
| `GatewayGaps.TwoWrongs` | scripts/gen_validation_manifest.py:628-706 | A line that emits one check too many and an arm that can never emit its second make up for each other |
| `GatewayGaps.LoopOnOneLine` | scripts/gen_validation_manifest.py:681-706 | A loop on one line is accepted as one required check and can emit any number of them |
| `GatewayGaps.CheckBesideFi` | scripts/gen_validation_manifest.py:669-673 | A check beside a closing keyword is not found and is emitted |
| `GatewayGaps.CheckInCondition` | scripts/gen_validation_manifest.py:681-706 | A check in a condition is paired with the first branch and emitted with the second as well |
| `GatewayGaps.ElifWithoutElse` | scripts/gen_validation_manifest.py:574-577 | An accepted `if`/`elif` without `else` has a path that emits nothing |
| `GatewayGaps.GroupInBranch` | scripts/gen_validation_manifest.py:619-621 | A `group` line in a branch: the check after it is found in one group and runs in the other |
| `GatewayGaps.BranchesInTwoGroups` | scripts/gen_validation_manifest.py:596-604 | Branches in two groups: the site has the group of the first and the labels of both, and the second runs in its own group |
| `GatewayGaps.OptionalBesideFi` | scripts/gen_validation_manifest.py:669-673 | An optional check beside a closing keyword is emitted without a site |
| `Manifest.CheckEntry` | scripts/gen_validation_manifest.py:732-741 | An entry is refused exactly when one of its labels is shorter than the minimum |
| `Manifest.CheckEntries` | scripts/gen_validation_manifest.py:816-818 | All sites become entries in order, or the first short label aborts |
| `Manifest.Flatten` | scripts/gen_validation_manifest.py:752-755 | The flat list holds every prefix with every entry that has it, and nothing else |
| `Manifest.RejectShadowing` | scripts/gen_validation_manifest.py:744-766 | Accepted if and only if no prefix of one entry begins a prefix of another |
| `Manifest.CountGroups` | scripts/gen_validation_manifest.py:830-832 | The table counts the required entries of each group that has any |
| `Manifest.BuildGateway` | scripts/gen_validation_manifest.py:816-843 | A scope is built exactly when labels are long enough, nothing shadows and the declared constant agrees; it then describes the sites |
| `Manifest.BuildableMeans` | scripts/gen_validation_manifest.py:816-843 | A scope is built if and only if every label has at least twelve characters, no label of one site begins a label of another, and the declared number is that of the required sites |
| `Assignment.CandidateMeans` | scripts/ci_assert_service_results.py:404-413 | A row is a candidate exactly when its name extends one of the prefixes, and its score is the longest one that does |
| `Assignment.Longest` | scripts/ci_assert_service_results.py:405-410 | The inner loop finds the longest matching prefix |
| `Assignment.CandidatesFor` | scripts/ci_assert_service_results.py:397-415 | The candidates are exactly the matching rows of the group, sorted best score first, later rows first among equals |
| `Assignment.TakeRow` | scripts/ci_assert_service_results.py:418-423 | The entry takes the best unclaimed candidate |
| `Assignment.PickIsBest` | scripts/ci_assert_service_results.py:418-423 | The row taken is free and no free row is better; none is taken only if none is free |
| `Assignment.PickMeans` | scripts/ci_assert_service_results.py:414-449 | No row is taken only if no unclaimed row of the group extends a prefix; the row taken extends one at least as long as any other row does, and is the last of those |
| `Assignment.HitsAreDistinct` | scripts/ci_assert_service_results.py:418-437 | No row is ever given to two entries, whatever the manifest |
| `Assignment.ClaimsAreHits` | scripts/ci_assert_service_results.py:418-437 | The claims after any number of entries are exactly the rows taken so far |
| `Assignment.NameHasOneEntry` | scripts/gen_validation_manifest.py:744-766 | On a manifest without shadowing a row name extends prefixes of at most one entry, even across groups |
| `Assignment.HitIsOwnRow` | scripts/ci_assert_service_results.py:418-423 | Without shadowing each entry takes the row it would take if it were alone |
| `Assignment.MissingExactly` | scripts/ci_assert_service_results.py:424-430 | Without shadowing an entry goes without a row exactly when no row is a candidate for it |
| `Assignment.EntryOrderIrrelevant` | scripts/ci_assert_service_results.py:414-437 | Without shadowing the order of the entries changes neither which row each takes nor which rows are left over |
| `Assignment.RowOrderIrrelevant` | scripts/ci_assert_service_results.py:397-452 | Without shadowing the order of the rows changes neither which entries go without nor how many rows are left over |
| `Assignment.ServedAndLeftOver` | scripts/ci_assert_service_results.py:418-452 | Conservation: entries served and rows left over add up to the rows |
| `Assignment.GreedyIsComplete` | scripts/ci_assert_service_results.py:397-452 | Without shadowing, if any complete one-to-one assignment exists the greedy loop finds that very assignment |
| `ResultsValidator.CheckIdentity` | scripts/ci_assert_service_results.py:143-166 | No failure exactly when the document is of the schema, scope and mode asked for, and of the commit if one is asked for |
| `ResultsValidator.CheckOutcome` | scripts/ci_assert_service_results.py:155-192 | No failure exactly when the document states a pass without failures, skips or repeated names, and both its totals are the manifest's |
| `ResultsValidator.CheckReport` | scripts/ci_assert_service_results.py:222-251 | One group report is accepted exactly when its group is declared, its count is the required one and nothing failed |
| `ResultsValidator.CheckBreakdown` | scripts/ci_assert_service_results.py:209-263 | No failure is reported exactly when the breakdown is there, names no group twice, has only good reports and every required group |
| `ResultsValidator.MissingGroups` | scripts/ci_assert_service_results.py:257-263 | No failure exactly when every required group was seen |
| `ResultsValidator.CountRows` | scripts/ci_assert_service_results.py:274-303 | The required rows are counted over all and per group |
| `ResultsValidator.CheckItems` | scripts/ci_assert_service_results.py:280-288 | No failure exactly when every row is an object, passed, and the names are distinct |
| `ResultsValidator.CheckRegister` | scripts/ci_assert_service_results.py:265-310 | No failure exactly when the register is a list of distinct passing rows with the declared totals |
| `ResultsValidator.UnevenGroups` | scripts/ci_assert_service_results.py:304-310 | No failure exactly when each declared group has its number of rows |
| `ResultsValidator.IsUsable` | scripts/ci_assert_service_results.py:341-381 | A manifest is refused up front exactly when it names no checks, has a malformed entry, or counts a group it names no check for |
| `ResultsValidator.AssignRows` | scripts/ci_assert_service_results.py:414-449 | Each entry in turn claims its row; a failure is reported for exactly the unserved required entries and the wrongly flagged rows |
| `ResultsValidator.UnclaimedRows` | scripts/ci_assert_service_results.py:452-458 | A failure is reported for exactly the rows nobody claimed |
| `ResultsValidator.CheckAssignment` | scripts/ci_assert_service_results.py:383-467 | No failure exactly when every required entry is served, every row claimed and every flag right; the reported missing and unclaimed sets are exact |
| `ResultsValidator.Validate` | scripts/ci_assert_service_results.py:143-471 | All stages together: refused, or accepted if and only if identity, outcome, breakdown, register and assignment are in order |
| `RegisterGuarantees.AssignmentIsBijection` | scripts/ci_assert_service_results.py:414-467 | Whatever the manifest, a faultless assignment is one-to-one between rows and declared checks with every required check served |
| `RegisterGuarantees.BijectionIsFound` | scripts/ci_assert_service_results.py:397-467 | Without shadowing any such correspondence is found by the loop |
| `RegisterGuarantees.AcceptedIffBijection` | scripts/ci_assert_service_results.py:383-467 | Without shadowing the assignment is faultless if and only if such a correspondence exists |
| `RegisterGuarantees.AcceptedMeans` | scripts/ci_assert_service_results.py:265-467 | An accepted document: its rows correspond one-to-one to declared checks of the same group with matching prefix and result pass, with the declared counts |
| `DocumentGuarantees.AcceptedDeserves` | scripts/ci_assert_service_results.py:143-471 | Whatever the manifest, an accepted document states the schema, scope, mode and commit asked for and a pass with the manifest's total and no failure, skip or repeated name; each group reports once, with its number and no failure; and the register holds just one passing row for each declared check, flagged as declared, in the declared numbers |
| `DocumentGuarantees.AcceptedExactly` | scripts/ci_assert_service_results.py:143-471 | Main result: without shadowing a document is accepted if and only if that is so, said of its values, its lists and the manifest alone |
| `RegisterGuarantees.ForeignRowRejected` | scripts/ci_assert_service_results.py:451-458 | A row that matches no declared prefix of its group is always rejected |
| `RegisterGuarantees.RenameRejected` | scripts/ci_assert_service_results.py:312-332 | Renaming one row of a register to such a name is rejected although every count stays the same |
| `EndToEnd.FoundLabelled` | scripts/gen_validation_manifest.py:555-610 | Every site found by an accepted scan has a label |
| `EndToEnd.RunIsBijection` | scripts/ci_assert_service_results.py:414-467 | The rows of a run that matches the sites correspond one-to-one to the declared checks |
| `EndToEnd.NamesAreDistinct` | scripts/ci_assert_service_results.py:280-284 | Such rows have distinct names |
| `EndToEnd.RegisterCounts` | scripts/ci_assert_service_results.py:274-310 | The counts the validator takes are those of the required rows |
| `EndToEnd.PassingRunAccepted` | scripts/ci_assert_service_results.py:265-467 | When the generator accepts a script and its manifest, the register of any passing path, with any subset of the optional rows and names that begin with the found labels, has distinct names and the declared counts, every required entry claimed and no row unclaimed |
| `EndToEnd.PassingDocumentAccepted` | scripts/ci_assert_service_results.py:143-467 | The document of such a run, with a failure-free report counting the required checks of each group that ran, and with the values of a passing run, is accepted by all stages together |
| `GatewayLabels.RunsKept` | scripts/gen_validation_manifest.py:260-283 | What a script of literals can emit, the script of their identities, which the scan reads, can emit in their place |
| `GatewayLabels.PrintsIdentities` | scripts/gen_validation_manifest.py:189-522 | The expansion of each safe label, over however many lines it is written, begins with the identity kept of it |
| `GatewayLabels.LiteralsAccepted` | scripts/ci_assert_service_results.py:265-467 | Main result: from the literals of a script, through splitting, extraction, scan and manifest on one side and the shell on the other, to the acceptance of the register of any passing run |
| `LiveRefresh.Hook.ClearPending` | apps/desktop/src/useLiveRefresh.ts:107-112 | The pending timeout is cancelled and the ref emptied |
| `LiveRefresh.Hook.RunFetch` | apps/desktop/src/useLiveRefresh.ts:114-122 | The call is dropped while one is in flight or after unmount; otherwise it takes the next sequence number and the guard |
| `LiveRefresh.Hook.Delay` | apps/desktop/src/useLiveRefresh.ts:155-161 | Back-off after failures, else the cadence of the visibility |
| `LiveRefresh.Hook.ScheduleNext` | apps/desktop/src/useLiveRefresh.ts:166-181 | The pending timeout is replaced by one of the current generation, unless unmounted or disabled |
| `LiveRefresh.Hook.Settle` | apps/desktop/src/useLiveRefresh.ts:145-151 | The guard is released whichever fetch settles |
| `LiveRefresh.Hook.OnResolved` | apps/desktop/src/useLiveRefresh.ts:123-135 | A result is applied exactly when mounted, of the current generation and newer than the last applied |
| `LiveRefresh.Hook.OnRejected` | apps/desktop/src/useLiveRefresh.ts:136-144 | A failure under the same condition is counted and leaves data and the applied number alone |
| `LiveRefresh.Hook.OnProceed` | apps/desktop/src/useLiveRefresh.ts:177-189 | The continuation re-arms, with or without the generation check of the call that registered it |
| `LiveRefresh.Hook.OnTimer` | apps/desktop/src/useLiveRefresh.ts:175-180 | A timeout of a superseded generation does nothing |
| `LiveRefresh.Hook.OnFocus` | apps/desktop/src/useLiveRefresh.ts:238-243 | Focus fetches at once and re-arms without a check |
| `LiveRefresh.Hook.OnVisibility` | apps/desktop/src/useLiveRefresh.ts:230-237 | Becoming visible fetches, becoming hidden re-arms |
| `LiveRefresh.Hook.OnRefresh` | apps/desktop/src/useLiveRefresh.ts:183-189 | A manual refresh fetches and then re-arms without a check |
| `LiveRefresh.Hook.EnterEffect` | apps/desktop/src/useLiveRefresh.ts:191-217 | A new generation releases the guard and starts its first fetch, or clears the timer when disabled |
| `LiveRefresh.Hook.LeaveEffect` | apps/desktop/src/useLiveRefresh.ts:208-223 | The cleanup unmounts and cancels the timeout |
| `LiveRefresh.Hook.OnRender` | apps/desktop/src/useLiveRefresh.ts:191-224 | Changed dependencies run cleanup and effect, unchanged ones nothing |
| `LiveRefresh.Hook.OnUnmount` | apps/desktop/src/useLiveRefresh.ts:218-223 | Unmounting is the cleanup alone |
| `LiveRefresh.Hook.Handle` | apps/desktop/src/useLiveRefresh.ts:107-250 | Whichever callback runs next, the timer, numbering and history guarantees hold after it; only an outcome that counts changes what is shown, and nothing does while unmounted |
| `LiveRefresh.SoundStep` | apps/desktop/src/useLiveRefresh.ts:107-250 | Every event keeps these guarantees together |
| `LiveRefresh.OutcomeMeans` | apps/desktop/src/useLiveRefresh.ts:123-135 | A result that counts is what is shown, with no error and no failures; any other changes nothing shown |
| `LiveRefresh.RejectionMeans` | apps/desktop/src/useLiveRefresh.ts:136-144 | A failure that counts is shown beside the old data and adds one to the failures; any other changes nothing shown |
| `LiveRefresh.ProceedMeans` | apps/desktop/src/useLiveRefresh.ts:166-189 | A continuation of the current generation, or an unguarded one, arms the timeout that is due; one of an earlier generation does nothing |
| `LiveRefresh.FireMeans` | apps/desktop/src/useLiveRefresh.ts:175-180 | A timeout of the current generation fetches with its own props unless a fetch is out; any other only goes away |
| `LiveRefresh.SightMeans` | apps/desktop/src/useLiveRefresh.ts:155-243 | A manual refresh, focus or becoming visible asks for a fetch that re-arms in any generation, and it runs if none is out; becoming hidden arms the slow cadence or the back-off; focus and visibility do nothing while unmounted or disabled |
| `LiveRefresh.StartMeans` | apps/desktop/src/useLiveRefresh.ts:75-223 | The first render shows nothing yet, with one fetch out and busy if enabled, and idle otherwise |
| `LiveRefresh.RenderMeans` | apps/desktop/src/useLiveRefresh.ts:191-224 | Changed dependencies start one generation, with exactly one more outstanding fetch, of the new fetcher, if enabled and no timeout if not; any other render does nothing, and none changes what is shown |
| `LiveRefresh.UnmountMeans` | apps/desktop/src/useLiveRefresh.ts:218-223 | After an unmount no timeout is pending |
| `LiveRefreshRuns.TimersStep` | apps/desktop/src/useLiveRefresh.ts:107-250 | Each event keeps the timer invariant |
| `LiveRefreshRuns.TimersAlways` | apps/desktop/src/useLiveRefresh.ts:107-250 | Over every run at most one timeout is pending, of the current generation; none after unmount or while disabled; while mounted and enabled there is always a timeout or an outstanding call that will re-arm |
| `LiveRefreshRuns.HistoryAlways` | apps/desktop/src/useLiveRefresh.ts:114-152 | Over every run applied sequence numbers strictly increase, every applied result was started in the generation that applied it, the data shown is the last applied, and the failure count is that since the last success |
| `LiveRefreshRuns.NothingWhileUnmounted` | apps/desktop/src/useLiveRefresh.ts:127-149 | No event while unmounted changes what is shown, unless it mounts again |
| `LiveRefreshRuns.UnmountedStays` | apps/desktop/src/useLiveRefresh.ts:127-149 | From an unmount on nothing shown changes, whatever settles or fires |
| `LiveRefreshRuns.BackoffBounds` | apps/desktop/src/useLiveRefresh.ts:155-159 | Delays after failures stay between base and ceiling and never shrink as failures grow |
| `LiveRefreshRuns.BackoffIsWait` | apps/desktop/src/useLiveRefresh.ts:155-159 | The delay is five seconds after the first failure and after each further one the smaller of twice as long and a minute |
| `LiveRefreshRuns.ArmedDelay` | apps/desktop/src/useLiveRefresh.ts:155-181 | Scheduling arms one timeout of the current generation and the captured props, with that delay after failures, else a minute while hidden and the interval asked for while visible |
| `LiveRefreshRuns.DelayAlways` | apps/desktop/src/useLiveRefresh.ts:114-181 | Over every run the failures that decide it are those since the last result shown |
| `LiveRefreshRuns.OneFetchStep` | apps/desktop/src/useLiveRefresh.ts:114-151 | Within a generation the guard stays true exactly while one fetch is outstanding, never two |
| `LiveRefreshRuns.OneFetchWithin` | apps/desktop/src/useLiveRefresh.ts:114-151 | The same along every run that stays in the generation |
| `LiveRefreshRuns.EnteringAddsOne` | apps/desktop/src/useLiveRefresh.ts:191-217 | Entering a generation adds a fetch to those outstanding, since the guard is released |
| `LiveRefreshRuns.NoOverlapExactly` | apps/desktop/src/useLiveRefresh.ts:145-217 | A generation is free of overlap to its end if and only if it is entered with nothing outstanding |
| `LiveRefreshFreshness.NumbersAlways` | apps/desktop/src/useLiveRefresh.ts:114-224 | Over every run ids, sequence numbers and captured generations are never ahead of the refs |
| `LiveRefreshFreshness.ForeignResultExactly` | apps/desktop/src/useLiveRefresh.ts:166-243 | After a changed fetcher, a result of another fetcher can still be shown if and only if a focus, visibility or manual call of it was outstanding |
| `LiveRefreshFreshness.FocusThenChange` | apps/desktop/src/useLiveRefresh.ts:238-243 | One focus event before the change is enough; the comment on generations excludes it |
| `RateLimiter.Database.Join` | functions/index.js:125-155 | One transaction accepts or rejects by the stored record and writes that record and at most one new entry; a rejection changes nothing |
| `RateLimiter.AttemptCases` | functions/index.js:130-147 | In any reachable state a submission goes on in its window of an hour while fewer than five were accepted in it, is rejected when there are five, and opens a new window otherwise; the record is kept for two hours |
| `RateLimiter.GoodAlways` | functions/index.js:125-147 | Over every timely run, with the queries and commits of a cleanup anywhere, stored and deleted records are within the limit and not from the future |
| `RateLimiter.WindowBoundAlways` | functions/index.js:125-192 | How many acceptances a stored window can have, given the address's latest record and the deletions met at its start |
| `RateLimiter.LimitPerWindow` | functions/index.js:136-147 | At most the limit is accepted per stored window, and as many again for each submission that met the deleted record of an open window |
| `RateLimiter.LimitPerInterval` | functions/index.js:133-147 | Any half-open interval of a window length holds at most twice the limit less one acceptances of an address, and the limit more for each such submission |
| `RateCleanup.SubmitAlike` | functions/index.js:133-147 | A submission is decided differently after a deletion exactly when it meets the deleted record of an open window |
| `RateCleanup.CleanupInvisibleExactly` | functions/index.js:125-192 | Main result: cleanups anywhere in a run change no decision and no written record if and only if no submission meets the deleted record of an open window |
| `RateCleanup.MetRecordWasRewritten` | functions/index.js:179-187 | Such a record had expired when the query listed it and was written anew before the batch was committed |
| `RateCleanup.StrictLimits` | functions/index.js:125-192 | Without such submissions at most five are accepted per stored window and nine in any hour |
| `RateCleanup.BreaksAreDeletions` | functions/index.js:185-187 | Each deletion of an address's record is met by at most one submission |
| `RateCleanup.NineInOneInterval` | functions/index.js:133-147 | The bound without cleanup is reached by a run |
| `RateCleanup.TenInOneInterval` | functions/index.js:125-192 | A run in which a record is written anew between query and commit: ten acceptances in one interval and one stored window |
| `ExpiryCleanup.Collection.Query` | functions/index.js:179-183 | A batch of expired documents, all of them if fewer than the batch size |
| `ExpiryCleanup.Collection.DeleteExpired` | functions/index.js:176-192 | With anything written before each query and before each commit, every batch deletes exactly what its query listed, stops after a short one, and the number listed is returned |
| `ExpiryCleanup.AloneMeans` | functions/index.js:176-192 | Run alone, only expired documents go, the number removed is returned, and one that had expired at the start stays only if all batches were full |
| `ExpiryCleanup.BatchIsQueryAndCommit` | functions/index.js:179-187 | A batch on the rate records with submissions in between is a query and a commit of the limiter's runs |
| `Alerts.ResolvesExactly` | crates/core/src/alerts.rs:340-365 | A short form resolves to an alert exactly when it is its identifier, or a pattern for a beginning of that identifier alone |
| `Alerts.RefusesExactly` | crates/core/src/alerts.rs:340-365 | Nothing is found exactly when no identifier fits, and the short form is ambiguous exactly when two do |
| `Alerts.PlainFormBegins` | crates/core/src/alerts.rs:340-365 | Without wildcards a short form resolves exactly to the one alert whose identifier it begins |
| `Alerts.WildcardNamesAnother` | crates/core/src/alerts.rs:350-351 | With a wildcard it can resolve to an alert whose identifier does not begin with it |
| `Sql.LikeIsPrefix` | crates/core/src/alerts.rs:350-351 | Without wildcards of its own a short form matches exactly the identifiers it begins, letters in either case |
| `Sql.LikeOpens` | crates/core/src/alerts.rs:350-351 | Any short form matches exactly the identifiers a beginning of which matches it as a pattern |
| `Sql.LikeByCharacter` | crates/core/src/alerts.rs:350-351 | Without a percent sign a pattern matches exactly the texts of its length, character by character |
| `Alerts.Store.SelectOpen` | crates/core/src/alerts.rs:210-216 | The open alert of the key, or none exactly when there is none |
| `Alerts.Store.FinishUpsert` | crates/core/src/alerts.rs:217-260 | The second statement updates the alert selected, or inserts or refreshes |
| `Alerts.Store.Upsert` | crates/core/src/alerts.rs:209-262 | Undisturbed, an upsert is the one atomic insert-or-refresh, keeps one open alert per key and says whether it created one |
| `Alerts.Store.AutoResolveStale` | crates/core/src/alerts.rs:270-308 | Exactly the open alerts of the kinds whose key is not active are resolved, and counted |
| `Alerts.Store.CloseEach` | crates/core/src/alerts.rs:298-306 | The loop over the selected alerts resolves and counts exactly those not active |
| `Alerts.Store.ResolveByDedup` | crates/core/src/alerts.rs:316-322 | The open alerts of the key are resolved and counted |
| `Alerts.Store.Acknowledge` | crates/core/src/alerts.rs:367-374 | The first acknowledgement time stands; an error changes nothing |
| `Alerts.Store.Resolve` | crates/core/src/alerts.rs:376-383 | The first resolution time stands; an error changes nothing |
| `Alerts.Store.RunMonitor` | crates/core/src/vault.rs:2244-2400 | A cycle keeps one open alert per key, and the open count changes by created less resolved |
| `AlertCycles.RaiseAllMeans` | crates/core/src/vault.rs:2244-2355 | Raising findings renews, never closes or re-keys, existing alerts, and leaves every raised key open |
| `AlertCycles.CycleMeans` | crates/core/src/vault.rs:2244-2392 | After a cycle every tracked finding is open, no managed alert is open without its finding, and nothing else was closed or touched |
| `AlertCycles.CycleOpens` | crates/core/src/vault.rs:2244-2392 | Every alert a cycle adds is about one of its findings and dated with the cycle |
| `AlertCycles.CycleShows` | crates/core/src/alerts.rs:217-260 | After a cycle the open alert of every tracked condition has, field by field, the severity, title, detail, evidence, confidence, recommended action and observed time of its last finding |
| `AlertCycles.ManagedExactly` | crates/core/src/vault.rs:2380-2392 | With one kind per key the open alerts of managed kinds have exactly the keys of the findings |
| `AlertCycles.OthersStay` | crates/core/src/vault.rs:2293-2332 | Alerts of other kinds stay open, and one that is not raised again is left exactly as it was |
| `AlertRuns.AlertsAlways` | crates/core/src/alerts.rs:209-308 | However the statements of any number of monitors interleave, no alert is deleted, re-keyed, reopened or acknowledged twice, and pending statements stay about their key |
| `AlertRuns.OneOpenAlways` | crates/core/src/db.rs:125 | Over every run a key has at most one open alert |
| `AlertRuns.TimesStick` | crates/core/src/alerts.rs:367-383 | A first acknowledgement or resolution is dated as it came, a later one changes nothing, and neither changes any other alert or field |
| `AlertRuns.CloseKeyMeans` | crates/core/src/alerts.rs:316-322 | Closing by key resolves exactly the open alerts of the key, at that time |
| `AlertRuns.SweepMeans` | crates/core/src/alerts.rs:270-308 | A sweep selects exactly the open alerts of its kinds that stand for no active condition, and each of its UPDATEs closes that one alert |
| `AlertRuns.UpsertOutcome` | crates/core/src/alerts.rs:209-262 | With anything between its statements, an upsert leaves the condition open unless the alert it selected was closed meanwhile; it creates one exactly when there is none both at the SELECT and at the write |
| `AlertRuns.ReportedCreated` | crates/core/src/alerts.rs:205-262 | The reported creation is true to fact if and only if there was an open alert at the SELECT or none at the write |
| `AlertRuns.UpsertHolds` | crates/core/src/alerts.rs:209-262 | With nothing closed in between, the condition is open afterwards and its alert has, field by field, what the finding observed |
| `AlertRuns.ResolvedOnce` | crates/core/src/alerts.rs:298-306 | Only the per-alert UPDATE of a sweep ever changes a resolution time |
| `AlertRuns.LostFinding` | crates/core/src/alerts.rs:217-231 | An alert resolved between the statements: the finding is reported and nothing is open |
| `AlertRuns.CreatedTwice` | crates/core/src/alerts.rs:233-260 | Two monitors at once both report a creation, and there is one alert |
| `AlertRuns.ClosedTwice` | crates/core/src/alerts.rs:298-306 | Two sweeps at once both count one alert, which keeps the later time |
| `AlertSweeps.UpdateCloses` | crates/core/src/alerts.rs:298-306 | One UPDATE of a sweep lowers the number of open alerts by one if and only if its alert is still open |
| `AlertSweeps.SweepCountExactly` | crates/core/src/alerts.rs:264-308 | The number a sweep returns is the number of alerts it resolved if and only if every alert it updated was still open just before its UPDATE, and is never lower |
| `AlertSweeps.UndisturbedMeetsOpen` | crates/core/src/alerts.rs:298-306 | A sweep nobody disturbs finds all of them open |
| `AlertSweeps.OverwrittenExactly` | crates/core/src/alerts.rs:300-304 | A resolution time changes in a step if and only if a sweep updates the alert with another time |
| `AlertSweeps.ResolutionTime` | crates/core/src/alerts.rs:300-304 | Along every run a resolved alert shows the time of the last such UPDATE, or its own |
| `Base64.DecodeOfEncode` | crates/core/src/backup.rs:100 | Decoding gives back the bytes encoded (section 4 of RFC 4648) |
| `Base64.EncodeOfDecode` | crates/core/src/backup.rs:112-116 | Only the canonical text decodes: encoding what was decoded restores it |
| `Base64.Alphabet` | crates/core/src/backup.rs:100 | The alphabet of RFC 4648 in its order |
| `Base64.TestVectors` | crates/core/src/backup.rs:100 | Encodings listed in section 10 of RFC 4648 |
| `BackupCells.ValueRoundTrip` | crates/core/src/backup.rs:89-120 | Every value but a text that is not UTF-8 comes back from its cell as it was; that text is refused |
| `BackupCells.CellRoundTrip` | crates/core/src/backup.rs:104-120 | A cell that can be read is the only cell for its value |
| `Utf8Texts.ValidExactly` | crates/core/src/backup.rs:89-103 | The texts accepted as UTF-8 are exactly the encodings of sequences of Unicode scalar values |
| `Backup.ListingIsUnique` | crates/core/src/backup.rs:150-159 | A database determines the listing of its visible tables |
| `Backup.TableNames` | crates/core/src/backup.rs:150-159 | The visible tables in strictly increasing order, each once |
| `Backup.BeforeMeans` | crates/core/src/backup.rs:150-154 | One name is listed before another where it ends first or has the lesser of the first two characters that differ |
| `BackupSnapshot.LeftOutExactly` | crates/core/src/backup.rs:150-154 | A table is left out if and only if its name begins with `sqlite`, in either case, and goes on |
| `BackupSnapshot.OthersAreExported` | crates/core/src/backup.rs:144-190 | Every other table is in the payload with all its rows, and none besides |
| `BackupSnapshot.ExportableExactly` | crates/core/src/backup.rs:126-133 | A table can be exported if and only if its name is of letters, digits and underscores and its texts are UTF-8 |
| `Backup.ExportRow` | crates/core/src/backup.rs:169-173 | All cells of a row, or an error exactly when one is not UTF-8 |
| `Backup.ExportTable` | crates/core/src/backup.rs:163-182 | A table is exported, columns and every cell, exactly when its name is plain and its texts are UTF-8 |
| `Backup.FindTable` | crates/core/src/backup.rs:198 | The first table of the name |
| `Backup.TextsIn` | crates/core/src/backup.rs:207-214 | Exactly the texts some row has in the column |
| `Backup.AssertPayloadConsistent` | crates/core/src/backup.rs:197-226 | Succeeds exactly when, both tables and columns being there, every text project id of a credential is the id of a project |
| `Backup.Vault.Read` | crates/core/src/backup.rs:148-149 | A read sees the committed state, but in a transaction the state its first read saw |
| `Backup.Vault.Collect` | crates/core/src/backup.rs:144-190 | With all reads in one transaction and any commit after every table, the payload is exactly the state of the first read; the error is that of the first table that cannot be exported, or of the consistency check; commits are never lost |
| `BackupSnapshot.SnapshotIsConsistent` | crates/core/src/backup.rs:192-226 | The payload of one state passes the check exactly when that state keeps the reference from credentials to projects |
| `BackupSnapshot.NeverInconsistent` | crates/core/src/backup.rs:133-190 | A database that keeps the reference is never refused as inconsistent, and is collected exactly when every visible table can be exported |
| `BackupSnapshot.TornReadIsInconsistent` | crates/core/src/backup.rs:133-138 | Without a snapshot two sound states can give a payload that fails the check |
| `Restore.Connection.MigrateWith` | crates/core/src/db.rs:1365-1385 | The loop applies exactly the newer migrations in order, stops at the first that fails and refuses a newer database |
| `RestoreSteps.MigratedInOrder` | crates/core/src/db.rs:1365-1385 | Exactly the newer migrations are applied, in order, up to the first that fails; then the database is as that one found it, and the error names it |
| `RestoreSteps.ImportedMeans` | crates/core/src/backup.rs:602-639 | A successful import wrote every export in full: usable names, rows of the right width, and in each table behind its old rows those exported under its name, in order, with the references and constraints holding |
| `RestoreRefusals.ImportRefused` | crates/core/src/backup.rs:602-639 | Main result: a refused import fails at the first export that could not be written, with the error for its name, its columns, or its first row that has another width, is unreadable, or breaks a constraint behind exactly the rows before it; or all were written and the references do not hold |
| `RestoreRefusals.RestoreCases` | crates/core/src/backup.rs:590-644 | A payload is unknown exactly if no migration has its version, and then nothing is built; a refused import leaves the schema of that version and nothing else |
| `Restore.ValuesOf` | crates/core/src/backup.rs:630-634 | All values of a row in order, or an error exactly when one cell cannot be read |
| `Restore.Connection.InsertRows` | crates/core/src/backup.rs:623-637 | Rows are inserted in order until one has the wrong width, cannot be read or breaks a constraint |
| `Restore.Connection.Import` | crates/core/src/backup.rs:602-639 | All tables in one transaction: on an error not one of their rows is kept and no id counter moves; otherwise each counter is raised to the highest id imported |
| `Restore.Connection.RestoreV2` | crates/core/src/backup.rs:590-644 | Unknown versions are refused, the schema is built, the tables are imported, the rest is migrated; an error in the import leaves the empty schema |
| `Restore.Connection.RestoreBackup` | crates/core/src/backup.rs:508-588 | A payload newer than the build is refused before anything changes; otherwise the restored vault has one more audit row, with the next id |
| `BackupRoundTrip.PlacedInOrder` | crates/core/src/backup.rs:608-621 | An insert that names all columns in order stores the row as it is |
| `BackupRoundTrip.PlacedByName` | crates/core/src/backup.rs:608-621 | Each column takes the value named for it, and its standard where none is |
| `BackupRoundTrip.TableBack` | crates/core/src/backup.rs:605-638 | Importing one exported table into its empty self brings back all its rows |
| `BackupRoundTrip.TablesBack` | crates/core/src/backup.rs:605-638 | The same for all exported tables in turn |
| `BackupRoundTrip.ImportBringsBack` | crates/core/src/backup.rs:144-639 | Main result: import of a payload into an empty schema restores exactly the tables exported if and only if the columns of tables with rows have plain names and no table the listing leaves out has rows |
| `BackupRoundTrip.MigrateInStages` | crates/core/src/db.rs:1365-1385 | Migrating to a version and then to the newest is migrating at once |
| `BackupRoundTrip.MigrateAgain` | crates/core/src/db.rs:1365-1391 | A migrated database is at the newest version and migrating again changes nothing |
| `BackupRoundTrip.RestoreIsMigrate` | crates/core/src/backup.rs:588-644 | Main result: restoring the backup of a database at a known version gives what migrating that database forward gives, also in the error |
| `BackupRoundTrip.RestoredVault` | crates/core/src/backup.rs:576-588 | The restored vault differs from the migrated original by one audit row at the end of its table |
| `BackupRoundTrip.AuditRow` | crates/core/src/audit.rs:23-42 | The audit row has, by the names of its columns, the next id, the time, the event of a restore, no references and no detail |
| `BackupRoundTrip.UnplainColumnIsLost` | crates/core/src/backup.rs:610-615 | A database with a column name that is not plain is backed up without complaint and cannot be restored; only the empty schema stays |
| `BackupCounters.RestoredCounter` | crates/core/src/backup.rs:150-154 | The id counter of a restored table, which the backup leaves out, is never beyond the original and equals it exactly while the newest row is kept |
| `BackupCounters.ReusesIdExactly` | crates/core/src/backup.rs:150-154 | A restored vault gives out an id again if and only if the row with the highest id ever given had been deleted |
| `BackupCounters.IdsOfHolds` | crates/core/src/backup.rs:150-154 | The ids of a table are exactly the integers in its id column |
| `BackupRoundTrip.RestoredIds` | crates/core/src/backup.rs:508-644 | After a restore each table with automatic ids goes on from the highest id that came back: an id given out before is given out again if and only if the row with the highest id ever given had been deleted |
| `VaultAside.StemsApart` | crates/core/src/backup.rs:533-540 | The vault and the names it is set aside under never coincide |
| `VaultAside.StemsDiffer` | crates/core/src/backup.rs:533-540 | Each probe is another name: the plain one first, then the numbered ones |
| `VaultAside.Folder.FreeStem` | crates/core/src/backup.rs:541-560 | The first free stem among 10,001, failing exactly when all are taken |
| `VaultAside.Folder.MoveTo` | crates/core/src/backup.rs:561-573 | Database and sidecars move to one stem and every other name holds what it held |
| `VaultAside.Folder.SetAside` | crates/core/src/backup.rs:523-574 | Refused without force, nothing moved without a vault or without a free stem, otherwise moved |
| `VaultAside.FilesAreConserved` | crates/core/src/backup.rs:561-573 | Every file survives under its own or its new name with its contents, and nothing else appears |
| `VaultAside.SidecarsFollow` | crates/core/src/backup.rs:561-573 | The database and each sidecar go to the new stem under their own suffix, nothing stays under the vault's names, and every other file is untouched |
| `VaultAside.EarlierAsidesSurvive` | crates/core/src/backup.rs:527-533 | A vault set aside earlier, even with the same time stamp, is untouched |
| `VaultAside.NoStaleSidecar` | crates/core/src/backup.rs:563-567 | No sidecar remains under the vault name if and only if the database was there to move, or there was none before |

## Left out

- Finding the check calls on a line (`at_command_position`, `labels_on_line`) and telling the kinds of lines apart: a line enters the scan with its labels and its kind, including how a plain line reads inside a `case`. So the refusal of a one-line conditional that cannot be taken apart, and scripts that are no tree of the modelled statements, are outside.
- The here-document pattern of `logical_lines` is an arbitrary function from a text to terminators.
- The tracking half of the generator (`tracking_sites`, `harness_counts`) runs a shell script that is not part of this model; so are rendering and the line numbers of sites.
- `BrokenLabels.LabelOverLines`: lines of a label that end in several backslashes, or in one with blanks behind it.
- `GatewaySoundness.Sound`: optional rows are followed under a condition that suffices; the exact one, `GatewayOptionals.OptionalsExactly`, is for scripts that write no optional label twice.
- `EndToEnd.PassingDocumentAccepted`: that the harness reports its outcome and its groups truthfully is a hypothesis, since its reporting code is not part of this model.
- The required facts and the service label, which the results validator compares last, would only add easy members; JSON numbers are modelled as reals, and lists and objects are compared by an identity of theirs.
- The values the refresh hook returns to its caller, the time of the last success and the text of an error.
- `RateLimiter.Database.Join`: address and submission digests are given as keys; HTTP, normalisation and Firestore's retries are outside, and counts are unbounded.
- `Alerts.Store.AutoResolveStale`: rows are kept in a map, so the order in which a sweep closes alerts is any order.
- `Alerts.Store.RunMonitor`: the rules that produce findings are outside; errors between its statements and clock readings within a cycle too.
- `Backup.Vault.Collect`: encryption, key derivation and the JSON file are outside.
- `Restore.Connection.Import`: table and column names are compared exactly.
- `Restore.Connection.RestoreBackup`: version 1 payloads, sessions and file permissions.
- `VaultAside.Folder.SetAside`: renames do not fail for other reasons, and no other process touches the directory.
