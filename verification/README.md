# sshc: a verified model of the transaction, the configuration engine and remote sync

sshc edits a user's OpenSSH client configuration, moves files and groups inside
`~/.ssh` through a journal, and shares snapshots of it between machines. This project
models the parts of it that carry state or arithmetic and proves what they promise,
over every input, every point at which the machine can stop, and every interleaving
of machines. Where the code does not keep a promise, the model keeps the code as it
is, a lemma names an input that shows it, and another says exactly when the promise
holds.

A `string` is a sequence of bytes, one `char` each. Code that changes things in place
is a class or a method with loops, proved against a function on values; what is
promised is then proved about that function.

## Modules

- The journaled transaction: `Disks` (files, directories and the calls that change
  them), `Journal` (entries, their effects, and the states reached after k of them),
  `Planning` (preconditions and claims of a request), `Admission` (which requests are
  admitted, and what a refusal says), `StagingFacts`, `Rollback`, `Guarantees`, `Jobs`,
  and `Transactions`, a class whose field `calls` counts the filesystem calls left before
  the machine stops: every postcondition therefore holds at every crash point.
  `Recovery` strings crashes, completions and rollbacks together in any order;
  `Unfinished` holds the transactions that recovery does not bring to a clean end;
  `Outcomes` says what is left on the disk in terms of the request alone.
- Group layout: `Layout` (rename, delete, file moves, emptied directories),
  `Relocation`, which puts the request so built through the transaction's theorem, and
  `GroupMoves`, where every file ends up. `Counterexamples` holds the requests that are
  admitted and cannot be committed.
- The syntax tree: `Text`, `Syntax`, `Reparse`, `Blocks`, `Rewriting`, `Surviving`,
  `Edits`, `Appending`, `EditReads`, `FieldEdits` (the edited file, line by line),
  `Moves`, `RawBlocks`.
- What a configuration means: `Matcher`, `Reading`, `Names`, `Compiling`,
  `Inheritance`, `Ancestry` (inheritance in terms of the metadata), `Regions`,
  `RegionPlans` (when the region is written, and its bytes), `Installing`, `Includes`,
  `Resolving` (the resolved graph), `Walks`, `Provenance`, `Attribution`, `Explained`
  (the explained lines).
- Remote sync: `SyncPlan`, `SyncProtocol`, `SyncService`, and `SyncCommit`, which puts a
  pull through the transaction. The store's conditional writes follow
  sections 13.1.1 (If-Match) and 13.1.2 (If-None-Match) of RFC 9110.
- Two small algorithms: `Diff` and `Capture`.

## What the code does not keep

- A crash between an effect and its journal write leaves one entry in doubt. When that
  entry is not a directory entry, completing never gets past it and never changes
  anything (`Transactions.Manager.Complete`), and a rollback leaves that one entry
  applied (`Guarantees.NamedFilesRestored`).
- A request is admitted whose commit must stop half way: one that places something
  inside a directory it removes, or a file on the way to a directory it creates
  (`Counterexamples.IntoRemovedSticks`, `Counterexamples.OntoCreatedSticks`). Crashes
  aside, the commit goes through if and only if neither is the case
  (`Guarantees.CommitGoesThroughIffSeparate`).
- A rollback keeps no record of how far it got. Completing after one was interrupted
  can file as completed a request of which some entries are undone
  (`Unfinished.HalfTakenBackCompletes`); the disk is then the committed one if and only
  if no undone entry has its effect missing (`Rollback.CompletedIff`,
  `Transactions.Manager.Complete`).
- A rollback with calls enough does not always finish. It does if and only if no
  recorded entry went without a backup it needs, no move was taken back by an earlier
  attempt, and the directory of every recorded file entry is there or is made again by
  the rollback itself (`Transactions.Manager.Rollback`). So it is stuck for good, as far
  as rollbacks go, after a move was taken back (`Unfinished.MovedBack`), after a created
  file and its new directory were (`Unfinished.DirectoryGone`), and when a file came out
  of a directory whose removal was not recorded (`Unfinished.DirectoryInDoubt`).
- A transaction that stopped while it was being staged can be completed when it writes
  no file; what it removes is then removed without the sealed copy that was asked for
  (`Unfinished.UnstagedRemovalCompletes`).
- Renaming a group to a group above it can move files into directories it gives up:
  those of a group that repeats, inside the old name, the segments that lead from the
  new name down to a group given up. If one of those files lands directly in such a
  directory the request is refused; otherwise it is admitted, and its commit stops half
  way (`Relocation.RenameCommits`, `Relocation.RepeatedRenameSticks`,
  `Counterexamples.RepeatedRenameStuck`). A repetition with no file to move does no
  harm. A key reference that is rewritten in a file the same operation moves makes the
  request inadmissible (`Relocation.RewrittenAndMovedRefused`).
- A first value that opens with `=` is taken by a separator without one, and values set
  on a line whose first argument is a comment run into it. An edited line reads back
  as asked if and only if neither happens (`Surviving.RebuiltRereadsIff`,
  `EditReads.SetReadsBack`). The compiler of group blocks writes the same kind of line:
  a value loses its `=` and an alias its group's settings
  (`Inheritance.ValueLosesEquals`, `Inheritance.AliasLosesBlock`). The compiled file
  means what it should for every alias if and only if no block that is written holds
  such a line (`Inheritance.CompiledMeansIff`, `Ancestry.AncestryIff`).
- `MatchPattern` decides a pattern's meaning for every pattern if and only if the value
  holds no `*` (`Matcher.MatcherExactIffNoStar`).
- After an Include, the projection does not go back to the block it was in, so a plain
  directive below it is attributed by the included file's last block
  (`Attribution.ProjectionMissesPort`). Its flag is right at every plain directive if
  and only if what each such Include loaded happens to leave it as the block returned to
  has it (`Attribution.TracksIff`); then both readings agree (`Attribution.SameWinner`).
- Saving a block's raw text unchanged removes the next block's comment, or the
  generated region, unless what is shown reaches the block's end
  (`RawBlocks.WritingBackKeepsIff`, `RawBlocks.WritingBackLoses`).
- The region is placed below a last line without a newline, which ends it. When that
  line ends in a carriage return the two become one ending, and the line may then be a
  header that it was not: `Host` and a carriage return, or a `Host` line with a quoted
  pattern and one (`Installing.BareReturnTakesRegion`,
  `Installing.QuotedReturnTakesRegion`). The region is then read for that block only,
  and in no other case (`Installing.InstallRoundTrips`). Saving again moves it out, and
  changes nothing but in this case and when such a line is the only one
  (`Installing.InstallsOnceIff`).
- A sync conflict is described as a file that changed on both sides since the last sync.
  A file edited here alone is reported as one, and a file removed here alone is fetched
  again (`SyncPlan.LocalEditConflicts`); a reported conflict is mutual if and only if the
  snapshot does not have the file as it was last synced (`SyncPlan.ConflictIsMutualIff`).
- The state a machine keeps of its last sync names an object by its key and not by its
  bucket. That is harmless as long as entity tags never repeat, which `SyncProtocol`
  assumes.

## Model

| member | source | states |
|---|---|---|
| Disks.AboveIsDirectory | internal/storage/transaction.go:536-544 | On a tree, every directory above a file or directory is there. |
| Disks.WhatRemains | internal/storage/transaction.go:641-650 | Removing a directory is refused exactly when something lies inside it, at any depth. |
| Planning.PlanItemsLoop | internal/storage/transaction.go:278-440 | Commit's checks of directories, changes, moves and removals, in order: the first thing wrong is the error, otherwise one entry per item and everything named is claimed. |
| Planning.PlanRemovalsLoop | internal/storage/transaction.go:452-497 | Directory removals, deepest first: each is refused unless everything in it is claimed; one already gone is dropped. |
| Admission.AdmittedIff | internal/storage/transaction.go:263-497 | A request is admitted if and only if it names something and nothing twice; files can stand where it wants them and directories where it makes or removes them; every file it rewrites, moves or removes is there with the digest expected, a file expected missing is; nothing stands where one moves; and a directory to be removed holds nothing that is not named too. |
| Admission.RefusalTells | internal/storage/transaction.go:263-497 | A refusal tells the truth: the named path really has no place, is not as expected, is missing, is taken, is named twice, or holds something unnamed. |
| Planning.DeepestSorts | internal/storage/transaction.go:452-460 | The order of removals is a permutation of the given ones in which no directory comes before a deeper one. |
| StagingFacts.AboutDisjoint | internal/storage/transaction.go:278-284 | No path is the business of two entries of an admitted request. |
| StagingFacts.PreparedTree | internal/storage/transaction.go:536-596 | Staging leaves a tree: created directories and staged temporaries collide with nothing. |
| Journal.ReachedStep | internal/storage/transaction.go:612-663 | From the state after k entries, the call of entry k leads to the state after k + 1 entries. |
| Journal.ReachedUnique | internal/storage/transaction.go:612-663 | The state after k entries is one state: files and directories are determined. |
| Journal.RunReaches | internal/storage/transaction.go:612-663 | Running the first k entries reaches exactly that state. |
| Journal.AppliedAgain | internal/storage/transaction.go:616-658 | Repeating the entry that just happened succeeds, and changes nothing, exactly for entries that make or remove directories. |
| Journal.RunGoesThrough | internal/storage/transaction.go:612-663 | All entries go through when every file has its place and every removed directory is vacated by the entries before. |
| Journal.GoneThroughLeavesNothing | internal/storage/transaction.go:641-650 | If all went through, nothing was put inside a directory that was removed. |
| Guarantees.PreparedStaged | internal/storage/transaction.go:263-610 | A request that is admitted, backed up and staged satisfies what the commit loop relies on. |
| Guarantees.PreparedFaithful | internal/storage/transaction.go:551-579 | With unsealing the inverse of sealing, every backup that was taken gives back the contents an entry replaces. |
| Guarantees.CommitGoesThroughIffSeparate | internal/storage/transaction.go:452-497 | Crashes aside, the commit of an admitted request goes through if and only if nothing is placed inside a removed directory and no file on the way to a created one. |
| Counterexamples.StagingPossible | internal/storage/transaction.go:536-596 | Every admitted request can be staged. |
| Counterexamples.IntoRemovedSticks | internal/storage/transaction.go:452-497 | A change put into a directory that the same request removes: admitted, can be staged, and its commit never ends. |
| Counterexamples.OntoCreatedSticks | internal/storage/transaction.go:278-324 | A file put where the same request creates a directory: likewise. |
| Guarantees.NamedFilesAt | internal/storage/transaction.go:598-663 | In the state after k entries, exactly the first k items of the request have happened to the files they name, and no other. |
| Guarantees.OtherFilesAt | internal/storage/transaction.go:598-663 | In every state of a commit or a rollback a file that no item is about is as it was. |
| Guarantees.NamedFilesRestored | internal/storage/journal.go:119-217 | After a finished rollback every recorded item is taken back: old contents with mode at most 0600, moved files at their source, created files gone; an unrecorded item that had happened stays. |
| Outcomes.CommittedAsAsked | internal/storage/transaction.go:598-663 | A transaction that went through: every change has its contents and the mode of what it replaced within 0600, every move its very file, every removal is gone, exactly the directories asked for were made and removed, and every other file is as it was. |
| Outcomes.RestoredAsBefore | internal/storage/journal.go:119-217 | A rollback that finished: in terms of the request, what the journal had recorded is put back, what had not happened is untouched, every other file is as it was, and every directory stands save one whose removal was unrecorded. |
| Outcomes.RollbackRefusedIff | internal/storage/journal.go:119-134 | A rollback is refused exactly when the journal has recorded a change that replaced a file with its backup skipped, or a removal that asked for no backup. |
| Guarantees.DirectoriesRestored | internal/storage/journal.go:119-217 | And every directory that was there stands again, save one whose removal was not recorded; what else stands is what staging made. |
| Rollback.UndoStep | internal/storage/journal.go:137-196 | From any state that interrupted rollbacks and completions lead to, undoing the last entry that stands, or one already undone, leads to that state with this entry undone and all others as they were, directories included. |
| Rollback.UndoGoesThrough | internal/storage/journal.go:137-196 | Undoing an entry that stands goes through if and only if it is about a directory or the directory of its file is there. |
| Rollback.UndoAgain | internal/storage/journal.go:137-196 | An entry that an earlier attempt already undid can be undone again exactly when it is not a move. |
| Rollback.UndoneStaysUndone | internal/storage/journal.go:95-112 | However far completing gets, what was undone stays undone and what stood stands; from any state that interrupted rollbacks and completions lead to, every step leads to another. |
| Rollback.UndoneIsNotDone | internal/storage/journal.go:95-112 | An undone entry about a file counts as done exactly when its effect is there: never for a move or a removal, for a write when it wrote what it replaced. |
| Rollback.CompletedIff | internal/storage/journal.go:95-112 | Completing to the end leaves the disk of an uninterrupted commit, files and directories, if and only if no entry was undone whose effect is missing when it starts. |
| Unfinished.HalfTakenBackCompletes | internal/storage/journal.go:95-217 | A request that rewrites one file and removes another, its rollback stopped after the first: it can be completed, the other file is removed, and the first keeps its old contents. |
| Jobs.IntactUnlessInDoubt | internal/storage/journal.go:95-112 | The staged contents of every remaining write are intact unless the first unrecorded entry is a write that has already happened. |
| Jobs.InterruptedRewinds | internal/storage/journal.go:119-137 | Where an interrupted commit leaves off, with its backups, a rollback can begin. |
| Transactions.Manager.Stage | internal/storage/transaction.go:536-596 | Directories, sealed backups and temporaries: on success a job ready to be applied, on every stop nothing but new directories and temporaries. |
| Transactions.Manager.ApplyEntry | internal/storage/transaction.go:616-650 | One entry's calls: its effect has either happened entirely or not at all, whichever call was the last. |
| Transactions.Manager.CommitEntry | internal/storage/transaction.go:616-650 | One turn of the loop, from any state that interrupted rollbacks and completions lead to: the entry has happened whole or not at all, and a file entry that had happened already stops it. |
| Transactions.Manager.CommitStaged | internal/storage/transaction.go:612-663 | The loop with its journal writes: wherever it stops, the disk is what the entries from the first unrecorded one up to Committed or Committed + 1 make of the one it found; with calls enough it gets through exactly when they can all be applied. |
| Transactions.Manager.Finish | internal/storage/transaction.go:738-751 | Filing a record in the history and taking it out of the journal, in that order. |
| Transactions.Manager.Complete | internal/storage/journal.go:95-112 | From any state that interrupted rollbacks and completions lead to: refused without a change exactly when staged contents are missing; every stop is again such a state; with calls enough it finishes exactly when the remaining entries can be applied; and what it files as completed is the disk of an uninterrupted commit if and only if no undone entry has its effect missing. After nothing but a commit a file entry in doubt is all that can stop a separate request. |
| Transactions.Manager.CompleteRepeatedly | internal/storage/journal.go:95-112 | Completed any number of times, each interrupted anywhere: the record never goes back, a finished run reaches the state of an uninterrupted commit, and only an entry in doubt can keep an attempt with enough calls from finishing. |
| Transactions.Manager.Commit | internal/storage/transaction.go:263-610 | Rejected requests change nothing; an interruption leaves the state the journal and its count describe; with enough calls a separate request is committed. |
| Transactions.Manager.UndoEntry | internal/storage/journal.go:137-196 | One entry's undoing, whole or not at all but for directories made again; it gets through exactly when the call does and, for an entry about a file, that file's directory is there. |
| Transactions.Manager.Unwind | internal/storage/journal.go:132-198 | The rollback loop, last entry first: with calls enough it gets through if and only if no move was undone before and the directory of every recorded file entry is there or is made again by the loop. |
| Transactions.Manager.Rollback | internal/storage/journal.go:119-217 | From any state that interrupted rollbacks and completions lead to: refused without a change exactly when a recorded entry kept no backup; with calls enough it finishes if and only if the condition of the loop holds too; finished, every recorded entry is undone and what was staged is thrown away; stopped, it leaves such a state, in which a rollback that could not finish still cannot. |
| Unfinished.MovedBack | internal/storage/journal.go:137-148 | A move taken back before the machine stopped: no later rollback can finish. |
| Unfinished.DirectoryGone | internal/storage/journal.go:149-196 | A created file and its new directory both taken back: no later rollback can finish, for it syncs that directory. |
| Unfinished.DirectoryInDoubt | internal/storage/journal.go:137-148 | A file moved out of a directory whose removal happened unrecorded: its rollback cannot finish. |
| Unfinished.AllCanBeStaged | internal/storage/transaction.go:536-596 | The requests of these four witnesses are all admitted and can be staged. |
| Unfinished.UnstagedRemovalCompletes | internal/storage/journal.go:95-112 | A transaction that stopped while it was being staged can be completed when it writes no file; a removal that asked for a copy then has none, and a rollback neither refuses it nor can take it back. |
| Recovery.Recover | internal/storage/journal.go:95-217 | Completed and rolled back in any order, each attempt stopped anywhere: the journal always describes the disk, and once it is empty the request is rolled back, or completed and committed exactly when no undone entry has its effect missing. |
| Recovery.CommitAndRecover | internal/storage/transaction.go:263-610 | A request, a crash anywhere in its commit and any recovery after it: meanwhile files it does not name are as they were; rolled back, the disk is as before in its own terms; committed, or completed with no effect missing, it is as asked. |
| Layout.PlanGroupRename | internal/application/grouprename.go:114-157 | The new names of a renamed group and all groups nested in it, and the four refusals, each exactly when. |
| Layout.PlanGroupDelete | internal/application/grouprename.go:159-205 | A deleted group and its descendants all go to one declared destination outside it, or to the tree's root. |
| Layout.GroupFileMoves | internal/application/grouprename.go:442-486 | Exactly the files directly inside the affected groups' directories, each once, with its place in the group's new directory. |
| Layout.Vacancies.Visit | internal/application/grouprename.go:545-585 | A directory is reported exactly when all its files move and all its directories are given up and left empty too. |
| Layout.EmptiedDirectories | internal/application/grouprename.go:534-603 | Exactly the affected directories that end up empty, without repetition. |
| Layout.PlanGroupLayout | internal/application/grouprename.go:248-272 | The request that carries out the plan, or a refusal when something stands where a file should go. |
| GroupMoves.NamesAfterRename | internal/application/grouprename.go:129-157 | What follows the old name in a declared group's name follows the new one, in the same place of the list; other names stay. |
| GroupMoves.RefusalsAre | internal/application/grouprename.go:124-147 | The refusals over the names themselves: the new name inside the old, a group at or below the new name that does not move along, no group at or below the old one. |
| GroupMoves.RenameKeepsApart | internal/application/grouprename.go:138-143 | A rename that is not refused never makes two groups one. |
| GroupMoves.NamesAfterDelete | internal/application/grouprename.go:159-205 | A deletion drops the group and those nested in it and keeps the others in their order. |
| GroupMoves.RenameCommitted | internal/application/grouprename.go:114-157 | After a committed rename every file directly inside a group at or below the old name is, unchanged, at the same place below the new one, in connections and in keys; every other file that is not rewritten is where and as it was; and there are no more. |
| GroupMoves.DeletionCommitted | internal/application/grouprename.go:159-205 | After a committed deletion those files are directly inside the destination, and the same holds of all others. |
| Relocation.EmptiedMoves | internal/application/grouprename.go:552-585 | Every file at any depth below a directory that is given up is moving. |
| Relocation.GivenUpIff | internal/application/grouprename.go:534-603 | A directory is given up if and only if it is an affected one that exists, all files below it move, and all directories below it are affected ones. |
| Relocation.DeletionIsClear | internal/application/grouprename.go:159-205 | A deletion never moves a file into a directory it gives up, nor onto the way of another file. |
| Relocation.RenameIsClearIff | internal/application/grouprename.go:114-157 | Over the declared groups and the disk: a rename moves no file into a directory it gives up if and only if no group with a file in it repeats, inside the old name, the way from the new name down to a group given up; and none directly into one if and only if none is that repetition exactly. |
| Relocation.LayoutSeparateIff | internal/application/grouprename.go:395-408 | The request satisfies the commit's condition if and only if no moved file lands inside a directory that is given up. |
| Relocation.LayoutAdmitted | internal/application/grouprename.go:395-408 | Once its items are admitted, the request is admitted if and only if no file lands directly in a directory that is given up, which would be created and removed at once. |
| Relocation.LayoutOutcome | internal/application/grouprename.go:395-408 | So there are three outcomes: committed if and only if no moved file lands inside a directory given up, refused if and only if one lands directly in it, and otherwise admitted with a commit that stops half way. |
| Relocation.DeletionCommits | internal/application/grouprename.go:159-205 | A deletion whose items are admitted is admitted, and its prepared commit goes through. |
| Relocation.RenameCommits | internal/application/grouprename.go:114-157 | The prepared commit of a rename goes through if and only if no file of a group that repeats lands in a directory given up. |
| Relocation.RepeatedRenameSticks | internal/application/grouprename.go:114-157 | When one does, the rename is refused if and only if one lands directly in that directory; otherwise it is admitted and its prepared commit stops half way. |
| Counterexamples.RepeatedRenameStuck | internal/application/grouprename.go:114-157 | Declared a/b, a/b/b and a/b/b/c, with one file, in the last: renaming a/b to a is admitted, can be staged, and its commit never ends. |
| Relocation.RewrittenAndMovedRefused | internal/application/grouprename.go:302-316 | A request that rewrites a file it also moves is refused. |
| Syntax.SplitArgumentsLoop | internal/config/token.go:41-82 | The argument splitter: leads, raw bytes and values of every token, or failure on quoting that cannot be reproduced. |
| Syntax.ParseLineLoop | internal/config/parse.go:45-92 | One line: blank, comment, directive with its parts, or kept verbatim. |
| Syntax.ParseFile | internal/config/parse.go:13-31 | The parser; the file it builds renders back to the source, byte for byte. |
| Syntax.RenderParse | internal/config/parse.go:13-31 | Rendering the parse of any byte string returns that byte string. |
| Text.FoldIff | internal/config/line.go:75-77 | Two keywords fold together exactly when they differ in the case of letters alone. |
| Reparse.SplitRendered | internal/config/token.go:41-82 | Arguments as the parser leaves them, rendered, are split back into the same arguments. |
| Reparse.ReadBack | internal/config/parse.go:45-92 | A rendered directive is read back with its keyword and values unless its first token opens with '=' after a separator without one. |
| Reparse.SplitsIff | internal/config/token.go:41-82 | A text splits into arguments exactly when it is tokens with blanks between them, and in one way only. |
| Reparse.LineReads | internal/config/parse.go:45-92 | How any line is read, by where its parts end: blank, comment, a directive with exactly these parts, or none. |
| Reparse.ParseRendered | internal/config/parse.go:13-43 | A file of lines that can stand alone is read back line by line. |
| Blocks.FileBlocks | internal/config/block.go:55-82 | The blocks partition the file: each starts where the one before ends, at a header, and runs to the next. |
| Blocks.BlocksCover | internal/config/block.go:55-95 | Every line lies in exactly one block, the one of the nearest header at or above it. |
| Blocks.BlockAt | internal/config/block.go:86-95 | That block, by a search over all of them. |
| Blocks.CommentRun | internal/config/block.go:161-170 | The maximal run of comment lines directly above a header. |
| Blocks.FindHostBlock | internal/application/projection.go:318-328 | The first Host block whose first concrete alias is the one asked for, or none exactly when there is none. |
| Blocks.DeclaresIff | internal/application/projection.go:318-328 | A header declares an alias exactly when the alias is the first of its values with neither a leading "!" nor a pattern byte. |
| Blocks.MatchHostLine | internal/application/projection.go:142-154 | True exactly when some plain pattern matches and no negated one does. |
| Blocks.HostLineIff | internal/config/block.go:107-119 | A Host line matches an alias without "*" exactly when some value without a leading "!" does as a pattern and no value with one does without it. |
| Blocks.BlockApplies | internal/effective/provenance.go:228-250 | The other reading of the rule decides the same blocks, and calls a match exact only for a concrete pattern. |
| Edits.ValidateKeyword | internal/application/edit.go:137-156 | Which keywords may be written, and the error otherwise. |
| Edits.ValidateFieldEdits | internal/application/edit.go:101-135 | Edits are admitted exactly when each is fine after those before it; otherwise the error of the first that is not. |
| Edits.ApplySets | internal/application/edit.go:58-73 | All set lines rewritten, or an error exactly when one cannot be. |
| Edits.ApplyRemovals | internal/application/edit.go:75-84 | Removing lines one by one from the bottom removes exactly that set. |
| Rewriting.RebuildLine | internal/application/edit.go:199-231 | The rewritten line: new values in the old spacing, the comment, separator, indentation and ending kept. |
| Surviving.RebuiltRereadsIff | internal/application/edit.go:199-231 | A rewritten line, with any ending, reads back with the keyword and values asked for if and only if the separator does not take its first '=' and its values do not run into a comment. |
| Surviving.BuiltRereadsIff | internal/application/edit.go:252-272 | A new line reads back as asked if and only if its first value does not open with a bare '='. |
| Surviving.BuiltReads | internal/application/edit.go:252-272 | What a new line is read as in every case: a bare "=" in front goes to the separator, and what is left of the first value may be nothing, or a comment. |
| Appending.AppendPosition | internal/application/edit.go:277-285 | Just below the block's last directive, or at its start. |
| Appending.BlockEnding | internal/application/edit.go:296-314 | The ending of the block's last ended directive, else the file's first; never empty. |
| Appending.InsertLine | internal/application/edit.go:318-325 | One line more at a position, a newline given to the line above if it had none, nothing else changed. |
| Appending.ApplyFieldEdits | internal/application/edit.go:52-99 | All or nothing: either every edit is applied, giving the file in closed form, or the file is unchanged; which of the two is decided exactly. |
| FieldEdits.AcceptedIff | internal/application/edit.go:52-135 | Edits are carried out exactly when each sets or removes a setting inside the block that no edit before it is about, with legal keywords and values that have a spelling, or adds such a setting. |
| FieldEdits.RefusalTells | internal/application/edit.go:101-156 | A refusal is true of some edit. |
| FieldEdits.EditedTells | internal/application/edit.go:52-99 | The edited file line by line: removed lines are gone, the others in their order and as they were, a set line with its new keyword and values, spaced as before and its comment kept, the new lines in the order asked, together below the last setting that stays, with its indentation and an ending found as stated; and nothing else. |
| EditReads.UntouchedKept | internal/application/edit.go:52-99 | A line no edit touches keeps its bytes; only a missing final newline may be added. |
| EditReads.FinalOrder | internal/application/edit.go:52-99 | Kept lines keep their order. |
| EditReads.EditedFrom | internal/application/edit.go:52-99 | Nothing else is in the edited file: every line is a kept one or one of the new ones. |
| EditReads.SetReadsBack | internal/application/edit.go:52-99 | The edited file, rendered and parsed, says at every set line what was asked if and only if the line survives. |
| EditReads.AddReadsBack | internal/application/edit.go:85-95 | And at every added line, if and only if its first value does not open with a bare '='. |
| Moves.ExtractHostBlock | internal/application/move.go:31-53 | Takes out the first block declaring the alias with its own comment, without the next block's comment and the region; refused exactly when none declares it. |
| Moves.AppendHostBlock | internal/application/move.go:59-74 | The old lines, at most one blank line, then the run. |
| Moves.MoveHostBlock | internal/application/move.go:82-92 | Both files unchanged on refusal; otherwise the source loses one run and the destination gains exactly it. |
| Moves.RunKeepsRegion | internal/application/region.go:118-130 | With one marker pair holding a directive and no header, the run holds the block's header and no line of the region. |
| Moves.RunGoesWith | internal/application/move.go:31-53 | What moves with a header: all comments right above it, down to where the next header's comments begin, in neither direction into the region. |
| Moves.DestinationDeclaresIt | internal/application/move.go:82-92 | The destination then declares the alias. |
| Moves.SourceIsAround | internal/application/move.go:31-53 | Putting the run back where it was gives the old source. |
| Moves.RegionStays | internal/application/move.go:31-53 | The region stays in the source, whole. |
| Moves.DestinationKept | internal/application/move.go:59-74 | The destination's own lines keep place and bytes, a missing final newline aside. |
| Moves.RunStandsBelow | internal/application/move.go:59-74 | In the destination the run stands at the end, below a blank line unless there was nothing above. |
| RawBlocks.ProjectRaw | internal/application/projection.go:272-313 | The text of one block as the form shows it. |
| RawBlocks.ShownGoesWith | internal/application/projection.go:272-313 | What is shown ends where the lines end that a move would take along. |
| RawBlocks.ReplaceBlock | internal/application/edit.go:330-372 | Replaces everything from the header to the next header, for a text that opens with its only header; otherwise the file is unchanged. |
| RawBlocks.AcceptedIff | internal/application/edit.go:330-372 | A text is accepted exactly when it holds one header and no setting above it. |
| RawBlocks.ShownIsAccepted | internal/application/edit.go:330-372 | What is shown is always accepted back and reads as the lines it came from. |
| RawBlocks.WritingBackKeepsIff | internal/application/edit.go:366-369 | Writing it back leaves the file as it is if and only if what is shown reaches the block's end. |
| RawBlocks.WritingBackLoses | internal/application/edit.go:366-369 | Otherwise exactly the lines in between are gone. |
| Matcher.MatchPattern | internal/effective/provenance.go:263-288 | Terminates; a match it reports is one by the declarative meaning, and for a value without '*' it reports every match. |
| Matcher.ScanSound | internal/effective/provenance.go:263-288 | Soundness of the single-backtrack search for every value. |
| Matcher.ScanComplete | internal/effective/provenance.go:263-288 | Completeness: forgetting all stars but the last loses no match of a value without '*'. |
| Matcher.MatcherExactIffNoStar | internal/effective/provenance.go:263-288 | The matcher agrees with the meaning under every pattern if and only if the value holds no '*'. |
| Names.ValidateGroupName | internal/application/grouppath.go:59-97 | Which group names are admitted. |
| Names.ValidNameIff | internal/application/grouppath.go:59-97 | A name is admitted exactly when it has at most six parts and each is 1 to 64 letters, digits, dots, dashes or underscores, opens with no dot and is no reserved word in any case. |
| Names.OrderSorted | internal/application/grouppath.go:183-196 | The order of group names: deepest first, then display order, then name; a permutation of the names. |
| Names.AboveParent | internal/application/grouppath.go:161-167 | A group strictly above another is above or equal to its parent. |
| Compiling.TabulateHosts | internal/application/groups.go:160-173 | Every alias once, in order of first appearance, under the group of its first host. |
| Compiling.GroupMembers | internal/application/groups.go:228-245 | The aliases of the group and of every group nested in it, in that order. |
| Compiling.CompileGroups | internal/application/groups.go:150-224 | The compiled file: banner, then one block for each group that has members and settings that can be written, in the order of names. |
| Inheritance.CompiledMeans | internal/application/groups.go:150-224 | When every block that is written is spelled so, the compiled bytes, parsed and read for an alias, give the settings of its own group, then of each ancestor that got a block, outwards; an ungrouped alias gets nothing. |
| Inheritance.CompiledReads | internal/application/groups.go:150-224 | In every case they give an alias the settings of the blocks whose header, as it is read, matches it, with their values as they are read. |
| Inheritance.CompiledMeansIff | internal/application/groups.go:150-224 | They give every alias its inheritance if and only if no line of a block that is written has a first value opening with a bare "=". |
| Inheritance.ValueLosesEquals | internal/application/groups.go:188-224 | A user name "=x" is read as "x". |
| Inheritance.AliasLosesBlock | internal/application/groups.go:188-224 | An alias "=h" alone in its group gets nothing from it. |
| Ancestry.EmitsIff | internal/application/groups.go:184-208 | A group gets a block exactly when the last metadata of its name has settings, some alias is in it or in a group inside it, and every such alias and every setting can be written. |
| Ancestry.AncestryIff | internal/application/groups.go:150-224 | Read for any alias, the compiled bytes give the settings of every declared group around it that can be written, nearest first, and nothing else, if and only if in no contributing group the first alias or the first value of a setting opens with a bare "=". |
| Ancestry.NearestWins | internal/application/groups.go:137-149 | The value of a keyword is the one that the nearest such group around the alias sets first, and there is none when no group sets it. |
| Ancestry.AllAccumulate | internal/application/groups.go:137-149 | A keyword that accumulates gets what all those groups set, nearest first. |
| Ancestry.BlockOrder | internal/application/grouppath.go:183-196 | The blocks come in a permutation of the declared names: more slashes first, then by the display order of the last metadata, then by name. |
| Regions.FindRegion | internal/application/region.go:76-101 | The first marker of each kind, in order; absent with neither; damaged otherwise. |
| Regions.ClampedKeepsOut | internal/application/region.go:118-130 | The range that is left lies in the old one and holds no line of the region unless the old one lay inside it; given up are the region and, by a range that began above it, what comes below. |
| Regions.CheckExistingIncludes | internal/application/region.go:256-275 | Refuses exactly when an unconditional Include already reaches the generated files. |
| Regions.PlaceRegion | internal/application/region.go:229-242 | Above the comment of the first header, or at the end. |
| Regions.PlanRegion | internal/application/region.go:138-183 | Replace in place, relocate out of a block, or insert; and the three refusals. |
| RegionPlans.PlanJustified | internal/application/region.go:138-183 | Each answer of the planner says what is the case, and they exclude one another: markers without a first start above a first end; a name without a spelling; an Include outside the region, under no header, that names the settings or a path in connections, when the region is absent or under a header; a region under no header, replaced; one under a header, moved right above the comments of the first header or to the end; none, inserted there. |
| RegionPlans.RegionBytes | internal/application/region.go:138-160 | The bytes of the region: marker, note, one Include for each group in the order given, one for the settings, end marker. |
| Regions.ApplyRegion | internal/application/region.go:279-302 | Writes the planned lines and changes no other line; refused only for a plan that does not fit. |
| Regions.DeclaredGroups | internal/application/groups.go:46-73 | The valid group names the region's Include lines name, each once, in order. |
| Installing.InstalledIs | internal/application/region.go:279-302 | Replacing, inserting and relocating all come to the other lines around the region. |
| Installing.RegionStands | internal/application/region.go:138-183 | The installed region is found where it was put, above every header. |
| Installing.RegionDeclares | internal/application/groups.go:46-73 | It declares exactly the groups, in order, if and only if the settings file is not named like one more group's. |
| Installing.InstalledAgain | internal/application/region.go:138-302 | Planning again replaces it in place with the same lines. |
| Installing.InstallRoundTrips | internal/application/region.go:138-302 | All of this on the bytes of any file that is not refused: the region is found again; it is read unconditionally if and only if the region was not placed below a last line without a newline that is a header once its carriage return has joined the newline it is given; and it declares the groups if and only if the settings file, as it is read, is not named like one more group's. |
| Installing.InstallsOnceIff | internal/application/region.go:138-302 | Saving again changes no byte if and only if that line did not become a header and, if its carriage return joined, was not the only line. |
| Installing.JoinedBytes | internal/application/region.go:279-302 | What becomes of that line's bytes: a newline more and nothing else. |
| Installing.OthersKept | internal/application/region.go:279-302 | Every other line keeps its place and bytes; only a missing final newline may be added. |
| Installing.BareReturnTakesRegion | internal/application/region.go:229-242 | A file that is "Host" and a carriage return takes the region into that block. |
| Installing.QuotedReturnTakesRegion | internal/application/region.go:229-242 | So does one that is a Host line with a quoted pattern and a carriage return, which is kept verbatim until then. |
| Includes.Graph.Diagnose | internal/config/graph.go:90-98 | One diagnostic more, and what that does to both balances. |
| Includes.VisitMatch | internal/config/graph.go:171-189 | One match is walked, counted as a further load, or reported as a cycle or as too deep: exactly one of them, decided as stated. |
| Includes.VisitValue | internal/config/graph.go:144-190 | One Include argument: its edge, as the argument expands and matches, is recorded and every match dealt with. |
| Includes.WalkFile | internal/config/graph.go:105-192 | One file: read once, recorded, every argument of its Include lines followed and every report about it made; nodes already there change only in their loads. |
| Resolving.FileFollowed | internal/config/graph.go:122-166 | The edges of a file in terms of its lines: every argument of every Include line, in order, and no others. |
| Resolving.FileReported | internal/config/graph.go:112-170 | What is reported of a file: unreadable, a line without structure, a condition, no argument, an argument that cannot be expanded, cannot be looked up or matches nothing outside the region, a match outside the root; and nothing else. |
| Resolving.StateLayers | internal/config/graph.go:105-192 | Files finish in an order in which every Include names files finished before, cycles and depth reports aside, and a cycle report names a file that leads back. |
| Resolving.Resolve | internal/config/graph.go:81-192 | Ends for every loader. Every file of the graph is as it was read; its edges are, top to bottom, one for each argument of each Include line, with its condition, expansion and sorted matches; every match is in the graph or reported as too deep. What is reported of single files is exactly what there is to report. Matches equal walks after the first plus duplicates, cycles and depth reports. The files have an order in which every Include points back, save where a cycle or depth is reported, and a reported cycle is one. |
| Walks.SamePlain | internal/effective/provenance.go:186-225 | Both load-order walks meet the same plain directives in the same order, cyclic graphs included. |
| Provenance.Walker.WalkNode | internal/application/walk.go:31-69 | The walk over every directive with its block, the chain of open files left as it was. |
| Provenance.Walker.WalkLoadOrder | internal/effective/provenance.go:186-225 | The walk over blocks entered and plain directives, the chain left as it was. |
| Attribution.Project | internal/effective/provenance.go:88-165 | The projection's sources in order, each a winner exactly when none before it set the keyword. |
| Attribution.ComputeEffective | internal/application/effective.go:65-143 | The explained entries: of the hits by every line's own block, the first of a keyword and all of those that accumulate, sorted stably. |
| Explained.ExplainedIff | internal/application/effective.go:65-143 | An alias without "*" is explained by exactly the visited settings above every header or below a Host line that some value matches and no negated one excludes; of a keyword that does not accumulate only the first on the walk; in the order of the keywords. |
| Attribution.KeptFor | internal/application/effective.go:121-134 | What is kept of one keyword. |
| Attribution.TracksIff | internal/effective/provenance.go:88-225 | For an alias the projection keeps, at every plain directive, the flag of that line's own block if and only if, after every Include that loads something and that a plain directive follows in its block, what was loaded leaves the flag as the block returned to has it. |
| Attribution.SameWinner | internal/effective/provenance.go:88-225 | Where it does, both readings give the alias the same hits, and the projection's winner of a keyword is the first explained entry, at the same path and line. |
| Attribution.TidySameWinner | internal/effective/provenance.go:88-225 | In particular for every alias, where no plain directive follows in its block an Include that matched something. |
| Attribution.WinnerIsFirst | internal/effective/provenance.go:63-71 | The winning source of a keyword is its first. |
| Attribution.ProjectionMissesPort | internal/effective/provenance.go:95-99 | And otherwise not: a Port after an Include that ends in another host's block is lost by the projection, and the condition fails there. |
| Attribution.ExplainedEntries | internal/application/effective.go:65-143 | For a file without includes the explained hits are its entries, as the compiler's theorem reads them. |
| SyncPlan.MakePlan | internal/remotesync/plan.go:45-135 | Three sorted lists that say of every path exactly its fate: change, removal or conflict, with the digests expected; nothing to apply exactly when all are empty. |
| SyncPlan.LocalDigests | internal/remotesync/service.go:598-621 | The digests of exactly the files either manifest knows. |
| SyncPlan.FateListed | internal/remotesync/plan.go:60-123 | A path is in the one list its fate names and in no other. |
| SyncPlan.PlanTells | internal/remotesync/plan.go:60-123 | By digests here, in the snapshot and when last synced: which paths are fetched, removed, in conflict, or left alone. |
| SyncPlan.ConflictIsMutualIff | internal/remotesync/plan.go:14-23 | A reported conflict is a change on both sides since the last sync if and only if the snapshot does not have the file as it was last synced. |
| SyncPlan.LocalEditConflicts | internal/remotesync/plan.go:60-98 | A file synced and then edited here alone is reported as a conflict; one removed here alone is fetched again. |
| SyncPlan.PlanAdmitted | internal/remotesync/service.go:541-576 | The commit's checks pass if and only if every file the plan names is as it was when the plan was made. |
| SyncPlan.NoEditLost | internal/remotesync/plan.go:60-123 | Over the files as they are when the plan is applied: a file is overwritten or removed only if its digest is then still the last synced one, and overwritten only with the snapshot's contents. |
| SyncPlan.OthersUntouched | internal/remotesync/plan.go:60-123 | Files neither manifest knows are untouched, and nothing appears that the snapshot does not hold. |
| SyncPlan.Converges | internal/remotesync/service.go:541-576 | Without conflicts every path of base or snapshot ends as the snapshot has it, a file the plan left alone being as it was when the plan was made. |
| SyncPlan.ReplansToNothing | internal/remotesync/plan.go:124-134 | And pulling the same snapshot again finds nothing to apply. |
| SyncCommit.StaleIsRefused | internal/remotesync/service.go:541-576 | The transaction refuses the request of a pull once a file it names is no longer what the plan expects. |
| SyncCommit.PullCommits | internal/remotesync/service.go:541-576 | Committed by the transaction, a pull has become what its plan says, from files that were what it expected. |
| SyncCommit.NoEditLostOnDisk | internal/remotesync/service.go:541-576 | So no local edit is lost on the disk either, however late it was made. |
| SyncProtocol.KeysApart | internal/remotesync/service.go:52-72 | A dated copy never lands on a live object, whatever the configured paths are. |
| SyncProtocol.KeysOf | internal/remotesync/service.go:48-72 | The object of a path is the one archive in that folder, its dated copies are under snapshots in it, and slashes around the path say nothing. |
| SyncProtocol.StepKeeps | internal/remotesync/service.go:410-576 | Every call of every machine, crashes and lost answers included, keeps the invariant: tags are fresh, versions do not fork, the live object is the newest version, and every record names a version its machine pushed or applied together with that version's manifest. |
| SyncProtocol.NothingOverwrittenUnseen | internal/remotesync/service.go:410-478 | In every run a live write that the store takes creates the object or replaces exactly the version recorded as its machine's last synced tag and base. |
| SyncProtocol.SyncedByRecording | internal/remotesync/service.go:541-576 | A machine has synced a version only by recording its own push or apply of it. |
| SyncProtocol.HistoryGrows | internal/remotesync/service.go:410-576 | No version is ever forgotten or changed. |
| SyncProtocol.OneChain | internal/remotesync/service.go:410-478 | All versions of an object lie on one chain behind the live one. |
| SyncProtocol.ChainOrdered | internal/remotesync/service.go:410-478 | Along the chain each version replaces the next older one, which its author had synced, down to the one that created the object. |
| SyncProtocol.OthersRefused | internal/remotesync/service.go:447-477 | After a live write no machine can write that object until it has recorded the new version, the writer included when its answer was lost. |
| Diff.DiffLines | internal/application/diff.go:69-113 | A correct diff with true line numbers; within the size limit it keeps exactly as many lines as a longest common subsequence. |
| Diff.FillTable | internal/application/diff.go:74-88 | Every cell of the table is the length of a longest common subsequence of the two remainders. |
| Diff.NoDiffKeepsMore | internal/application/diff.go:69-113 | No correct diff keeps more lines than that. |
| Diff.MostKeptIsShortest | internal/application/diff.go:69-113 | So no correct diff is shorter. |
| Diff.ReplacementDiff | internal/application/diff.go:115-124 | Beyond the limit: all deletions, then all insertions, still a correct diff. |
| Diff.ReplacementShortestIffNothingShared | internal/application/diff.go:115-124 | Which is shortest if and only if the two texts share no line. |
| Capture.BoundedBuffer.Write | internal/platform/macos/command.go:99-130 | However the stream is cut into chunks: the buffer is its first bytes up to the limit, truncation is reported exactly when it is longer (or an empty chunk came when no room was left), and the marker has been found exactly when it occurs in the stream. |
| Capture.SearchStep | internal/platform/macos/command.go:113-129 | The kept tail is enough: the marker occurs in the longer stream exactly when it did before or occurs in tail and chunk. |
| Capture.RunProcess | internal/platform/macos/command.go:25-148 | For every way to cut a stream into non-empty chunks: contents, truncation and the marker's discovery depend on the stream alone. |
| Rewriting.WrittenChain | internal/config/token.go:23-32 | Values written with the spacing of old ones are tokens that spell exactly those values, none a comment. |
| SyncService.Service.Push | internal/remotesync/service.go:410-478 | Push call by call, with anything in between: refused exactly when unconfigured or receiving only; told that the remote has moved exactly when, at the live write, the object is there and not the version that the record it read names, or gone though the record names a version; a push that reports success has recorded the very version it wrote. |
| SyncService.QuietPush | internal/remotesync/service.go:440-478 | With nothing in between, a machine whose record names the live version, or that has no record of an object that is not there, is never told that the remote has moved. |
| SyncService.Service.Pull | internal/remotesync/service.go:494-537 | Refused exactly when unconfigured, without a snapshot exactly when the object is not there when it is fetched; what it hands over is that object with its tag and manifest, waiting for an apply. |
| SyncService.Service.Apply | internal/remotesync/service.go:541-576 | Refused exactly on a machine that only sends or while a conflict stands, changing nothing; when it reports success the record is that of the pulled version. |
| SyncService.Service.Configure | internal/remotesync/service.go:205-215 | Replaces the whole binding at once and nothing else. |

## Left out

- HTTP, the web and terminal interfaces, JSON, gzip and tar, launchd, child processes, ssh-agent and key generation: plumbing and foreign calls.
- `internal/knownhosts`, the vault, token tables and file-name validators: easier forms of what is here, or single loops.
- The text of notices and diagnostics, and `Match` criteria, which the code never evaluates.
- Sealing, unsealing and digests: sealing and unsealing are inverse functions, and a digest stands for its contents.
- Clocks, identifiers and random names are parameters; a record, a backup and the state of the last sync are each written in one atomic durable step, so leftover temporaries of those writes are not modelled.
- Symbolic links, permission bits other than the 0600 mask on files, and the order in which directories are synced; paths below the workspace are lists of segments, already clean.
- Reads are not crash points, and the creation of the state directory and `Note` are not modelled.
- Text other than ASCII: case folding and trimming in the source follow Unicode, the model ASCII.
- `RenameHostAlias`, `SetHostComment`, `ValidateAlias` and the difference of two explanations: they would add only easy members.
- Early return of a visitor from a walk: no caller modelled here asks for it; the two walks hand over lists instead of calling back.
- Planning.PlanItemsLoop: the four planning loops of Commit run over one list of tagged items, in the same order.
- Planning.DeepestSorts: the library's stable sort is an insertion sort on values.
- Transactions.Manager.Commit: the injected validator is a parameter, its answer; a stop before the staged record leaves only new directories and temporaries, which no later call clears away.
- Transactions.Manager.Complete: does not describe completing a journal document that is still in staging, beyond what `Unfinished.UnstagedRemovalCompletes` says of it.
- Capture.BoundedBuffer.Write: the marker's tail and the bounded copy are two methods called in turn, and the mutex is not modelled; an empty chunk at the limit is told apart by a ghost flag, as the source reports truncation there.
- Layout.GroupFileMoves: the order of the moves is not modelled, and a group name is the list of its segments; rewritten references, the entry file, the settings and the metadata are the request's changes, given from outside.
- Relocation.RenameCommits: assumes that no change is to a moved file and that new files lie outside both trees, which is how the operation fills them in.
- Edits.ApplyRemovals: the library's sort of the line numbers is an insertion that keeps them descending.
- Resolving.Resolve: paths are clean and absolute; expansion and globbing are functions of the argument, given from outside.
- Includes.VisitMatch: the lines an application wrote itself are a range given from outside.
- SyncPlan.MakePlan: a manifest lists each path once, as the code builds it; archives that break this are not modelled, nor are file modes.
- SyncProtocol.StepKeeps: entity tags never repeat, nobody else writes live objects, and a state file is read whole or, when damaged, as empty; the workspace's files are `SyncPlan`'s business.
- Provenance.Walker.WalkNode: the chain is a field that is added to and taken from, as in the source; termination rests on the files not yet on it.
- SyncService.Service.Configure: slashes around a path are trimmed where keys are joined, not when the binding is kept; credentials and the endpoint are part of the bucket.
- SyncService.Service.Apply: the commit is a parameter, its success; what it does to the files is `SyncCommit`'s business, where the place of an archive path in the workspace is a function given from outside; whether conflicts stand is what `SyncPlan.MakePlan` found.
