# instadroid, verified

instadroid drives the Instagram app on an Android device, reads the feed off the screen, stores each post once
and serves what it stored as feeds and pages. This project models the parts of it that decide things, and proves
what they promise: what a screen's cards are, when two sightings are one post, that a walk down the feed ends and
loses no media, when the next run may start, that a recording replays, and that searching, paging and the
stored tables agree with what they stand for.

Each file is one module:

- `CardParser.dfy`: the one-pass parser of a screen, against a declarative reading of the same nodes
- `PostIdentity.dfy`, `Sightings.dfy`, `Timestamps.dfy`: what identifies a post, when it was posted, and the
  order of stored time text
- `PostTable.dfy`, `FeedWalk.dfy`, `Retention.dfy`: the posts and media tables, the walk that fills them, and
  the size cap that empties them
- `Scheduler.dfy`, `PollLoop.dfy`: the daily budget, retries and backoff, and the poll loop as a transition system
- `Tape.dfy`: the recorder and the replay device
- `SearchIndex.dfy`: the trigger-kept caption index
- `Reshare.dfy`, `Correlation.dfy`, `Stories.dfy`: finding a post inside a story frame, and refusing near
  duplicates of stored stories
- `Paging.dfy`, `Queries.dfy`: keyset paging, and the clauses, patterns and queries printed for SQLite
- `Text.dfy`, `Numbers.dfy`: strings and whole numbers, as far as the others need them

A class stands for each object the program updates in place (`CardParser.Card`, `FeedWalk.FeedRun`,
`Tape.Recorder`, `Tape.ReplayDevice`, `Reshare.Frame`), and for each group of tables and files that several
operations keep in step (`SearchIndex.Database`, `Stories.StoryStore`, `Retention.Library`). What the device,
the clock and the imaging library do is an input everywhere, arbitrary unless said.

## What turned out not to hold

These are properties of the code as it is. Each has a theorem saying when the expected property holds and, after
the semicolon, a lemma or method with an input it fails for.

- A replay can diverge from its own recording: reading a tape back drops selector arguments that are lists, although
  the recorder writes them. A session replays cleanly exactly when it did nothing before its first look and no
  recorded selector has a list (`Tape.ReplaySession`; `Tape.TextEntryThatDiverges`, `Tape.EarlyActionIsLeftOver`). No
  caller in `app/instadroid` passes a list, and the fake device's matching refuses one (tests/fakedevice.py:95-97), so
  that a replayed tap raises there before it could diverge; a text entry looks nothing up and gets as far as diverging.
- A replay's clipboard is as noted at every step it comes to, but not at the first, which it starts on without coming
  to it: there it is empty, which is as noted only if an empty text was (`Tape.ReplaySession`;
  `Tape.FirstNoteIsNotHeard`).
- A post's two hashes (collapsed and expanded) agree exactly when the collapsed caption and the first line show
  equally much of it, up to 40 characters (`PostIdentity.CollapsedKeyAgrees`; `PostIdentity.TwoLinesTwoKeys`). The
  second stored hash is there for the rest.
- Copy link tries on a stored post are bounded by a count that a merge, and only a merge, puts back to zero
  (`PostTable.TriesAreForgottenByAMerge`; `PostTable.AMergeForgetsTwoTries`).
- The walk down the feed has a bound without its clock as long as share sheets come back to the feed; each one that
  leaves the feed adds a dump to the bound, and no more (`FeedWalk.FeedRun.WalkFeed`). So it can only go on for good if
  sheets leave the feed for good, and then it can: one truncated, undated, header-less card is acted on at every
  round (`FeedWalk.FeedRun.LeavingTheFeedGetsNowhere`; `FeedWalk.AWalkThatStalls`).
- A collaborator Reel is complete exactly with a share button, whatever its bounds, so it can be complete with
  nothing to tap (`CardParser.ReelCompletesWithItsShareButton`; `CardParser.ReelWithNothingToTap`).
- The size cap deletes a removed post's files even where a kept post names one of them. However many of the oldest
  posts go, kept ones keep their files exactly when no two posts share a file on disk
  (`Retention.KeptPostsKeepTheirFiles`), and for files that take up room that is exactly so of what caps can do
  (`Retention.SafeUnderEveryCap`; `Retention.ARemovedPostTakesAnothersFile`, two rows that sightings of two posts lead
  to).
- Search text with a NUL finds captions that don't contain it, exactly those ending with what comes before the NUL
  (`Queries.NulIsTheOneException`; `Queries.NulFindsAnEnding`).
- The Older links come to an end exactly when every cursor comes through; one with an empty sort text or id sends
  the reader back to the first page (`Paging.PagesShowEverythingOnce`; `Paging.AnEmptyIdGoesRound`). No stored row
  has either.

## Model

| member | source | states |
|---|---|---|
| CardParser.ParseHierarchy | app/instadroid/parsing.py:181-299 | The loop over mutable, shared cards returns exactly the declared cards of the screen: cut the nodes at the headers, fold each piece by itself, join a late Reel header, keep what can be identified |
| CardParser.PassFindsCards | app/instadroid/parsing.py:201-290 | The one-pass state machine and the declarative cut-and-fold find the same cards for every node stream |
| CardParser.ReadNode | app/instadroid/parsing.py:202-290 | One node read in place through shared references is one step of the pass |
| CardParser.ReadHeader | app/instadroid/parsing.py:214-257 | A header joins the open Reel, or ends the open card and starts the next, and nothing else changes |
| CardParser.FillCard | app/instadroid/parsing.py:260-290 | The ordered tests write just the first slot that applies |
| CardParser.FindClipTop | app/instadroid/parsing.py:193-200 | The first action bar alone decides where crops start |
| CardParser.HeaderStartsAfresh | app/instadroid/parsing.py:214-257 | A header nothing was waiting for starts its card the same whatever came before it |
| CardParser.CardIsItsOwnNodes | app/instadroid/parsing.py:180-299 | A card started by a header depends on its own nodes, clip_top and whether another header follows, and on nothing else on screen |
| CardParser.FirstWriteWins | app/instadroid/parsing.py:260-290 | Reading on never changes a caption, description, author, media area or share button once set, nor takes completeness back |
| CardParser.ScreenCardsAreIdentified | app/instadroid/parsing.py:244-299 | Every card returned has an author and a caption or description, and is made of a run of nodes of its own; if complete, a share button is among those, with the card's bounds, and unless it is a collaborator Reel those are set |
| CardParser.CardsOwnTheirNodes | app/instadroid/parsing.py:201-299 | The cards found on a screen are made of disjoint runs of its nodes, one run each and in order, started by a header or the list and ended by the next that isn't a late Reel header |
| CardParser.JoiningHeader | app/instadroid/parsing.py:214-246 | The first header after a card's start joins it if and only if the list started the card, the header could be read, and the nodes between are a Reel's leading media alone: a reel or video description, no caption saying or naming anything, no share button to tap; a second header never joins |
| CardParser.KnownByItsHeader | app/instadroid/parsing.py:233-257 | A card's author, time, place and header bounds are its header's, the joining one's if one joined; its kind is the starting header's |
| CardParser.EndedByAHeader | app/instadroid/parsing.py:247-248 | Its end changes nothing of a card but that a header completes one whose share button can be tapped |
| CardParser.KeptExactly | app/instadroid/parsing.py:291-299 | Exactly the cards with an author and a caption or description are returned, a header-less one of no kind as a post |
| CardParser.KindByFirstWord | app/instadroid/parsing.py:275-278 | A description's first word, in any case, gives a header-less card its kind |
| CardParser.CaptionsAreCleaned | app/instadroid/parsing.py:303-309 | A caption shown after its author's name, with space around it or a link to more of it, is read without them |
| CardParser.MoreLinkGoes | app/instadroid/parsing.py:309 | The link to more goes with one ellipsis of either kind and the space around that, and only from the end of a caption |
| CardParser.ReelCompletesWithItsShareButton | app/instadroid/parsing.py:260-290 | A collaborator Reel is complete if and only if a share button follows its header, and can be tapped if and only if one that follows has bounds |
| CardParser.ReelWithNothingToTap | app/instadroid/parsing.py:214-290 | A screen with a complete card that has no share bounds |
| PostIdentity.CollapsedKeyAgrees | app/instadroid/parsing.py:351-400 | A post hashes alike collapsed and expanded if and only if both forms show equally much of its text up to the 40 characters that count |
| PostIdentity.TwoLinesTwoKeys | app/instadroid/parsing.py:351-400 | A caption of two short lines and its collapsed form have different keys |
| PostIdentity.WhatCountsOfAlt | app/instadroid/parsing.py:383-386 | Of a media description no digit counts, nor anything from the first comma on, and all else does |
| PostIdentity.KeyIsAuthorAndText | app/instadroid/parsing.py:389-395 | Two cards hash one key if and only if author and what counts of their texts are the same |
| PostIdentity.WeakCaptions | app/instadroid/parsing.py:15-63 | A caption is weak if and only if there is none or, in any case, it opens with a kind of media and on that line says whom it is by |
| PostIdentity.SameCaptionMeans | app/instadroid/parsing.py:372-380 | Captions are the same if one is weak, or if flattened they agree as far as both go and neither is empty |
| PostIdentity.CollapsedIsSameCaption | app/instadroid/parsing.py:366-380 | A stored caption and any collapsed form of it are the same caption unless nothing but whitespace is shown |
| PostIdentity.KeyIsSettledByTheCaption | app/instadroid/parsing.py:389-400 | Once author and caption are read, nothing read later changes what the card hashes under |
| PostIdentity.ScrollingKeepsIdentity | app/instadroid/parsing.py:180-400 | Two screens show a header's card whole, the second with every node moved, other counts in its description, another date, other surroundings and another action bar: both hold a card of one key, the same but for that, and both return it or neither does |
| Sightings.YearlessDateIsRecent | app/instadroid/parsing.py:41-56 | A date without a year is read as less than 366 days ago and not in the future, in any fixed-offset zone, leap days included, or not at all |
| Sightings.LabelError | app/instadroid/parsing.py:37-40 | A relative label read back overshoots the true posting time by less than its unit |
| Sightings.WhatIsRead | app/instadroid/parsing.py:26-57 | Every kind of shown time as the instant it is read as: yesterday, an age, a date with its year, one without, and what is no time |
| Sightings.SamePostMeans | app/instadroid/parsing.py:94-116 | One post if and only if one author, known times within an hour or what the time shown can be off, and captions alike for 200 characters unless one is weak |
| Sightings.ResightingIsRecognised | app/instadroid/parsing.py:26-116 | Two labels of one post, the later no finer than the earlier, are always within tolerance, so it is recognised exactly when the captions agree or one is a placeholder |
| Timestamps.IsoOrder | app/instadroid/db.py:876-879 | Stored UTC time text sorts as the times do, with the fraction printed or left out |
| PostTable.SelectInOrder | app/instadroid/db.py:843-848 | The rows in the order the query asks for, all of them |
| PostTable.WindowLosesNothing | app/instadroid/db.py:869-879 | The text window keeps every row that same_post would accept |
| PostTable.WindowIsTwiceAsWide | app/instadroid/db.py:868-882 | The text window is the account's rows posted within twice the tolerance, and there is one unless that leaves years 1 to 9999 |
| PostTable.FindDuplicate | app/instadroid/db.py:856-892 | A dated card finds a row if and only if a stored, not excluded row is the same post; the first in the order given |
| PostTable.FindSameCaption | app/instadroid/db.py:831-853 | An undated card finds a row if and only if its caption is distinctive and a recent row of its account has it, a permalinked and then the earliest one first |
| PostTable.CaptionRows | app/instadroid/db.py:831-853 | A row has a card's caption if and only if it is the account's, not excluded, recent enough and alike for 200 characters |
| PostTable.DistinctiveCaptions | app/instadroid/db.py:836-842 | A caption can be told by if and only if it is real and forty characters long, flattened |
| PostTable.MergeImproves | app/instadroid/db.py:895-929 | A merge loses nothing the stored row had and leaves its two hashes distinct, the one just seen first |
| PostTable.MergeGains | app/instadroid/db.py:895-929 | Column by column: what the stored row has stays, what it lacks is the card's, a real caption replaces a weak one, and the hashes are the card's and the first other one |
| PostTable.SightingsAddUp | app/instadroid/db.py:895-943 | Over every history a row has a real caption, an image, a posting time or a place in the end if and only if it had one or some card merged into it did |
| PostTable.HashIsRemembered | app/instadroid/db.py:932-936 | A row answers to the hash just seen and the one before; nothing else changes |
| PostTable.LinkIsTakenIfFree | app/instadroid/scrape.py:404-420 | A Copy link try is counted, and its link taken if and only if no other row has it or its shortcode |
| PostTable.ChangeImproves | app/instadroid/db.py:895-943 | Each insert, merge, hash update or backfill improves one row and leaves every other alone: none is overwritten or lost |
| PostTable.HistoryOnlyImproves | app/instadroid/db.py:895-943 | Over any history a post keeps its first-seen time, its permalink and its real caption, and changes its id at most once, never after it has a permalink |
| PostTable.HistoryKeepsPostsApart | app/instadroid/db.py:895-943 | Two stored posts never become one |
| PostTable.BothFormsAreFound | app/instadroid/db.py:919-922 | A stored or merged card is found under the hash it was seen by and under its expanded form's |
| PostTable.TriesAreForgottenByAMerge | app/instadroid/db.py:939-951 | The count of Copy link tries goes down exactly when a post with tries counted is merged |
| PostTable.AMergeForgetsTwoTries | app/instadroid/db.py:895-951 | A history from the empty table, each change after its lookups, and a duplicate merged into a row with two tries: none are left counted |
| PostTable.TwoRowsNameOneFile | app/instadroid/db.py:895-943 | A history from the empty table, every merge of a card the duplicate lookup finds a row for and every insert of one it finds none for, after which two rows name one image |
| FeedWalk.FeedRun.WalkFeed | app/instadroid/scrape.py:582-618 | For every device showing finitely many hashes and only finitely many times a sheet that would leave the feed, the walk ends with no clock within MAX_SCROLLS + 1 + hashes * (PERMALINK_RETRIES + 1) dumps and one for each sheet that did leave it. Each dump is a screen scrolled past, its complete cards of accounts acted on all handled; a card acted on, complete and of such an account; the reopening; or the end, for the reason given. A hash costs at most PERMALINK_RETRIES + 1 sheets and one for each of its own that left, and backfills stay in their budget |
| FeedWalk.FeedRun.HandleDump | app/instadroid/scrape.py:605-609 | Cards before the one acted on are incomplete or handled; at most one is acted on, a complete one not handled before, at the cost of one share sheet; with none acted on every card is incomplete or handled and no sheet was opened; acting uses up one of the tries left unless its sheet left the feed |
| FeedWalk.FeedRun.TakeDump | app/instadroid/scrape.py:595-618 | One round: reopened or given up exactly on too many empty screens in a row, and otherwise one complete card of a followed account acted on, or every such card done and scrolled on or stopped by seen posts; every round that goes on uses up part of what remains of the walk, except one whose sheet left the feed |
| FeedWalk.FeedRun.LeavingTheFeedGetsNowhere | app/instadroid/scrape.py:562-574 | For every number of rounds, a card whose sheets leave the feed is acted on in each: its sheets grow by that number, no scroll is made and it is left to be acted on again |
| FeedWalk.AWalkThatStalls | app/instadroid/scrape.py:555-574 | For every number, a first run over an empty table that has opened that many sheets for one card and made no scroll |
| FeedWalk.StallingCardStalls | app/instadroid/scrape.py:555-574 | Such a card, capture and configuration |
| FeedWalk.FeedRun.HandleCard | app/instadroid/scrape.py:528-579 | Exactly which cards are skipped, looked up and captured; a card passed over is handled with nothing owed it; a retry stores nothing and counts one failure, a card kept answers to its hash from then on unless nothing could tell it from a stored post, the run counts just the posts it added, and captured files end up named by a row or gone on every exit |
| FeedWalk.FeedRun.HandleNew | app/instadroid/scrape.py:546-579 | A card not stored yet is captured, then retried exactly if its sheet gave no link and tries are left, else kept; its files are accounted for either way |
| FeedWalk.FeedRun.HandleStored | app/instadroid/scrape.py:538-545 | A stored post costs a share sheet only for a missing permalink with tries left, out of the run's budget |
| FeedWalk.FeedRun.StorePost | app/instadroid/scrape.py:242-308 | New, merged or skipped exactly when the table says so; the table changes by that alone; both caption forms are found afterwards; every captured file is accounted for |
| FeedWalk.FeedRun.CardRowShows | app/instadroid/scrape.py:262-283 | A card is stored with what it shows: its caption or else its description, its time if that could be read, its account, kind and place |
| FeedWalk.FeedRun.SettleLink | app/instadroid/scrape.py:565-571 | A free link gives the id and url, another account's is dropped, and a stored post's only has the hash recorded |
| FeedWalk.FeedRun.StoreAndCount | app/instadroid/scrape.py:572-578 | The card is stored or dropped, counted as new or towards stopping, and found afterwards |
| FeedWalk.FeedRun.MergeCard | app/instadroid/scrape.py:284-293 | A merge replaces one row, keeps the stored cover and discards the rest of the capture |
| FeedWalk.FeedRun.InsertCard | app/instadroid/scrape.py:298-306 | A new post's row and slides name the files renamed after its id |
| FeedWalk.FeedRun.FindStored | app/instadroid/scrape.py:311-323 | A card is found by hash, or undated by caption; by hash nothing is written, and by caption a row with a permalink comes first, then the earliest, and the table changes by that row's remembering the hash |
| FeedWalk.FeedRun.FetchPermalink | app/instadroid/scrape.py:358-377 | A link handed out again is believed exactly if the row stored for it has the card's author and caption |
| FeedWalk.FeedRun.BackfillPermalink | app/instadroid/scrape.py:396-421 | One try is counted, and the link recorded unless another row has it; nothing else changes |
| FeedWalk.FeedRun.CheckPermalink | app/instadroid/scrape.py:503-525 | Free, stale or stored by who holds the id; only a stored post is touched, to remember the hash |
| FeedWalk.FeedRun.RenameMedia | app/instadroid/scrape.py:424-434 | Exactly the capture's files are renamed, in order |
| FeedWalk.FeedRun.DiscardMedia | app/instadroid/retention.py:37-42 | Exactly the named files go |
| FeedWalk.FeedRun.NoteScreen | app/instadroid/scrape.py:442-460 | Without a list every card is kept; with one exactly those of its accounts and of no account yet, in their order and each as often; and the run of empty screens so far |
| FeedWalk.FeedRun.ReopenAfterEmptyScreens | app/instadroid/scrape.py:463-477 | The feed is reopened once and no more, and the count of empty screens then starts again |
| FeedWalk.FeedRun.SweepOrphans | app/instadroid/retention.py:143-162 | After the sweep every media file is named by a row, and no named file is touched |
| FeedWalk.TriesShrink | app/instadroid/scrape.py:557-562 | Acting on a card lowers the tries left, the measure the walk ends by |
| FeedWalk.NoMediaIsLost | app/instadroid/scrape.py:546-579 | From the accounting: a captured file is on disk exactly if a row names it, every named file is on disk, and no other file is touched |
| Scheduler.BudgetWaitIsExact | app/instadroid/scrape.py:71-88 | The wait is positive exactly when the budget is spent, sleeping it out frees the budget, and without the extra second it would not |
| Scheduler.BudgetStaysFree | app/shared/timestamps.py:23-32 | Time passing only frees the budget |
| Scheduler.FreeBudgetWaitsNot | app/instadroid/scrape.py:76-87 | With the budget off, or fewer starts in the last 24 hours than it allows, nothing is waited for |
| Scheduler.PrefilterIsTheWindow | app/instadroid/scrape.py:79-85 | The query's text comparison keeps exactly the starts the window counts |
| Scheduler.ConsecutiveFailures | app/instadroid/db.py:312-322 | The trailing failed runs, up to 64 |
| Scheduler.BackoffShape | app/instadroid/scrape.py:91-102 | The interval lies between the sample and the larger of sample and cap, grows with the failures and is constant from 17 on |
| Scheduler.BackoffDoubles | app/instadroid/scrape.py:91-102 | The interval is the sample up to one failure or without backoff; each failure more doubles it, as far as the larger of sample and cap, up to the seventeenth |
| Scheduler.FourHoursWiden | app/instadroid/scrape.py:91-102 | Four hours under the default cap become sixteen at three failures in a row and twenty-four at four |
| Scheduler.BackoffForgetsLongRuns | app/instadroid/scrape.py:91-102 | Counts that agree up to 64 give one interval |
| Scheduler.Wait | app/instadroid/control.py:78-87 | A wait ends early only for a due request, and otherwise sleeps the whole time |
| PollLoop.HistoryKeepsInv | app/instadroid/scrape.py:760-791 | Every history keeps runs sequential and spaced, the backoff count right and a hold respected |
| PollLoop.AtMostTheBudgetADay | app/instadroid/scrape.py:71-88 | Over every history no 24-hour window, edges included, holds more than MAX_RUNS_PER_DAY starts: every start is more than a day before the one that many later |
| PollLoop.HeldUntilUnlocked | app/shared/control.py:68-94 | While a hold is in place no run starts, whatever the lock's age, requests or restarts |
| PollLoop.NeedsHumanStopsTheLoop | app/instadroid/scrape.py:745-746 | After a run that needs a person no run starts until someone unlocks |
| PollLoop.RunsKeepTheirDistance | app/instadroid/scrape.py:40-68 | With SCRAPE_ON_STARTUP off, a finish and the next start are apart by at least the least of the scrape-now limit, the retry delays and the shortest interval, restarts included |
| PollLoop.RestartKeepsTheBackoff | app/instadroid/scrape.py:760-782 | The loop's counter and the table's count give one interval at every point of every history |
| PollLoop.SleepAfterARun | app/instadroid/scrape.py:105-113 | Over every history: a transient failure with retries left waits its delay and counts; anything else waits the interval for the failures at the end of the runs table, the retries starting over; and the run is held exactly if it needs a person |
| PollLoop.WaitAtStart | app/instadroid/scrape.py:40-68 | A process waits for nothing without a recorded run or if told so; otherwise until the interval after the last run is over, a first retry's after a transient failure |
| PollLoop.TheLoopGoesOn | app/instadroid/scrape.py:760-791 | Between runs the loop is never stuck and has only one thing to do next |
| PollLoop.LaunchesOnTime | app/instadroid/scrape.py:760-791 | Left alone, a waiting loop starts its run exactly when the wait is over and then the budget is free |
| PollLoop.NoSooner | app/instadroid/control.py:78-87 | Without a request taken or a restart no run starts before the wait is over, whatever people do |
| PollLoop.LockRunsOut | app/shared/control.py:68-86 | A lock holds until it is as old as configured, or for ever; a hold until an unlock; an unlock ends both |
| PollLoop.RequestIsTaken | app/instadroid/control.py:57-66 | A request cuts a wait short if and only if the last run ended long enough ago, and is used up |
| PollLoop.RetriesRunOut | app/instadroid/scrape.py:105-113 | Without a restart, no more retries than configured come between poll intervals, whatever runs in between |
| Tape.Recorder.SaveStep | app/instadroid/recording.py:68-79 | A changed or acted-on screen takes the pending actions into a step; the steps' actions and the pending ones are always the log |
| Tape.Recorder.Write | app/instadroid/recording.py:81-94 | Nothing is written after a write has failed; otherwise the file is the tape |
| Tape.Recorder.Look | app/instadroid/recording.py:96-100 | A step is added exactly if something is pending or the last look is not recent, and the screen is new or actions led to it; otherwise the tape stays as it is |
| Tape.Recorder.Did | app/instadroid/recording.py:102-103 | An action is logged and pending |
| Tape.Recorder.ReadClipboard | app/instadroid/recording.py:113-122 | The look before it adds a step or not; then the step in front notes what was read, unless that is no link and it has one, which stays; no other step and no action changes |
| Tape.WhatIsNoted | app/instadroid/recording.py:113-122 | A link is noted; anything else is where there is no link; a link stays |
| Tape.ReplayDevice.Enter | tests/replaydevice.py:156-161 | The step in front, none of the next one's actions made, and its clipboard if it has one |
| Tape.ReplayDevice.Tick | tests/replaydevice.py:163-169 | Time moves on only over steps no action led to, and the clipboard becomes what was noted on the step come to |
| Tape.ReplayDevice.Did | tests/replaydevice.py:171-183 | An action is past the end, a divergence, or one more of those waited for; the last of those brings its step and what was noted on it |
| Tape.ToldApart | tests/replaydevice.py:85-110 | Kind by kind: with an action awaited, another is no divergence if and only if it is a click within 120 pixels both ways, a swipe the same way, or that very key, tap, text entry or start |
| Tape.WrongKeyDiverges | tests/replaydevice.py:96-101 | A recorded press of back, replayed with another key, is a divergence |
| Tape.ReplayDevice.PlayBack | tests/replaydevice.py:156-183 | Over any run of actions and pauses the device is where the specification says, with the clipboard as noted on the step it has come to |
| Tape.ReloadRecognised | tests/replaydevice.py:69-77 | An action read back from the file is recognised as itself if and only if its selector has no list |
| Tape.PlayFollows | tests/replaydevice.py:163-183 | A replay, pauses anywhere, diverges nowhere if and only if its actions follow the tape; it consumes them one by one and keeps the rest |
| Tape.EntersWithItsLastAction | tests/replaydevice.py:171-183 | An acted-on step is in front exactly once its last action has been made |
| Tape.ReplayUndoesRecording | app/instadroid/recording.py:68-103 | Playing a tape's log back on it, pauses anywhere, gives no divergence and leaves the unrecorded tail, if and only if nothing was done before the first step and no selector had a list |
| Tape.ReplaySession | tests/replaydevice.py:96-183 | A recorder's log, made on a replay device loaded with what the recorder left on disk: no divergence and only the unrecorded tail left over, if and only if the session began with a look and no recorded selector had a list; the clipboard is as noted in the end, if and only if the step is not the first or the note is empty |
| Tape.TextEntryThatDiverges | tests/replaydevice.py:69-77 | A look, a text entry on a list selector and a look, recorded; its replay diverges |
| Tape.EarlyActionIsLeftOver | app/instadroid/recording.py:68-103 | A key pressed and a look, recorded; its replay has the key left over |
| Tape.FirstNoteIsNotHeard | tests/replaydevice.py:143-161 | A link read on the first screen, recorded; its replay starts with an empty clipboard |
| Tape.EquivalentLogReplays | tests/replaydevice.py:96-183 | Any log equivalent to the recorded one replays cleanly and uses the tape up |
| SearchIndex.Database.Migrate | app/instadroid/db.py:781-810 | Whatever was there, the index afterwards agrees with the posts |
| SearchIndex.Database.Insert | app/instadroid/db.py:795-797 | INSERT is refused only for a taken id, and leaves the index agreeing, whatever key comes next |
| SearchIndex.Database.Replace | app/instadroid/db.py:784-797 | INSERT OR REPLACE leaves the index agreeing although the row it displaces is not seen to go, also when that row's key is handed out again |
| SearchIndex.Database.Update | app/instadroid/db.py:798-801 | UPDATE of id or caption leaves the index agreeing, also when the row's own key is handed out again |
| SearchIndex.Database.Delete | app/instadroid/db.py:802-804 | DELETE leaves the index agreeing and every other key as it was |
| SearchIndex.Database.DropEntry | app/instadroid/db.py:769-773 | The drop statements remove exactly the id's entry, and nothing for NULL |
| SearchIndex.Database.AddEntry | app/instadroid/db.py:776-779 | The add statements cannot collide: neither the key SQLite allocates nor the id is used |
| SearchIndex.IndexIsThePosts | app/instadroid/db.py:769-810 | An index that agrees holds an id and caption under a key, and only one, exactly when the table holds that post |
| SearchIndex.Dropped | app/instadroid/db.py:769-773 | Dropping one id's entry after the row changed leaves all others agreeing |
| SearchIndex.Added | app/instadroid/db.py:776-779 | A fresh key past every other closes the gap |
| SearchIndex.KeyComesBack | app/instadroid/db.py:769-790 | A post indexed again gets its key back if and only if that was the largest, and 1 or one past another in use |
| Reshare.Frame.constructor | app/instadroid/reshare.py:110-123 | The bands are the rows of the shrunk bands |
| Reshare.Frame.StackOf | app/instadroid/reshare.py:125-136 | The remembered stack is the one asked for, whenever it was made |
| Reshare.Frame.Search | app/instadroid/reshare.py:138-159 | The tiled search returns what sliding the thumbnail down every band finds: the best share, the first of equals, none where it fits nowhere, whatever was searched before |
| Reshare.Frame.Shares | app/instadroid/reshare.py:149-155 | The shares of a band are the averages of the thumbnail laid on it at each row, `Reshare.ShareIsAgreement` saying what those are |
| Reshare.StackPixel | app/instadroid/reshare.py:131-135 | Pixel (r, 24y + k) of the side-by-side stack is pixel (y + r, k) of the band |
| Reshare.TiledPixel | app/instadroid/reshare.py:149-151 | Pixel (r, 24y + k) of the tiled thumbnail is its pixel (r, k) |
| Reshare.WindowIsOverlay | app/instadroid/reshare.py:149-155 | Each averaged window is the thumbnail laid on the band at that row |
| Reshare.ShareIsAgreement | app/instadroid/reshare.py:149-155 | With a box filter, rounding to a nearest level along the rows and down them, each share is the part of the thumbnail's pixels that agree with the band there, within one in 255 |
| Reshare.BestAgreesMost | app/instadroid/reshare.py:138-159 | Nowhere in any band do more pixels agree than at the placement found, by more than two in 255 |
| Reshare.HalvesUpIsABox | app/instadroid/reshare.py:46-50 | Rounding halves up both times is such a filter |
| Reshare.RoundedTwice | app/instadroid/reshare.py:46-50 | Three rows whose twice rounded mean is not their mean rounded |
| Reshare.RowsRoundTrip | app/instadroid/reshare.py:88-90 | Cutting an image into rows undoes joining them |
| Reshare.SearchHasOneResult | app/instadroid/reshare.py:156-159 | The search's specification leaves one answer |
| Reshare.PlaceIsInWidths | app/instadroid/reshare.py:156-159 | A placement is the share out of 255, one of eleven sizes from 0.7 up by 0.03, and the row found in card widths |
| Correlation.SpreadSaysConstant | app/instadroid/reshare.py:98-101 | A spread is never negative, and zero exactly for a constant run |
| Correlation.CorrelationIsBounded | app/instadroid/reshare.py:93-104 | The correlation lies between -1 and 1 for all runs (Cauchy-Schwarz) |
| Correlation.SelfCorrelation | app/instadroid/reshare.py:93-104 | A run that is not constant correlates 1 with itself, a constant one 0 |
| Correlation.BrightnessDoesNotMatter | app/instadroid/reshare.py:93-104 | Adding any grey level to either run changes nothing |
| Correlation.OneCorrelation | app/instadroid/reshare.py:93-104 | There is one correlation of two runs, in either order |
| Stories.DHash | app/instadroid/stories.py:298-306 | The loop packs exactly the 64 comparisons, and its 16 hex digits read back to them |
| Stories.HexReadsBack | app/instadroid/stories.py:306 | The zero-padded hex of packed bits reads back to their number |
| Stories.DifferIsDistance | app/instadroid/stories.py:330-334 | The bit count of the exclusive or is the number of comparisons that differ |
| Stories.DuplicatesAreNear | app/instadroid/stories.py:320-334 | A frame is a duplicate if and only if a hashed story stored since the cutoff is no more than ten bits off, of its own account, or four, of another |
| Stories.StoryStore.StoreStory | app/instadroid/stories.py:244-279 | A frame is stored exactly if it is not blank, not a near duplicate of the last day's and not stored already; its temporary file is gone either way, and hashed stories of one day stay more than 10 bits apart for one account and 4 across accounts |
| Stories.StoryStore.TakeFrame | app/instadroid/stories.py:244-279 | A frame captured and stored or not changes files by the new row's alone |
| Stories.StoryStore.CaptureStories | app/instadroid/stories.py:225-241 | After a run the table is what storing each captured frame in turn by the rule makes of it; it counts the rows added, adds just their files and leaves no temporary one |
| Stories.StoryStore.Drop | app/instadroid/reshare.py:318-320 | A dropped story goes with its file, and the rest stay told apart |
| Stories.NewIsToldApart | app/instadroid/stories.py:320-334 | Checking the day before one clock reading is enough for a row stamped at a later one |
| Paging.PagesShowEverythingOnce | app/feedserver/queries.py:135-165 | Over an unchanging table the Older links come to an end exactly when every cursor comes through, and then show every post once, newest first, ties included, in at most one page more than there are posts |
| Paging.StoredPostsPageThrough | app/feedserver/queries.py:135-165 | With no empty sort text or id the Older links show every post once and end |
| Paging.AnEmptyIdGoesRound | app/feedserver/queries.py:135-165 | Two posts, one with an empty id, whose links never end |
| Paging.FollowingIsSound | app/feedserver/browse.py:96-111 | With rows stored and deleted between pages, nothing is shown twice, and at the last page everything there throughout has been shown |
| Paging.WhatStaysIsShownOnce | app/feedserver/browse.py:96-111 | A post that stays is shown exactly once |
| Paging.BrowseAt | app/feedserver/queries.py:156-165 | A page is the first rows of what is left, with a link exactly if there are more |
| Paging.SameSize | app/feedserver/queries.py:80-81 | A page size past the limits pages as the limit does, link after link |
| Paging.LimitIsNearest | app/feedserver/queries.py:80-81 | A page size out of range is the nearest one in it |
| Queries.LikeFindsTheText | app/feedserver/queries.py:110-112 | The escaped pattern matches exactly the captions containing the text, either case of ASCII letters, whatever is in it, as far as a NUL |
| Queries.NulIsTheOneException | app/feedserver/queries.py:110-112 | Pattern and containment agree if and only if the text has no NUL or the caption does not end with what precedes it |
| Queries.NulFindsAnEnding | app/feedserver/queries.py:110-112 | A text with a NUL and a caption it finds without being in it |
| Queries.EscapedReadsAsItself | app/feedserver/queries.py:110-112 | An escaped text reads as that text at the head of any pattern |
| Queries.LikeMarks | app/feedserver/queries.py:110-112 | A percent sign stands for any run of characters, an underscore for any one, an escaped character for itself in either case |
| Queries.SearchReadsBack | app/feedserver/queries.py:127-132 | Whatever is typed lexes as its first 32 words, each a string matched as a prefix, with no operator, bare word or open quote |
| Queries.SearchesWhatIsTyped | app/feedserver/queries.py:127-132 | The words searched for are the first thirty-two typed, a NUL parting them as a blank does |
| Queries.UnquotedIsNoText | app/feedserver/queries.py:127-132 | A word not quoted reads as a bare word, which may be an operator |
| Queries.Where | app/feedserver/queries.py:97-113 | The clauses and their positional arguments together select exactly the posts the filter means |
| Queries.OneMoreClause | app/feedserver/queries.py:101-113 | A clause appended with its arguments narrows the selection by itself alone |
| Retention.Library.EnforceSizeCap | app/instadroid/retention.py:69-100 | The shortest run of the oldest posts by COALESCE(posted_at, scraped_at) that brings the footprint under the cap goes, each file counted once, and no kept post is older than a removed one; all go when none does; nothing when under or off; with no file shared on disk, kept posts keep theirs |
| Retention.Library.CountOff | app/instadroid/retention.py:82-94 | Counting stops at the first post that is enough |
| Retention.FirstAreOldest | app/instadroid/retention.py:81-100 | The first posts in the order of the time text are the oldest in time |
| Retention.SizeAfter | app/instadroid/retention.py:86-100 | What counting takes off is what unlinking frees |
| Retention.KeptPostsKeepTheirFiles | app/instadroid/retention.py:21-34 | Any number of the oldest posts can go without a kept post losing a file on disk, if and only if no two posts share one |
| Retention.SafeUnderEveryCap | app/instadroid/retention.py:69-100 | No cap costs a kept post a file that takes up room, if and only if no two posts share such a file |
| Retention.StopsOnce | app/instadroid/retention.py:82-94 | A cap settles how many posts go |
| Retention.ARemovedPostTakesAnothersFile | app/instadroid/retention.py:86-100 | After sightings of two posts the older goes first and takes the image the other names |
| Retention.LeftIsReferenced | app/instadroid/retention.py:95-98 | Files that are left are still named by a row |

## Left out

- Regular expressions, XML, selector tables: a node's resource-id comparisons and matches are given (`CardParser.Node`), and a shown time arrives as its parsed label.
- PostIdentity.CollapsedIsSameCaption: word boundaries and letters' case in a placeholder caption are ASCII only, as far as the model decides which captions are placeholders.
- Hashing: `common.digest` is an arbitrary function whose value is never empty; two posts with one digest are one post to the model as to the program.
- FeedWalk.FeedRun.StorePost: file names are a stem and a slide number, so a shortcode that ends like a slide's name (`C` and `C_1`) and mixed file types are not modelled.
- FeedWalk.FeedRun.HandleCard: the OverflowError of a duplicate window that leaves years 1 to 9999 is shut out of a capture's inputs; `PostTable.FindDuplicate` itself has it.
- FeedWalk.FeedRun.WalkFeed: the check for a restricted account ends a walk like the clock does; what the device's screens show after a tap is an input, not modelled.
- FeedWalk.FeedRun.CheckPermalink: rename candidates and run warnings are not recorded.
- FeedWalk.NoMediaIsLost: for hashes and shortcodes no stored row has named a file after; a merge that changes a row's id leaves slide rows under the old id, which keep naming their files.
- FeedWalk.FeedRun.NoteScreen: the drift counters, account rows and avatars, which only feed reports.
- PostTable.FindDuplicate: the order SQLite returns rows in is whatever order the list has.
- The twin-merge, rehash and other one-time migrations besides the search index's.
- Scheduler.Wait: exact arithmetic; the program's float seconds can round.
- Scheduler.BudgetWaitIsExact: malformed stored times, which the program skips, are not in the list.
- PollLoop.HistoryKeepsInv: `scraper.py once` beside the loop, a process killed during a run or between recording a run and raising the hold, and a clock set back.
- Tape.Recorder.ReadClipboard: the app noted on a step (`package`) and the JSON text of the tape.
- Tape.ReplayDevice.Enter: the fake device's own screen handling beyond which step is in front, and the program's own clearing of the clipboard during a replay.
- SearchIndex.Database.AddEntry: the key allocated is one past the largest in use, as SQLite has it until the largest 64-bit key is in use.
- Reshare.Frame.Search: the shrunk bands are given, and the average of one window is any function in the search and any box filter in what a share means; scores are exact, not floats. A share is within one in 255 of the share of agreeing pixels (`Reshare.ShareIsAgreement`), not that share rounded once: the filter rounds along the rows and then down them, which can differ (`Reshare.RoundedTwice`). The closer check's placements (`refine`), the edge search (`plain_around`) and the thumbnail cache are not modelled.
- Correlation.CorrelationIsBounded: exact arithmetic over all real runs; float rounding can leave the interval by an ulp.
- Stories.StoryStore.StoreStory: the frame's crop, blank check and digest are given; a crash between the insert and the rename.
- Paging.FollowingIsSound: a post whose sort time changes between pages is another key, so it may be shown again or passed over; NULL ids.
- Queries.SearchReadsBack: how FTS5 splits captions into tokens; only how it reads the query.
- Retention.Library.EnforceSizeCap: sizes in whole bytes; equal times in any order; the age limit and the stories' own expiry.
- Device driving, navigation, HTML, Atom, JSON Feed and OPML, `/status`, authentication, settings, alerts, backups and the command line.
