# A verified model of the IRC bot's decision logic

The bot guards IRC channels together with others of its kind: it keeps channel modes, bans
floods, and shares settings with them through hubs, with no leader among the bots.  This project
models the parts of it that decide something from data, as Dafny functions, classes and methods,
and proves what they are meant to guarantee: for every input, every run or every order of
arrival.  `dafny verify dfyconfig.toml` checks all of it.

A `char` of a Dafny string stands for one byte.  Clocks, the server, the hub and hashes are
parameters: a clock is a number that does not go back, a link is how many writes it still takes,
a hash is any function.

## What is where

| area | files |
|---|---|
| glob patterns, who is authorised, and bans that must not hit the wrong people | `Glob`, `BanMasks`, `BanTypes`, `BanSafety`, `Authority` |
| channel modes, from the operator's text to the live channel | `ModeParse`, `ModeSync`, `LiveModes`, `LiveExact`, `LiveList`, `ModeLines`, `PackLimits`, `ModePipeline`, `ModePacking` |
| the paced send queue | `SendQueue` (operations), `SendQueueRuns` and `SendQueueAccount` (runs), `SendQueueObject` (the object), `SendLanes` (which lane), `ModeSending` (mode changes through it) |
| bounded tables | `EventLimiter`, `EventRuns`, `EventExact`, `FloodTracker`, `FloodExact`, `IgnoreTable`, `IgnoreExact`, `QuietMode`, `Counting` |
| replicated records | `Settings`, `SettingsExact`, `StoredSettings`, `BanCodec`, `RecordLines`, `BanTable`, `BanRuns`, `BanOrder`, `Stamps`, `Replicated`, `ChanOrder`, `OptFlags` |
| who does a job | `Deal`, `KickRun`, `JobTable` |
| version order | `Versions` |
| shared text and numbers | `Text`, `Numbers` |

Where the program changes things in place there is a class or a method with the same loops, proved
equal to a function of the old state; the properties are then proved about that function.  So
`LiveModes.Channel.Apply` is tied to `ApplyText`, `SendQueueObject.SendQ.Add` to `Enqueue`,
`BanTable.Table.StoreBan` to `Store`, and the lemmas speak of `ApplyText`, `Enqueue` and `Store`.

Expensive proofs begin with a `hide` statement: it names definitions the proof does not need.

## What turned out not to hold as such

Each of these is stated as a lemma, with the condition under which the property does hold.

- An automatic ban can hit a trusted bot when the offender's ident starts with two `~` and the ban
  type puts a star before the ident (types 1, 3, 6, 8): the overlap test drops one `~`, the ban mask
  another.  For every other ident and type no trusted bot is hit (`BanSafety.SparesBotsExactly`).
- It can hit an active user in those cases, and when the ident starts with a `~` that the mask keeps
  (types 0 and 5, which are in every retry order): the test drops the `~` of the mask, and the user is
  recognised with it.  In all other cases nobody authorised is hit (`BanSafety.SparesAllExactly`).
  For a single mask and hostmask: it is safe exactly when the mask without its `~` describes it with
  its `~` and without (`BanSafety.HostmaskSafeExactly`).
- Packing MODE lines keeps what a server reads from them exactly for servers that give no argument to
  a letter the packer knows without one, and of those it knows with one give it to all or to none
  (`ModePacking.PackingExactly`).  A server that takes the key only when it is set reads the bot's own
  change of a key, packed, as setting the old one again (`ModePacking.KeyChangeMisread`).  The lines
  of a mode comparison are kept by every server that treats the eight managed letters as the default
  table does (`ModePipeline.Pipeline`).
- `-k` cannot be carried out while the server hides the key, and a live picture that was never
  received does not settle (`ModePipeline.Pipeline`, `ModePipeline.UnknownNeverSettles`).
- A deleted ban can come back from an older add once its tombstone is gone: purged, or given up as the
  oldest of a full table when a new key is stored (`BanOrder.TombstoneGuards`, `BanOrder.DropsExactly`).
- A node knows of every banned key the greatest stamp and op it heard, after every record, exactly when
  it has room all along (`BanOrder.UpToDateExactly`); then nodes that hear the same bans agree
  (`BanOrder.BansConverge`).  The last place of a channel goes to whichever comes first
  (`BanOrder.CapDivides`).
- Opt flags whose stamp is not positive end in the time they were taken.  Every order and time of a set
  of flags ends alike exactly when none such is let in over what is there (`OptFlags.OptExactly`,
  `OptFlags.UnstampedOrderMatters`).
- The contents of C| records follow the order they come in: a set of them ends in the same record, for a
  channel that is known, exactly when the greatest of those over what is there are all the same record
  (`ChanOrder.ContentsConverge`, `ChanOrder.EqualStampsKeepFirst`).
- A delete for a channel the bot never heard of is lost.  So a set of records for such a channel ends
  in the same stamp and op in every order exactly when none of them is an add, or the greatest is one
  (`ChanOrder.UnknownConverges`), and in the same record exactly when moreover the greatest are all the
  same (`ChanOrder.UnknownContents`).
- A bot that is asked again for a kick it has sent and not heard sends a second one once 30 s have passed
  or other acts have pushed the first out of its memory.  If the other bots hear a kick in time, at
  most one is sent exactly when this never happens to the bot that acts first (`KickRun.OneKick`,
  `KickRun.AskedAgain`).
- For digits between dots the version scan is the numeric order exactly when no field has a leading
  zero (`Versions.NumericExactly`); on strings at large it is no order (`Versions.NotTransitive`).

A remark on the settings edit by itself: a field over 512 bytes reads as nothing, so an edit that
shortens it could bring other settings into force (`Settings.EditKeepsOthers`, `Settings.OverlongField`).
No record line brings such a field, so on every field the bot holds the edit is exact
(`StoredSettings.NetEditIsExact`, `StoredSettings.ChanEditIsExact`).

## Model

| member | source | states |
|---|---|---|
| Glob.WildcardMatch | src/auth.rs:11-37 | the loop that goes back to the last star only returns true exactly when the text is one of the strings the pattern describes, in its declarative reading, letters in any case (`Glob.FitsExactly`): no match is lost |
| Glob.NextStar | src/auth.rs:17-21 | giving up the earlier star when a new one is met loses no match |
| Glob.Mismatch | src/auth.rs:25-29 | retrying from the last star one byte later loses no match |
| Glob.GlobOverlap | src/glob_overlap.rs:21-50 | the two-row table is true exactly when some string is described by both patterns; letters in any case; over 256 bytes it is true, never wrongly false |
| Glob.OverlapCell | src/glob_overlap.rs:34-46 | each cell of the table from its three neighbours, whatever stars and bytes meet there |
| Glob.OverlapOnBytes | src/glob_overlap.rs:1-20 | two patterns of bytes that share a string at all share one made of bytes |
| Glob.MatchesConcat | src/auth.rs:11-37 | a pattern in two parts describes exactly the texts that can be cut into two that the parts describe |
| Text.EqIcExactly | src/cstr.rs:20-22 | two texts are equal ignoring case exactly when they differ only in the case of ASCII letters |
| Glob.FitsExactly | src/auth.rs:22 | a symbol of a pattern fits its own byte, or its letter in the other case, and nothing else; `?` fits every byte |
| Glob.MatchesInAnyCase | src/auth.rs:11-37 | letters of the pattern or the text in another case change no match |
| Glob.OverlapsInAnyCase | src/glob_overlap.rs:41 | nor which patterns share a string |
| BanMasks.IsAuthorised | src/auth.rs:141-165 | authorised exactly when a trusted bot's mask fits, idents stripped of their `~`, or an active mask of an active user does |
| BanMasks.MaskOverlapsAuthorised | src/auth.rs:170-193 | nobody is reported exactly when the mask shares no string with a trusted bot's mask or an active user's, after stripping both |
| BanMasks.AllowedMembers | src/chanenf.rs:440-450 | nobody is reported exactly when no authorised member in the channel, nor the bot itself, fits the mask |
| BanMasks.BanAllowedWhy | src/chanenf.rs:452-465 | a mask is allowed exactly when it is a safe token, spares the members and is clear of the authorised masks |
| BanMasks.WidenHost | src/chanenf.rs:326-393 | the counting scans give the host described by fields: three octets, four groups, or all labels but the first |
| BanMasks.WidenV6Scan | src/chanenf.rs:332-353 | the colon count finds the first four groups, or an empty group among them and leaves the host |
| BanMasks.WidenV4Scan | src/chanenf.rs:354-373 | the dot count finds four fields of one to three digits, or leaves the host |
| BanMasks.WidenedIncludes | src/chanenf.rs:326-393 | the widened host, as a pattern, describes everything the host describes |
| BanMasks.TypeInclusion | src/chanenf.rs:395-436 | ban types are ordered by what they hit: type t takes in type t + 5, and a wider ident or host takes in a narrower |
| BanMasks.BanMaskHits | src/chanenf.rs:395-436 | every mask made hits the one it was made for; what else it hits is told by `BanTypes.MaskHitsExactly` |
| BanMasks.AutoBanMask | src/chanenf.rs:473-487 | the first usable of the configured type and 2, 0, 7, 5, and none only when no type is usable; the mask hits the offender, spares every authorised member and shares no string with an authorised mask |
| BanTypes.WidenedHits | src/chanenf.rs:326-393 | a widened host describes exactly the hosts of its network: those that begin with the four groups or three fields, or end with all labels but the first; the host alone where there is no such network |
| BanTypes.MaskHitsExactly | src/chanenf.rs:395-436 | by type number, for every hostmask: a ban mask hits it if and only if the nick is the offender's or the type is below 5, the ident is his, ends as his without its `~`, or any, and the host is his or of his network |
| BanTypes.MaskGiven | src/chanenf.rs:395-436 | every nick!user@host of visible bytes that are no mask symbols, within the sizes, has a mask of every type unless that is over 120 bytes |
| BanTypes.MaskNeeds | src/chanenf.rs:395-436 | and nobody else has one |
| BanTypes.MaskIsToken | src/chanenf.rs:452-455 | no mask made is refused as a bad token |
| Authority.AuthorisedExactly | src/auth.rs:141-165 | authorised means a trusted bot's mask, or an active mask of an active user, that describes the hostmask |
| Authority.BotTildeIgnored | src/auth.rs:99-120 | for a trusted bot a `~` before the ident of the hostmask makes no difference |
| Authority.MaskTildeIgnored | src/auth.rs:99-120 | nor one in the bot's own mask |
| BanSafety.StripMatches | src/auth.rs:99-104 | a pattern that describes a hostmask describes it still, or without its `~`, once the pattern's own `~` is dropped |
| BanSafety.HostmaskSafeExactly | src/auth.rs:170-193 | for every mask that hits a hostmask: no set of authorised masks it is clear of makes the hostmask authorised, if and only if the mask without its `~` describes the hostmask both with its `~` and without |
| BanSafety.SparesBotsExactly | src/chanenf.rs:410-435 | no trusted bot is hit, `~` or not, if and only if the offender's ident does not start with two `~` under a star type |
| BanSafety.SparesAllExactly | src/chanenf.rs:410-435 | nobody authorised is hit, bot or user, if and only if moreover the ident does not start with a `~` that the mask keeps |
| Numbers.DecRoundTrip | src/chancfg.rs:954 | a number written in decimal is the number read |
| Numbers.ParseDec | src/chancfg.rs:116-121 | every number below 10^18 is read back from its text |
| ModeLines.ReadWritten | src/chanlive.rs:293-375 | changes written with signs only where they turn are read back as the same changes, under any argument rule they respect |
| ModeLines.LineDecodes | src/sendq.rs:301-346 | so is a whole MODE line, with its channel |
| ModeLines.ItemOfLine | src/sendq.rs:246-300 | the line of a single change is recognised as that change |
| ModeLines.ItemIsValid | src/sendq.rs:246-300 | what is recognised has a known letter, an argument exactly when it needs one, and fits |
| ModeLines.PackedLineDecodes | src/sendq.rs:301-346 | a packed line decodes to exactly the consecutive changes it used up, in order, for their channel, no more than the server allows, in at most 400 bytes |
| ModeLines.MoreIsGreedy | src/sendq.rs:314-327 | packing stops only at a line that is no change, another channel, or one that does not fit |
| PackLimits.SingleIsItem | src/sendq.rs:246-300 | the line of a change is recognised exactly when the letter is known, has a word of less than 300 bytes if it wants one, and the channel name is less than 65 |
| PackLimits.PackStops | src/sendq.rs:301-346 | a packed line ends early only at a line that is no change, at one for another channel, or where 6 bytes, the channel, and 3 bytes and the argument of each change come to more than 400 |
| PackLimits.PackFits400 | src/sendq.rs:301-346 | and it has at most 400 bytes and the server's number of changes |
| SendLanes.ModesTextLength | src/sendq.rs:329-345 | one byte for each letter and one for each turn of the sign |
| LiveModes.Channel.Apply | src/chanlive.rs:293-375 | the walk over letters and arguments changes the live channel exactly as its changes do, read from left to right |
| LiveModes.Channel.ApplyOne | src/chanlive.rs:313-374 | one letter: status, list, key, limit or flag |
| LiveExact.TextStatus | src/chanlive.rs:354-367 | after any MODE text, voice and halfop of a member are each what the last change of that letter for that nick asked, or as before |
| LiveExact.TextLetters | src/chanlive.rs:293-375 | every plain letter, the key and the limit stand as the last change of them asked, or as before; a mode reply tells them anew |
| LiveExact.TextBans | src/chanlive.rs:326-337 | with room for its changes, a ban is listed exactly when the last change of it set it, or it was listed and none spoke of it |
| LiveExact.ReplyKeepsBans | src/chanlive.rs:326-337 | a mode reply changes no ban |
| LiveList.CapIs | src/chanlive.rs:247-275 | the cap is what the server says, 100 where it does not, and never over 200 |
| LiveList.BanAddMeans | src/chanlive.rs:247-275 | adding keeps the list and its order; the mask is on it afterwards exactly when it was or can be stored and there is room; the overflow mark tells when there was none; no mask twice and no more than the cap |
| LiveList.BanDelMeans | src/chanlive.rs:277-281 | lifting takes exactly the entry of that mask, up to case, and no other |
| LiveList.TextKeepsList | src/chanlive.rs:293-375 | whatever MODE text comes, the ban list keeps its cap and holds no mask twice |
| LiveModes.Channel.ReadDirs | src/chanlive.rs:488-507 | the byte table holds the last direction of each letter; any other letter refuses the text |
| LiveModes.Channel.ModeSync | src/chanlive.rs:472-593 | the lines queued and the count are those of the plan, in its order; a dry run queues none |
| LiveModes.ApplyConcat | src/chanlive.rs:293-375 | changes applied in two portions are applied as one |
| ModeSync.DefaultTable | src/state.rs:380-395 | the default mode table gives the managed letters their arguments |
| ModeSync.SyncReaches | src/chanlive.rs:528-584 | the plan, applied, makes every stored letter, key and limit hold and leaves the other letters |
| ModeSync.SyncFixpoint | src/chanlive.rs:472-593 | a second comparison finds nothing to send |
| ModeParse.ParseModes | src/chancmd.rs:82-178 | the loop over letters gives the normal form, or the first error met; which strings are accepted is told by `ModeParse.AcceptedExactly` |
| ModeParse.ScanMeans | src/chancmd.rs:92-155 | an accepted string is read as its changes from left to right, each letter once; the letters kept are their normal form |
| ModeParse.StoredMeans | src/chancmd.rs:156-178 | what is stored reads back as the request: the same direction for every letter, the same limit and key |
| ModeParse.AcceptedExactly | src/chancmd.rs:82-178 | a string is accepted if and only if it asks for something, every letter is managed and given once, key and limit are usable, no argument is left over, and +s and +p are not both asked; none is ever refused for its length |
| ModeParse.LimitOfExactly | src/chancmd.rs:136-152 | a limit is read from exactly the texts of 1 to 99999 in at most five bytes, a plus allowed |
| ModeParse.KeyOkExactly | src/chancmd.rs:64-69 | a key is 1 to 30 visible bytes without comma or bar |
| ModePipeline.PackingKeepsMeaning | src/sendq.rs:301-346 | packed or one by one, a lane of changes has the same effect on every channel |
| ModePacking.PackingExactly | src/sendq.rs:246-346 | with two changes or more to a line, packing keeps what a server reads from every lane of single changes if and only if its argument rule gives none to the letters the packer knows without, and to all or none of those it knows with one |
| ModePacking.KeyChangeMisread | src/chanlive.rs:550-564 | a change of key as the comparison writes it, misread for every old and new key by a server that takes the key only when set |
| ModePipeline.PlanServes | src/chanlive.rs:472-593 | the plan serves every accepted request on a known live picture |
| ModePipeline.PlanOptions | src/chanlive.rs:472-593 | there is a plan exactly when the stored modes can be read and, where asked for, the live ones are known; leaving the limit alone leaves out its change and nothing else |
| ModePipeline.Pipeline | src/chancmd.rs:82-178 | operator's text, stored, compared, sent packed or not, received: every letter, key and limit asked for holds, other letters and channels are as before, nothing is left to send |
| ModePipeline.TextKeepsKey | src/chanlive.rs:293-375 | whatever MODE text or mode reply comes in a line, the live key stays one that a line can carry back |
| ModePipeline.LinesKeepKeys | src/chanlive.rs:293-375 | so on every channel, over any lines of the server, as the pipeline needs it |
| ModePipeline.UnknownNeverSettles | src/chanlive.rs:525-584 | with a live picture never received, a second comparison finds nothing to send only if the first did not either |
| SendQueueRuns.PerformKeepsValid | src/sendq.rs:49-96 | every operation keeps: total is the sum of the lanes and at most 256, credit within 0..burst x interval, no two equal protection lines |
| SendQueueRuns.RunConserves | src/sendq.rs:144-216 | over any run, for each lane: what was waiting and what came equals what left, in order, and what waits; what came is told by `SendQueueAccount.RunAccounts` |
| SendQueueAccount.EnqueueMeans | src/sendq.rs:172-216 | every line enqueued is queued, or repeats one waiting in the protection lane, or is turned away because nothing gives way, or is shorter than two bytes; the return value and the count of dropped lines tell which |
| SendQueueAccount.RunAccounts | src/sendq.rs:144-216 | over any run what comes into a lane is exactly the lines enqueued for it, in order, less those turned away and those that wait already in the protection lane; the dropped count grows by those evicted and turned away |
| SendQueueAccount.CopyMeans | src/sendq.rs:180-206 | what is queued is the line, or its first 510 bytes with an end |
| SendQueueAccount.DrainSpends | src/sendq.rs:349-375 | with a link that holds a drain writes until nothing waits or the credit, a millisecond for each that passed up to the cap, is below the interval, and pays the interval for each line |
| SendQueueAccount.LimitsMean | src/sendq.rs:61-69 | limits become the nearest of 1 to 100 and 0 to 10000; credit is cut to the cap, never raised |
| SendQueueAccount.HeldWritesNothing | src/sendq.rs:205-232 | while held, lines are taken and none is written |
| SendQueueAccount.HoldsNest | src/sendq.rs:218-232 | only the last release drains, as a drain would without any hold |
| SendQueueAccount.DrainDown | src/sendq.rs:349-375 | without a link a drain that could write drops everything and leaves a full bucket |
| SendQueueAccount.DrainLoopFails | src/sendq.rs:349-375 | a link gets at most the writes it takes; the next line is lost, and everything with it when the failure closes the link |
| SendLanes.LaneByVerb | src/sendq.rs:118-140 | the lane by the first word, in any case |
| SendLanes.ChangesAreProtected | src/sendq.rs:98-140 | a line of mode changes is for the protection lane, unless it is one list letter without a mask |
| SendLanes.FetchesAsk | src/sendq.rs:98-140 | a fetch of the modes or of a list is for the last lane |
| SendQueueRuns.RunIsFair | src/sendq.rs:152-168 | over any run: no lane is written while a higher one waits, no protocol line is evicted, a protection line only when the rest lane is empty, a wire line is its queued lines |
| SendQueueRuns.RateBound | src/sendq.rs:71-96 | between clears with fixed limits at most burst + T / interval lines leave in any T ms |
| SendQueueRuns.NextMsIsExact | src/sendq.rs:86-96 | the wait told is the least after which a drain writes a line |
| ModeSending.RunKeepsMeaning | src/sendq.rs:301-375 | over any run of the queue, among any other traffic, with no protection line lost: what the server reads on the wire, then in what still waits, is what it would read in the lines queued, one by one |
| ModeSending.HeldLeavePacked | src/chanlive.rs:454-470 | held, queued and released with a good link and credit enough, the lines of a comparison leave packed as one lane, and nothing waits |
| ModeSending.LinesComeIn | src/sendq.rs:172-216 | none of them is refused, as a duplicate or for room |
| ModeSending.PlanLines | src/chanlive.rs:472-593 | the lines of a plan are all different and go to the protection lane |
| ModeSending.SentThroughQueue | src/chanlive.rs:447-470 | the pipeline through the queue, whatever the pacing and the later traffic: once the protection lane is empty, with nothing lost and nothing else queued for it, the request is served in its channel and no other channel changed |
| SendQueueObject.SendQ.Add | src/sendq.rs:172-216 | enqueueing: refusal of a duplicate, room made, the line queued, the drain that follows, as the model's step, which `SendQueueAccount.EnqueueMeans` accounts for |
| SendQueueObject.SendQ.DrainNow | src/sendq.rs:349-375 | the drain loop writes the lines of the model's drain and leaves its state |
| SendQueueObject.SendQ.Room | src/sendq.rs:152-168 | the victim is the oldest rest line, then the oldest protection line; else no room |
| SendQueueObject.SendQ.LetGo | src/sendq.rs:225-232 | the last release drains |
| SendQueueObject.SendQ.Limits | src/sendq.rs:61-69 | limits are clamped and the credit cut to the new cap |
| SendQueueObject.SendQ.Next | src/sendq.rs:86-96 | refills and tells the wait |
| SendQueueObject.Gather | src/sendq.rs:312-327 | the loop gathers exactly the changes that go into one line |
| EventLimiter.EventClean | src/hub_client.rs:1105-1118 | control bytes, DEL and bars become spaces, cut to the cap |
| EventLimiter.ChanEventLim.Emit | src/hub_client.rs:1123-1206 | the slot scan, the ring and the summary do what the model's step does, which `EventExact.ToldExactly` tells exactly |
| EventRuns.NextKeeps | src/hub_client.rs:1123-1206 | every call keeps the joint invariant of ring, slots and counts |
| EventRuns.WindowBound | src/hub_client.rs:1165-1204 | over any run no span of under 60 s holds more than 20 frames, summaries included |
| EventRuns.NeverTwice | src/hub_client.rs:1147-1178 | one key of the slots is never sent twice within 10 s, however full they were; `EventExact.SameNeverTwice` says it of the events |
| EventRuns.EvictionIsLate | src/hub_client.rs:1153-1178 | a live slot given up for another event is a minute old |
| EventRuns.HeldIsCounted | src/hub_client.rs:1170-1204 | every event held back was reported in a summary that got through or is still counted |
| EventRuns.LengthChecksNeverBite | src/hub_client.rs:1150-1183 | neither length exit is ever taken |
| EventExact.ToldExactly | src/hub_client.rs:1123-1178 | over any run an event is sent if and only if it names a channel, a known action and a target while the hub is there, none with the same three up to case went out less than 10 s ago, and the 20th last frame is absent or a minute old |
| EventExact.HeldExactly | src/hub_client.rs:1165-1172 | and held back and counted exactly when it is such an event and is not sent |
| EventExact.SameNeverTwice | src/hub_client.rs:1147-1178 | the same channel, action and target, up to case, are never sent twice within 10 s |
| EventExact.TwentyAMinute | src/hub_client.rs:1165-1204 | no span of under 60 s holds more than 20 frames |
| EventExact.FrameFields | src/hub_client.rs:1147-1163 | a frame is channel, action, target and detail between bars, the last two cleaned and cut to 120 and 160 bytes |
| EventExact.SummaryExactly | src/hub_client.rs:1180-1206 | a summary with the count follows exactly when the event got through, something is counted and the minute has room |
| FloodTracker.Track | src/chanflood.rs:66-110 | the slot scan and the window do what the model's step does |
| FloodTracker.EnoughSlots | src/chanflood.rs:66-110 | with no more hosts than slots the verdicts are those of an unbounded map |
| FloodTracker.TripsAreFloods | src/chanflood.rs:33-45 | in any run, evictions included, a trip means more than n events of that host and kind within less than s seconds |
| FloodExact.FloodIsNoticed | src/chanflood.rs:33-45 | with a slot for every host: when a host's first n + 1 events of a kind, or its first n + 1 after a gap of s seconds, come within less than s seconds, the last one trips |
| FloodExact.TripTells | src/chanflood.rs:95-110 | a trip tells whether an authorised victim was seen in the events of that host and kind since the last trip |
| FloodExact.NewcomerTakes | src/chanflood.rs:66-93 | a new host takes a free slot, or in a full table the one idle longest; no other is touched |
| IgnoreTable.BotFlood.Add | src/botflood.rs:77-113 | the sweep that expires, finds and picks a slot does what the model's step does |
| IgnoreTable.BotFlood.Find | src/botflood.rs:68-75 | a key is found exactly when an entry for it is in force |
| IgnoreTable.RunKeepsUnique | src/botflood.rs:77-113 | over any run live keys are distinct |
| IgnoreTable.AddMeans | src/botflood.rs:77-113 | an add puts its key in force for exactly its time and touches no other live entry but the one given up |
| IgnoreTable.GivenUpIsOldest | src/botflood.rs:92-106 | the entry given up is the oldest of a full live table and over a minute old |
| IgnoreTable.FullMeans | src/botflood.rs:95-103 | an add fails exactly when all entries are live, for other keys, and added within the last minute |
| IgnoreTable.NobodyIgnoredTooLong | src/botflood.rs:68-113 | nobody is ignored whom an unbounded list would not ignore |
| IgnoreExact.AddStamps | src/botflood.rs:77-113 | the entry of a key keeps the time it was first ignored without a break, and ends the ignore time after the add |
| IgnoreExact.IgnoredExactly | src/botflood.rs:68-113 | over any run with at most 64 keys a key is ignored exactly when its last add is less than the ignore time ago |
| QuietMode.QuietExactly | src/botflood.rs:59-66 | over any run the bot is quiet exactly when the table was too full to take a key less than the ignore time ago, however often it was asked in between |
| Settings.ParseSettings | src/chancfg.rs:146-196 | the token loop gives the overrides of the field; over the limit, none |
| Settings.Field.EditField | src/chancfg.rs:906-981 | the field becomes the edited text or stays as it was; the room checks on the way only cut short what the last one refuses |
| Settings.EditTokens | src/chancfg.rs:954-981 | an accepted edit keeps every other token, known or not, verbatim and in order; the new one comes last |
| Settings.EditMeans | src/chancfg.rs:906-981 | the edited field reads as exactly the value asked for, or its absence, and everything else as the tokens had it |
| Settings.EditOverwrites | src/chancfg.rs:954-981 | an edit after another of the same item is as if the first had not been; twice is once |
| Settings.EditKeepsOthers | src/chancfg.rs:146-150 | what was in force of the others stays exactly when the field was within its limit, or nothing else in it means anything |
| SettingsExact.ValueExactly | src/chancfg.rs:154-194 | a value is read from exactly the texts that stand for it: a number, or two around a colon, of one to 18 digits within the bounds, or `off` |
| SettingsExact.ReadExactly | src/chancfg.rs:146-196 | a field says of an item exactly what the last token says that gives it a value |
| SettingsExact.EditAccepts | src/chancfg.rs:906-981 | an edit is refused for its name, for its value, and for want of room exactly when it should be |
| StoredSettings.NetEditIsExact | src/chancfg.rs:341-369 | on every field of the network defaults that any lines can bring, an accepted edit sets or drops its item and leaves all else in force as it was |
| StoredSettings.ChanEditIsExact | src/chancfg.rs:270-317 | and on every field of a channel |
| Settings.TableIsWellFormed | src/chancfg.rs:46-104 | the names of this build hold neither separator, and one of them is the send queue's |
| BanCodec.ParseLine | src/chancfg.rs:472-536 | the scan back for the two last bars finds the op and the stamp |
| BanCodec.RoundTrip | src/chancfg.rs:472-551 | a valid ban record written and read back is itself, bars in its reason included, and always fits its line |
| BanCodec.ParsedIsValid | src/chancfg.rs:472-536 | whatever came in, what is read is valid, and writing it and reading that changes nothing |
| BanCodec.LineIs | src/chancfg.rs:538-551 | the line of a record, field by field |
| BanCodec.ReadsExactly | src/chancfg.rs:472-536 | what is read is exactly the texts of valid records, their numbers spelled in any way |
| BanCodec.ValidExactly | src/chancfg.rs:486-530 | and what a valid record may hold, byte by byte and size by size |
| BanTable.Table.StoreBan | src/chancfg.rs:443-469 | the table becomes the model's, and true is returned exactly when it changed |
| BanTable.Table.Slot | src/chancfg.rs:428-440 | a place past the end, or the oldest tombstone's, or none |
| BanTable.Table.Room | src/chancfg.rs:413-424 | room exactly when the live bans of the channel are under its cap |
| BanTable.Table.PurgeBans | src/chancfg.rs:555-568 | the loop that swaps the last record in removes what the model removes, and counts it |
| BanTable.StoreSound | src/chancfg.rs:443-469 | storing keeps: keys unique up to case, live bans within the caps, the table within its size |
| BanRuns.RunSound | src/chancfg.rs:413-469 | so does every run of stores and purges |
| BanRuns.PurgeIs | src/chancfg.rs:555-568 | a purge removes exactly the tombstones it should: every other record is there as often as before |
| BanRuns.StoreDrops | src/chancfg.rs:428-440 | a record that goes was beaten by one of its key, or was the oldest tombstone of a full table: never a live ban |
| BanRuns.StoreRises | src/state.rs:1062-1064 | the record of a present key changes only to a later stamp, or a tombstone of the same |
| BanRuns.RunKeepsLive | src/chancfg.rs:443-469 | a live ban no record deletes is live after any run, under its own stamp or a later one |
| BanRuns.RoomSuffices | src/chancfg.rs:413-440 | with at most 64 channels the table never refuses a ban its channel has room for |
| BanRuns.RunFromEmpty | src/chancfg.rs:413-469 | so every table reached from the empty one is sound |
| BanOrder.DropsExactly | src/chancfg.rs:428-440 | a key that is held is dropped exactly when a purge dooms its record, or a new key is stored while its record is the oldest tombstone of a full table |
| BanOrder.TombstoneGuards | src/chancfg.rs:443-469 | in any sound table and over any run, an older add is refused for its stamp after every part of the run exactly when its key is held after every part |
| BanOrder.GuardedWhileHeld | src/chancfg.rs:443-469 | if the run offers nothing for the key, an older add is refused for its stamp exactly when the deletion is still held |
| BanOrder.ReturnsUnguarded | src/chancfg.rs:443-469 | an add of a key that is not held is stored exactly when there is room, whatever its stamp |
| BanOrder.RoomExactly | src/chancfg.rs:413-469 | after a store the greater stamp and op is known of every key if and only if there was room for the record |
| BanOrder.UpToDateExactly | src/chancfg.rs:443-469 | over any sequence of records: of every key the greatest stamp and op that came is known after every part, if and only if there is room all along |
| BanOrder.BansConverge | src/chancfg.rs:443-469 | so two nodes that start alike, have room and hear the same records, in any order and with any repeats, know the same stamp and op of every key |
| BanOrder.LastPlace | src/chancfg.rs:413-424 | with one place left on a channel, the first of two new bans is kept and the second is not |
| BanOrder.CapDivides | src/chancfg.rs:413-424 | a table of 99 bans and two more where nodes disagree |
| Stamps.KeepConverges | src/state.rs:1062-1070 | keeping the greater of a total order, any order and repeats of the same records end alike |
| Stamps.LwwIsOrder | src/state.rs:1062-1064 | last writer wins, deletes first on a tie, is a strict total order of stamp and op |
| Stamps.TextIsOrder | src/state.rs:1068-1070 | stamp, then text, is a strict total order |
| Stamps.LessExactly | src/state.rs:1068-1070 | the order of texts is by the first byte that differs, a beginning before the whole |
| Replicated.NetDefaults.ApplyLine | src/chancfg.rs:341-369 | a line of network defaults is stored exactly when it is valid and beats the record there |
| Replicated.NetConverges | src/chancfg.rs:341-369 | any order and repeats of the same lines of defaults end in the same stamp, modes and settings |
| Replicated.NetIsGreatest | src/chancfg.rs:341-369 | which is one of them, or the one there before, and none would be accepted over it |
| RecordLines.NetReadsExactly | src/chancfg.rs:341-369 | a D line is a record exactly when it is modes, settings and stamp between bars, each as it may be |
| RecordLines.ChanReadsExactly | src/chancfg.rs:270-288 | a C line exactly when it is channel, modes, settings, op and stamp, perhaps with more after a bar |
| OptFlags.OptConverges | src/hub_client.rs:1710-1724 | any order, repeats and times of the same flags end in the same flags and stamp, if none with a stamp that is not positive is let in over what is there |
| OptFlags.OptExactly | src/hub_client.rs:1710-1724 | for every set of stamps and flags: all orders, repeats and times end alike if and only if none with a stamp that is not positive is let in over what is there |
| OptFlags.UnstampedOrderMatters | src/hub_client.rs:1710-1724 | an input where the order decides |
| Replicated.ChanConfig.ApplyLine | src/chancfg.rs:270-317 | a channel line is stored exactly when it is valid, is for this channel, and beats the record there or makes the channel known |
| ChanOrder.ChanKeeps | src/chancfg.rs:270-317 | for a known channel the greatest stamp and op is stored, with the contents of the first record that had it |
| ChanOrder.ChanConverges | src/state.rs:1062-1064 | so any order and repeats end in the same stamp and op |
| ChanOrder.ContentsConverge | src/chancfg.rs:270-317 | for a known channel: every order of a set of records, with any repeats, ends in the same record, contents and all, if and only if those over what is there that none of them beats are all the same |
| ChanOrder.EqualStampsKeepFirst | src/chancfg.rs:270-317 | two records of one stamp and op over an older one: each order keeps its own first |
| ChanOrder.UnknownChannel | src/chancfg.rs:289-305 | for a channel not heard of, what came before the first add is lost |
| ChanOrder.UnknownConverges | src/chancfg.rs:289-305 | every order of a set of records, with any repeats, ends in the same stamp and op if and only if none of them is an add or the greatest is one |
| ChanOrder.UnknownContents | src/chancfg.rs:289-305 | and in the same record if and only if none of them is an add, or the greatest are adds and all the same record |
| ChanOrder.LocalChangeStays | src/state.rs:1055-1058 | a local change is taken over the record it replaces and nothing older displaces it, in any order |
| Deal.Gather | src/chanenf.rs:248-305 | the bot itself and each eligible member, each id once |
| Deal.DealRank | src/chanenf.rs:269-317 | the rank is the number of eligible bots dealt before this one, turned by the job: a function of the set of ids, whatever the order of the roster |
| Deal.RanksArePermutation | src/chanenf.rs:269-317 | the ranks for a job are 0..n-1, each of exactly one bot |
| Deal.SameHolder | src/chanenf.rs:312-316 | two jobs share a holder exactly when they are equal modulo n |
| Deal.RankIs | src/chanenf.rs:312-317 | the holder is the bot dealt at the job's number modulo n, the backups those dealt after it, starting over at the end |
| Deal.EligibleExactly | src/chanenf.rs:248-290 | dealt are the bot itself and each trusted bot that is an op, another, not too old, and whose id fits |
| Deal.BeforeMeans | src/chanenf.rs:291-305 | by the hash, ties by the text of the id |
| KickRun.OneKick | src/chanenf.rs:889-975 | if every bot but one hears a kick before its own turn, at most one kick is sent if and only if that one, at every turn after its first, has heard it, or sent it less than 30 s ago and not been made to forget it; it is then the sender, when it gets a turn at all |
| KickRun.HolderKicksOnce | src/chanenf.rs:676-697 | with the ranks of the deal and backups that hear in time, a holder that is asked sends exactly one kick if and only if it stays calm in that sense |
| KickRun.AskedAgain | src/chanenf.rs:569-587 | a holder asked twice with no echo in between sends a second kick exactly when 30 s have passed or other acts pushed the first out of its memory |
| JobTable.Jobs.SubmitJob | src/chanenf.rs:898-927 | the slot scan queues the job in the first free slot unless it waits already; false exactly when it does not wait after |
| JobTable.Jobs.TickAll | src/chanenf.rs:939-975 | the scan runs the due jobs in slot order and frees those run, too old, or no longer the bot's |
| JobTable.SubmitMeans | src/chanenf.rs:898-927 | only the work submitted is touched, and it waits from its first submission on |
| JobTable.TickMeans | src/chanenf.rs:939-975 | a waiting kick is run exactly when its rank's wait is over and it is not too old, as in the run of all bots |
| JobTable.SubmitIsKickRun | src/chanenf.rs:898-927 | a backup's kick is queued as in the run of all bots, while a slot is free |
| JobTable.LookMeans | src/chanenf.rs:939-975 | for every kind of work: run exactly when the bot takes part, 1.5 s for each bot before it (and a sweep of 5 s for a limit) are over, it is at most 30 s old and still has a reason |
| Versions.Strverscmp | src/updater.rs:22-67 | the two index loops compare the longer digit run, then the first difference |
| Versions.ScanIsNumeric | src/updater.rs:74-83 | on dotted decimals without leading zeros, with or without a v, that is the order of the numbers component by component |
| Versions.VersionsOrdered | src/updater.rs:74-83 | so it is a total order of versions |
| Versions.SameVersion | src/updater.rs:85-87 | the test for the same version agrees with it |
| Versions.VMakesNoDifference | src/updater.rs:74-83 | a v before a version, small or big, makes no difference |
| Versions.NumericExactly | src/updater.rs:22-83 | for digits between dots the scan agrees with the numbers against every version if and only if there is no leading zero |
| Versions.NotTransitive | src/updater.rs:22-67 | three strings each above the next |

## Left out

- Sockets, TLS, DCC, HTTPS, processes, files, logging and every reply to a user: input and output.
- Cryptography and the hub handshake; the hash of the deal is any function from ids to numbers.
- UTF-8: texts are bytes, so cuts at a character boundary and names that are not UTF-8 are not modelled.
- Cutting of ids and keys to their buffers: they are taken to fit.
- The verdict cache of authorised members: the verdict itself is used.
- 32-bit wrap-around of the count of events held back, of bit sets and of generation counters: numbers are unbounded, live mode letters are a set.
- The second MODE reader of src/irc_parser.rs with its own argument table; upgrade gates; nick fallback.
- The tracker of commands and hosts of src/botflood.rs: its host windows are those of the flood tracker; its command windows, which warn once and trip at three times the rate, are not modelled.
- The flag that a ban still has to be pushed to a hub, and the parsing of O| lines: their records are taken as read.
- The record of recent acts: it holds 32 acts of all kinds; here one kick is remembered until it is heard, forgotten after 30 s, or pushed out by an event of the run.
- Members joining, leaving or changing nick while a kick is pending: one member, one kick.
- The sort of the standard library in the deal: any sort by the same order gives the same list.
- Replicated.NetConverges: covers the stored text and stamp; the send queue limits in force are not covered, because a record with a bad sendq value keeps those of the record before it.
- BanOrder.BansConverge: does not cover the contents of B| records, which can differ between records of one stamp; nor runs with a purge, which nodes need not hear at the same time.
- ModePipeline.Pipeline: takes a mode table that treats the eight managed letters as the default one does.
- ModePipeline.TextKeepsKey: takes it that a line of the server holds no CR or LF inside, as section 2.3 of RFC 2812 has it.
- ModeSending.SentThroughQueue: takes a queue whose protection lane is free at first and that has nine places left; `ModeSending.RunKeepsMeaning` is for every queue.
- KickRun.OneKick: takes it that all bots deal from the same ids and none of them loses its op status meanwhile.
