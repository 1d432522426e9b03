# V2bZ: a verified model of the node's own logic

V2bZ connects a panel to a proxy core. Most of it is glue, but a few parts of its own code carry
state, loops and interleavings. This project models those parts in Dafny and proves what they keep,
step by step and over whole runs. `dafny verify dfyconfig.toml` checks everything.

| part | modules |
|---|---|
| the configuration cleaner, an in-place byte scanner, and its reader | `Json5`, `JsonLexer`, `Json5Tokens`, `Json5Reader` |
| user list comparison, limiter, the periodic tick over both, whole runs, what the panel client remembers | `UserList`, `Limiter`, `LimiterLaws`, `NodeSync`, `TickLaws`, `NodeRuns`, `AliveRuns`, `PanelPolling` |
| traffic counters under concurrency, collecting, reporting, failed pushes | `Traffic`, `TrafficSlices`, `Collectors`, `TrafficCounter`, `XrayUsers`, `PanelReport`, `PushRuns` |
| links of a user, closing them all, user removal | `Links`, `Registry`, `RegistryLaws` |
| the caching reader and the pruned sniffer list | `Sniffing`, `SniffLaws` |
| the periodic task with its stop channels | `PeriodicTask` |
| DNS environment printer and parser | `DnsEnv`, `DnsLaws` |

Code that changes things step by step is modelled by methods over arrays and by classes. Each is
proved against a function of its inputs or of the old state, and the properties are lemmas about
that function. Iteration over a Go map is an arbitrary choice in every round, so results hold for
every order. The functions have laws of their own in the fields, bytes and characters they are about:
`JsonLexer` reads a text with its own notion of whitespace, brackets and line ends, and the modules
that end in `Laws` state what a check, a tick, a round of sniffing or a parse comes to without the
helpers it is made of. Panel replies, core outcomes, the clock and what arrives on a connection are
parameters.

## What was found

Properties the code does not have, with the condition under which they hold and inputs or runs that
break them:

- A closed block comment keeps the tokens of whatever follows it if and only if every star inside it is
  followed by whitespace (`Json5Tokens.HarmlessIff`), and the same condition is exact for its erasure
  (`Json5Tokens.CommentErasedIff`). A star that does not close the comment lets the next byte through
  unseen, so a comment that ends in two stars swallows the text after it
  (`Json5Tokens.RoughCommentLosesToken`); in one place or another it can still do no harm
  (`Json5Tokens.RoughCommentKeepsTokens`).
- Cleaning twice equals cleaning once if and only if no two commas in succession stand in front of a
  closing bracket (`Json5Tokens.CleanTwice`, with `Json5Tokens.StackedCommas` for the other case).
- The key of the user comparison is the uuid followed by the speed limit, without a separator, so
  uuids of different lengths can share a key. A new user can be taken for an old one and never be
  added (`UserList.ClashingKeys`); an old user can hide another old user, who is then never deleted
  (`UserList.SharedKey`). For all lists without repeated uuids, applying the comparison is right if
  and only if every new user that takes up an old key is an old user at the same speed, and every
  old user that left has a key that no later old user and no new user has
  (`UserList.CompareCorrectIff`).
- The comparison key leaves out the user id and the device limit. The limiter has what the new list
  asks for a user if and only if the user was not there at that speed, or had that very entry before
  (`NodeRuns.RefreshedIff`).
- The panel client remembers a reply when it arrives, so a list that a tick did not keep counts as "not
  modified" afterwards. While the panel does not change only the first tick whose request for the
  users goes well can bring the list up to date, and it does so if and only if the list was new to the
  client and the tick kept it (`PanelPolling.OneChanceIff`): one core call that fails once keeps a new
  user out for good (`PanelPolling.OneFailureIsForever`). A new node that could not be decoded when it
  first came is not heard of either (`PanelPolling.HeardOnceIff`). An empty list is kept only with a
  new node.
- A node with a name of its own keeps its limiter when the panel changes the node. The limiter then
  agrees with the new list if and only if that list has the old users at the old speeds
  (`NodeRuns.NamedNodeSyncIff`).
- A user whose speed changed is deleted and added again, and the panel's count of its alive addresses
  goes with it: until the next list its device limit is checked against zero
  (`UserList.ChangedReplaced`, `AliveRuns.CountsAfterTick`).
- The limiter that a changed node deletes is the one under the new tag, although the comment calls it
  the old one; the entry under the old tag stays (`NodeRuns.OldTagStays`).
- An address of the last report is admitted again for any user, even one at the device limit, because
  the table of the previous period is looked up by address alone (`NodeRuns.ReportedComesBack`).
- A rejected connection check leaves every table as it was if and only if the user had no temporary
  limit that had just expired (`NodeRuns.RejectedUnchangedIff`). The program as it stands never sets a
  temporary limit, so there every rejected check leaves the tables alone.
- Bytes of a counter are lost if and only if they are added while the collector has the counter loaded
  and the collector then clears it in the same visit (`Traffic.LostIff`, `Traffic.ConservedIff`,
  `Traffic.LateAddIsLost`); if it passes the user over instead, nothing is lost
  (`Traffic.LateAddSkipped`). With one collector nothing is billed twice (`Traffic.NoDoubleBilling`).
- Collectors hold only a read lock, so a report task that was restarted while it executed can run two
  passes at once. Some byte of a counter is billed twice if and only if two loads of the counter, not
  empty at the first and not cleared between them, were both billed (`Collectors.BilledTwiceIff`,
  `Collectors.TwoPassesBillTwice`); it never is as long as no two passes overlap
  (`Collectors.OnePassNeverTwice`).
- The counters are cleared before the push, whose outcome is only logged. Over any run of reports,
  what was counted is delivered, pending or dropped with a user if and only if no push that carried
  anything failed (`PushRuns.DeliveredIff`, `PushRuns.FailedPushLost`).
- A comment says that only users with more than 100 kB are reported as online. The code leaves out
  users whose row shows too little; a user without a row is reported
  (`PanelReport.SilentUserIsReported`).
- A sniffer that asks for more data is pruned like one that rejects, although the retry loop has a
  branch that means to wait for it: when the data comes the pruned list has no clue where the full
  list would find the protocol (`Sniffing.MoreDataComesTooLate`). Pruning changes no answer next to
  any persistent sniffer if and only if the sniffers that apply are all persistent
  (`Sniffing.PersistenceIsExact`).
- Closing and starting a task again while its callback runs keeps the old loop next to the new one
  (`PeriodicTask.RestartKeepsOldLoop`). A step leads from at most one loop that has not returned to two
  if and only if it starts a stopped task while one has not returned; that loop may be executing, or
  waiting on a closed channel and about to return (`PeriodicTask.SecondLoopIff`). A channel is closed twice, and the program panics, if and only if a
  callback fails while the task is not running (`PeriodicTask.PanicsIff`,
  `PeriodicTask.FailAfterClosePanics`). The callbacks of the node never return an error, so this
  program does not get there (`PeriodicTask.NoPanic`).
- A DNS environment map comes back from its printed form if and only if its keys are non-empty,
  trimmed and free of separators and equals signs, its values trimmed and free of separators, and the
  printed form is not read as a JSON object (`DnsEnv.RoundTripIff`, for every map, every print order
  and every decoder). A clean map that is read as JSON and lost is `DnsEnv.BraceKeyLost`; without a key
  that starts with a brace this cannot happen (`DnsEnv.NoBraceRoundTripIff`).

## Model

| member | source | states |
|---|---|---|
| Json5.Prep | common/json5/json5.go:49-93 | For every buffer the in-place scanner stays within bounds although its index passes the end by up to two, terminates, and leaves exactly the functional scan `Clean` of the original bytes. |
| Json5.ConsumeComment | common/json5/json5.go:21-47 | Blanks the comment at the slash before the index, returns where the scan stops (possibly past the end), and changes nothing before the slash; a lone slash is left alone. |
| Json5.ConsumeBlock | common/json5/json5.go:28-45 | The block loop with its skipped byte after a star that does not close equals the recursive block scan, in bytes and in stopping index. |
| Json5.ScanString | common/json5/json5.go:60-70 | Steps over a string literal, escapes included, to the index the functional scan gives; it has no licence to write. |
| Json5.ScanComma | common/json5/json5.go:73-87 | Looks past whitespace and comments, blanks those comments, and blanks the comma if and only if a closing bracket comes next. |
| Json5.CleanBlanks | common/json5/json5.go:57-91 | For every text, cleaning keeps the length and changes bytes only to spaces. |
| Json5Tokens.CommentErasedIff | common/json5/json5.go:21-47 | A closed comment leaves only whitespace and the scan stops at its end if and only if every star inside it is followed by whitespace. |
| Json5Tokens.LookAheadFinds | common/json5/json5.go:73-87 | Over any lexable rest the look-ahead after a comma passes exactly whitespace and comments, loses no token, and reports a closing bracket if and only if the next token is one. |
| Json5Tokens.CleanKeepsTokens | common/json5/json5.go:49-93 | For every text of JSON tokens, whitespace and comments with every inner star followed by whitespace, lexing the cleaned text gives the original tokens minus exactly the commas whose next token is a closing bracket; strings are kept byte for byte. |
| Json5Tokens.HarmlessIff | common/json5/json5.go:21-47 | A closed block comment in front of any lexable text leaves, after cleaning, exactly the tokens of that text without trailing commas, for all such texts if and only if every star inside it is followed by whitespace. |
| Json5Tokens.CleanKeepsPlain | common/json5/json5.go:57-91 | A text without comments and without trailing commas is returned unchanged. |
| Json5Tokens.CleanTwice | common/json5/json5.go:57-91 | Cleaning is idempotent on a text if and only if no two commas in succession stand in front of a closing bracket. |
| Json5Tokens.DropsStacked | common/json5/json5.go:73-87 | The tokens left have no trailing comma if and only if the original had no two commas in succession before a closing bracket. |
| Json5Tokens.RoughCommentLosesToken | common/json5/json5.go:35-43 | A closed comment ending in two stars followed by the number 1: the number is lost and a star remains. |
| Json5Tokens.RoughCommentKeepsTokens | common/json5/json5.go:35-43 | The same comment in front of a star keeps its tokens although it is not erased, so erasure is not necessary for keeping tokens. |
| Json5Tokens.OpenStringKept | common/json5/json5.go:60-70 | Behind a quote that is never closed nothing is changed. |
| Json5Tokens.OpenCommentBlanked | common/json5/json5.go:28-45 | A block comment without a star in it and never closed is blanked to the end of the text. |
| Json5Tokens.LoneSlashKept | common/json5/json5.go:21-47 | A slash that opens no comment stays and the scan goes on right behind it; behind a comma the look-ahead passes over it and the byte after it. |
| Json5Tokens.StackedCommas | common/json5/json5.go:73-87 | Two commas before a closing bracket: the first cleaning blanks the second comma, the next cleaning the first. |
| Json5Reader.TrimNodeReader.constructor | common/json5/json5.go:110-112 | The reader starts with nothing cleaned. |
| Json5Reader.TrimNodeReader.Read | common/json5/json5.go:98-107 | The bytes handed out followed by the rest are the rest before; the first call that can drain the source cleans it once; a failed drain hands out nothing and keeps nothing, so the next call tries again; the end is reported exactly when nothing is left. |
| Json5Reader.TrimNodeReader.ReadAll | common/json5/json5.go:98-107 | Reading to the end with buffers of any sizes gives the cleaned text of the drain, whole and in order, or the error. |
| Panel.UserTagInjective | common/format/user.go:7-9 | On one node two users have one name exactly if they have one uuid. |
| TickLaws.UserNameIff | common/format/user.go:7-9 | Across nodes, names made of uuids without a bar are the same exactly if tag and uuid are. |
| Limiter.DetermineSpeedLimit | limiter/dynamic.go:20-38 | The result is one of the two limits; zero means none; a positive result is not above either non-zero limit. |
| Limiter.Limiter.constructor | limiter/limiter.go:44-72 | A new limiter has the limits and ids of the users, in list order, and all other tables empty. |
| Limiter.Limiter.UpdateUser | limiter/limiter.go:90-113 | All five tables after the deletions and then the insertions, whatever the order of the deletions; the previous-period table stays. |
| Limiter.Limiter.CheckLimit | limiter/limiter.go:126-200 | The verdict and all tables after a check: unknown user, expiry, device count with its store and take-back, bucket reuse. |
| Limiter.Limiter.CountAddress | limiter/limiter.go:153-186 | Rejects exactly a new address of a user at the limit that is not known from the previous period; the tables after a rejection are those before it, although the address was stored and taken out in between. |
| Limiter.Limiter.ExpireUser | limiter/limiter.go:135-152 | A due expiry resets the temporary limit, or removes a user without a static one; otherwise the smaller non-zero limit is in force. |
| Limiter.Limiter.TakeBucket | limiter/limiter.go:188-199 | No bucket without a positive rate; otherwise the bucket handed out before, or a new one at the rate, kept for the next check. |
| Limiter.Limiter.GetOnlineDevice | limiter/limiter.go:202-220 | In whatever order the nested tables are ranged over while they are emptied: one entry for each (user, address) pair online, the online table empty, the previous-period table with exactly the reported addresses. |
| LimiterLaws.RejectedIff | limiter/limiter.go:126-186 | A check is rejected if and only if the user is unknown, or it is tracked, the address is neither online for the user nor remembered, and the device limit is positive and not above the panel's count; an address written as a mapped IPv6 address is the IPv4 address. |
| LimiterLaws.AddressesAfterCheck | limiter/limiter.go:153-186 | An admitted tracked check of an address that is not online puts exactly it online under the user's id, and takes it out of the remembered ones exactly if it was remembered for this id; every other check changes no address. |
| LimiterLaws.LimitsAfterCheck | limiter/limiter.go:135-152 | A check changes no limit except a temporary one whose time has passed, which goes, and with it a user without a limit of its own. |
| LimiterLaws.BucketAfterCheck | limiter/limiter.go:188-199 | An admitted check hands out the bucket that the user has, else one of a million bits a second for each unit of the smaller limit in force, kept from then on; none without a limit. |
| LimiterLaws.ReportIs | limiter/limiter.go:202-220 | A report has an entry for every id and address online together and no other, remembers exactly the addresses online, each under an id it was online with, and changes nothing else but that it empties the online table. |
| LimiterLaws.FreshIs | limiter/limiter.go:44-72 | A new limiter has an entry with id, speed and device limit of every user of the list without repeated uuids and no other; nobody is online, remembered or has a bucket. |
| LimiterLaws.UpdateIs | limiter/limiter.go:90-113 | An update gives every added user its entry, takes addresses, bucket and count from every deleted one, and entry and id unless it is added again, and leaves all others alone. |
| UserList.KeyInjective | node/user.go:65-65 | With uuids of one length the concatenated key is the same exactly for the same uuid and the same speed. |
| UserList.CompareUserList | node/user.go:62-83 | The loop over a map of positions returns the users added and, in some order and without repeated keys, the users deleted. |
| UserList.CompareCorrectIff | node/user.go:62-83 | For all lists without repeated uuids, deleting by uuid and then inserting turns the speeds of the old list into those of the new list if and only if a new user that takes up an old key is an old user at that speed, and an old user that left shares its key with no later old user and no new user. |
| UserList.AddedExact | node/user.go:69-76 | A new user is added exactly if no old user has its key, or an earlier new user has used it up. |
| UserList.DeletedExact | node/user.go:63-80 | An old user is deleted exactly if no later old user and no new user has its key. |
| UserList.NoMixupIffNoClash | node/user.go:62-83 | When neither list repeats a key the condition is that old and new users with one key agree on uuid and speed. |
| UserList.SharedKey | node/user.go:63-67 | Two old users with one key both leave, and only the later one is deleted. |
| UserList.OneLengthNoClash | node/user.go:62-83 | Uuids of one length rule out every such clash, and distinct uuids then mean distinct keys. |
| UserList.UnchangedUntouched | node/user.go:69-80 | A user with unchanged uuid and speed is never deleted, and is left alone exactly if no earlier new user has its key. |
| UserList.KeptNotAdded | node/user.go:69-76 | No user is added under a uuid exactly if the new list has it at most under a key that an old user has and no earlier new user used up. |
| UserList.ChangedReplaced | node/user.go:69-80 | A user with a changed speed is in both results exactly if its old key is nobody else's among later old and new users and its new key is no old user's or used up; always so without repeated and clashing keys. |
| UserList.ClashingKeys | node/user.go:65-70 | Two users with different uuids and speeds but one key: the new one is neither added nor is the old one deleted. |
| NodeSync.Controller.constructor | node/controller.go:63-78 | The started controller: its tag, its list, and a fresh limiter registered under the tag. |
| NodeSync.Controller.NodeInfoMonitor | node/task.go:57-235 | One tick, for every combination of panel replies and core outcomes: the new tag, list, limiter tables and registered tags, or the end of the process; the registered limiter is still the controller's own. |
| NodeSync.Controller.Reload | node/task.go:85-147 | The changed-node branch: what is already changed when the certificate fails, and where the process ends. |
| NodeSync.Controller.ReplaceLimiter | node/task.go:106-113 | An unnamed node gets a new tag and a limiter for the current list; no tag leaves the registry. |
| NodeSync.Controller.SyncUsers | node/task.go:185-229 | The limiter and the kept list change together, and only if every core call that was needed succeeded. |
| TickLaws.NodeTagIff | node/controller.go:128-130 | At one host two nodes have one tag exactly if kind and id agree. |
| TickLaws.DiesIff | node/task.go:85-147 | A tick ends the process if and only if all requests went well, the node is new, and the core refuses to delete the old node, or to add the new one whose certificate, if needed, is in place. |
| TickLaws.ListAfterTick | node/task.go:57-235 | Which user list the controller has after a tick, for every combination of replies and core outcomes. |
| TickLaws.TagAfterTick | node/task.go:105-113 | Only an unnamed node that changed gets a new tag, which is registered besides all those before. |
| TickLaws.NamedNodeKeepsLimiter | node/task.go:105-117 | A changed node with a name of its own changes nothing in its limiter except the counts of alive addresses. |
| NodeRuns.FreshInv | limiter/limiter.go:44-72 | A fresh limiter satisfies the run invariant for the list it was made from. |
| NodeRuns.StepInv | node/task.go:57-235 | Every check, report and tick, whatever fails in it, keeps the invariant. |
| NodeRuns.RunKeepsInvariant | node/task.go:57-235 | In every run of checks, reports and ticks: the limiter has exactly the users of the list with the same speeds, every cached bucket belongs to a current user at the rate of its current limit, every address online carries its user's id. |
| NodeRuns.RunFromStart | node/controller.go:63-78 | The same for every run that starts from a fresh limiter. |
| NodeRuns.BucketRate | limiter/limiter.go:188-199 | Under the invariant a bucket's rate is 125000 bytes for each unit of the smaller non-zero limit of user and node. |
| NodeRuns.KeptEntry | limiter/limiter.go:90-113 | Across a comparison and the update with it, the entry of a user that was not deleted is the same. |
| NodeRuns.RefreshedIff | limiter/limiter.go:90-113 | After the comparison and the update, the entry of a user of the new list is the one it asks for if and only if the user was not there at that speed, or had that entry before. |
| NodeRuns.DeviceLimitNotRefreshed | node/user.go:62-83 | A user sent again with the same uuid and speed keeps the old id and device limit. |
| NodeRuns.NamedNodeSyncIff | node/task.go:105-117 | After a changed node with a name of its own the limiter agrees with the new list if and only if old and new list have the same uuids at the same speeds. |
| NodeRuns.FullMeansClosed | limiter/limiter.go:153-186 | Over any run, through checks, reports and ticks: if every user is full at each tracked check of it, any address online or remembered at the end was online or remembered at the start. |
| NodeRuns.RejectedUnchangedIff | limiter/limiter.go:126-186 | A rejected check leaves all tables unchanged if and only if it met no expired temporary limit. |
| NodeRuns.OnlineIsLog | limiter/limiter.go:153-220 | In every run the online table holds exactly the (user, address) pairs admitted with tracking since the last report and not removed since. |
| NodeRuns.ReportRefinesLog | limiter/limiter.go:202-220 | A report has exactly one entry for each pair of that log, under the user's id, empties the online table and remembers exactly the addresses of the log. |
| NodeRuns.ReportedComesBack | limiter/limiter.go:153-220 | Right after a report, a check of any known user from any address in it is admitted, whatever the device limit. |
| NodeRuns.AdmissionSticks | limiter/limiter.go:153-186 | After an address was admitted for a user, every later tracked check of it is admitted until the next report or the user's removal, whatever happens in between. |
| AliveRuns.CountsAfterTick | node/task.go:57-235 | The counts of alive addresses after a tick: those that came with it, else those before, or none with a new limiter; without the ids of the users that the tick deleted. |
| AliveRuns.CountsSince | node/task.go:114-229 | In every run, until a tick brings other counts or a new limiter, the limiter has the count of an id exactly as the last list brought it, unless a tick deleted a user with the id. |
| PanelPolling.Client.GetNodeInfo | api/panel/node.go:183-213 | The reply to the node request and what is remembered: an unchanged node is "not modified", a new one is remembered even if it cannot be decoded. |
| PanelPolling.Client.GetUserList | api/panel/user.go:42-78 | The same for the user list, which is remembered once it was decoded. |
| PanelPolling.Client.Tick | node/task.go:57-84 | The requests of one tick up to the first that fails, and the tick with their replies. |
| PanelPolling.UpToDateSince | node/task.go:85-229 | While the panel does not change the controller has its list if and only if it had it from the start or some tick took it in and kept it. |
| PanelPolling.HeardOnceIff | api/panel/node.go:183-235 | While the panel does not change, a tick hears of its node if and only if the client did not know it at the start, no reply came before, and this one can be decoded. |
| PanelPolling.OneChanceIff | api/panel/user.go:57-77 | Only the first tick whose request for the users goes well can do that: afterwards the list is up to date if and only if it was from the start, or was new to the client and that tick kept it. |
| PanelPolling.NoChanceYet | api/panel/user.go:42-63 | Until a request for the users goes well neither the list nor what is remembered of it changes. |
| PanelPolling.OneFailureIsForever | node/task.go:197-211 | After one failed call to add a user no tick brings the list up to date while the panel does not change. |
| Traffic.StepKeepsBooks | core/xray/user.go:60-94 | Every atomic step of adders, collector and user changes keeps the books for every user and direction: added equals billed, dropped, lost, pending and held together. |
| Traffic.RunKeepsBooks | core/xray/user.go:60-94 | The books hold in every run from an empty start. |
| Traffic.NoDoubleBilling | core/xray/user.go:60-94 | With one collector and any number of adders, under every interleaving, billed and pending bytes never exceed the bytes added, and the difference is exactly what was dropped, is held by the collector, or came between a load and its store. |
| TrafficSlices.RunSlices | core/xray/user.go:60-94 | In every run, between passes the rows handed over sum to what was billed, for each user and direction; during a pass the difference is in the rows of its slice, one for each user billed in it, over the threshold and under the user's id. |
| TrafficSlices.PassBilled | core/xray/user.go:61-94 | Within a pass the rows of its slice sum to what was billed since it began. |
| TrafficSlices.QuietVisit | core/xray/user.go:66-87 | In every run, a user visited in a pass during which nobody added to its counter is treated as in one step: a row with both values at the begin of the pass, and a cleared counter, if and only if their sum is over the threshold and the user is known; an unknown one over it loses the counter; otherwise nothing changes. |
| Traffic.LostIff | core/xray/user.go:66-76 | In every run bytes of a counter are lost if and only if some step adds bytes to it, a later step clears it, and the collector has it loaded from the one to the other. |
| Traffic.ConservedIff | core/xray/user.go:66-76 | In every run every byte added to a counter is billed, pending, held or dropped with a removed user if and only if no such pair of steps occurs. |
| Traffic.LateAddSkipped | core/xray/user.go:69-71 | An add while the counter is loaded loses nothing when the sum loaded is not over the threshold. |
| Traffic.LateAddIsLost | core/xray/user.go:69-75 | A run of ten steps in which five of twelve bytes are neither reported nor pending. |
| Collectors.StepCounter | common/counter/traffic.go:55-74 | With any number of collectors a counter holds the bytes added and not cleared yet; only an add adds, its own number to its own counter, and only a store clears, and then all of them. |
| Collectors.RunTraced | core/xray/user.go:66-84 | In every run each bill goes back to one load of the counter, and no load is billed twice. |
| Collectors.RunPaired | core/xray/user.go:69-84 | In every run of any number of collectors bills come in pairs, upload and download of one storage, and the bytes of each pair are over the threshold. |
| Collectors.BilledTwiceIff | core/xray/user.go:60-94 | In every run of any number of collectors some byte of a counter is in two bills if and only if two loads of the counter, not empty at the first and not cleared between them, were both billed. |
| Collectors.OnePassNeverTwice | core/xray/user.go:60-94 | As long as no two passes overlap no byte is billed twice, whoever makes the passes. |
| Collectors.TwoPassesBillTwice | core/xray/user.go:60-94 | A run of two collectors that bills fourteen bytes for seven that were added. |
| TrafficCounter.TrafficCounter.GetCounter | common/counter/traffic.go:21-30 | The one storage of a user, made at zero on first use; nothing else changes. |
| TrafficCounter.TrafficCounter.Rx | common/counter/traffic.go:66-69 | Adds to the user's down counter only, as the interleaved machine's add does. |
| TrafficCounter.TrafficCounter.Tx | common/counter/traffic.go:71-74 | Adds to the user's up counter only. |
| TrafficCounter.TrafficCounter.GetUpCount | common/counter/traffic.go:32-37 | The up count, or zero without an entry. |
| TrafficCounter.TrafficCounter.GetDownCount | common/counter/traffic.go:39-44 | The down count, or zero without an entry. |
| TrafficCounter.TrafficCounter.Reset | common/counter/traffic.go:55-60 | Both counts of an existing entry become zero; no entry is made. |
| TrafficCounter.TrafficCounter.Delete | common/counter/traffic.go:62-64 | The entry goes; the storage object does not change. |
| TrafficCounter.TrafficCounter.AddThrough | common/counter/xraytraffic.go:23-25 | A connection that adds to the storage it holds changes its user's counter while the storage is in the table, and no counter once it is not. |
| TrafficCounter.DetachedAdds | common/counter/traffic.go:21-30 | After an entry was deleted and made anew, a connection with the old storage adds to no counter. |
| XrayUsers.Xray.GetUserTrafficSlice | core/xray/user.go:60-94 | In any order of the counters: a row for a user if and only if upload and download together are over the threshold and its id is not zero, with both values; counters at or below the threshold untouched; after a reset every counter left at or below it or zero; unknown users over it removed; and with reset, in each direction, the sum of all counters before equals the slice, the counters after, and what unknown users lost. |
| XrayUsers.CollectsMeans | core/xray/user.go:60-94 | Of every resetting collection: a user has a row if and only if upload and download together are over the threshold and its id is there and not zero; counters at or below the threshold stay, the others are zero or gone; no byte is lost or doubled in either direction. |
| XrayUsers.Xray.CollectUser | core/xray/user.go:66-87 | One round: the row from the values before the reset, and the counter after it. |
| XrayUsers.TotalAt | core/xray/user.go:66-87 | The sum over a table does not depend on the order of its entries, in each direction. |
| PanelReport.AggregateTraffic | api/panel/user.go:107-115 | Each user id in the slice gets exactly the sums of its rows, and the sums over all users are those of the slice. |
| PanelReport.GroupOnline | node/user.go:28-46 | A user id is in the report if and only if no row shows too little traffic for it and it has an address online; its addresses are there all, in order. |
| PanelReport.GroupMeans | node/user.go:28-46 | In rows and entries: a user id is reported if and only if every row of it has the minimum and it has an entry, and then with each address as often as its entries have it. |
| PanelReport.ReportUserTrafficTask | node/user.go:10-60 | One report with a push that the panel takes or not: the rows, what is left and what is dropped add up to the counters before; the panel gets the sums by user id exactly if there are rows and it takes the push; the tables afterwards are the same either way; an online report is made exactly if anyone was online. |
| PushRuns.HistoryBooks | node/user.go:10-23 | Over any run of adds, user changes and reports: counted is delivered, pending, dropped and what failed pushes carried, in both directions. |
| PushRuns.DeliveredIff | node/user.go:10-23 | Over any such run, counted is delivered, pending and dropped if and only if no push that carried anything failed. |
| PushRuns.PushCarries | core/xray/user.go:71-85 | With a threshold that is not negative a failed push carried something exactly if it had rows. |
| PushRuns.FailedPushLost | node/user.go:10-23 | A run of one failed push after which seven counted bytes are nowhere. |
| Links.LinkManager.AddLink | core/xray/app/dispatcher/linkmanager.go:29-33 | The writer is registered with its reader. |
| Links.LinkManager.RemoveWriter | core/xray/app/dispatcher/linkmanager.go:35-39 | The writer is not registered afterwards; nothing is closed. |
| Links.LinkManager.CloseWriter | core/xray/app/dispatcher/linkmanager.go:19-22 | The writer leaves the table and its underlying writer is closed once. |
| Links.LinkManager.CloseAll | core/xray/app/dispatcher/linkmanager.go:41-46 | Although each round deletes from the table it ranges over: every writer closed exactly once, every reader interrupted exactly once and in the same order, and the table empty. |
| Registry.Core.RegisterLink | core/xray/app/dispatcher/default.go:197-225 | An admitted dispatch registers its writer with its user's manager, made on first use, and makes the user's counter; no other manager changes; the writer keeps the manager. |
| Registry.Core.ManagerOf | core/xray/app/dispatcher/default.go:391-399 | The one manager of a user, made empty on first use. |
| Registry.Core.CloseLink | core/xray/app/dispatcher/linkmanager.go:19-22 | A connection closes its writer once, through the manager it was registered with, current or given up; no other manager changes. |
| Registry.Core.StoreUids | core/xray/user.go:99-101 | The ids after the users are stored in list order. |
| Registry.Core.DelUsers | core/xray/user.go:32-58 | All tables, the state of every manager ever made, and the result, after removing users one by one up to the first refused one; nothing without the user manager of the node. |
| Registry.Core.RemoveUser | core/xray/user.go:46-55 | One user leaves every table; through its manager each registered writer is closed once more and each reader interrupted once more. |
| Registry.RunExact | core/xray/app/dispatcher/linkmanager.go:19-46 | Over any sequence of dispatches, closes, additions and removals: a writer is registered, with its own user's manager, exactly as long as it was never closed; it was closed once for each close by its connection and once more exactly if its user was removed while it was registered, and only then its reader was interrupted, once. |
| Registry.RemovalIsComplete | core/xray/user.go:32-58 | After a removal that succeeded a removed user has no id, no counter and no registered link; every writer it ever had is closed, and one that its connection never closed was closed exactly once and its reader interrupted exactly once. |
| Registry.RefusedPartway | core/xray/user.go:40-45 | A removal that stops at a refused user is the removal of exactly the users before it, and reports failure. |
| RegistryLaws.DelIs | core/xray/user.go:32-58 | A removal takes id, counter and manager from exactly the listed users up to the first refused one and leaves every other user's alone; it succeeds if and only if nobody listed is refused. |
| RegistryLaws.IdSince | core/xray/user.go:32-101 | In every run a user has an id if and only if it was added and neither added again nor removed since, and then the one of its last mention in that list. |
| RegistryLaws.CounterSince | core/xray/app/dispatcher/default.go:197-225 | In every run a user has a counter if and only if it was dispatched and not removed since. |
| Sniffing.CachedReader.Cache | core/xray/app/dispatcher/default.go:44-59 | What arrived goes to the end of the cache and the buffer shows a prefix of the cache; a broken connection changes nothing; bytes taken equal bytes delivered and cached, in order. |
| Sniffing.CachedReader.ReadMultiBuffer | core/xray/app/dispatcher/default.go:61-90 | The next stage gets the whole cache first, then what arrives; nothing is lost, repeated or reordered. |
| Sniffing.CachedReader.Interrupt | core/xray/app/dispatcher/default.go:92-101 | The cache is dropped. |
| Sniffing.Sniffer.Sniff | core/xray/app/dispatcher/sniffer.go:58-82 | The first result in list order, else no clue with the list replaced by the undecided sniffers, else unknown with the list as it was. |
| Sniffing.Sniffer.SniffMetadata | core/xray/app/dispatcher/sniffer.go:84-109 | The same for the metadata sniffers; every other sniffer stays in the list. |
| SniffLaws.RoundIs | core/xray/app/dispatcher/sniffer.go:58-82 | A round answers with the first sniffer for payloads on the network that finds anything; no clue if and only if none does and one of them cannot tell; otherwise unknown. |
| SniffLaws.KeptIs | core/xray/app/dispatcher/sniffer.go:65-79 | After a round without a clue the list is exactly its sniffers that cannot tell yet, in order; after any other round it is the same. |
| SniffLaws.MetaRoundIs | core/xray/app/dispatcher/sniffer.go:84-109 | The same of the metadata round, where sniffers that wait for a payload count as those that cannot tell. |
| SniffLaws.MetaKeptIs | core/xray/app/dispatcher/sniffer.go:84-106 | After a metadata round without a clue the list is exactly the sniffers that wait for a payload or cannot tell yet, in order. |
| Sniffing.PrunedSniffingRefines | core/xray/app/dispatcher/sniffer.go:58-82 | Over a growing chain of payloads every round on the pruned list answers as the full list would, and the kept list is the full one, in order, without sniffers of another kind or that have rejected; provided each sniffer that applies keeps rejecting longer payloads once it has rejected. |
| Sniffing.MetadataKeepsPayloadSniffers | core/xray/app/dispatcher/sniffer.go:84-109 | The metadata round changes no later answer of the payload rounds. |
| Sniffing.PersistenceIsExact | core/xray/app/dispatcher/sniffer.go:58-82 | All sniffers of a list that apply are persistent if and only if each of them, next to any persistent sniffer, answers after pruning as without it. |
| Sniffing.MoreDataComesTooLate | core/xray/app/dispatcher/sniffer.go:65-79 | For all payloads and sniffers: one that asks for more data next to one without a clue is pruned in the first round, and the second round has no clue where the full list finds the protocol. |
| Sniffing.SniffContent | core/xray/app/dispatcher/default.go:478-512 | For all sniffers, whatever the clock: at most two reads; payloads that extend each other and are fronts of what arrived; nothing that arrived missing from the cache; which outcome and why, in every case; with persistent sniffers, results and "unknown" as the full list would answer. |
| SniffLaws.TimeoutMeans | core/xray/app/dispatcher/default.go:479-511 | Giving up means two payloads without an answer, or one after which the 200 milliseconds are over; a second read is made only within them. |
| SniffLaws.PayloadsAre | core/xray/app/dispatcher/default.go:44-59 | The first payload is the first bytes of what the first read brought, the second those of both reads together, up to the size of the buffer. |
| Sniffing.SniffConnection | core/xray/app/dispatcher/default.go:466-520 | For all sniffers: the payload outcome if the metadata gave no result, both if both gave one, the metadata result otherwise; with all that is known of the latter; with persistent sniffers the payload answer is that of the sniffers the connection started with. |
| PeriodicTask.PeriodicTask.Start | common/task/task.go:16-55 | A running task is left alone; a stopped one gets a new open channel and one more loop. |
| PeriodicTask.PeriodicTask.Close | common/task/task.go:57-64 | Closes the current channel if the task runs, which is then open; otherwise nothing. |
| PeriodicTask.PeriodicTask.ExecuteFailed | common/task/task.go:44-50 | A failing callback closes the channel, and panics exactly if the task was not running. |
| PeriodicTask.PanicsIff | common/task/task.go:16-64 | In a safe state a step closes a closed channel if and only if it is a failing callback of a task that is not running. |
| PeriodicTask.FailAfterClosePanics | common/task/task.go:26-35 | Start, close, and a callback that then fails: the channel is closed a second time. |
| PeriodicTask.RunSafe | common/task/task.go:16-64 | In every interleaving of callers and loops, restarts from inside a callback included: all earlier channels are closed, the current one is open exactly while the task runs, and loops wait only on channels that were made. |
| PeriodicTask.NoPanic | common/task/task.go:16-64 | With callbacks that return no error no reachable step panics. |
| PeriodicTask.ClosedForGood | common/task/task.go:37-42 | After a close with no later start every loop waits, now and from then on, only on closed channels, so each can return. |
| PeriodicTask.LoopLives | common/task/task.go:16-55 | In every run each loop was made by a start of a stopped task; it executes before its first tick only if that start asked for it, and it has returned if and only if it was stopped or its callback failed. |
| PeriodicTask.StoppedOnClosed | common/task/task.go:37-42 | In every run a loop is stopped only on a channel that a close, or a callback that failed, has closed while the task ran on it. |
| PeriodicTask.RestartKeepsOldLoop | node/task.go:161-166 | Close and start from inside a callback leave two loops waiting on one open channel. |
| PeriodicTask.SecondLoopIff | common/task/task.go:16-64 | A step leaves more than one live loop if and only if it starts a stopped task whose loop has not returned. |
| DnsEnv.MapDNSEnv | api/panel/node.go:573-589 | The first of the given keys that is present is printed: an object as pairs of its fields in some order, blank keys left out; texts and JSON trimmed, flags as 1 and 0, numbers as they are; nothing or null as nothing. |
| DnsEnv.MapValue | api/panel/node.go:446-453 | The value of the first key that is present, if any is. |
| DnsEnv.PrintFields | api/panel/node.go:578-587 | The pairs with trimmed non-blank keys, joined by commas, in some order of the keys. |
| DnsLaws.PrintedItems | api/panel/node.go:578-586 | There is one item for each key that is not blank: the key without its outer spaces, an equals sign, and the value as it is. |
| DnsLaws.JoinMore | api/panel/node.go:587-587 | Each further item stands after a comma. |
| DnsLaws.TextsAre | api/panel/node.go:582-583 | How a field of each kind is printed into its item. |
| DnsEnv.ParseDNSEnv | api/panel/node.go:676-708 | The plain form is read piece by piece, later pieces winning; a text that starts with a brace once trimmed and decodes gives the decoded pairs with trimmed, non-blank keys and untouched values; a braced text that does not decode is read as plain. |
| DnsLaws.ParseIff | api/panel/node.go:694-706 | For every text: a key is read if and only if it is not empty and some piece has it, trimmed, before its first equals sign; its value is the trimmed rest of the last such piece. |
| DnsLaws.TrimSpaceIff | api/panel/node.go:678-705 | The trimmed text is exactly what is left between the white space at both ends, for the code points that Go counts as white space. |
| DnsLaws.FieldsWhole | api/panel/node.go:694-696 | A text without separators is one piece, or none if it is empty. |
| DnsEnv.FieldsSplit | api/panel/node.go:694-696 | A comma, line feed or carriage return splits the text wherever it stands: the pieces are those of both sides, and an empty side gives none. |
| DnsEnv.ParseClean | api/panel/node.go:694-706 | Whatever the text, the plain form gives trimmed non-empty keys without separators or equals signs and trimmed values without separators. |
| DnsEnv.PlainRoundTripIff | api/panel/node.go:694-706 | The plain form alone gives a printed map back if and only if its keys and values are clean. |
| DnsEnv.JsonBranchLoses | api/panel/node.go:682-692 | A map whose printed form is read as a JSON object never comes back: the text is too short to hold it. |
| DnsEnv.RoundTripIff | api/panel/node.go:573-708 | For every map, every print order and every JSON decoder, what the parser may return is the map if and only if keys and values are clean and the printed form is not read as a JSON object; values may contain equals signs. |
| DnsEnv.NoBraceRoundTripIff | api/panel/node.go:573-708 | Without a key that starts with a brace, if and only if keys and values are clean. |
| DnsEnv.PrintedPlain | api/panel/node.go:682-693 | If no key starts with a brace the printed form never takes the JSON branch. |
| DnsEnv.PrintAndParse | api/panel/node.go:573-708 | Printer and parser together, for every map: it comes back if and only if it is clean and its printed form is not read as a JSON object. |
| DnsEnv.BraceKeyLost | api/panel/node.go:682-692 | A clean map whose only key starts with a brace prints as a JSON object with a different key, and is lost. |

## Left out

- HTTP, ETags, msgpack and JSON decoding of panel replies; the replies are arbitrary inputs, and the
  JSON decoder of the DNS environment is a parameter.
- Certificates, ACME, file handling, and the inbound and outbound configuration of the proxy cores.
- The counters of the sing and hysteria2 cores, near copies of the xray collector, and
  `ConnCounter.Read` and `ConnCounter.Write`, which store instead of adding and so do not conserve.
- Races between whole limiter calls, between `CloseAll` and a registration, and the first use of a
  per-tag counter or a per-user link manager: each call is one step.
- Dynamic speed limits: their task is built but never started. The expiry branch of the check is
  modelled; runs start without temporary limits.
- Domain and protocol rules, the rate limiting of writers, splicing, fake DNS, destination override
  and routing after sniffing.
- Token buckets are their rate; waiting and refilling are not modelled. Time is a number passed in.
- Task intervals and the restart of tasks inside the tick (which sets the report interval from the
  pull interval, node/task.go:167-172); `RestartKeepsOldLoop` shows what such a restart does.
- Integer widths: counters, limits and rates are unbounded integers.
- NodeRuns.RunKeepsInvariant: assumes lists without repeated uuids and uuids of one length, and no
  change of a node that has a name; `CompareCorrectIff` and `NamedNodeSyncIff` give the exact conditions.
- NodeRuns.FullMeansClosed: speaks of addresses online or remembered, whoever has them, since the code
  accepts an address remembered for any user.
- NodeSync.Controller.NodeInfoMonitor: the alive table is a value here; in the program the limiter shares
  it with the panel client until the next tick, and a deleted user leaves both.
- NodeSync.Controller.Reload: rules, traffic records of dynamic limits and the options of the node are not part of the state.
- Traffic.NoDoubleBilling: one collector, which always resets, as the report task does. For several collectors
  `Collectors` treats bills byte by byte, not the amounts lost. A read without reset is covered for a
  quiet table by `GetUserTrafficSlice`.
- Collectors.BilledTwiceIff: a pass may visit a user more than once here, which the source's range does not.
- PanelPolling.OneChanceIff: the panel honours entity tags, and different replies have different tags and
  hashes; the first replies, before the controller runs, are part of the start state.
- Registry.RunExact: the tables are those of one inbound tag; users of different tags have different names.
- Limiter.Limiter.CheckLimit: the transport flag that the source passes and never uses is left out.
- Json5Reader.TrimNodeReader.Read: a buffer of length zero at the end reports the end, as the byte reader it delegates to does.
- Json5Tokens.CleanKeepsTokens: for a whole text the condition on its comments is sufficient only; `HarmlessIff`
  is exact for a comment in all contexts. Numbers and literal names are maximal runs of other bytes;
  whether a run is a valid number is not checked.
- DnsEnv.RoundTripIff: the JSON decoder is any function whose maps fit into the text they were read
  from; JSON itself is not modelled.
- DnsEnv.MapDNSEnv: a number comes with its decimal form, a list or an object with its JSON text, which
  the Go libraries produce.
- PushRuns.DeliveredIff: counters are quiet while a report collects; `Traffic.ConservedIff` treats adds
  that interfere.
