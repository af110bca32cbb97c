# SorceryNet services: a verified model

IRC services keep one in-memory state (users online, channels, registrations, memos, clone counts) that server
messages and user commands change step by step, and a few codecs and tokenisers that carry it to and from sockets and
files. This project models the parts of `services/` where an invariant spans several functions or a text has to survive
being written and read, and proves what they keep over whole runs.

Each module pairs the code's own form with a specification. A class or method follows the C function branch by branch
(the fields it reassigns, the loops and buffers it walks) and is proved equal to a function of the old state; lemmas then
prove what that function is for, over every input and every sequence of events. Where a promise fails for some inputs the
lemma names the exact condition.

| module | part of the services |
|---|---|
| `Text`, `Hash` | case folding, decimal output and atoi; the 16-bit name hash |
| `ListMacros`, `IdBuckets` | the intrusive list macros of queue.h on a real heap, with an address-of-previous-next link; the buckets that find a registration by its id |
| `RegIds` | registration ids, the counter that gives them out and their form in the database |
| `HashedList` | the doubly linked lists of chanserv.c that are threaded again through hash chains, on a real heap |
| `Membership` | who is on which channel: member lists against the ten slots of a user record |
| `ChannelLists` | what a JOIN, PART or KICK of a list of channels comes to, told from its names |
| `RegAgreement` | the `reg` pointer of online channels against the registry |
| `Clones` | clone counts, alerts and the list of users online |
| `CloneLimits` | who is refused and which alerts are pending, told from the number of people online |
| `MemoServ` | memo boxes, sent lists and dropped registrations |
| `MemoOutcomes` | what the memo commands do, told from box and argument |
| `ChanAccess`, `OpEdits` | access levels, and edits of a channel's op list by users at those levels |
| `AccessOutcomes` | who gets which level, told from the fields of user, registration and channel |
| `Identification` | how a user comes to be identified to a registration |
| `OpOutcomes` | what edits of an op list come to when they succeed, and when they do |
| `ModeLock` | printing and parsing of mode locks |
| `ModeMentions` | what a mode lock string means, read from its end |
| `Enforcer`, `Flood` | the nick enforcement countdown; flood levels, warnings and kills |
| `BreakLine` | reassembly of lines from socket chunks and their split into words |
| `ParseArgs`, `NewsFile`, `NickRecord`, `TriggerFile`, `Base64` | the in-place tokeniser; the news, nick and trigger databases; RFC 4648 Base64 |

A C string is a `string` without NUL. A pointer that only identifies a record is a number or the lower-cased name that
finds it; hash chains are real pointers in `HashedList` and `IdBuckets`, which prove that a lookup through them is a scan
of the whole list, and other modules look up by scan or by map. `match`, `genHostMask`, clone rules, the answers of checks
on a user and the clock are parameters.

Findings about the code, each with the lemma that gives its exact condition and the one that gives an input:

- An empty chunk makes breakLine drop the line it carries (`BreakLine.StreamRefinement`, `BreakLine.DropExample`), and a
  chunk that starts with a terminator hands parseLine an empty line (`BreakLine.BreakFits`).
- A news line of 122 characters or more is never reloaded as it was (`NewsFile.NewsReloadIff`). Without a tilde it stops
  services at the next start (`NewsFile.LongLineShutsDown`, `NewsFile.LongLineExample`); with one it can load cut short,
  as 123 characters with a tilde at the sixth come back as the five before it (`NewsFile.TildedLineExample`).
- An empty user name is reloaded as a dot, a negative time as the largest, and a password kept as text loses what
  follows an escape character and has its blanks and newlines changed (`NickRecord.NickReloadIff`,
  `NickRecord.EmptyUserExample`, `NickRecord.NegativeTimeExample`, `NickRecord.EscapeExample`).
- Mode locks 0 and MM_I alone print as "(none)", which reads back as +n (`ModeLock.PrintParseIff`,
  `ModeLock.NoneSetsN`).
- The ten-second timer on a banished nick never enforces anything: strtok passes over the empty host of its string
  (`Enforcer.BanishedTimerNeverEnforces`).
- A JOIN by someone already on the channel, or with all slots taken, puts lists and slots out of step
  (`Membership.JoinKeepsIff`, `Membership.JoinTwiceExample`).
- remUserFromChan writes its terminator behind the buffer for a name of 33 characters or more
  (`Membership.Network.RemUserFromChan`, `Membership.PartOverrunExample`).
- A forwarded memo keeps the wrong recipient, and a forward to a registration that has been dropped is followed into
  freed memory (`MemoServ.SendKeepsIff`, `MemoServ.ForwardExample`).
- An override registration of an offline channel that is registered goes on with a freed record
  (`RegAgreement.RegisterKeepsIff`, `RegAgreement.RegisterTwiceExample`); so does banishing a name that is too long twice
  (`RegAgreement.BanishKeepsIff`, `RegAgreement.BanishTwiceExample`).
- Clone rule messages with blanks at an end, a leading colon or no text change on reload
  (`TriggerFile.TriggersReloadIff`, `TriggerFile.ColonExample`).
- fromBase64 reads behind its 255-entry table for the octet 255 (`Base64.InTableIff`, `Base64.FromBase64`), as for a
  digest of three such octets in nickserv.db (`NickRecord.OverreadExample`).
- operator> of registration ids compares the one high half with the other low half, so addRegNick does not keep its id
  buckets sorted (`IdBuckets.WalkKeepsIff`): the 1001st registration is put before the first
  (`IdBuckets.WalkExample`). Lookups do not depend on the order (`IdBuckets.IdTable.Get`).
- Reloading an id with low half 65535 can wrap the id counter without a carry (`RegIds.DirectKeepsIff`), and ids are
  then given out twice (`RegIds.OverrunExample`).
- The name that getMiscChanOp copies out is that of the entry it looked at last, which need not be the one that gives
  the level (`ChanAccess.NameIsHighestIff`, `ChanAccess.TwoNicksExample`).
- DELETE NEW also marks memos that have been read, though its reply speaks of unread ones
  (`MemoOutcomes.DeleteNewIff`, `MemoOutcomes.DeleteNewExample`).
- A host keeps the flag that an alert was raised when delClone drops the alert, so it gets no other
  (`CloneLimits.HostAlertIff`, `CloneLimits.MissedAlertExample`).
- A nick change in case alone keeps the level of identification without a look at the registration, which may have been
  dropped and entered anew meanwhile (`Identification.IdentificationHolds`, `Identification.CaseChangeExample`).

## Model

| member | source | states |
|---|---|---|
| Text.AtoiPrintInt | services/db.c:207 | what %i prints, atoi reads back, for every integer |
| Text.SameNameIsLower | services/clone.c:752-782 | strcasecmp equality is equality of the lower-cased names |
| Hash.GetHashKey | services/hash.c:69-89 | the loop computes the rotate-and-xor fold of the lower-cased octets from 0x5555 |
| Hash.SameNameSameBucket | services/hash.c:69-89 | names that strcasecmp calls equal have one hash and fall in one bucket of a table of any size |
| ListMacros.Store | services/queue.h:137-142 | a write through le_prev changes exactly the pointer whose address it holds |
| ListMacros.InsertHead | services/queue.h:130-135 | the list gains the element at its head; every next link and every back link (the address of the pointer that reaches the node) is right again |
| ListMacros.InsertAfter | services/queue.h:115-121 | the same, with the element behind a listed one |
| ListMacros.InsertBefore | services/queue.h:123-128 | the same, with the element before a listed one |
| ListMacros.Remove | services/queue.h:137-142 | the list loses exactly that element and stays linked both ways |
| ListMacros.ListUnique | services/queue.h:94-98 | a head holds one list: two sequences that fit its links are equal |
| ListMacros.MinusAt | services/queue.h:137-142 | removal by element and removal at its position agree on a list without repeats |
| IdBuckets.AscendingAtRank | services/nickserv.c:1274-1296 | where a bucket ascending by id would have to take a new node: at the number of listed ids below it the bucket stays ascending |
| IdBuckets.AscendingOnlyAtRank | services/nickserv.c:1274-1296 | and with distinct ids at no other place |
| IdBuckets.WalkKeepsIff | services/nickserv.c:1274-1296 | the walk with struct.h's operator> keeps an ascending bucket ascending exactly if it tells every listed id with the same high half apart as the order of low halves does |
| IdBuckets.WalkExample | services/nickserv.c:1274-1296 | ids (0,1001) and (0,2001) share a bucket, and the later one goes in front |
| IdBuckets.LowIdsAtHead | services/struct.h:123-127 | an id with high half 0 goes to the head of its bucket, whatever is in it |
| IdBuckets.HeadDescends | services/nickserv.c:1274-1296 | so ids given in order leave the bucket with the newest first |
| IdBuckets.AddIdMap | services/nickserv.c:1269-1296 | on any bucket: the new map node goes exactly where the walk stops, once, and all links are right |
| IdBuckets.RemoveAscending | services/nickserv.c:1340-1346 | removing a node from a bucket that is ascending leaves it so |
| IdBuckets.RemoveDescending | services/nickserv.c:1340-1346 | and from one that has the newest first |
| IdBuckets.GetIdMap | services/stuff.c:883-901 | the lookup returns the node with that id if the bucket has one, else NULL |
| IdBuckets.DelIdMap | services/nickserv.c:1340-1346 | on any bucket: the first node with that id leaves it if there is one, and all links are right |
| IdBuckets.IdTable.constructor | services/hash.c:56 | a table of IDHASHSIZE empty heads is valid |
| IdBuckets.IdTable.Add | services/nickserv.c:1269-1296 | in the whole table: exactly that node is added, where the walk of its bucket stops; every bucket stays a list of the nodes that hash to it, and fresh ids stay unique |
| IdBuckets.IdTable.Get | services/stuff.c:883-901 | in the whole table: a node with the id is found exactly if one is there |
| IdBuckets.IdTable.Del | services/nickserv.c:1338-1346 | in the whole table: one node with the id goes, if there is one, and nothing else; with unique ids none is left |
| RegIds.DirectKeepsIff | services/stuff.c:818-834 | setting an id from the database leaves the counter above every id given exactly if the counter does not wrap |
| RegIds.NewIdsAreFresh | services/stuff.c:797-834 | over every run of new and reloaded registrations without a wrap, a new one gets an id that no registration before it had |
| RegIds.OverrunExample | services/stuff.c:818-834 | after reloading (0,1001) and (0,65535) the 1002nd new registration is (0,1001) again |
| RegIds.IdCounter.SetNext | services/stuff.c:797-815 | the id given is the counter, which goes on to the next id, or services shut down after the last |
| RegIds.IdCounter.SetDirect | services/stuff.c:818-834 | the id given is the one asked for, and the counter in its two 16-bit halves is as specified |
| RegIds.ScanPrintId | services/db.c:207 | what %X*%X prints, sscanf reads back (services/db.c:375-376), for every id |
| HashedList.SameKeySameBucket | services/hash.c:69-89 | equal keys (names ignoring case, op ids, member records) share a bucket |
| HashedList.ChainAppend | services/chanserv.c:322-336 | appending to the main list appends to the chain of its bucket and to no other |
| HashedList.ChainMinus | services/chanserv.c:547-574 | removing from the main list removes from the chain of its bucket and from no other |
| HashedList.ChainScan | services/chanserv.c:835-886 | scanning the chain of the key's bucket finds what scanning the whole list finds |
| HashedList.Table.constructor | services/chanserv.c:308-337 | an empty table is valid: no list, every chain empty |
| HashedList.Table.Append | services/chanserv.c:394-425 | the record goes to the end of the list and of its chain; all four links of every record stay right |
| HashedList.Table.Unlink | services/chanserv.c:542-577 | exactly that record leaves the list and its chain, with the tail pointers moved where it was last |
| HashedList.Table.Lookup | services/chanserv.c:835-886 | the lookup through the hash chain returns what a scan of the whole list returns |
| HashedList.Table.Add | services/chanserv.c:308-378 | a record is listed exactly if no listed one has its name; otherwise the table is unchanged |
| HashedList.Table.IndexItems | services/chanserv.c:1263-1271 | the items are numbered 1 to n in list order |
| HashedList.OpList.AddChanOp | services/chanserv.c:499-530 | the op is appended, ops stays the length of the list and indexes stay 1 to n |
| HashedList.OpList.DelChanOp | services/chanserv.c:791-825 | exactly the op leaves, ops stays the length of the list and indexes are 1 to n again |
| Membership.AddedIsValid | services/chanserv.c:394-425 | adding a user who is not on the channel, in a free slot, keeps lists and slots in step and changes one membership |
| Membership.DeletedIsValid | services/chanserv.c:673-721 | delChanUser keeps lists and slots in step, ends that one membership and delists an empty channel |
| Membership.PartTextIsValid | services/chanserv.c:1970-2041 | a PART or KICK of any list of names keeps lists and slots in step |
| Membership.PartAllIsValid | services/chanserv.c:2048-2073 | remFromAllChans empties every slot, ends all of the user's memberships and nobody else's |
| Membership.JoinKicked | services/chanserv.c:1726-1817 | someone who joins and is kicked at once leaves the state as it was |
| Membership.JoinStays | services/chanserv.c:1690-1709 | someone who joins and is not kicked keeps lists and slots in step; who stays is listed once and noted in one slot, and no other membership changes |
| Membership.JoinKeepsIff | services/chanserv.c:1688-1958 | for every name: a JOIN keeps lists and slots in step exactly if the user is not on the channel and has a free slot or is not let stay; addChan's duplicate path is never reached |
| Membership.JoinTextKeepsIff | services/chanserv.c:1645-1961 | a JOIN of a list keeps the lists in step, name by name, exactly if each name it joins fits in the state then reached; 0, +, names that are too long and empty names are taken as the loop takes them |
| Membership.MoveAllIsValid | services/chanserv.c:2081-2107 | moving slot by slot hands every membership of the old record to the new one with its op flags |
| Membership.NickKeepsMemberships | services/chanserv.c:2081-2107 | a nick change keeps each membership and its op flags, and touches nobody else |
| Membership.KickAllIsValid | services/chanserv.c:2974-2979 | a mass kick empties the channel, which is delisted, and changes no other membership |
| Membership.StepKeepsIff | services/chanserv.c:1645-2107 | each event keeps lists and slots in step, a JOIN exactly under the condition of JoinTextKeepsIff |
| Membership.MembershipHolds | services/chanserv.c:1645-2107 | a run of connections, JOINs, PARTs, kicks, QUITs, NICKs and mass kicks keeps it throughout exactly if it has no double JOIN and a free slot for each that stays: on a member list exactly if in exactly one slot, never twice, and every listed channel has a member |
| Membership.MembershipFromStart | services/chanserv.c:1645-2107 | the same from an empty network |
| Membership.JoinTwiceExample | services/chanserv.c:1688-1958 | a second JOIN of #a puts lists and slots out of step |
| Membership.PartOverrunExample | services/chanserv.c:1979-1994 | a PART of a name of 33 characters writes behind the buffer |
| Membership.Network.GetChanUserData | services/chanserv.c:923-942 | finds the first entry of the record, or none |
| Membership.Network.TakeSlot | services/chanserv.c:1704-1709 | the first free slot gets the channel; with none free nothing changes |
| Membership.Network.DelChanUser | services/chanserv.c:673-721 | the new state is exactly that without the entry, its slots and an empty channel |
| Membership.Network.ReadName | services/chanserv.c:1661-1669 | the loop reads up to the comma; the buffer gets the name if it fits and no write of the loop is outside |
| Membership.Network.RemUserFromChan | services/chanserv.c:1970-2041 | parsing the list character by character parts exactly the names it holds, stopping at the first the user is not on; every terminator is inside the buffer exactly if no name it comes to has 33 characters or more |
| Membership.Network.RemFromAllChans | services/chanserv.c:2048-2073 | the loop over the slots makes exactly the specified state |
| Membership.Network.JoinChan | services/chanserv.c:1688-1958 | one name of a JOIN, whatever it is, on a new or an existing channel, with its four outcomes |
| Membership.Network.AddUserToChan | services/chanserv.c:1645-1961 | the whole list makes the specified state, up to the first kick, with the checks on a name made anew each time it comes up; lists and slots stay in step if they were and each name joined fits |
| Membership.Network.MassKick | services/chanserv.c:2974-2979 | the loop over the members makes exactly the specified state |
| Membership.Network.ChangeNickOnAllChans | services/chanserv.c:2081-2107 | the loop over the slots makes exactly the specified state |
| ChannelLists.JoinTextOps | services/chanserv.c:1645-1961 | told from the list cut at its commas: after a JOIN of any list each channel has the user with the flags answered, or not, as the names read up to the first kick make it (0 empties, + and empty names pass, a name that is too long ends it), and every other membership is as before |
| ChannelLists.JoinListJoins | services/chanserv.c:1645-1961 | a JOIN of different channels that the user is on none of, with a slot for each and no kick: one membership more on exactly these, with the flags answered, and nothing else changes |
| ChannelLists.PartTextOff | services/chanserv.c:1970-2041 | after a PART or KICK of any list the user is off each channel named up to the first it was not on, and every other membership is as before |
| ChannelLists.PartListParts | services/chanserv.c:1970-2041 | a PART of different channels the user is on ends exactly these memberships and changes no flags |
| RegAgreement.RegisterKeepsIff | services/chanserv.c:3361-3488 | registering keeps every reg equal to the registry lookup, and no freed record in use, exactly if it is not an override registration of an offline registered channel |
| RegAgreement.BanishKeepsIff | services/chanserv.c:4799-4824 | banishing keeps it exactly if the name cut to CHANLEN meets no other; always for names that fit |
| RegAgreement.RegisterTwiceExample | services/chanserv.c:3361-3488 | two override registrations of an offline channel go on with a freed record |
| RegAgreement.BanishTwiceExample | services/chanserv.c:4799-4824 | so do two banishes of a name of 33 characters |
| RegAgreement.StepAgreesIff | services/chanserv.c:592-634 | each event keeps it: join, close, drop, delete, expire, lookup always, register and banish exactly under their conditions |
| RegAgreement.RegistryAgrees | services/chanserv.c:5409-5414 | a run keeps each online channel's reg equal to the registry lookup of its name throughout exactly if no override registers an offline channel again and no banished name, cut to fit, meets another; and then cs_set's sanity check never fires |
| RegAgreement.RegistryAgreesFromStart | services/chanserv.c:5409-5414 | the same from empty tables |
| RegAgreement.SurvivesIff | services/chanserv.c:2568-2588 | a registration survives a run, expiries included, exactly if it is not dropped and no expiry finds it unused for fifteen days while neither held nor banished |
| RegAgreement.DropUndoesRegister | services/chanserv.c:3377-3488 | registering gives a free name a record of its own exactly if the sender is opped in its channel or overrides; dropping it puts tables and channel back as they were |
| RegAgreement.BanishTakesEffect | services/chanserv.c:4799-4824 | a name that fits is banished afterwards, on the record it had if it had one, its channel knows, and no other name is touched |
| RegAgreement.OnlineIff | services/chanserv.c:592-634 | a channel is online exactly if it was opened and not closed since, whatever becomes of registrations |
| RegAgreement.ChanServ.Create | services/chanserv.c:1690-1715 | a channel coming online gets the registry's record |
| RegAgreement.ChanServ.Register | services/chanserv.c:3377-3488 | the command's branches make the specified state, which agrees exactly under the condition of RegisterKeepsIff |
| RegAgreement.ChanServ.Banish | services/chanserv.c:4799-4824 | the same for banishing and BanishKeepsIff |
| RegAgreement.ChanServ.Drop | services/chanserv.c:4575-4586 | the online channel is told before the record goes |
| RegAgreement.ChanServ.Expire | services/chanserv.c:2568-2588 | the pass removes exactly the stale, unheld, unbanished registrations and clears their channels' reg |
| RegAgreement.ChanServ.SetCheck | services/chanserv.c:5409-5414 | the warning is never given |
| Clones.DelCloneCounts | services/clone.c:663-728 | delClone takes one from the count of that user and host if it has any, and from no other; sums, lists and alerts stay right |
| Clones.AddCloneCounts | services/clone.c:486-605 | addClone adds one to the count of that user and host and to no other; where it returns 1 every count is as before |
| Clones.WatchedCounts | services/clone.c:530-604 | the trigger stage keeps a client counted unless it kills it |
| Clones.RaiseAlertNames | services/clone.c:568-590 | raising an alert leaves one alert per host |
| Clones.RemovedConserves | services/nickserv.c:1183-1205 | remUser keeps counts equal to the records online |
| Clones.RenamedConserves | services/nickserv.c:632-673 | a nick change keeps user and host, so all counts |
| Clones.CountsConserved | services/nickserv.c:452-733 | in every run the count of each user and host is the number of records online with them, each host's count the sum of its users', nothing at zero stays listed, and each alert names a listed host of its own |
| Clones.ConservedFromStart | services/nickserv.c:452-733 | the same from a network without users |
| Clones.HostCountsAreOnline | services/clone.c:486-746 | a host is listed exactly if someone online is on it, with their number as its count |
| Clones.Services.AddUserClone | services/clone.c:614-656 | the user's record is raised or created at the end, with its trigger and the host's inherited ones |
| Clones.Services.AddClone | services/clone.c:486-605 | the branches of addClone make the specified table |
| Clones.Services.Watch | services/clone.c:530-604 | ignore, kill, and the two alerts |
| Clones.Services.DelClone | services/clone.c:663-746 | the branches of delClone make the specified table |
| Clones.Services.AddNewUser | services/nickserv.c:583-587 | a user whose clone is killed is not added; counts stay conserved |
| Clones.Services.RemUser | services/nickserv.c:1183-1205 | the first record of that nick goes with its clone; counts stay conserved |
| Clones.Services.ChangeNick | services/nickserv.c:613-689 | the renamed record replaces the old one and may be removed at once; counts stay conserved |
| CloneLimits.SignOnDecides | services/clone.c:530-544 | a sign-on is refused exactly if the host has the kill flag and not the ignore flag, and the people then online on the host, or with that user and host, reach a trigger; else the newcomer is online |
| CloneLimits.SignOnAlerts | services/clone.c:546-604 | a sign-on that is not refused leaves an alert pending for each trigger it reaches that was not alerted to before, and on an ignored host none that was not there |
| CloneLimits.KillRuleHolds | services/clone.c:530-544 | in every run during which a host is under a kill rule, fewer people than its trigger are ever online on it, and fewer than the user trigger with one user |
| CloneLimits.KillRuleHoldsFromStart | services/clone.c:530-544 | the same from a network without users |
| CloneLimits.SignOffAlerts | services/clone.c:663-746 | the alert of a host goes with its last client, and with one that leaves host and user below their triggers more than half a minute after the alert; the flag that it was raised stays |
| CloneLimits.HostAlertIff | services/clone.c:560-604 | after a sign-on that brings a watched host, but not its user, to the trigger an alert is pending exactly if one was or the host is not flagged yet |
| CloneLimits.MissedAlertExample | services/clone.c:688-746 | two people on a host with trigger 2, of whom one leaves and comes back |
| CloneLimits.StepPeople | services/nickserv.c:583-689 | a quit takes exactly the record of that nick off the list, a nick change exactly renames it, and a sign-on adds exactly the newcomer or nobody |
| MemoServ.OnOneSentList | services/memoserv.c:623-624 | a memo is on at most one sent list |
| MemoServ.UnlinkedIsValid | services/memoserv.c:188-193 | reading or deleting a memo takes it off its sent list and keeps ownership |
| MemoServ.ErasedIsValid | services/memoserv.c:956-962 | delMemo of a memo off every sent list keeps counters and ownership |
| MemoServ.CleanEachIsValid | services/memoserv.c:732-754 | cleaning erases exactly the memos marked deleted |
| MemoServ.UnsendEachIsValid | services/memoserv.c:893-907 | unsending never meets a memo without a recipient and erases exactly the memos of the list |
| MemoServ.SendKeepsIff | services/memoserv.c:551-624 | sending keeps ownership exactly if it is refused or no forward leads away from the recipient; and never where the forward leads to a dropped registration |
| MemoServ.ForwardExample | services/memoserv.c:551-624 | two registrations, a forward and a memo that break ownership |
| MemoServ.DropIsComplete | services/nickserv.c:1349-1380 | delRegNick never takes its early return, and leaves no memo the registration received or sent |
| MemoServ.MemosStayOwned | services/memoserv.c:157-962 | a run of registrations, forwards, sends, reads, saves, deletions, cleanings, unsends and drops keeps counters, ownership and sent lists right throughout exactly if each memo sent in it is refused or goes to the registration it was addressed to |
| MemoServ.MemosOwnedFromStart | services/memoserv.c:157-962 | the same from an empty memory |
| MemoServ.Services.DelMemo | services/memoserv.c:956-962 | the memo leaves the list it is on and the given box's counter drops |
| MemoServ.Services.SendMemo | services/memoserv.c:502-626 | refusals and the memo sent, forwarded or not; ownership is kept exactly if nothing freed was used and the memo went to its recipient |
| MemoServ.Services.Forward | services/memoserv.c:765-815 | the forward is set or cleared; ownership is kept |
| MemoServ.Services.Read | services/memoserv.c:157-239 | all, or the memo of that number, become read and leave their sent lists |
| MemoServ.Services.Delete | services/memoserv.c:634-724 | all, new (which takes all), old or read (which spares the unread), or one number |
| MemoServ.Services.Clean | services/memoserv.c:732-754 | the loop erases exactly the memos marked deleted |
| MemoServ.Services.Unsend | services/memoserv.c:893-925 | all, or one number of the sent list |
| MemoServ.Services.DelRegNick | services/nickserv.c:1349-1380 | both loops run to their end and the box goes |
| MemoOutcomes.DeleteMarks | services/memoserv.c:634-724 | told from box and argument: exactly the memos named are marked deleted and leave their sent lists, and nothing else of a memo changes |
| MemoOutcomes.ReadMarks | services/memoserv.c:157-239 | exactly the memos named become read and leave their sent lists |
| MemoOutcomes.SaveMarks | services/memoserv.c:246-281 | exactly the memo of that number is saved |
| MemoOutcomes.CleanLoses | services/memoserv.c:732-754 | CLEAN erases exactly the memos of the box that are marked deleted, from box, sent list and memory |
| MemoOutcomes.DeleteThenClean | services/memoserv.c:634-754 | DELETE and CLEAN erase exactly those marked before or named |
| MemoOutcomes.UnsendLoses | services/memoserv.c:893-925 | UNSEND erases exactly the memos of the sent list that are named |
| MemoOutcomes.DeleteNewIff | services/memoserv.c:660-684 | DELETE NEW marks unread memos alone, as its reply says, exactly if the box holds no memo that has been read and is not marked |
| MemoOutcomes.DeleteNewExample | services/memoserv.c:660-684 | a memo that has been read and is marked by DELETE NEW |
| MemoOutcomes.SendArrives | services/memoserv.c:502-626 | a memo to a registration that does not forward arrives unread at the head of its box and of its sender's list exactly if the box takes it, and nothing else changes |
| MemoOutcomes.QuotaHolds | services/memoserv.c:502-560 | in every run no box gets more memos than its maximum but from senders that need no room |
| MemoOutcomes.ShutBoxGetsNone | services/memoserv.c:502-560 | in every run a box that takes no memos gets none but from senders that override |
| ChanAccess.IdentifiedIsRecognized | services/nickserv.c:911-948 | identified implies recognised |
| ChanAccess.IdentificationNeverGrantsMore | services/chanserv.c:986-1116 | for every user, channel and op list the level with id=1 is at most that with id=0 |
| ChanAccess.IdentifiedLevelIsProven | services/chanserv.c:1014-1050 | with id=1 a level above AOP belongs to the founder or to an entry whose nick the user identified to; up to AOP also to a valid +r |
| ChanAccess.ProvenEntryCounts | services/chanserv.c:1014-1050 | conversely an entry proved by identification always counts on an open channel |
| ChanAccess.LevelBound | services/chanserv.c:986-1116 | who is not the founder gets at most the highest level listed |
| ChanAccess.TidyingChangesNothing | services/chanserv.c:1299-1320 | what isFounder and hasValidModeR clear on the way changes no level, so repeated lookups agree |
| ChanAccess.Services.HasValidModeR | services/nickserv.c:954-967 | true exactly for a +r the timestamps support; a disproved one is cleared |
| ChanAccess.Services.IsFounderOf | services/chanserv.c:1299-1320 | founder by password identification or by registration; a stale identification is dropped |
| ChanAccess.Services.ScanAddresses | services/chanserv.c:1070-1077 | the items of the entries whose nick admits the user's address, in list order, and their highest level |
| ChanAccess.Services.GetChanOpData | services/chanserv.c:1166-1193 | the entry of the nick's id, or none |
| ChanAccess.Services.OwnItem | services/chanserv.c:1014-1078 | what the user's own nick contributes, in both modes: level and name |
| ChanAccess.FirstMatchIs | services/chanserv.c:1093-1101 | the autokick found is the first one on the list that matches the user |
| ChanAccess.ItemsHighest | services/chanserv.c:951-966 | the level is the highest of the items processed, in the order the two modes take them |
| ChanAccess.IdentifiedNameIsHighest | services/chanserv.c:1014-1050 | with id=1 the name copied out is that of an item at the level returned |
| ChanAccess.NameIsHighestIff | services/chanserv.c:1051-1079 | with id=0 it is exactly if the item processed last is as high as the remote one and all others, or only the remote one counts |
| ChanAccess.TwoNicksExample | services/chanserv.c:1051-1079 | a level of 10 by one nick with the name of the entry at 5 |
| ChanAccess.Services.GetMiscChanOp | services/chanserv.c:986-1116 | the level, the name copied out, the autokick behind a level of -1, and exactly what is cleared on the way |
| ChanAccess.AutokickedIff | services/chanserv.c:1083-1116 | -1 comes back exactly if no item counts and an autokick matches, for someone who is not the founder, on a channel neither closed to it nor being transferred |
| AccessOutcomes.FounderIff | services/chanserv.c:1299-1325 | told from the fields: FOUNDER is the level of exactly the nick that gave the channel its password, with its record still online, and of whoever is known for the founder's registration where that gives access; on a channel not being transferred with all ops below FOUNDER |
| AccessOutcomes.TransferAndClosure | services/chanserv.c:977-1116 | a channel being transferred gives whoever overrides the level it gives otherwise and anyone else 0, a closed one IRC operators and anyone else likewise |
| AccessOutcomes.KnownGetsEntry | services/chanserv.c:1051-1070 | with id=0 a listed registration gives its level to who is known for it, by level or address, and at most AOP of it by +r |
| AccessOutcomes.OthersGetAddress | services/chanserv.c:1069-1079 | anyone else gets the highest level among the entries whose access list admits the address, or none |
| AccessOutcomes.SignOnRecognizesIff | services/nickserv.c:543-590 | who signs on is identified to nothing, and recognised exactly if the access list admits the address |
| AccessOutcomes.NickChangeRecognizesIff | services/nickserv.c:613-733 | so is who changes to another nick, unless the change identifies; the old nick is then free |
| Identification.IdentifiedIsProved | services/nickserv.c:911-924 | in a valid state, identified to a registration means that the person gave its password or made it |
| Identification.StepKeepsIff | services/nickserv.c:613-733 | each of sign-on, IDENTIFY and the answer to a challenge, LOGOFF, REGISTER, DROP, an entry of the registry that comes or goes, a setting, a nick change and time keeps that, a nick change exactly if it hands no level on to a registration its user has not proved |
| Identification.IdentificationHolds | services/nickserv.c:580-924 | a run keeps it throughout exactly if none of its nick changes in case alone hands such a level on |
| Identification.IdentificationHoldsFromStart | services/nickserv.c:580-924 | the same from empty tables |
| Identification.LevelIsProved | services/chanserv.c:977-1116 | after such a run a level above AOP with id=1, for anyone but the founder, is that of an entry whose registration the person gave the password of or made |
| Identification.UnidentifiedHasNoLevel | services/chanserv.c:977-1116 | told from the fields: with id=1 who is recognised at most, has identified to no other nick and has no +r has no level but as founder |
| Identification.StrangerHasNoLevel | services/chanserv.c:977-1116 | who besides is not recognised, and whose address no access list knows, has none in either mode on a channel that nobody has identified to |
| Identification.RemoteLevelIs | services/nickserv.c:911-924 | with an identification to another nick alone the level is that nick's, exactly if id, exact nick and both times agree and the registration is neither away nor being transferred |
| Identification.IdentifyIdentifies | services/nickserv.c:2551-2625 | the right password identifies, to the own nick or to another registered before |
| Identification.LogoffEnds | services/nickserv.c:5724-5737 | after LOGOFF the user is identified to nothing |
| Identification.ComingHomeIdentifies | services/nickserv.c:630-680 | a change to the nick identified to identifies there |
| Identification.CaseChangeExample | services/nickserv.c:719-720 | a user who registers, drops the registration and, once somebody has entered the nick anew, changes its case is identified without a password |
| Identification.NickServ.SetIdentify | services/nickserv.c:868-880 | the four fields of the identification, or the level on the own nick |
| Identification.NickServ.Identify | services/nickserv.c:2551-2625 | the branches of ns_identify and ns_auth make the specified state |
| Identification.NickServ.Logoff | services/nickserv.c:5724-5737 | the identification and the level go |
| Identification.NickServ.ChangeNick | services/nickserv.c:613-733 | the branches of changeNick make the specified record, and keep validity exactly if nothing is handed on |
| OpEdits.OneEdit | services/chanserv.c:3665-3975 | one command at level at most T adds or changes no entry at T or above, and removes only the actor's own |
| OpEdits.ThresholdHolds | services/chanserv.c:3665-3975 | over every run of such commands entries at T or above are never added or changed, and the command that takes one off the list is a deletion by its own holder |
| OpEdits.NobodyRises | services/chanserv.c:3665-3975 | with levels computed from the list itself: without override or founder nobody ever rises above the highest level listed at the start, and the command that takes an entry at that level off is a deletion by its own holder |
| OpEdits.ChanServ.FindNamed | services/chanserv.c:3900-3927 | an index counts from 1 at the given level; a name is looked up |
| OpEdits.ChanServ.Modify | services/chanserv.c:3775-3830 | the refusals and the change of a listed op |
| OpEdits.ChanServ.AddNew | services/chanserv.c:3832-3880 | the refusals and the new entry at the end of the list |
| OpEdits.ChanServ.Remove | services/chanserv.c:3937-3974 | removal within the actor's rank or of the actor's own entry |
| OpEdits.ChanServ.DoChanopAdd | services/chanserv.c:3733-3881 | the branches of the add command make the specified list and result |
| OpEdits.ChanServ.DoChanopDel | services/chanserv.c:3891-3975 | the branches of the delete command make the specified list and result |
| OpEdits.ChanServ.DoChanop | services/chanserv.c:3665-3723 | the checks on the actor in their order, then the command |
| OpOutcomes.AddTakesEffect | services/chanserv.c:3733-3881 | an addition that succeeds lists that registration at the level asked for, or at MAOP if none was and it is new, and leaves every other entry as it was |
| OpOutcomes.DelTakesEffect | services/chanserv.c:3891-3975 | a deletion that succeeds takes out exactly the entry named and keeps the order of the rest |
| OpOutcomes.RefusalsChangeNothing | services/chanserv.c:3665-3975 | any other answer leaves the list unchanged |
| OpOutcomes.AddOkIff | services/chanserv.c:3733-3881 | without override, a registered nick that refuses nothing is added to a list with room exactly at the levels the actor's own gives, by a table, and changed exactly within it |
| OpOutcomes.DelOkIff | services/chanserv.c:3891-3975 | without override, an entry is taken out exactly if the actor's level takes its level away, by a table, or it is the actor's own |
| OpOutcomes.BelowAopChangesNothing | services/chanserv.c:3665-3723 | whoever is below AOP without override changes nothing |
| OpOutcomes.AddGivesLevel | services/chanserv.c:3733-3881 | once added, who is identified by that nick has at least that level from getMiscChanOp on an open channel |
| ModeLock.StepKeepsDisjoint | services/chanserv.c:5858-5919 | each character of a SET MLOCK string keeps plus and minus bits disjoint |
| ModeLock.LockStaysDisjoint | services/chanserv.c:3483-3486 | over every run of registering, banishing and setting, no mode is locked both ways and printing takes at most 13 of the 20 bytes |
| ModeLock.PrintFits | services/chanserv.c:1573-1632 | a disjoint lock prints in at most 13 bytes with its terminator |
| ModeLock.OverlapOverflows | services/chanserv.c:1573-1632 | a lock with every mode both ways would print in 23 |
| ModeLock.MinusPrinted | services/chanserv.c:1603-1626 | the threshold 257 misses minus bits for MM_I alone and for no other lock |
| ModeLock.PrintParseIff | services/chanserv.c:5858-5919 | setting = and the printed lock, with limit and key as arguments, gives exactly that lock from any earlier one if and only if it is neither 0 nor MM_I alone |
| ModeLock.RegChan.Register | services/chanserv.c:3483-3486 | a new registration is locked +nt-Hk |
| ModeLock.RegChan.Banish | services/chanserv.c:4823 | a banished channel is locked +nt-k |
| ModeLock.RegChan.MakeModeLockStr | services/chanserv.c:1573-1632 | every write is inside the 20 bytes and the text is the printed lock |
| ModeLock.RegChan.FindRow | services/chanserv.c:5861-5864 | the search of mlock_table |
| ModeLock.RegChan.SetOne | services/chanserv.c:5859-5917 | one turn of the switch |
| ModeLock.RegChan.SetMlock | services/chanserv.c:5856-5919 | the loop over the string makes the specified lock, limit and key |
| ModeMentions.LastMentionDecides | services/chanserv.c:5856-5919 | told from the end of the text: after any SET MLOCK string a mode is locked on or off exactly as its last mention says, under the sign then in force; a k or l under a plus without an argument left is none, the first = clears, and a mode not mentioned stays |
| ModeMentions.LastArgumentDecides | services/chanserv.c:5882-5917 | key and limit are the arguments of the last k and l under a plus that are given one, counted through the string, else as before |
| ModeMentions.MinusAtEnd | services/chanserv.c:5858-5919 | a minus and a letter at the end lock that mode off, whatever stands before |
| Enforcer.FireOfInfo | services/nickserv.c:1823-1865 | a timer string is cut back into the nick, host and time it was printed from, and the firing stops unless the user stays |
| Enforcer.CountIsSane | services/nickserv.c:1867-1898 | the sanity check passes whenever time is left, and what is left strictly decreases |
| Enforcer.EnforcedExactlyIff | services/nickserv.c:1718-1900 | enforcement comes exactly idtime seconds after annoyNickThief if the user stays at every firing, else never |
| Enforcer.StayingIsEnforced | services/nickserv.c:1718-1900 | who keeps nick and host and never identifies is enforced after idtime seconds, for every idtime |
| Enforcer.SettledIsNeverEnforced | services/nickserv.c:1718-1900 | who at the moment idtime seconds later is identified by level to the nick, told from the fields, or does not use it from that host is never enforced, whatever went before |
| Enforcer.StrangerIsEnforced | services/nickserv.c:1718-1900 | who keeps nick and host at a level short of identification, without a remote one and without +r, is enforced after idtime seconds |
| Enforcer.BanishedTimerNeverEnforces | services/nickserv.c:694-700 | the timer set on a banished nick enforces nothing |
| Enforcer.NickServ.AnnoyNickThief | services/nickserv.c:1718-1751 | the first timer and its string |
| Enforcer.NickServ.Killide | services/nickserv.c:1823-1900 | the branches of killide, on unsigned seconds, do what a firing is specified to do; it faults exactly on a string without a time |
| Flood.DecayBound | services/nickserv.c:2047-2065 | weights of at most W, five seconds apart, keep the level at most 2W-1 |
| Flood.BoundIsExact | services/nickserv.c:2047-2065 | and that bound is reached: all such runs stay below a limit exactly if 2W-1 does |
| Flood.IdsStayOwn | services/nickserv.c:613-673 | a person keeps an id of their own across nick changes |
| Flood.KillsFollowWarnings | services/nickserv.c:2157-2216 | in every run, nick changes included, addFlood removes only someone it warned before at 75% or more |
| Flood.KillsFollowWarningsFromStart | services/nickserv.c:2157-2216 | the same from a network without users |
| Flood.BurstKillsIff | services/nickserv.c:2157-2216 | weights less than five seconds apart remove a user at level 0 exactly if they sum up to 100 and it carries a warning or, not ignored, earned one by the last but one: two or more, all but the last summing up to 75 |
| Flood.RatesFollowPeople | services/nickserv.c:613-673 | a nick change sheds no flood level: everybody has the level and the warnings they had, a newcomer starts at 0 |
| Flood.RateInfo.Event | services/nickserv.c:2047-2065 | halving, adding or restarting the 32-bit level |
| Flood.RateInfo.Warn | services/nickserv.c:2067-2070 | the warning count saturates |
| Flood.RateInfo.GetLev | services/nickserv.c:2076-2078 | the level as an int |
| Flood.Online.AddFlood | services/nickserv.c:2157-2216 | kill, warn or neither; true exactly if something was done |
| Flood.Online.ChangeNick | services/nickserv.c:634-673 | the new record, listed first, carries a copy of the flood level, and exactly the old one goes |
| BreakLine.TurnFits | services/server.c:224-238 | a line that fits the buffer is copied whole up to its terminator |
| BreakLine.BreakFits | services/server.c:216-252 | one chunk: the lines of the carried data followed by the chunk, with an empty line first exactly if they start with a terminator, and the rest carried |
| BreakLine.Resume | services/server.c:189-253 | splitting a stream may stop anywhere and resume with the tail |
| BreakLine.SplitConserves | services/server.c:189-253 | the reference split neither loses nor invents a character of a line |
| BreakLine.ScanWeight | services/server.c:216-252 | whatever the chunk, no more characters come out than went in |
| BreakLine.RunKeepsStream | services/server.c:189-253 | without a dropping chunk the lines handed on and oldData are the stream split at CR/LF runs |
| BreakLine.StreamRefinement | services/server.c:189-253 | for lines of at most 511 characters and any split: that holds exactly if no empty chunk arrives while data is carried |
| BreakLine.DropExample | services/server.c:210-216 | a character and an empty chunk lose the character |
| BreakLine.FillBuffer | services/server.c:224-231 | the copying loop stays inside sendBuffer |
| BreakLine.SkipTerminators | services/server.c:234-238 | all CRs and LFs in a row are passed over |
| BreakLine.LineReader.BreakLine | services/server.c:189-253 | the loop ends, every write is inside the buffers, the guard on oldData never fires, and the calls of parseLine and oldData are as specified for every chunk |
| BreakLine.TokensOfWords | services/server.c:301-314 | up to 150 words of up to 150 characters are cut back out of their line |
| BreakLine.Tokenise | services/server.c:301-317 | every row and column index of realargs is in range and each row holds its word and a terminator |
| ParseArgs.NextArgOfPrinted | services/parse.c:60-123 | a token printed before a delimiter is cut off again, with what followed it |
| ParseArgs.NextArgSkips | services/parse.c:78-82 | delimiters before a token make no difference |
| ParseArgs.AllArgsUnchangedIff | services/parse.c:126-198 | the rest of a line comes back unchanged exactly if it is not empty, has no delimiter at either end and no leading colon |
| ParseArgs.ParseState.constructor | services/parse.c:201-211 | the parser starts at the line's first character, or at NULL for an empty line |
| ParseArgs.ParseState.GetArg | services/parse.c:60-123 | the pointer returned holds the next token as a C string, and nothing before the old position is written |
| ParseArgs.ParseState.GetAllArgs | services/parse.c:126-198 | the pointer returned holds the trimmed rest of the line |
| NewsFile.LinesAreNonEmptyLines | services/db.c:144-159 | the tokens dbWriteString writes are the non-empty lines of the text |
| NewsFile.SfgetsLine | services/stuff.c:264-273 | a line that fits the buffer is read whole without its newline |
| NewsFile.ReadWrittenLines | services/db.c:113-159 | a block of lines of at most 121 characters is read back as written |
| NewsFile.LongLineAborts | services/db.c:113-124 | a tilde-free line of 122 characters or more fails the assertion on load |
| NewsFile.NewsRoundTrip | services/db.c:1178-1283 | saving and reloading gives back the articles in order, each content with its empty lines removed |
| NewsFile.UnreadableChanges | services/db.c:113-136 | a block with a line of 122 characters or more is never read back as its text |
| NewsFile.NewsReloadIff | services/db.c:1178-1283 | for every content: the list comes back exactly if every content line has at most 121 characters |
| NewsFile.LongLineShutsDown | services/db.c:1178-1283 | with no tilde in any content a longer line takes services down |
| NewsFile.LongLineExample | services/db.c:113-124 | one line of 122 characters |
| NewsFile.TildedLineLoads | services/db.c:113-136 | a line of 123 characters with one tilde loads, but only up to it |
| NewsFile.TildedLineExample | services/db.c:113-136 | five characters, a tilde and 117 more come back as the five |
| NewsFile.File.Gets | services/stuff.c:264-273 | reads as specified and moves on in the file |
| NewsFile.DbWriteString | services/db.c:144-159 | the loop over the tokeniser writes the specified block |
| NewsFile.DbReadString | services/db.c:113-136 | the loop builds the specified text, or fails where the assertion does |
| NewsFile.SaveInfoData | services/db.c:1189-1202 | the file holds every article and the closing line |
| NewsFile.InfoServ.ReadInfoData | services/db.c:1214-1283 | the list and the time of the newest post are those of the file, or services go down |
| NickRecord.XoritTwiceIff | services/stuff.c:286-301 | coding a text twice gives it back exactly if it holds no blank, newline or escape |
| NickRecord.XoritLoop | services/stuff.c:286-301 | the loop codes the first 58 characters and ends at a NUL it has written |
| NickRecord.PasswordSurvives | services/db.c:190-202 | a digest comes back from its field, and a text coded twice; each field is one word |
| NickRecord.NickRoundTrip | services/db.c:184-207 | every field of a nick line comes back, with the id as sscanf reads it; an empty user name as a dot, a text password coded twice, and a negative time as the largest |
| NickRecord.NickReloadIff | services/db.c:184-207 | the record comes back exactly if the user name is not empty, no time is negative and a text password holds no blank, newline or escape; digest and id always |
| NickRecord.EmptyUserExample | services/db.c:186-189 | a record without a user name |
| NickRecord.EscapeExample | services/db.c:190-195 | a record whose password is an escape |
| NickRecord.NegativeTimeExample | services/db.c:205-206 | a record with a time before 1970 |
| NickRecord.OverreadExample | services/db.c:351-360 | a field a file can hold for which fromBase64 reads behind its table |
| NickRecord.AtolPrintTime | services/db.c:205-206 | a time is read back as written exactly if it is not negative |
| NickRecord.SaveNick | services/db.c:184-207 | the line written, times and id as %lu and %X*%X print them, the password as text or digest as NENCRYPT says |
| NickRecord.ReadPassword | services/db.c:327-364 | the field as each version of the file and each mark reads it, with fromBase64 for digests |
| NickRecord.ReadNick | services/db.c:307-390 | the record read, for every version, times by atol and the id by sscanf, with NENCRYPT set or cleared |
| TriggerFile.Rules.AddCrule | services/clone.c:344-370 | on the list through next pointers: a record already listed is left where it is; else it goes to the head for n below 2, to the end for -2, else to place n or the end |
| TriggerFile.ReadRule | services/db.c:1137-1155 | the lines of one rule add that rule, its messages re-read |
| TriggerFile.TriggersReload | services/db.c:1047-1173 | all rules come back in order |
| TriggerFile.TriggersReloadIff | services/db.c:1047-1173 | unchanged exactly if every message is non-empty, trimmed and without a leading colon |
| TriggerFile.ColonExample | services/db.c:1047-1173 | a rule whose message starts with a colon loses it |
| TriggerFile.Rules.SaveTriggerData | services/db.c:1063-1089 | the walk of the list writes the specified file |
| TriggerFile.Rules.ReadTriggerData | services/db.c:1103-1173 | the rules of the file are appended to the list, each with the messages that follow it, or services go down |
| Base64.Decode6Encode6 | services/passwd.c:150-170 | the decode table inverts the alphabet |
| Base64.DigitsOfValue | services/passwd.c:88-113 | positional notation: the digits of a value are the digits it was made of |
| Base64.RfcGroupIsShifts | services/passwd.c:88-113 | the shifts and masks of toBase64 are the sextets of section 4 of RFC 4648 |
| Base64.EncodeSizeCovers | services/passwd.c:57-62 | the computed 32-bit buffer size covers all characters written exactly for lengths up to 0xBFFFFFFD |
| Base64.ToBase64 | services/passwd.c:42-132 | for every length: the encoding of section 4 of RFC 4648 with its terminator, inside the buffer; the assertion on s_sz fails exactly above 0xBFFFFFFD octets |
| Base64.UnshiftsAreDigits | services/passwd.c:203-209 | the shifts of fromBase64 are the octets of a group |
| Base64.DecodeSizeCovers | services/passwd.c:179-181 | s_sz has room for every octet; the sizes computed in an int stay below 2^31 exactly for texts of up to 2863311511 characters |
| Base64.InTableIff | services/passwd.c:187-191 | every index into decode_table is inside it exactly if the text does not hold the octet 255 |
| Base64.BuildTable | services/passwd.c:157-170 | the loops make the decode table |
| Base64.FromBase64 | services/passwd.c:144-238 | the decoding, its length and zeros behind it, inside the buffer, no write cut off; or a read behind the table, exactly if the text holds the octet 255 |
| Base64.RoundTrip | services/passwd.c:42-238 | decoding an encoding gives the octets followed by zeros up to a multiple of three |
| Base64.EncodingIsToken | services/passwd.c:42-132 | an encoding holds no blank and no NUL |

## Left out

- Sockets, select, reply text, logging, e-mail, help, statistics, SQL and IPC: input and output without a state property.
- Memory freeing as such: records are ordinary objects, and clone.c:681-686 and nickserv.c:719, which read a freed record, take the values from before the free.
- saveMemoData and readMemoData: the expiry skip of the former passes over the following memo.
- Channel records of chanserv.db: no round trip; an empty key shifts the fields behind it.
- Membership.Network.RemUserFromChan: what a terminator written behind the buffer overwrites is not modelled.
- HashedList.Table: the member table, the channel tables and the op table share one class; the ban and autokick lists, which have no hash chain, are not modelled.
- Clones: UpdateCrule's re-setting of triggers and the counters that only feed the alert reports are not modelled; host names are taken to fit their fields.
- Enforcer: a timer fires at the second it is set for.
- Identification: the refusals that end IDENTIFY, REGISTER and DROP before they change anything, ghosts, AKILLs and the kill of a banished nick are not modelled as events; a nick change to a nick in use does not occur.
- OpEdits.ChanServ.DoChanop: an op's notices and its removal from the online channel are not modelled, and the DMOD founder change is not an op-list edit.
- RegAgreement.ChanServ.Register: the checks on name, password, description and channel count that only refuse are one earlier step; the count of channels per nick is not modelled.
- NickRecord.ReadNick: what a read behind the decode buffer or table would find, and what a half of the id holds that sscanf does not store, is not modelled; the flag word is not cut to 32 bits.
- Base64.FromBase64: says nothing of texts of more than 2863311511 characters, which overflow its int sizes; its callers pass parts of a line of at most 2047.
- setChanMode, GetAuthChKey, ExpressAsHighIntBase, dice, random strings, the command tables and the oper list.
