# sysc-tray: a verified model

`sysc-tray` watches StatusNotifierItem applications on the session bus and replicates their items
and menus to a presenter (the shell) over a Unix socket. This project models the parts of the
service whose correctness does not show in any single function body, and proves what they promise
for all inputs, all runs and all interleavings. `dafny verify dfyconfig.toml` checks everything.

## What is modelled

**Replication.** `Records` says, on values, what each owner command does to the item table and which
change it publishes; the class `State.Owner` models the code, field by field and method by method,
and is proved to do exactly that. `Presenter` does the same for the locked sections of a connection:
the functions on `Conn` and the class `Connection`.
`Sessions` adds the writer, the reader and the handler as steps, and `Replication` runs one owner
and any number of sessions under every interleaving: each owner command, each mutex-protected
section, each channel operation and each frame write is one step, and a connection may be marked
failed at any point. `Mirroring` states the promises, ending in `ClientMirrorsOwner`, whatever prefix
of its wire a presenter has read, it holds exactly what the owner published at that sequence number,
and `DrainedClientIsCurrent`, once everything queued is written, that is what it publishes now.
`Progress` states what gets done: which messages are taken, what a connecting presenter is told, that
a published change arrives and that a command is answered.

**Menus.** `MenuLayout` converts a bus layout recursively, without bounds. `MenuWalk` is the bounded
walk of the source over an explicit memory of addressed cells, where appending past a slice's
capacity copies the slice elsewhere and leaves old pointers dangling; it is proved to build the tree
of the recursion whatever capacities the runtime picks. `MenuTree` has the two validators, one with
a stack and one recursive with shared accumulators, both proved to decide one predicate that does
not mention any visiting order. `MenuEncoding` is the layout an application sends for a tree, and
that reading it gives the tree back. `Composition` joins converter, validators, owner and presenter.

**Items.** `ItemModel` normalizes a property map with one pixel budget threaded through four pixmap
sets; `ItemEncoding` is the property map of an item, and that reading it gives the item back; `Utf8`
truncates text on character boundaries; `RateLimit` is the two-level refresh limiter
with its counting bounds.

**Generations and workers.** `Registry` issues generations and feeds the owner; `Generations` follows
each key through any sequence of owner commands, and `Composition` joins the two with the runs of the
presenters, where a retired generation never comes back. `Workers` hands menu readers over between binding, dropping and shutdown with the lock released in between.

**Framing and JSON.** `Framing` is the length-prefixed codec over writers that take any part of what
they are given and readers that deliver any fragment; `JsonScan` is the scan that refuses a repeated
key at any depth.

Text is bytes, with the well-formedness table of section 4 of RFC 3629. Go's fixed-width integers
are bounded types; the wrap-around of the service sequence, of the generations and of the `int32`
conversion is written out.
The length of a marshalled message, the clock, the capacity a growing slice is given, the bytes a
writer accepts, the fragment a reader delivers and the order in which a map is walked are arbitrary.

Two points where the code decides: a menu node may be read from a byte array of three or more bytes,
because the tuple reader accepts any slice, and the model follows; and the limiter reads the zero
time as "nothing granted yet": `RateLimit.SpacedExactly` says exactly when the global spacing holds
over a run, `RateLimit.ZeroTimeGrantLimitsNobody` shows a run where it does not, and
`RateLimit.GrantedExactly` says when a single request is granted.

## Model

| member | source | states |
|---|---|---|
| `Mirroring.ClientMirrorsOwner` | internal/presenter/connection.go:49-177 | in every run of owner commands and connection steps, any prefix of a wire applied to an empty client gives exactly the owner's items as of the last state sequence read, and exactly the menus updated since the baseline for keys still live |
| `Mirroring.ClientHoldsAPublishedState` | internal/state/owner.go:198-212 | the same as one moment of the run: there is a moment whose sequence and published items are what the client holds, and whose published menus, narrowed to those updated since the client's baseline, are the menus it holds |
| `Mirroring.DrainedClientIsCurrent` | internal/presenter/connection.go:161-177 | convergence: once everything queued for the owner's live presenter is on its wire, that presenter holds what the owner publishes now, with every menu updated since its baseline |
| `Mirroring.MenuReachesClient` | internal/state/owner.go:151-164 | a published menu reaches every presenter attached before it; once that change is read, and until a later one about that menu or key, the presenter holds exactly that menu |
| `Mirroring.ItemReachesClient` | internal/state/owner.go:115-148 | whoever has read up to a point, by snapshot or by changes, holds the item shown then until it reads a later change about it |
| `Mirroring.PublishedKeysLiveOnce` | internal/state/owner.go:94-175 | in any run whose owner hears of each generation once, each key is added at most once and never after its removal; heard of in rising order, the generations added at one address rise |
| `Mirroring.RetiredIsNeverShownAgain` | internal/state/owner.go:223-242 | of three moments in sequence order, over one connection or several, if the first shows a key and the second does not, neither does the third |
| `Mirroring.TouchedMeans` | internal/state/owner.go:151-164 | the menus a client holds are those with an update after the baseline and no removal since |
| `Mirroring.HistoryIsFaithful` | internal/state/owner.go:96-175 | the recorded view after k changes is what the owner's table showed whenever it had published k changes |
| `Mirroring.DeltaLogIsLegal` | internal/state/owner.go:96-175 | in every run, items are added only when absent, changed only when present and different, removed and given menus only when present; no two generations of an address are ever live together; the log adds up to the published state |
| `Mirroring.ReachableSnapshotsAreFaithful` | internal/state/owner.go:244-257 | in every run each live address is ordered once, at most 128 are live, and the snapshot is exactly the published items by generation, stable, valid precisely when its pixmaps fit 8 MiB |
| `Mirroring.WireFollowsScript` | internal/presenter/connection.go:18-19 | every wire is a prefix of hello, a snapshot at n, then changes n+1, n+2, … without gap or repeat, replies only after the snapshot |
| `Mirroring.QueuesNeverOverrun` | internal/presenter/connection.go:77-121 | counters equal pending, queued and in-flight messages and stay in bounds, so no channel send finds the queue full; the owner's messages never fail the sequence check and none pending falls under the baseline |
| `Mirroring.RepliesFollowRequests` | internal/presenter/connection.go:179-213 | dispatched request IDs rise strictly from above zero, and replies on the wire are a prefix of them in order |
| `Progress.OffersTaken` | internal/presenter/connection.go:49-83 | in every reachable state, the next change offered to the live presenter is taken exactly when its connection has not failed and there is room in both bounds, and is then the last message pending or queued |
| `Progress.RepliesTaken` | internal/presenter/connection.go:215-241 | a reply is taken on the same terms and queued last |
| `Progress.StartsTaken` | internal/presenter/connection.go:92-105 | an attached connection starts exactly when it has not failed and the handshake fits beside what is pending |
| `Progress.PublishedChangeArrives` | internal/presenter/connection.go:161-177 | progress: given room and a writer that goes on, whatever the owner publishes next is put on the wire after everything before it, the presenter stays the owner's, and what it holds is what the owner publishes |
| `Progress.StartedClientCatchesUp` | internal/presenter/connection.go:90-124 | starting an attached presenter and writing on leaves it holding what the owner publishes, the changes published meanwhile included |
| `Progress.ConnectedClientIsTold` | internal/presenter/server.go:187-224 | a new presenter becomes the owner's and is told exactly the published items, whenever the snapshot is valid and the handshake fits |
| `Progress.CommandAnswered` | internal/presenter/connection.go:182-213 | a well-formed command with a higher request ID is dispatched once and, given room, its reply follows everything before it while the reader reads on |
| `Progress.FailureIsFinal` | internal/presenter/connection.go:151-159 | a failed connection takes nothing any more, whatever follows |
| `Progress.StoppedWriterIsSilent` | internal/presenter/connection.go:161-172 | a writer that stops writes nothing more, so a frame cut short is never followed by another |
| `Progress.BadFrameEndsReading` | internal/presenter/connection.go:182-206 | nothing is dispatched after anything but a well-formed command with a higher request ID |
| `Progress.DroppedStaysDropped` | internal/state/owner.go:214-221 | once the owner has let go of a presenter it never sends to it again, and detaching lets go |
| `Progress.ValidEnvelopes` | protocol/validate.go:11-36 | the valid envelopes are, kind by kind, those of the protocol's frames and commands |
| `Progress.WireIsValid` | protocol/validate.go:11-36 | every frame on every wire is a valid envelope |
| `Replication.RunOk` | internal/presenter/server.go:187-224 | the joint invariant of owner and sessions holds in every reachable state |
| `Replication.HistoryRun` | internal/state/owner.go:96-175 | the owner's invariant and history hold in every run, with no bound on the sequence |
| `Replication.RunPlays` | internal/state/owner.go:94-175 | the owner's table and log depend on its commands alone, whatever the sessions do |
| `Replication.StaleIsSilent` | internal/app/run.go:288-310 | in any run a late refresh, menu or removal naming a key no longer live leaves the whole system as it was |
| `Replication.LiveSend` | internal/state/owner.go:259-275 | a published change offered to the attached connection is queued next in sequence or refused for room or failure, never for its number |
| `Replication.BeginKeeps` | internal/presenter/server.go:189-211 | the handler's validation and start keep the session invariant, whether they succeed or not |
| `Replication.AttachKeeps` | internal/state/owner.go:198-212 | installing the sink and reading the baseline in one step leaves nothing between snapshot and stream |
| `Sessions.ActKeeps` | internal/presenter/connection.go:161-241 | every writer, reader and failure step keeps the script of the wire, the accounting and the reply order |
| `Sessions.StartFlushes` | internal/presenter/connection.go:90-124 | a start over owner-fed deltas queues hello, snapshot and all of them in order, or refuses for room in the handshake; it never blocks, gaps or filters |
| `Sessions.PendingFlushes` | internal/presenter/connection.go:106-120 | consecutive deltas after the baseline are all queued |
| `Sessions.PrologueFlushes` | internal/presenter/connection.go:99-105 | the handshake frames are queued or refused, never blocked on a full channel |
| `Sessions.SendAccounts` | internal/presenter/connection.go:133-149 | sends and replies keep the message and byte counters exact and bounded |
| `Sessions.ReservationMeansRoom` | internal/presenter/connection.go:77-87 | a reserved message always finds room, so the default branches are unreachable |
| `Sessions.SendTaken` | internal/presenter/connection.go:49-88 | whoever sends, a message is taken exactly when the connection has not failed, there is room, and once started it is next in sequence; with what becomes of it |
| `Sessions.ReplyTaken` | internal/presenter/connection.go:230-240 | a reply is queued last exactly when the connection has not failed and there is room |
| `Sessions.StartTaken` | internal/presenter/connection.go:92-124 | a connection starts exactly when it has not failed, the handshake fits, and the pending messages above the baseline are consecutive; the rest are given back to the bounds |
| `Sessions.CommandDispatched` | internal/presenter/connection.go:184-206 | a request is dispatched exactly for a well-formed command envelope above the last request ID |
| `Sessions.StreamTaken` | internal/presenter/connection.go:163-168 | taking a message for writing keeps the order of what reaches the wire |
| `Sessions.StreamWritten` | internal/presenter/connection.go:168-175 | writing, failing to write and releasing keep that order |
| `Presenter.Connection.SendMessage` | internal/presenter/connection.go:47-88 | the state sink does what the locked section says, and a refusal other than "already failed" fails the connection |
| `Presenter.Connection.StartWriting` | internal/presenter/connection.go:90-124 | the two flushing loops compute the start of the value model, outcome included |
| `Presenter.Connection.Reserve` | internal/presenter/connection.go:133-144 | reserves exactly when both bounds allow it |
| `Presenter.Connection.Release` | internal/presenter/connection.go:146-149 | gives back exactly one message and its bytes |
| `Presenter.Connection.Fail` | internal/presenter/connection.go:151-159 | marks the connection failed, which every later section reads, and changes no queue or counter |
| `Presenter.Connection.TakeForWriting` | internal/presenter/connection.go:161-168 | hands the writer the oldest queued message, leaving the counters alone |
| `Presenter.Connection.ReplyTo` | internal/presenter/connection.go:215-241 | queues a reply within the bounds or refuses it unchanged |
| `Presenter.Connection.ReceiveCommand` | internal/presenter/connection.go:182-206 | one read-loop turn: only a valid command with a higher request ID is dispatched |
| `Records.ApplyKeeps` | internal/state/owner.go:94-175 | every owner command keeps the order, the keys, the cap and the validity of what is published |
| `Records.ApplyPublishes` | internal/state/owner.go:94-175 | a command publishes exactly the change it makes to the published state, and that change is legal for a client |
| `Records.SeenFollows` | internal/state/owner.go:115-164 | per key, the published entry after a command is what its change says |
| `Records.StaleIsIgnored` | internal/state/owner.go:223-229 | whatever names a key that is not live, short of announcing it, does nothing |
| `Records.OthersUntouched` | internal/state/owner.go:94-175 | no command touches another address |
| `Records.AddMakesLive` | internal/state/owner.go:96-113 | an announcement makes its key live exactly when its address is free and fewer than 128 are live, or holds an older generation, whose item is then removed |
| `Records.RemoveRetires` | internal/state/owner.go:166-175 | removing a live key frees its address and nothing else, and publishes exactly if it was shown |
| `Records.UpdateShows` | internal/state/owner.go:115-148 | a refresh of a live key shows the item exactly when it is valid, keeps its menu, and is silent exactly when nothing changes |
| `Records.MenuShows` | internal/state/owner.go:151-164 | a menu is taken exactly for a shown key and when it is well formed |
| `Records.OrderFollows` | internal/state/owner.go:111-113 | addresses keep the order of their present announcements |
| `Records.ViewHasOneGeneration` | internal/state/owner.go:22-27 | the published state never shows two generations of one address, and menus only of shown items |
| `Records.RemoveFirstKeepsOrder` | internal/state/owner.go:231-238 | retiring removes exactly one address from the order |
| `Generations.RetiredStays` | internal/state/owner.go:94-175 | when each generation is announced once, a key the owner had and lost, for whatever reason, is never live again |
| `Generations.KeysLiveOnce` | internal/state/owner.go:115-148 | then each key is added for the presenter at most once and never after its removal |
| `Generations.PublishedGenerationsRise` | internal/state/owner.go:94-113 | when generations are announced in rising order, those published at one address rise as well |
| `Snapshots.SnapshotMirrors` | internal/state/owner.go:244-257 | a client loading the snapshot holds the owner's items; the snapshot is valid exactly when it fits the aggregate |
| `Snapshots.StableSortSorts` | internal/state/owner.go:253-255 | the sort orders by generation, is a permutation, and keeps the order within a generation |
| `State.Owner.AddItem` | internal/state/owner.go:94-113 | does to the fields what `Records.Apply` does for Add, and offers the sink exactly its change |
| `State.Owner.UpdateItem` | internal/state/owner.go:115-148 | the same for Update: stale, invalid and unchanged refreshes are silent |
| `State.Owner.UpdateMenuTree` | internal/state/owner.go:150-164 | the same for UpdateMenu, validating the tree by recursion |
| `State.Owner.RemoveItem` | internal/state/owner.go:166-175 | the same for Remove: a stale removal does nothing |
| `State.Owner.RetireEntry` | internal/state/owner.go:231-242 | deletes the entry, removes its first place in the order in place, and publishes if it was shown |
| `State.Owner.Publish` | internal/state/owner.go:259-275 | advances the sequence even without a sink; a sink that refuses is dropped |
| `State.Owner.MenuOf` | internal/state/owner.go:177-189 | returns the menu the published state shows for the key, or none |
| `State.Owner.TakeSnapshot` | internal/state/owner.go:244-257 | the loop over the order and the sort give the snapshot of the table |
| `State.Owner.AttachSink` | internal/state/owner.go:198-212 | installs the sink and returns the snapshot at the current sequence; a missing sink is an error |
| `State.Owner.DetachSink` | internal/state/owner.go:214-221 | removes the sink only if it is still the connected one |
| `Protocol.ValidateSnapshot` | protocol/validate.go:84-108 | the single pass accepts exactly the valid snapshots: count, items, distinct keys, aggregate bytes |
| `Protocol.PixmapBytes` | protocol/validate.go:154-165 | sums the four pixmap sets, failing exactly when a pixmap is malformed |
| `MenuWalk.ConvertLayout` | internal/menu/model.go:20-73 | the stack walk succeeds exactly when every node converts, depth is at most 8 and nodes at most 512, and then memory holds the tree of the plain recursion, for every growth of the slices |
| `MenuWalk.AppendThroughPointer` | internal/menu/model.go:60-61 | the pointer in a frame is live when appended through; the tree gains exactly that child and pointers to higher nodes survive reallocation |
| `MenuWalk.AppendReallocates` | internal/menu/model.go:60-60 | growing a slice into a fresh array keeps the tree although its cells moved |
| `MenuWalk.WalkStep` | internal/menu/model.go:46-71 | after each turn every remaining frame still points at its parent on the right spine |
| `MenuWalk.HoldsUnique` | internal/menu/model.go:72-72 | a memory holds at most one tree at an address, so the result is determined |
| `MenuWalk.Copied` | internal/menu/model.go:60-61 | a stored tree survives any change outside its footprint, and its top cell may be copied |
| `MenuWalk.StopsRightly` | internal/menu/model.go:49-55 | the depth and node checks refuse only layouts whose whole tree breaks the bound |
| `MenuWalk.PushChildren` | internal/menu/model.go:67-70 | children are stacked last-first |
| `MenuLayout.FinishStep` | internal/menu/model.go:46-71 | one turn of the walk keeps what finishing the stack will give |
| `MenuLayout.FinishOnlyGrows` | internal/menu/model.go:49-55 | every stacked frame still adds a node at its depth |
| `MenuLayout.ConvertNode` | internal/menu/model.go:75-128 | a converted node has legal identity, text and vocabulary and no children, whatever the properties |
| `MenuEncoding.TreeSurvives` | internal/menu/model.go:23-128 | the round trip: converting the layout of a tree gives back the tree, every property, the order of children and the shape included |
| `MenuEncoding.MenuSurvives` | internal/menu/validate.go:14-73 | every menu the validators accept is read back from its layout, within the bounds of the walk |
| `MenuEncoding.AbsentIsDefault` | internal/menu/model.go:88-127 | leaving a property out is giving its default: enabled, visible, otherwise empty, zero or false |
| `MenuEncoding.UnusableIsAbsent` | internal/menu/model.go:75-77 | a malformed or unknown property might as well be left out |
| `MenuEncoding.LongValuesAreCut` | internal/menu/model.go:91-120 | text is cut to its longest valid beginning, and a wider toggle state wraps to 32 bits |
| `DBusValue.ShapesAgree` | internal/dbusval/value.go:15-90 | structs or lists, variants to any depth and either integer type are read alike |
| `MenuTree.ValidateIterative` | internal/menu/validate.go:14-73 | the explicit-stack validator accepts exactly the well-formed menus |
| `MenuTree.ValidateRecursive` | protocol/validate.go:213-221 | the recursive validator accepts exactly the same menus |
| `MenuTree.Tally.ValidateNode` | protocol/validate.go:223-262 | with shared map and counters, a subtree is accepted exactly when its total added to what was counted is |
| `MenuTree.SiblingOrderIsIrrelevant` | internal/menu/validate.go:68-70 | no verdict depends on the order in which siblings are visited |
| `MenuTree.RefusedStaysRefused` | internal/menu/validate.go:32-66 | stopping at the first violation is sound: nothing visited later repairs it |
| `MenuTree.PopStep` | internal/menu/validate.go:27-71 | replacing a node on the stack by its children keeps the total |
| `Composition.ConvertedMenuIsAcceptedExactly` | internal/menu/proxy.go:202-224 | a converted tree passes validation exactly when its root is 0, its IDs are distinct and its icons total at most 2 MiB |
| `Composition.EncodedMenuIsAccepted` | internal/menu/proxy.go:202-224 | the layout of any menu the protocol can carry is converted, accepted and handed on as exactly that menu |
| `Composition.ReadEncoded` | internal/menu/model.go:23-73 | the walk over memory reads it back as well, wherever the slices are put |
| `Composition.ConvertedIsClean` | internal/menu/model.go:77-128 | every node of a converted tree is legal on its own |
| `Composition.AcceptedMenuIsPublished` | internal/state/owner.go:150-164 | an accepted menu of a live, published generation is published, never dropped |
| `Composition.ConvertedMenuIsLogged` | internal/menu/proxy.go:202-224 | in any run, fetching a convertible layout with root 0, distinct IDs and small icons for a shown item extends the log by exactly its tree |
| `Composition.ConvertedMenuReachesClients` | internal/presenter/connection.go:49-75 | from bus to presenter: whatever happens next, a presenter attached before the fetch that has read that change, and none later about that menu or key, holds exactly the tree of the layout |
| `Composition.NormalizedItemIsPublished` | internal/app/run.go:302-324 | a normalized item of a live, valid key, with or without the offer to close it, is shown by the owner afterwards, silently only if it already was, provided the menu path and either the given ID or owner plus path fit 4096 bytes |
| `Composition.NormalizedItemIsLogged` | internal/state/owner.go:115-148 | in any run, such an item extends the log by exactly its addition, its change, or nothing if it was shown already, and is shown afterwards |
| `Composition.NormalizedItemReachesClients` | internal/presenter/connection.go:49-131 | from property map to presenter: whatever happens next, any presenter that has read that far, by snapshot or by changes, and no later change of the key, holds exactly the item |
| `Composition.RegistryAndPresenters` | internal/watcher/server.go:189-208 | when the owner hears of generations from one registry, in any order and among any other commands, each key is added for presenters at most once and never after its removal, no presenter sees a retired generation come back, and, when told in order, the generations added at one address rise |
| `ItemModel.NormalizedIsValid` | internal/item/model.go:75-97 | for any properties the normalized item is valid except exactly when the fallback ID or the menu path exceeds 4096 bytes |
| `ItemEncoding.ItemSurvives` | internal/item/model.go:78-136 | the round trip: reading the properties of a valid item gives back the item, every text, flag and pixmap in its place |
| `ItemEncoding.NothingExported` | internal/item/model.go:75-90 | an item without properties has the fallback identity, the default category and status, and nothing else |
| `ItemEncoding.UnusableIsAbsent` | internal/item/model.go:75-77 | a malformed or unknown property costs the item nothing else |
| `ItemEncoding.EarlierSetsComeFirst` | internal/item/model.go:91-96 | a pixmap set never takes budget from one before it |
| `ItemEncoding.LongTextIsCut` | internal/item/model.go:124-128 | texts are cut to their longest valid beginning, 2048 bytes in a tooltip and 4096 elsewhere |
| `ItemEncoding.PathMayBeString` | internal/item/model.go:157-177 | a menu path may come as an object path or a string |
| `ItemModel.Normalize` | internal/item/model.go:78-97 | the budget is spent in turn by icon, attention, overlay and tooltip |
| `ItemModel.ReadIcon` | internal/item/model.go:99-111 | one icon read, with what it left of the budget |
| `ItemModel.ReadTooltip` | internal/item/model.go:113-136 | the tooltip read, with what it left of the budget |
| `ItemModel.Decoded` | internal/item/pixmap.go:12-46 | the selection never overspends the budget and holds only valid pixmaps |
| `ItemModel.DecodePixmaps` | internal/item/pixmap.go:16-46 | the loop computes the greedy selection |
| `ItemModel.GreedyIsInOrder` | internal/item/pixmap.go:23-44 | each candidate is kept exactly when it is well formed and fits beside those kept before it |
| `ItemModel.Candidate` | internal/item/pixmap.go:24-36 | an admitted candidate is a valid pixmap |
| `Utf8.Clamp` | internal/item/model.go:202-214 | the backward scan finds the cut of the specification |
| `Utf8.ClampedIsBest` | internal/menu/model.go:151-164 | the result is valid, bounded and a fixed point; of valid text it is the longest valid prefix and loses at most three bytes |
| `Utf8.BoundaryIsRuneStart` | internal/item/model.go:210-212 | in valid text the places to cut are exactly those before a starting byte |
| `Utf8.EncodedIsRune` | internal/item/model.go:204-206 | the encoding of every character, section 3 of RFC 3629, is recognised in full and stands for it |
| `Utf8.RuneIsEncoded` | internal/item/model.go:204-206 | every recognised sequence is the encoding of a character |
| `Utf8.SanitizedDrops` | internal/item/model.go:204-206 | only bytes that start no well-formed sequence are removed |
| `RateLimit.GrantsAreBounded` | internal/item/model.go:20-66 | (n-1) times the interval is below the window: 31 a second for one item between forgets under any clock, 121 in all unless a zero-time grant is followed too soon |
| `RateLimit.GlobalSpacing` | internal/item/model.go:49-54 | grants are at least the global interval apart for clocks that never read the zero time, even when they run backwards |
| `RateLimit.SpacedExactly` | internal/item/model.go:49-54 | over any run and any clock, grants are the global interval apart exactly when no zero-time grant is followed by the next grant within that interval |
| `RateLimit.PerItemSpacing` | internal/item/model.go:55-59 | grants to one key between forgets are at least the per-item interval apart |
| `RateLimit.WaitIsExact` | internal/item/model.go:60-62 | a refusal changes nothing and names the least delay that succeeds |
| `RateLimit.GrantedExactly` | internal/item/model.go:45-66 | a request is granted exactly when both intervals have passed |
| `RateLimit.ZeroTimeGrantLimitsNobody` | internal/item/model.go:50-50 | a grant at the zero time breaks the global spacing |
| `RateLimit.Limiter.Ask` | internal/item/model.go:43-66 | the method reserves as the value model does |
| `RateLimit.Limiter.Forget` | internal/item/model.go:68-73 | drops one key's accounting and nothing else |
| `RateLimit.ForgottenAsksFreely` | internal/item/model.go:68-73 | forgetting a key lifts its own interval and nothing else |
| `Registry.RetiredKeysStayRetired` | internal/watcher/attach.go:268-312 | in every run notifications alternate with rising generations, the owner's live keys are among the registry's, and a retired key is never live again whatever late calls arrive: neither one the registry removed nor one the owner had and lost |
| `Registry.OwnerRetiredStays` | internal/state/owner.go:166-175 | a key the owner retired on a late removal while the registry still lists it is never live again, whatever is registered or arrives later |
| `Registry.RunPlays` | internal/watcher/server.go:173-214 | the owner does what the commands of a run say, and hears of exactly the keys issued, in order |
| `Registry.IssuedKeys` | internal/watcher/attach.go:278-281 | a registry issues each key once, in rising order |
| `Registry.OwnerKeepsUp` | internal/app/run.go:228-270 | while the registry lists at most 128 and nothing is removed behind its back, the owner has live exactly what the registry lists |
| `Registry.RegisterLists` | internal/watcher/server.go:189-208 | a registration lists its address under the next generation, or leaves a known one as it was |
| `Registry.EnterLists` | internal/watcher/attach.go:268-287 | an entry lists its address under the next generation, removing a known key first |
| `Registry.DropUnlists` | internal/watcher/server.go:172-187 | dropping addresses unlists exactly those |
| `Registry.StepsTakeEffect` | internal/watcher/server.go:173-208 | in any run an address registered or entered is listed, one dropped is not, and a late command reaches the owner |
| `Registry.RemovedIsNeverLive` | internal/watcher/server.go:189-214 | a removed key stays dead because later generations are larger |
| `Registry.StepKeeps` | internal/watcher/server.go:173-214 | each registry call with its notifications, and each late owner call, keeps registry, notifications and owner in step |
| `Registry.Server.RegisterItem` | internal/watcher/server.go:189-208 | a new address gets the next generation, a known one is left alone |
| `Registry.Server.RemoveOwner` | internal/watcher/server.go:172-187 | exactly the departed owner's items go, each notified once, in any map order |
| `Registry.Client.AddEntry` | internal/watcher/attach.go:268-287 | a known address is retired before its replacement is announced |
| `Registry.Client.RemoveEntry` | internal/watcher/attach.go:289-301 | removes and notifies only a known address |
| `Registry.Client.Drain` | internal/watcher/attach.go:303-312 | empties the registry and hands back every key |
| `Workers.DroppedWorkersLeakNothing` | internal/app/run.go:288-300 | under every interleaving, once a worker is dropped and its binds have returned, every menu reader ever started for it is closed |
| `Workers.OneReaderPerKey` | internal/app/run.go:326-358 | a key never has two open menu readers, and the one a live worker shows is open |
| `Workers.StepKeeps` | internal/app/run.go:206-226 | every lock section and every close or start keeps each open reader held in exactly one place |
| `Workers.ShutdownStaysEmpty` | internal/app/run.go:175-217 | after shutdown has taken the workers none appears again |
| `Workers.ShutdownLeaksNothing` | internal/app/run.go:175-226 | and once the outstanding binds and closes are through, every menu reader ever started has been closed |
| `Workers.BindInstalls` | internal/app/run.go:326-358 | a bind succeeds: with the item connected and its reader started, whatever other keys do between the sections, the worker ends up showing that reader, and it is open |
| `Workers.EmptyPathUnbinds` | internal/app/run.go:337-343 | when an item no longer names a menu path, its reader is closed and the worker shows none |
| `Workers.DropCloses` | internal/app/run.go:288-300 | a drop completes: once its worker and whatever bind is under way have run out, every reader ever started for the key is closed |
| `Workers.RegisteredIsLive` | internal/app/run.go:241-249 | a new key becomes live with no menu exactly when the service is open |
| `Workers.ShutdownTakesAll` | internal/app/run.go:206-217 | shutdown takes every worker, each with the reader it showed, to be closed |
| `Workers.CommitInstalls` | internal/app/run.go:349-357 | a commit installs the reader exactly when the key is live, the service open and the path still wanted |
| `Workers.BeginTakesOver` | internal/app/run.go:327-336 | a bind begins exactly for a live key, an open service and a new path, and hands over the reader there was |
| `Workers.TakenIsGone` | internal/app/run.go:288-293 | dropping hands over the worker there was, and only that one |
| `Workers.App.Register` | internal/app/run.go:241-249 | a worker is added unless the service is closing |
| `Workers.App.BindMenuBegin` | internal/app/run.go:327-336 | takes the previous reader out of a live worker whose path changed |
| `Workers.App.BindMenuCommit` | internal/app/run.go:349-357 | installs the reader only if the worker is still live and still wants that path |
| `Workers.App.DropWorker` | internal/app/run.go:288-293 | takes the worker out of the map |
| `Workers.App.StopWorkers` | internal/app/run.go:206-213 | takes all workers, in any map order |
| `Framing.CutStreamYieldsCompleteFrames` | protocol/frame.go:15-29 | a stream cut anywhere gives exactly its complete frames, then an error with only the cut frame left unread |
| `Framing.CompleteFrames` | protocol/frame.go:15-29 | every cut falls after some number of complete frames |
| `Framing.PartlySentArrives` | protocol/frame.go:15-58 | whatever part of a list was sent, the reader gets its first payloads, and all of them exactly when all was sent |
| `Framing.Transfer` | protocol/frame.go:15-58 | writing over an arbitrary writer and reading what it took in arbitrary fragments delivers a beginning of the list, and the whole list when the writing succeeded |
| `Framing.WholeStreamRoundTrip` | protocol/frame.go:15-44 | a list of legal payloads comes back unchanged and in order |
| `Framing.WriteFrame` | protocol/frame.go:31-44 | success wrote exactly the frame; failure wrote a beginning of it |
| `Framing.WriteFrames` | protocol/frame.go:31-58 | whatever the writer accepts, it took a beginning of the encoded list |
| `Framing.WriteAll` | protocol/frame.go:46-58 | partial writes are continued where they stopped; a write of nothing or an error ends it |
| `Framing.ReadFrame` | protocol/frame.go:15-29 | however the stream is fragmented, a frame is read exactly when one is there, and only it is consumed |
| `Framing.ReadAllFrames` | protocol/frame.go:15-29 | reading until the first error gives the frames of the stream |
| `Framing.HeaderRoundTrip` | protocol/frame.go:20-36 | the big-endian length survives |
| `Framing.DecodeExactly` | protocol/frame.go:15-29 | a frame is read exactly when the stream begins with one of legal length, and exactly its bytes are consumed |
| `JsonScan.ScanOfValue` | protocol/frame.go:86-128 | the scan consumes exactly one value and fails exactly when an object at some depth repeats a key |
| `JsonScan.AcceptsExactlySingleUniqueValues` | protocol/frame.go:78-84 | with the end-of-input check, exactly single duplicate-free values are accepted |
| `JsonScan.Decoder.ScanJsonValue` | protocol/frame.go:86-128 | the recursive scan with its loops computes the scan on any token stream |
| `JsonScan.Decoder.RejectDuplicateKeys` | protocol/frame.go:78-84 | accepts exactly when one value was scanned and nothing follows |

## Left out

- D-Bus calls, signals, name ownership, sockets, file modes, `/proc`, process signals and timers: foreign; their results are arbitrary inputs.
- JSON marshalling and reflection: a marshalled message is its content and an arbitrary length; marshalling errors do not occur for these types.
- Deep copies (`cloneItem`, `cloneMenu`) and aliasing of byte slices: items and menus are values here, so a copy cannot be told from the original.
- Error texts: a refusal is a refusal; which message it carries is not modelled, except for how a connection section ends.
- `Owner.Close` and the command channel: a closed owner ignores every command.
- `Server.current` and replacing an older presenter: attaching and setting it are separate steps that two handlers can order differently; failing a connection is possible at any step instead.
- Command validation and routing (`Command.Validate`, `dispatch`), `Hello.Validate`, `Reply.Validate`: selections without state; the content of a reply is arbitrary.
- Bus names and addresses, backoff, `ownership.Verify`, host registration and the registered-items property: no hard property.
- Uniqueness of generations across registry instances: each instance restarts its counter.
- Reordering of a registry's notifications with the lock released: in `Registry` a call and its notifications are one step; only `Composition.RegistryAndPresenters` allows any order.
- Monotone menu revisions: the code stores whatever revision the application returns.
- Presenter.Connection.Fail: does not model closing the `closed` channel and the socket, which only wake goroutines that are waiting; the steps of `Sessions` may stop at any point instead.
- RateLimit.WaitIsExact: does not model the saturation of differences of more than 292 years between clock readings.
- Registry.RetiredKeysStayRetired: stated for registries that have issued fewer than 2^64 generations, after which the counter wraps, as `Registry.Server.RegisterItem` does.
- Mirroring.ClientMirrorsOwner: stated for runs with fewer than 2^64 published changes, after which the sequence counter would wrap.
- Object path syntax and the repair of invalid UTF-8 belong to libraries; they follow the D-Bus specification and the documented removal of invalid bytes.
