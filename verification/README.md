# Minetest proxy: verified model

The proxy presents several upstream Minetest servers to one client as a single world. This project
models the parts of it that carry invariants and proves those invariants for all inputs, runs and
interleavings.

- **Session** (`Session`, `Transparency`, `Sounds`, `DetachedInvs`, `ObjectIds`, `LatePackets`,
  `SessionConn`): the proxy
  tracks what the client holds (objects, detached inventories, particle spawners, looping sounds, HUDs, the
  player list) and wipes it on a hop. The client is modelled by its own set of resources, driven by the
  commands sent to it. `Session` is the state machine with its shadow of the client; `Transparency` says
  that the client gets what the server sends; the next four modules say exactly when the parts that are not
  simply tracked are right; `SessionConn` holds the connection objects
  that update their fields in place, and shows that they follow the state machine over every run.
- **Links** (`Links`, `LinkConn`): the pointers between a client and its server connection, with the pieces
  of packets, hops, fallbacks, kicks and teardown of all goroutines interleaved freely; `LinkConn` shows that
  the connection objects of `SessionConn` follow them.
- **Content** (`NodeMux`): one 16-bit id space for the node definitions of all servers, its forward and
  reverse tables, and the translation of map blocks.
- **Names** (`Textures`, `TextureMatching`, `Names`, `TextureNames`): prefixing of content names, and the replacement of
  texture names inside a text as leftmost, greedy matching.
- **Media** (`MediaMux`, `MediaCache`, `MediaTransfer`, `Announcement`): the merged list, the packed announcement, the cache, the
  bunched sender and its receiver, put together to the whole exchange.
- **Login** (`Login`, `Registry`, `Admission`): one connection's login and sudo protocol, the global player
  set with its user limit under any interleaving of clients, and both together.
- **Configuration** (`Config`): adding and removing servers, reloading, hopping.
- **Texts** (`Base64`, `Credentials`, `Bans`, `FormspecEscaping`, with `Text` for the string functions
  they share): base64 (section 4 of RFC 4648), the SRP credential line, the ban file, formspec escaping.

Methods with loops and field updates are the source's own; the functions and predicates in their
contracts are the specification, and the lemmas prove what that specification is worth; some of them spell
it out without its own names, so that a slip in a constant or a field does not go unseen. A Go `range`
over a map is a loop that picks any remaining key. Characters of a `string` stand for bytes. Widths
matter and are explicit where Go's are 16 bits (node ids, name lengths, packet numbers). Returned
errors and run-time panics are values of `Outcome` or `Option`. Results of the authentication backend,
of SRP and of dialling are parts of the events or parameters, time is a number, a kick closes the
connection, and a file is a string.

## Where the code differs from what it says or from what one expects

The model follows the code. Each item names the members that state it.

- A hop before the player object is known sends no reset, so the client keeps what it holds while the new
  connection tracks nothing (`Session.RunShadowExactly`, `Session.HopTooEarly`).
- A fade to a gain other than zero stops the tracking of a sound that goes on
  (`Sounds.SoundsRunExactly`, `Sounds.SoundLost`).
- A detached inventory that is tracked more than once stays tracked when it is dropped
  (`DetachedInvs.DetachedRunExactly`, `DetachedInvs.DetachedTwice`).
- The client's objects are the server's under swapped ids only as long as each packet and hop meets a
  condition (`ObjectIds.ObjectsRunExactly`). Removed ids are not translated (`ObjectIds.RemovalRenamedExactly`,
  `ObjectIds.RemovalLost`);
  a new own id changes the meaning of objects already shown (`ObjectIds.OwnObjectRenamedExactly`); and the
  initial messages of the own object go out under a later server's id (`ObjectIds.InitialMessagesReachExactly`).
- After a hop the proxy still takes the previous server's id for the player's. Another object that comes
  under it replaces the client's own object (`ObjectIds.AdditionRenamedExactly`), and the next reset deletes
  that for good (`ObjectIds.OwnSurvivesExactly`, `ObjectIds.OwnReturnsExactly`, `ObjectIds.OwnLost`).
- An own object under id 0, which Minetest does not give out, survives a reset (`Session.ResetLeavesNothing`).
- A packet that was read before a hop can be sent after it, although its connection is not the client's any
  more (`Links.SentWasCurrent`, `Links.StaleSend`); what it brings is then not tracked
  (`LatePackets.LateExactly`, `LatePackets.LateMissedExactly`).
- A fallback that ends in a kick clears `cc.srv` before it looks there for the connection to unlink, which
  therefore keeps pointing at the closed client unless the teardown came first
  (`Links.FallbackUnlinksExactly`).
- Node ids are unique up to 65533 definitions and no further (`NodeMux.RoundTripExactly`), and a
  `ConnectTo` entry that names a node defined later becomes id 0 (`NodeMux.ConnectToExactly`).
- With 65536 bunches or more the packet numbers wrap and files are never sent
  (`MediaTransfer.AllSentExactly`); names of 65536 bytes or more break the announcement
  (`Announcement.RoundTripExactly`).
- The active state does not mean that a login was accepted, since `ToSrvCltReady` is taken in any state
  (`Login.UnauthenticatedExactly`); a second one closes a closed channel, which panics
  (`Login.PanicsExactly`).
- The user limit is never exceeded, but a client can be refused although there is room, because of others
  that are refused or still to be checked (`Registry.RoomSufficesExactly`, `Registry.BothRefused`).
- `AddServer` documents that a reload silently ignores the file's definition of a dynamic server's name;
  `LoadConfig` fails on it instead (`Config.DuplicateRefusedExactly`).
- A reload can take away the static server that a dynamic server's pool relies on
  (`Config.ReloadBackedExactly`), and a second reload forgets when a pool was added
  (`Config.AgeForgottenExactly`); which age a new server of a known pool gets is up to the order of a map
  (`Config.KnownPoolExactly`).
- `Banned` is documented to look at the address and the name (auth.go:68-71), but the backends look at the
  address only (`Bans.BannedAgreesExactly`, `Bans.BannedElsewhere`).
- The ban file loses entries with a vertical bar, a line break, a carriage return at the end or more than
  65535 bytes in a line (`Bans.RoundTripExactly`); a file that was written by hand can hold names that an
  export and import does not keep (`Bans.Transfer`).
- `DecodeVerifierAndSalt` panics on a credential without a verifier part (`Credentials.PanicsExactly`).
- Names of different pools meet when one pool's prefix begins with the other's
  (`Names.PoolsMeetExactly`), and a texture reference is rewritten to its file's new name only if the name begins with
  its one media run (`Names.AgreementExactly`).

## Model

| member | source | states |
|---|---|---|
| Session.ProcessShadow | process.go:740-923 | every upstream command keeps the tracked sets equal to what the client holds: HUDs with their types, spawners, players, objects outside the own id; detached inventories covered; sounds covered but for faded ones |
| Session.AddAllAgrees | process.go:753-784 | while the added objects are gone through, with the own id possibly becoming known on the way, what will be sent and what is tracked agree outside that id |
| Session.HopShadowExactly | hop.go:91-199 | a hop leaves the client matching the new connection's empty sets exactly if the player object is known or there is nothing to reset; with a known one, it holds nothing afterwards |
| Session.RunShadow | process.go:740-923 | the tracked sets are the client's after every run of upstream commands and hops in which hops happen once the player object is known or nothing is held |
| Session.RunShadowExactly | hop.go:91-199 | over every run they are so throughout exactly if every hop happens then |
| Session.HopTooEarly | hop.go:91-199 | a run whose hop is too early: the client keeps a HUD that nobody tracks |
| Transparency.SentUnchanged | process.go:875-995 | every command that is not about objects is passed on as it is and alone, but for initial player lists that are not the first |
| Transparency.ObjectsPacket | process.go:745-787 | a packet about objects is passed on with its removals and, in order and with their names, all objects but the own one once that is known; one message goes out for each of those |
| Transparency.ProcessTransparent | process.go:542-995 | one command changes the client's HUDs, spawners, sounds, inventories and player list as if the server had talked to it directly |
| Transparency.BetweenHops | process.go:542-995 | over any sequence of commands between hops the client holds, objects apart, what replaying the server's own commands to it gives |
| Transparency.SinceLastHop | hop.go:91-199 | after a hop and any commands it holds what these commands make of a client that holds nothing but fading sounds |
| Session.ResetLeavesNothing | hop.go:91-199 | over every such run, exactly what a reset leaves: sounds that fade, and of the objects the own one and object 0 as far as they are shown and not tracked |
| Session.NoZeroRun | process.go:753-784 | as long as no object is announced under id 0, the client never has one, and the two player ids become known together |
| Session.ResetLeavesOwn | hop.go:91-199 | then a reset leaves the own object exactly if it is shown and not tracked as another one, and no other object |
| Sounds.SoundsStepExactly | process.go:906-915 | one packet keeps the tracked looping sounds equal to the client's exactly unless it fades one of them to a gain other than zero |
| Sounds.SoundsRunExactly | process.go:906-915 | over every run with hops in time they are equal throughout exactly if no packet fades a sound that is tracked at that time to a gain other than zero |
| Sounds.SoundLost | process.go:912-913 | from any state, a looping sound that is started and turned down goes on untracked, and the reset of a hop does not stop it |
| Sounds.SoundLostRun | process.go:912-913 | the shortest such run |
| Sounds.SilentFadesOnly | process.go:912-913 | runs whose fades all end at zero never lose a sound |
| DetachedInvs.DetachedStepExactly | process.go:802-811 | one packet keeps the tracked inventories equal to the client's exactly unless it drops one that is tracked more than once |
| DetachedInvs.DetachedRunExactly | process.go:802-811 | over every run with hops in time they are equal throughout exactly if no packet drops an inventory that is tracked more than once at that time |
| DetachedInvs.DetachedTwice | process.go:802-811 | the shortest run that breaks it: two announcements and one removal leave an inventory tracked that the client has dropped |
| ObjectIds.RemovalRenamedExactly | process.go:748-751 | after a removal the client's objects are still the server's under swapped ids exactly if the packet removes neither the client's own id nor, while the own id is in use on the server, the server's id of the player |
| ObjectIds.AdditionRenamedExactly | process.go:775-783 | another object joins the client's view under its swapped id, which keeps the view right exactly if the id is not the one that the proxy still takes for the player's |
| ObjectIds.OwnObjectRenamedExactly | process.go:754-774 | the player's object appearing under a new id keeps the meaning of the shown objects exactly if the id is the one known before or none of them has a swapped id |
| ObjectIds.FirstAdditionExactly | process.go:753-784 | before the own object is known, an addition keeps the client's objects the server's exactly if it is no own object under the id of another one |
| ObjectIds.HopAgreesExactly | hop.go:91-199 | a hop starts over with the client's own object alone, exactly if that is known or there is nothing else |
| ObjectIds.RunUnpacked | process.go:745-787 | a packet of removals and additions leads to the same state as its parts one after the other, over every run |
| ObjectIds.ObjectsRunExactly | process.go:745-787 | over every run, first own object, hops and all, the client's objects are the server's under swapped ids throughout exactly if every removal, addition and hop meets its condition when it comes |
| ObjectIds.OwnSurvivesExactly | hop.go:101-105 | a reset takes the client's own object away exactly if it is not shown or is tracked as another one |
| ObjectIds.OwnTrackedExactly | process.go:775-783 | it gets tracked so exactly by another object under the id that the proxy takes for the player's |
| ObjectIds.OwnReturnsExactly | process.go:753-784 | once it is lost, no later own object brings it back, only another object takes its place |
| ObjectIds.OwnLost | hop.go:101-105 | the run in which it is lost: own object, hop, another object under the same id, hop |
| ObjectIds.RemovalLost | process.go:748-751 | a run in which the removal of another object takes the client's own object away |
| LatePackets.LateExactly | process.go:542-547 | a packet that has read its client before a hop and is processed behind the reset leaves the tracked sets right exactly if it brings nothing that the new connection does not track and takes nothing that it does |
| LatePackets.LateMissedExactly | hop.go:91-199 | the next reset misses something exactly if the late packet brought something untracked |
| LatePackets.LateRunExactly | process.go:542-547 | over every run of commands, hops and late packets the tracked sets are right throughout exactly if every hop is in time and every late packet is of that kind |
| ObjectIds.MessagesReachExactly | process.go:740-744 | a message goes out under the id by which the client knows the object that the server means, and finds one exactly if the server has announced it |
| ObjectIds.RunMessagesReach | process.go:740-744 | so it does over every run whose removals, additions and hops meet their conditions |
| ObjectIds.InitialMessagesReachExactly | process.go:764-774 | the initial messages of the own object on a later server, whatever id it has there, reach the player exactly if the client knows it by the same id, else another object exactly if one is shown under that id, else nobody |
| SessionConn.ClientConn.ResetClient | hop.go:93-199 | the reset loops, in any order of the maps, take exactly the tracked resources from the client |
| SessionConn.ClientConn.Connect | connect.go:12-53 | a new connection points back, tracks nothing and becomes the client's; with a server already there nothing changes |
| SessionConn.ClientConn.HopRaw | hop.go:60-235 | which error each refused hop gives and that it changes nothing; a hop that goes through unlinks and closes the old connection, resets the client exactly if the player object is known, and connects it to the server that was asked for; when dialling fails all but the last has happened |
| SessionConn.ClientConn.Teardown | client_conn.go:147-156 | teardown unlinks and closes the connection and changes nothing it tracked |
| SessionConn.ClientConn.KickAfterFallback | fallback.go:11-31 | the client ends up closed without a server, and the connection it had still points at it and stays open, because the pointer is cleared before the connection is looked up |
| SessionConn.ClientConn.Fallback | fallback.go:5-61 | without a fallback server, or if the hop there fails, the client is kicked, and only a hop that got past its checks has unlinked the old connection; otherwise it is reset and connected to the fallback server |
| SessionConn.ServerConn.SwapAOID | activeobject.go:5-13 | the two ids of the player are exchanged, others stay, and nothing happens without a client |
| SessionConn.ServerConn.ProcessObjects | process.go:745-787 | the loops over removed and added objects change ids, tracking and sent commands as the state machine does |
| SessionConn.ServerConn.DropDetached | process.go:805-810 | exactly the first entry with the name is taken out |
| SessionConn.ServerConn.ProcessPlayers | process.go:859-874 | only the very first list may be an initial one; the tracked set and the command passed on follow the state machine |
| SessionConn.ServerConn.Process | process.go:542-547 | a command is discarded without a client; otherwise all fields and what is sent follow the state machine |
| SessionConn.ServerConn.PassKick | process.go:640-652 | a kick that is passed on closes the client and unlinks this connection |
| SessionConn.ServerConn.ProcessKick | process.go:628-652 | kicks for five reasons lead to the fallback server, all others are passed on |
| SessionConn.Deliver | process.go:542-547 | one command processed by the objects is one step of the state machine, the client's view included |
| SessionConn.Serve | hop.go:60-235 | the objects go through every run of commands and hops as the state machine does, and the client is connected to the server of the last hop |
| LinkConn.Hop | hop.go:60-235 | a hop of the objects is its three pieces in `Links`, refused and failed ones included |
| LinkConn.Fallback | fallback.go:5-61 | so is a fallback, with the kick that ends it |
| LinkConn.KickAfterFallback | fallback.go:11-31 | the kick that ends a fallback is the closing, the clearing and the second lookup, which finds nothing |
| LinkConn.PassKick | process.go:640-652 | a kick that is passed on is the reading of the client, the closing and the unlinking |
| LinkConn.Teardown | client_conn.go:147-156 | the end of the client is its piece |
| LinkConn.Perform | client_conn.go:126-167 | every act of the objects leaves them as its pieces leave the net |
| LinkConn.Live | client_conn.go:126-167 | a client that goes through any hops, kicks, fallbacks, closing and teardown performs exactly the acts that are due, a teardown once it is closed and only once, and ends up as the run of all their pieces leaves the net |
| Links.StepSound | hop.go:85-89 | every atomic piece of a hop, fallback, kick, packet, connect or teardown keeps the link invariant |
| Links.RunSound | connect.go:48-51 | the link invariant holds after every interleaving |
| Links.ReadsAreCurrent | process.go:543-547 | at every point of every interleaving a connection that a client can be read from is, while the client is open, that client's current one, and there is at most one |
| Links.SentWasCurrent | process.go:543-547 | whatever is sent to an open client comes from the connection that was current when its processing read the client; it is stale exactly if a hop has cleared the pointer since, and unlinked exactly if one has begun since |
| Links.StaleSend | process.go:543-547 | a run in which a stale packet is sent |
| Links.AbandonedExactly | fallback.go:19-28 | a connection is marked abandoned exactly if at some point of the run the client's pointer was overwritten while the two pointed at each other |
| Links.TeardownUnlinksExactly | client_conn.go:147-156 | over every run, a connection still points at the client after teardown exactly if it did before and was abandoned at some point |
| Links.AbandonedStaysExactly | fallback.go:19-28 | such a link stays through every piece except the end of a kick that this very connection passes on |
| Links.FallbackUnlinksExactly | fallback.go:10-31 | a fallback that kicks and the teardown, in all three orders: teardown first unlinks everything, otherwise exactly what pointed at the client before still does |
| NodeMux.CounterCycles | content.go:492-495 | the k-th id is the k-th unreserved one, counted modulo 65533; no reserved id is ever given out |
| NodeMux.CounterInjectiveExactly | content.go:492-495 | no two definitions share an id exactly while there are at most 65533 |
| NodeMux.MuxNodeDefs | content.go:423-500 | the nested loops build, for all connections, exactly the forward table, the reverse table and the renumbered definitions with all their names and textures rewritten |
| NodeMux.MuxOne | content.go:451-495 | the body of the inner loop extends both tables and the definitions by one definition, and the counter by one step that wraps at 16 bits and skips the reserved band |
| NodeMux.Rename | content.go:469-489 | every name and texture field of a definition is rewritten, each tile included |
| NodeMux.ReferencesSurvive | content.go:484-489 | within a pool, a definition refers to another one as its flowing, source or dig-predicted node afterwards exactly if it did before, field by field |
| NodeMux.FieldsPrefixed | content.go:469-489 | each name field holds its own former value with the prefix, shared names excepted |
| NodeMux.TexturesRewritten | content.go:471-480 | each texture field and each tile is rewritten in its own place |
| NodeMux.TexturesFound | content.go:471-480 | each of them that names a texture file names it as the client gets it |
| NodeMux.MuxedIs | content.go:448-495 | the k-th definition has id k below 125 and k + 3 from there up to 65532, and the name with its own server's pool in front |
| NodeMux.FlatConcat | content.go:448-450 | definitions are numbered connection by connection |
| NodeMux.FlatOne | content.go:448-450 | and within a connection in their order, each with that server's name and pool |
| NodeMux.ReservedIs | content.go:427-446 | the reserved ids are 125 to 127, which leaves 65533 |
| NodeMux.UndefinedIs | content.go:581-588 | ids without an entry: a server without definitions keeps them, another one's read as 0 |
| NodeMux.RenamedInjective | content.go:469-489 | within a pool, different definitions stay different |
| NodeMux.FlatWellFormed | content.go:538-562 | with one content connection per server and distinct unreserved local ids in each, all definitions together are well-formed |
| NodeMux.RoundTripExactly | content.go:581-598 | every defined node comes back from the client as it left its server exactly if there are at most 65533 definitions |
| NodeMux.BackAndForth | content.go:581-598 | every allocated id, translated back and forth, is the same id, however many definitions there are |
| NodeMux.ReservedFixed | content.go:581-598 | the reserved ids mean the same in both directions on every server |
| NodeMux.TranslationFaithful | content.go:581-588 | two usable local ids get the same global id exactly if they are equal |
| NodeMux.BlockFaithful | process.go:883-886 | a block of usable cells reaches the client with equal cells equal and different cells different |
| NodeMux.TranslateBlock | process.go:883-886 | every cell of the block is translated in place, each once |
| NodeMux.ConnectToExactly | content.go:481-483 | a ConnectTo entry becomes the id that the client sees exactly unless the same server defines the named node later |
| Textures.Pattern.ReplaceAllStringSubmatchFunc | formspec.go:23-38 | the loop over the matches replaces each of them by what the callback makes of it, from left to right, and copies what lies between |
| Textures.Pattern.PrependedIsRewritten | formspec.go:12-14 | prefixing every match inserts the prefix in front of every maximal run of the character class that holds a media name, once, and changes nothing else |
| Textures.Pattern.RewriteFirst | formspec.go:27-37 | rewriting run by run is rewriting around the first match and going on behind it |
| Textures.Pattern.OncePerRun | formspec.go:27-35 | every match lies within a maximal run of the character class, and a foreign character separates any two matches |
| TextureMatching.MatchHereIsGreedy | formspec.go:9 | a match at a position takes the longest repetition there and the first fitting extension; none is reported exactly if the pattern does not match |
| TextureMatching.FindIsLeftmostGreedy | formspec.go:9 | the first match starts at the leftmost position where the pattern matches at all and is greedy there |
| TextureMatching.RewriteConcat | formspec.go:23-38 | texts that meet at the edge of a run are rewritten independently |
| TextureMatching.RewriteRoundTrip | formspec.go:11-14 | the original text can be recovered from the rewritten one, for every prefix and every text |
| Names.IsDefaultNode | content.go:600-624 | membership in the list of shared names, by the loop of the source |
| Names.PrependRaw | content.go:626-636 | default names stay, other texture texts are rewritten by runs, other names get the prefix |
| Names.TexturePatternValid | formspec.go:9 | the dot and all extension letters, in either case, are in the character class, so matches stay within runs |
| Names.TextureFound | formspec.go:9 | so the first texture name found is the leftmost and greedy match of the expression, and none is missed |
| TextureNames.TexturePrefixed | formspec.go:9 | a name of letters, digits, hyphens, underscores and dots with any of the nine extensions, in any letter case, gets the prefix; only sun.png and moon.png do not |
| TextureNames.NoExtensionUnchanged | formspec.go:9 | a text without any of the nine extensions behind a dot is left as it is |
| TextureNames.OtherCharSeparates | formspec.go:9 | any other character ends a name: the two sides are rewritten independently |
| TextureNames.DefaultsAre | content.go:600-624 | the shared texture and item names, spelled out |
| TextureNames.NamePrefixed | content.go:626-640 | every other item name gets the pool and an underscore in front |
| Names.PrependInjective | content.go:638-640 | within one pool different names stay different, and exactly the default names stay as they are |
| Names.PoolsMeetExactly | content.go:638-640 | names of two pools can meet exactly if one prefix begins with the other |
| Names.TextureInjective | content.go:642-646 | different texture references stay different for every pool name, the exempted names included |
| Names.AgreementExactly | content.go:502-514 | a reference to a file is rewritten to the file's new name exactly for the shared default names and for names whose only media run starts the name, sun and moon excepted |
| Names.MediaFileAgreement | content.go:502-514 | in particular for every file name made of pattern characters with a media name in it, other than sun.png and moon.png |
| MediaMux.MuxMedia | content.go:502-514 | the loops over connections and files build the merged media list |
| MediaMux.MergedExactly | content.go:502-514 | the client gets exactly the files of all connections, each with its digest and data under its pool's name for it |
| MediaMux.ReferenceFindsFile | content.go:502-514 | a rewritten reference to one of a pool's texture files is the name of that very file |
| MediaCache.FileSafeInjective | mediacache.go:12-14 | two digests share a cache file only if they are equal |
| MediaCache.FileSafeIsCharwise | mediacache.go:39-40 | the two replacements translate each character on its own |
| MediaCache.FileSafeSpelled | mediacache.go:12-14 | slashes become underscores and pluses become hyphens, as in section 5 of RFC 4648 |
| MediaCache.Cache.FromCache | mediacache.go:9-32 | the media list grows by the cached file exactly if there is one |
| MediaCache.Cache.UpdateCache | mediacache.go:34-44 | afterwards a lookup yields the last data written under that very digest, and otherwise what was there before |
| MediaTransfer.FindNamed | content.go:315-338 | the first entry with the name, or none |
| MediaTransfer.MakeBunches | content.go:302-344 | the bunches hold the known requested files in order; each but the last crossed 5000 bytes with its final file, the last is below |
| MediaTransfer.SendMedia | content.go:302-353 | one packet per bunch, numbered in order, with 16-bit numbers |
| MediaTransfer.BunchingUnique | content.go:324-333 | the files determine the bunches |
| MediaTransfer.BunchCount | content.go:326-333 | there are at most 1 + total / 5000 bunches |
| MediaTransfer.BunchesSpelled | content.go:324-333 | the same bounds in bytes: each bunch but the last crosses 5000 with its final file |
| MediaTransfer.KnownInOrder | content.go:313-344 | requests are answered in their order, each for itself |
| MediaTransfer.KnownOne | content.go:315-338 | a request for a file's name is answered with that file, if it is the first of that name |
| MediaTransfer.FillSpec | content.go:283-290 | receiving changes data only, only that of each name's first entry, and the last file of a name wins |
| MediaTransfer.KnownData | content.go:313-344 | a requested name is sent with the data of the sender's first entry of that name |
| MediaTransfer.Delivery | content.go:282-297 | the receiver ends up with the sender's data in every requested known file and nothing else changed, and success comes with the last packet and not before |
| MediaTransfer.AllSentExactly | content.go:346-352 | all files are sent exactly if there are fewer than 65536 bunches |
| Announcement.Announce | process.go:398-419 | the encoder loop packs lengths, names and digests, and gives up at the first digest that is not base64 |
| Announcement.RoundTripExactly | content.go:250-255 | the decoder reads back names and digests in order, with every slice in range, exactly if every name is shorter than 65536 bytes |
| Announcement.DigestFits | process.go:400-411 | the 20 bytes of an SHA-1 digest are announced as they are |
| Announcement.ContentConn.HandleAnnounceMedia | content.go:246-281 | the media list and the request after an announcement; it panics exactly if a slice or index is out of range, with the entries before that taken |
| Announcement.ContentConn.TakeEntry | content.go:257-273 | a cached file is added with its data; another is added without, requested, and its digest given to entries of that name |
| Announcement.ContentConn.Redigest | content.go:263-268 | every entry of the name gets the digest, as the inner loop does not stop |
| Announcement.ContentConn.HandleMedia | content.go:282-297 | one packet's effect on the media list, success and the connection; with the last packet, and only then, it is closed and every file is in the cache under its digest |
| Announcement.AnnouncedShape | content.go:246-274 | with distinct names the list after the announcement is the announced one with cached data, and exactly the uncached names are requested |
| Announcement.ExchangeReproduces | content.go:246-297 | announcing, looking up, requesting, sending and receiving leave the receiver with exactly the sender's media list and success, whatever part of it was cached |
| Login.StepSafe | process.go:34-466 | every packet in every state keeps the login invariant |
| Login.LoginSafety | process.go:169-377 | over all packet sequences a login is accepted at most once, password changes never exceed one plus the accepted sudo proofs, and a proof is in hand exactly in the sudo state |
| Login.HelloExactly | process.go:34-168 | the greeting is sent exactly to clients in the initial state that pass every check, and with it only state, name and method change |
| Login.AcceptedWasAdmitted | process.go:34-168 | whoever is accepted, or may still be, has passed all those checks under the name in use |
| Login.AcceptedTookCredential | process.go:169-377 | whoever is accepted has passed them and has then given the right proof if the name was known, and set a first password if not |
| Login.AcceptedExactly | process.go:169-377 | a login that was not accepted yet is accepted exactly on the credential that the greeting has asked for, and the client stays connected |
| Login.HonestLogin | process.go:34-377 | an admitted client that sends the packets it is asked for is accepted, and becomes active when it is ready |
| Login.HonestSudo | process.go:169-377 | a client in use that proves its password may change it, once |
| Login.InitReasonsExactly | process.go:34-168 | each reason for turning a new client away, with the numbers of the versions and of the longest name, and when there is none |
| Login.SaltSentExactly | process.go:241-308 | the start of a proof is answered exactly when one may be given and all of it is in order |
| Login.SudoExactly | process.go:309-377 | sudo is granted, denied and used up exactly on these packets in these states |
| Login.FirstPasswordExactly | process.go:184-222 | a first password is set exactly when the greeting has asked for one and an empty one is allowed |
| Login.NewExactly | process.go:222-222 | a client counts as new exactly from its first password's acceptance on |
| Login.WrongProofExactly | process.go:353-375 | a wrong proof is recorded, and ends a login but not a session in use |
| Login.OtherKicksExactly | process.go:169-333 | packets that do not fit the method, and failures of the backend, end the connection exactly then |
| Login.ClosedExactly | process.go:34-377 | a connection is closed at once exactly by leaving and by kicks other than a ban |
| Login.NoAcceptBehindReady | process.go:452-466 | no login is accepted after the client was ready, over all continuations |
| Login.UnauthenticatedExactly | process.go:452-466 | a client is used without an accepted login exactly if none was accepted before it became ready |
| Login.PanicsExactly | process.go:452-466 | over all packet sequences, the proxy panics exactly if a ToSrvCltReady is processed after another one |
| Login.ClientConn.Process | process.go:31-466 | one packet changes the connection's fields and what was sent as the state machine does, and keeps it safe |
| Login.ClientConn.ProcessInit | process.go:34-168 | the checks in the order of the source, each with its kick reason |
| Login.ClientConn.ProcessFirstSRP | process.go:169-240 | first password and sudo password change, with both failures |
| Login.ClientConn.ProcessBytesA | process.go:241-308 | the start of a proof, for login and for sudo |
| Login.ClientConn.ProcessBytesM | process.go:309-377 | the proof, for login and for sudo, with denial, failure record and kick |
| Registry.StepConsistent | process.go:80-105 | every atomic piece keeps the player set equal to the distinct names of the clients that registered |
| Registry.PlayersAreNames | process.go:83-105 | the player set is the image of the registered clients under their names |
| Registry.StepWithinLimit | process.go:133-145 | no piece lets more clients than the limit pass the check |
| Registry.RegistrySafety | process.go:80-145 | both hold after every interleaving of any number of clients, although the limit is read outside the lock |
| Registry.RejectedIsHarmless | client_conn.go:141-145 | the teardown of a client whose name was taken removes nobody's entry |
| Registry.RegisteredExactly | process.go:83-105 | over every run, a client gets its name exactly if no other client holds it, and is turned away without one otherwise |
| Registry.TornDownFrees | client_conn.go:141-145 | the teardown of a client that holds a name frees exactly that |
| Registry.RefusedExactly | process.go:133-145 | over every interleaving, a client is refused at the check exactly if more clients than the limit hold a name, the refused ones that are not torn down included |
| Registry.RoomSufficesExactly | process.go:133-145 | while fewer than the limit have passed, a client is let in exactly if the room also suffices for all others that hold a name without having passed |
| Registry.BothRefused | process.go:133-145 | an interleaving of two clients at a limit of one in which both are refused |
| Admission.RunSound | process.go:34-168 | over every interleaving of pieces of the registry and packets of all connections, whoever is accepted or may be has passed the check under the name that the registry has |
| Admission.AcceptedWithinLimit | process.go:80-145 | so the clients in use have distinct names, all in the player set, and are no more than the limit |
| Registry.Players.DoRegister | process.go:83-105 | the section under the lock: the name is taken if it is free, otherwise the client's name is cleared |
| Registry.Players.DoCheckLimit | process.go:133-145 | the check against the set size keeps consistency and the limit |
| Registry.Players.DoTeardown | client_conn.go:141-145 | the entry of a named client goes; a rejected one changes nothing |
| Config.Pools | config.go:231-242 | the servers partitioned by pool, each exactly once, with no empty pool |
| Config.PoolsSpelled | config.go:231-242 | each server is in the pool it names and in no other |
| Config.AddSpelled | config.go:110-134 | a server is added exactly under a free name to a pool with a static member, with its address, pool and fallback, as dynamic and with the age of the proxy |
| Config.RemoveSpelled | config.go:139-161 | a server is removed exactly if it is dynamic and no client is connected to it |
| Config.AddKeeps | config.go:110-134 | adding a server to a pool with a static member keeps that every dynamic server is backed, and the pools |
| Config.RemoveKeeps | config.go:139-161 | so does removing a dynamic server |
| Config.RunKeepsPools | config.go:110-161 | and so does every run without a reload |
| Config.ReloadKeepsDynamic | config.go:325-346 | a reload neither adds nor drops a dynamic server, and changes none that names its pool |
| Config.ReloadSucceedsExactly | config.go:325-346 | a readable file is taken exactly if it defines no dynamic server and drops no static one that has a client |
| Config.ReloadSpelled | config.go:289-353 | the registry after a reload: the servers of the file with their addresses, fallbacks and pools, which default to their names, and the dynamic ones as they were; the user limit defaults to 10 |
| Config.DuplicateRefusedExactly | config.go:326-334 | a file that drops no server in use is taken exactly if it defines no dynamic server |
| Config.ReloadKeepsConfigured | config.go:325-346 | a reload, successful or not, leaves every connected client's server configured |
| Config.RunKeepsConfigured | config.go:110-382 | across every run of additions, removals, reloads, hops, joins and leaves each connected client's server stays configured |
| Config.ReloadBackedExactly | config.go:325-353 | after a reload the dynamic servers are backed exactly if the file has a server in each of their pools |
| Config.AgeExactly | config.go:361-378 | a server of the file that was there before passes the age check for every client, one in a new pool exactly for clients not older than the reload |
| Config.NewServerHopExactly | hop.go:66-81 | a client may hop to such a server exactly if it is connected, the pool is not denied, and it passes that check |
| Config.HopSpelled | hop.go:66-224 | a connected client's hop is refused, goes through or leaves it without a server exactly then, and no other client is touched |
| Config.KnownPoolExactly | config.go:361-378 | a new server of a known pool passes it whatever the order of the map exactly if all members did |
| Config.AgeForgottenExactly | config.go:289-382 | over any sequence of reloads, failed ones included, a server whose pool was new at the first of them passes the check exactly for clients not older than that, until another reload succeeds, and then for all |
| Config.Proxy.UsesServer | config.go:153-157 | whether any client is connected to the server, by the loop over the clients |
| Config.Proxy.AddServer | config.go:110-134 | success exactly for a free name and a pool with a static member, the new registry, and no change otherwise |
| Config.Proxy.RmServer | config.go:139-161 | success exactly if the server is gone afterwards; static servers and servers in use stay |
| Config.Proxy.LoadConfig | config.go:289-382 | success exactly for a readable file without conflicts, the whole new registry for any iteration order, and on failure the old configuration |
| Config.Proxy.TakeOverDynamic | config.go:325-346 | the dynamic servers are carried over unless some server conflicts |
| Config.Proxy.SetPoolAges | config.go:361-378 | new static servers get the age of an old member of their pool, or the current time if the pool is new |
| Config.Proxy.HopRaw | hop.go:66-81 | success exactly if the server exists, its pool is permitted and not younger than the client, and dialling works |
| Base64.RoundTrip | auth.go:98-118 | decoding inverts encoding on every byte string, padding included |
| Base64.AlphabetIs | auth.go:98-100 | the alphabet of table 1 of RFC 4648 |
| Base64.QuadIsNumber | auth.go:98-100 | a group's symbols are the digits to base 64 of its three bytes read as one number |
| Base64.PaddedIs | auth.go:98-100 | shorter groups are filled up with zero bytes, whose symbols are replaced by padding |
| Base64.Injective | content.go:255 | different digests have different encodings |
| Credentials.RoundTrip | auth.go:98-118 | the credential line gives back salt and verifier, for all byte strings |
| Credentials.LineSpelled | auth.go:98-100 | the stored line is the header, the salt and then the verifier |
| Credentials.HeaderRequired | auth.go:103-105 | a text is refused for its header exactly if it does not start with it |
| Credentials.PanicsExactly | auth.go:102-118 | decoding panics exactly for a right header with a readable salt and nothing behind it |
| Bans.RoundTripExactly | auth_mtsqlite3.go:263-303 | a written map is read back unchanged, in any order of its entries, exactly if no entry has a separator, a line break, a carriage return at its end or too long a line |
| Bans.ReadIsPlain | auth_mtsqlite3.go:272-280 | whatever is read has neither the separator nor a line break |
| Bans.ReadRendered | auth_mtsqlite3.go:272-284 | what a written file of plain entries reads as: carriage returns at line ends are lost, and too long a line is an error |
| Bans.LinesSpelled | auth_mtsqlite3.go:296-300 | a written file consists of one line per entry: the address, a vertical bar and the name |
| Bans.LineRead | auth_mtsqlite3.go:272-284 | such a line is read back as that entry if it has at most 65535 bytes, and is an error otherwise |
| Bans.PartsRead | auth_mtsqlite3.go:276-277 | parts behind a second vertical bar are ignored, and a line without any makes the reader panic |
| Bans.LiftedExactly | auth_mtsqlite3.go:191-202 | after an unban no entry has the id as its address or name, and every other entry stays |
| Bans.ImportedValue | auth_mtsqlite3.go:225-233 | of several imported entries for one address the last one counts |
| Bans.ImportExport | auth_mtsqlite3.go:225-252 | importing an export into an empty store reproduces the exported map |
| Bans.Transfer | auth_mtsqlite3.go:225-252 | exporting one file and importing it into an empty one always goes through if the file can be read, and leads to the same entries exactly if all are storable, that is, no name ends with a carriage return |
| Bans.BannedAgreesExactly | auth_mtsqlite3.go:209-217 | looking at the address alone agrees with the documented address or name exactly if the address is banned or the name is not |
| Bans.BannedElsewhere | auth_mtsqlite3.go:209-217 | a banned name from another address, where it does not |
| Bans.BanFile.ReadBans | auth_mtsqlite3.go:263-287 | the scanner loop yields the map, the error or the panic of the specification |
| Bans.BanFile.WriteBans | auth_mtpostgresql.go:343-357 | every entry is written once, in some order, and read back exactly if all are storable |
| Bans.BanFile.Ban | auth_mtsqlite3.go:173-181 | the entry is set; an unreadable file stays as it is |
| Bans.BanFile.Unban | auth_mtsqlite3.go:185-205 | exactly the entries whose address or name is the given id go |
| Bans.BanFile.Banned | auth_mtpostgresql.go:263-271 | only the address counts, and an unreadable file counts as a ban |
| Bans.BanFile.ImportBans | auth_mtpostgresql.go:279-287 | entry by entry, stopping at the first unreadable file; storable entries all arrive |
| Bans.BanFile.ExportBans | auth_mtsqlite3.go:237-252 | every entry exactly once |
| Bans.BanFile.Run | auth_mtsqlite3.go:173-233 | every run of bans, unbans and imports of storable entries refines the same run on an abstract map |
| FormspecEscaping.SixPassesAreOne | plugin_formspec.go:32-40 | six replacements over the whole string amount to one pass that puts one backslash before each special character |
| FormspecEscaping.CharactersEscaped | plugin_formspec.go:33-38 | the six characters that get a backslash, and that no other does |
| FormspecEscaping.EscapeRoundTrip | plugin_formspec.go:32-40 | a one-pass unescape inverts escaping on every string |
| FormspecEscaping.EscapedExactly | plugin_formspec.go:32-40 | the escaped strings are exactly those in which every special character is escaped and every backslash escapes one |

## Left out

- Sockets, acknowledgements, timeouts, retransmission, logging, plugins, server list announcements, telnet, SQL: input and output.
- Scheduling and locks: pieces are atomic where the source holds a lock or runs on one goroutine; `connect` is one piece. Freedom from deadlock is not claimed: on connection loss `fallback` runs while `sc.mu` is held (server_conn.go:122-146), which `HopRaw` takes again. Nil dereferences by a teardown in the middle of `HopRaw` are not modelled.
- SRP and SHA-1 arithmetic: a proof comparison is a boolean in the event, digests are any 20 bytes.
- Inventory serialisation with `prependInv` and `prependInvKeep`: the library's keep semantics are not part of this model.
- Mod channels, dynamic media tokens, and the start-up fallback loop.
- Permissions, server groups and selectors, callback registries, and the static parameters sent on a hop (sky, clouds, sun and the like).
- The `KickOnNewPool` kicks of a reload.
- `muxItemDefs`: the same `prepend` applied to more fields. `addDefaultTextures` and `cacheMedia` are not modelled either.
- Textures.Pattern.ReplaceAllStringSubmatchFunc: models patterns of the texture kind, whose only group is the whole match; the item patterns of `prependFormspec` and the choice of `prependTextureOrItem` are not covered.
- NodeMux.MuxNodeDefs: a definition has its id and the fields that are rewritten. Waiting for the connections is left out. The source overwrites a `ConnectTo` slice that the content connection shares and that is not read again; the model returns new sequences.
- NodeMux.TranslateBlock: only the client's tables are used, so a pool member other than the contacted one, which has no table, passes ids on unchanged.
- Login.ClientConn.Process: covers the packets that concern authentication; `ToSrvInit2`, chat, interaction and forwarding do not change the modelled fields. An asynchronous kick of a banned client closes the connection by a later event.
- Registry.RegistrySafety: the user limit is fixed during a run.
- LatePackets.LateExactly: a late packet is processed whole behind the reset; one that is overtaken in its middle is not modelled.
- Session.RunShadow: a client expires particle spawners and ended sounds by itself too, which the model's client does not. Whether a client forgets its player list on an initial one is a parameter. Ids attached to particle spawners, sounds and object messages are translated by the same swap and not tracked further.
- SessionConn.ServerConn.ProcessKick: the chat message and the remembered reason are left out.
- SessionConn.Serve: all its hops go through; a hop that fails after the reset leaves the client without a server for good, as `SessionConn.ClientConn.HopRaw` states.
- SessionConn.ClientConn.KickAfterFallback: the acknowledgement of the kick is taken to arrive; the race with the client's own teardown is in `Links.FallbackUnlinksExactly`.
- LinkConn.Live: the acts of one client come one after the other, each up to its end; their interleavings are those of `Links`.
- Announcement.ContentConn.HandleMedia: files of the cache are always readable.
- Announcement.ContentConn.HandleAnnounceMedia: the remote media addresses are left out.
- Bans.BanFile.Ban: opening and writing the file does not fail.
- Config.Proxy.LoadConfig: models the user limit, default server, pool kick flag and the servers with address, pool and fallback; the other scalar fields are carried the same way. Groups, lists and a `null` servers object are left out.
- Config.Proxy.HopRaw: only what the registry decides; the connection side is in `SessionConn` and `Links`.
