# oBMP in Dafny

A model of the collector side of oBMP: a BMP byte stream (RFC 7854) is cut into messages, the BGP UPDATEs
inside (RFC 4271) are taken apart, and each peer's routing table queues its changes for a consumer, with a
refresh that ends in end-of-RIB (section 2 of RFC 4724). The main results are statements over every stream,
every way of cutting it into blocks, every run of producer and consumer calls and every choice of `popitem`.

| file | models |
|---|---|
| `RibQueue`, `RibInvariant`, `RibAgreement`, `RibDrain`, `RibRefresh`, `RibAsWritten`, `RibLedger`, `RibOrder`, `RibCounts`, `BgpRibDb` | `BGPribdb.py`: operations on values, their invariant, what a consumer ends up with, and the class |
| `RibDb` | `ribdb.py`, the older table with four dictionaries |
| `Framing`, `Framers` | message framing: `bmpparse.py`, `bmpblkparse.py`, `spider.py`, the loop of `collector.py` |
| `Delimited` | the records of `debag.py` and `topic.py` |
| `PrefixCodec`, `AsPath`, `BgpUpdate`, `BgpAttributes`, `BgpMessage` | `bgpparse.py` |
| `BmpSession`, `PeerRecords`, `BmpApp`, `EndToEnd`, `Interleaving` | `bmpparse.py` headers, `bmpapp.py`, `collector.py`, the composition, and consumers that read while messages arrive |

Where the source changes objects or runs loops there is a class or a method, proved against a function on
values; the lemmas are about those functions.

The layouts that messages, attributes and records are read from are written out a second time, as encoders with
literal numbers; the lemmas about reading are stated against those.

## As written and as intended

In a few places the code does something other than its own comments or evident purpose. Such a function is
modelled once, with a branch on `Types.Variant`: `AsWritten` follows the code line by line, `Intended` follows
the comment. For `AsWritten` there is a failing case and the exact condition under which the code meets the
property; for `Intended` the property is proved outright. A statement without a variant, or for any variant
`v`, holds of the code as written.

- `BGPribdb.py:122` asks whether the *path* is a key of `rib`, whose keys are prefixes, so the duplicate test
  never succeeds and the branch at 125-130 is dead. Intended: ask for the prefix.
- `BGPribdb.py:206-209`: the list of withdraws is popped, then `path_attributes[None]` raises `KeyError`, which
  line 210 turns into "nothing left". Queued withdraws are lost. Intended: hand the groomed list out with `None`.
- `BGPribdb.py:124`: with that list gone the next withdraw raises `KeyError` after `rib` has been changed and
  with the lock held, so every later producer call hangs. The prefix of that withdraw is called torn in the model:
  it is withdrawn in the table and was never queued. Since the first read of all throws the list away, an update,
  two reads and a withdraw are enough. Intended: create the list again.
- `BGPribdb.py:172` tests a hash for truth, so a refresh skips a path whose hash is zero. Intended: skip
  withdraws only.
- `BGPribdb.py:214` hands out the hash where the attributes are meant.
- `bmpblkparse.py:34-56`: `msg_tail` is set only when the loop breaks, and the guard lets five bytes through,
  where reading the type raises. Intended: set it on every exit, and wait for six bytes.
- `bgpparse.py:323-324` reads AS numbers from the start of the segment, header included, and too few of them.
  Intended: entry `i` at `2 + i*asn_len`, for every entry.
- `debag.py:41` compares bytes with an integer, so the marker is never checked; `debag.py:45-52` forgets the
  header when it decides whether a record is completely buffered. Intended: require the marker, count the header.

Faults that need no second variant, and are simply in the model: `get_next` stalls for ever on a length of zero
and passes on messages of one to five bytes (`bmpparse.py:171-174`); `push` loops for ever on a length of zero;
`Spider.get` slices from the end for a negative size; an attribute cut short by the end of its section is
accepted (`bgpparse.py:184`); reporting a missing mandatory attribute raises `NameError` (`bmpapp.py:153`), a
termination message always raises (`bmpparse.py:105`), and so do BGP messages other than UPDATE once their routes
are asked for. `ribdb.py` does not parse (`=` in line 134, read as `==`) and its class lacks `lock` and `unlock`.

## Assumptions

- Each public operation of a table is one atomic step. `get_update_request` takes no lock in the source.
- A hash of attributes and a hash of a peer header are arbitrary functions. No statement needs them to be
  injective except those that speak of attributes rather than hashes, which say so (`Separates`). A dictionary
  of attributes is an insertion-ordered list, because that order is part of what is pickled.
- `popitem` may pick any entry. A refresh is asked for by a consumer that starts again with an empty table.
- Which statistics, peer-down, peer-up and initiation messages `BMP_message` accepts is a parameter (`Env.accepts`).
- `bufsiz` of `Spider` is at least 1 and that of the record reader at least 16; reads of a file come up short only
  at its end.

## Model

| member | source | states |
|---|---|---|
| RibAgreement.NothingLeftMeansAgreement | BGPribdb.py:179-217 | over every legal run, a consumer told that nothing is left holds exactly the routes last announced and not withdrawn (intended) |
| RibAgreement.EndOfRibMeansSnapshot | BGPribdb.py:33-35 | at end-of-RIB the table is exactly what the last refresh announces of the table as it then was, whatever arrived since; a second refresh restarts this (both variants) |
| RibRefresh.EndOfRibMeansLastSaid | BGPribdb.py:33-35 | over every run, when the last refresh reaches end-of-RIB the consumer holds exactly the routes last announced before it was asked for (intended) |
| RibRefresh.EndOfRibAsWritten | BGPribdb.py:161-217 | as written it then holds exactly the bare hashes of those routes whose hash is not zero |
| RibRefresh.ZeroHashIsMissing | BGPribdb.py:172 | which covers all of those routes if and only if none of them hashes to zero |
| RibAgreement.SettledIsExpected | BGPribdb.py:117-217 | in every reachable state, reading everything now queued would leave each prefix as last announced or withdrawn (intended) |
| RibAgreement.ViewsAgree | BGPribdb.py:117-209 | every reachable state, lock held or not, keeps the invariant: a pending entry equals the table entry and is listed under its path (as written except for the torn prefix and for withdraws whose list is gone), every hash in use resolves, refresh lists are a partition, the consumer is on course for every prefix but the exempt ones; the lock is held exactly when a prefix is torn, and never as intended |
| RibAgreement.RibIsLastSaid | BGPribdb.py:119-125 | unless a withdraw has raised, the table is the last thing said about each prefix |
| RibAgreement.RefreshEstablishes | BGPribdb.py:161-177 | a refresh that gets the lock and splits the table by path re-establishes the whole invariant for a consumer starting empty |
| RibInvariant.GroomExact | BGPribdb.py:188-198 | grooming any list returns each prefix still waiting for exactly that path once, and clears exactly those |
| RibInvariant.PopDeliversPending | BGPribdb.py:203-209 | in a reachable state, lock held or not, that is exactly the set of prefixes other than a torn one whose pending path is the popped one, however often they flapped |
| RibInvariant.GetKeepsSettled | BGPribdb.py:200-217 | a read conserves where the consumer is heading, whichever entry is picked, in every reachable state of either variant |
| RibDrain.DrainsAgree | BGPribdb.py:203-214 | from any reachable state of either variant, lock held or not, two full drains that pick in different orders end in the same consumer table |
| RibDrain.DrainReachesLastSaid | BGPribdb.py:183-186 | from any reachable state a full drain gives the consumer the routes last announced (intended) |
| RibDrain.DrainShape | BGPribdb.py:183-217 | which read returns end-of-RIB (exactly one, right after the last refresh item) and which ones "nothing left", as if-and-only-if |
| RibDrain.DrainEmpties | BGPribdb.py:200-217 | the queue is empty after n reads if and only if n is at least refresh items + 1 + queued paths |
| RibDrain.RefreshItemsComeOnce | BGPribdb.py:212-214 | until end-of-RIB each read hands out one whole refresh item, each exactly once |
| RibAsWritten.AtomicUpdateMeetsComment | BGPribdb.py:120-130 | as written scheduling follows its comment exactly when the path has a list and the entry changes |
| RibAsWritten.WithdrawRaises | BGPribdb.py:136-159 | as written a withdraw raises, leaving the lock held and its first prefix withdrawn but not queued, if and only if the withdraw list is gone; an update never does |
| RibAsWritten.NothingLeftIsTrue | BGPribdb.py:203-211 | as written "nothing left" is true exactly when no path other than the withdraw list was queued |
| RibAsWritten.PathShortfall | BGPribdb.py:124-211 | as written, outside a refresh, lock held or not: exactly which prefixes the consumer routes by a wrong path, a bare hash counting as its path |
| RibAsWritten.TableOnlyGrows | BGPribdb.py:155-211 | as written a prefix leaves the consumer's table only by a refresh; after a withdraw has raised, nothing leaves it and the routes never change again |
| RibAsWritten.WithdrawIsTorn | BGPribdb.py:122-124 | announce, read twice, withdraw: the queue is empty, nothing is pending, the lock is held and the consumer keeps the withdrawn route |
| RibAsWritten.AnnouncementIsStranded | BGPribdb.py:122-124 | with the withdraw before the second read, the old announcement stays in update_requests with no list |
| RibAsWritten.WithdrawIsLost | BGPribdb.py:203-211 | a legal run with a refresh, in which nothing raises, that ends in "nothing left" with a withdrawn route still at the consumer |
| RibLedger.LedgerTracks | BGPribdb.py:117-217 | as written, over every run, a ledger of the calls alone knows the routes, the reads a refresh still takes, whether the list of withdraws is gone, which prefix is torn, and where bare hashes can be |
| RibLedger.NothingLeftAsWritten | BGPribdb.py:183-211 | as written, exactly when a consumer told "nothing left" holds the routes last announced: at the first ordinary read only if it holds nothing and nothing is live; later if every prefix it holds was announced since the last refresh, has no withdraw pending or raised, and no live route with a hash of zero is missing |
| RibLedger.Shortfall | BGPribdb.py:124-217 | as written, outside a refresh, exactly which entries differ from the attributes behind the live hash |
| RibLedger.BareUntilAnnounced | BGPribdb.py:212-214 | as written an entry with nothing pending is a bare hash exactly when its prefix was not announced since the last refresh |
| RibLedger.RoutesAreExpected | BGPribdb.py:145-147 | the attributes behind the live hashes are those last announced |
| RibAgreement.StoreKeepsFirst | BGPribdb.py:144-147 | over every run the attributes stored for a hash are the first that came with it, also when hashes collide |
| RibLedger.NothingLeftEndsRefresh | BGPribdb.py:201-217 | "nothing left" is never said during a refresh |
| RibLedger.EarlyReplyIsWrong | BGPribdb.py:203-211 | announce, then read: "nothing left", and the route is missing |
| RibLedger.BareHashIsHeld | BGPribdb.py:214 | announce, refresh, read it all: the queue is empty, nothing is pending, and the consumer holds a hash for attributes |
| RibOrder.OrdersAgree | bmpapp.py:152-156 | announce-then-withdraw and withdraw-then-announce (spider.py:109-114) leave the same table and queues if and only if no prefix is in both lists; as written, without the withdraw list, only if there is nothing to do |
| RibCounts.PendingIsBounded | BGPribdb.py:48-75 | while no withdraw has raised, for any set of paths, pending prefixes are at most the list entries (as written unless withdraws are counted and their list is gone), and pending paths at most the lists |
| RibCounts.WithdrawsAreBounded | BGPribdb.py:57-75 | as written, in every reachable state, pending withdraws are at most their list's entries if and only if the list is there or none is pending |
| RibCounts.SummaryWithdrawsAreBounded | BGPribdb.py:53-75 | the same for withdraws as the summary counts them, a hash of zero included: the bound holds if and only if the withdraw list is there or the list of the zero hash has an entry for each prefix pending for either |
| RibCounts.AnnouncementsAreBounded | BGPribdb.py:57-75 | as written, for any set of hashes, the bound on prefixes fails if and only if the announcement of a torn prefix is pending for one of them with its list gone, and every other list counted has only pending entries, each once |
| RibCounts.PathsAreBounded | BGPribdb.py:54-70 | as written the bound on paths fails if and only if there is such an announcement and every listed path has something pending |
| RibCounts.StrandedWithdrawIsUnbounded | BGPribdb.py:57-75 | as written the bound fails for withdraws, in a run in which nothing raises |
| RibCounts.StrandedAnnouncementIsUnbounded | BGPribdb.py:54-70 | as written both other bounds fail after an update, a read, a withdraw and a read |
| BgpRibDb.BGPribdb.AtomicUpdate | BGPribdb.py:117-134 | the object changes as the value operation says, whether it raised, and the prefix is counted as received unless it did |
| BgpRibDb.BGPribdb.AtomicWithdraw | BGPribdb.py:136-141 | the same with no path, counted as withdrawn as well |
| BgpRibDb.CountsOccurrences | BGPribdb.py:131-141 | the counter of a prefix grows by the number of times it occurs in the calls that returned |
| BgpRibDb.BGPribdb.Update | BGPribdb.py:143-153 | registers the path, schedules and counts every prefix, on the object |
| BgpRibDb.BGPribdb.Withdraw | BGPribdb.py:155-159 | schedules and counts every withdraw, on the object; a raise leaves the lock held and counts nothing |
| BgpRibDb.BGPribdb.Refresh | BGPribdb.py:161-177 | drops what was queued and builds lists that split the announced table by path, none empty, none with repeats |
| BgpRibDb.BGPribdb.GroomUpdates | BGPribdb.py:188-198 | the loop computes the grooming function and its effect on update_requests |
| BgpRibDb.BGPribdb.GetUpdateRequest | BGPribdb.py:200-217 | reply and new state for some legal pick |
| BgpRibDb.FiledSplits | BGPribdb.py:173-175 | filing one more announced prefix keeps the lists a split of what was visited |
| RibDb.UpdateRefinesPlain | ribdb.py:73-91 | an update keeps the dictionaries disjoint and is one assignment to the plain map |
| RibDb.WithdrawRefinesPlain | ribdb.py:93-110 | a withdraw keeps them disjoint and is one deletion from the plain map |
| RibDb.UpdatesRefinePlain | ribdb.py:112-116 | a list of updates assigns its items to the plain map one after the other |
| RibDb.WithdrawsRefinePlain | ribdb.py:118-122 | a list of withdraws deletes all its keys |
| RibDb.RefreshRefinesPlain | ribdb.py:124-135 | a refresh keeps them disjoint and leaves the plain map alone |
| RibDb.SizeAssertionHolds | ribdb.py:126-134 | the size assertion holds if and only if the three merged dictionaries share no key |
| RibDb.RunRefinesPlain | ribdb.py:18-32 | over every run, reads included, the dictionaries are disjoint and together equal the plain map |
| RibDb.RunKeepsInvariant | ribdb.py:18-52 | every run keeps the invariant with a reader, and the size assertion holds at its end |
| RibDb.StepStale | ribdb.py:93-110 | exactly which keys any one step leaves at the reader with nothing queued to remove them |
| RibDb.RunAccounts | ribdb.py:73-135 | over every run, reads included, that ledger knows the live, waiting, held and lost keys, whatever the four dictionaries went through |
| RibDb.ReaderAgrees | ribdb.py:8-14 | a reader that has read everything holds what the producer last told if and only if no key was lost, by a ledger of the calls alone: withdrawn while held with a newer value waiting, and neither updated nor refreshed since |
| RibDb.ReaderIsLeftStale | ribdb.py:80-110 | read, updated, then withdrawn: the key stays at the reader for good |
| RibDb.RIBdb.PutUnsent | ribdb.py:80-91 | the cascaded deletes on the object |
| RibDb.RIBdb.Delete | ribdb.py:99-110 | the cascaded deletes of a withdraw on the object |
| RibDb.RIBdb.MergeForRefresh | ribdb.py:124-134 | the merge on the object and whether its assertion passes |
| Framing.DrainConserves | bmpparse.py:162-174 | messages plus residue are the buffer, and the residue holds no complete message |
| Framing.DrainSplit | collector.py:47-56 | draining a longer buffer is draining the shorter one and going on from its residue, errors included |
| Framing.DrainMessages | bmpparse.py:162-174 | a stream of messages (version 3, a type up to 6, their own length) with an unfinished one behind gives back exactly those messages |
| Framing.DrainStopsWhere | bmpparse.py:162-174 | which headers are accepted: draining fails exactly at another version or a type above 6, waits exactly for a header, for the rest of a message or at a length of zero, and every frame of six bytes or more is a message |
| Framing.FeedIsDrain | collector.py:45-56 | for every byte stream and every cut, the receive loop takes out the messages of the whole stream |
| Framing.CutsDoNotMatter | collector.py:45-56 | two cuts of the same bytes give the same messages, verdict and residue |
| Framing.SpiderAgrees | spider.py:40-67 | Spider finds the same messages as get_next if and only if no header gives a length of 1 to 5, and then each of its four ends is decided by what get_next leaves |
| Framing.JudgedIsPrefix | spider.py:63-65 | a refused message ends the parse: what was accepted is exactly the messages in front of it |
| Framing.PushScanIsDrain | bmpblkparse.py:34-58 | one push extracts the messages of Drain, and how its loop ends is decided by what Drain leaves |
| Framing.PushKeepsTail | bmpblkparse.py:34-58 | as written one push returns with the right tail exactly when the residue is the old tail or a started message of six or more bytes |
| Framing.PushAllAsWritten | bmpblkparse.py:25-63 | as written every call returns, and leaves a tail from which any next block yields the right messages, exactly on safe cuts; on those the messages so far are those of the stream |
| Framing.WrongTailShows | bmpblkparse.py:28-58 | from any tail other than the residue some next block yields other messages |
| Framing.PushAllIsDrain | bmpblkparse.py:25-63 | as intended all pushes return exactly when no header is bad or zero-length, and then give the stream's messages and residue |
| Framing.PushLeavesStaleTail | bmpblkparse.py:51-58 | a 7-byte message cut after its header leaves a stale tail behind, though its messages are right so far |
| Framing.StaleTailSpoilsNext | bmpblkparse.py:34-58 | one more message pushed after that fails its version check, and the call does not return |
| Framing.FramersAgree | bmpblkparse.py:25-63 | on every stream of messages the receive loop, push and Spider return exactly those messages |
| Framers.ScanBlock | bmpblkparse.py:30-58 | the loop of push computes the messages, the end offset and the way it ends |
| Framers.BmpUnblocker.Push | bmpblkparse.py:25-63 | messages, carried tail and counters after one call |
| Framers.Spider.Get | spider.py:25-37 | the next bytes of the stream for any buffer size, nothing lost; a negative size splits the buffer |
| Framers.Spider.Parse | spider.py:40-67 | the messages of the file up to the first that BMP_message refuses, and why parsing ended |
| Delimited.SplitFile | topic.py:44-49 | records written one after the other are read back, in front of anything |
| Delimited.SplitStopsAtBadCrc | debag.py:57-59 | with a wrong checksum in record k exactly the first k are returned |
| Delimited.SplitStopsAtNoMarker | debag.py:41 | as intended a record without the marker ends the output in front of it |
| Delimited.SplitEnds | debag.py:37-55 | as intended the output ends at the end of the file or at a record longer than what is left |
| Delimited.UndelimitIsSplit | debag.py:36-63 | as intended the chunks depend on the file alone, not on the refill size |
| Delimited.RecordsComeBack | debag.py:19-63 | as intended any records come back, with any refill size that holds a header |
| Delimited.RecordsComeBackAsWritten | debag.py:36-63 | as written they come back if and only if the last byte of each record lies in the same refill of the file as the last byte waited for, a condition on record lengths and refill size alone |
| Delimited.BadCrcAsWritten | debag.py:57-59 | as written too a wrong checksum in record k ends the output after k records, if all of them are whole in the buffer |
| Delimited.EndAsWritten | debag.py:37-55 | as written the output behind whole records ends for the right reason at the end of the file, and at a record longer than all that is left |
| Delimited.CutRoundAsWritten | debag.py:45-59 | as written a record that is not whole is cut where reading stopped, its checksum compared with that of the front part, and that part handed on if they agree |
| Delimited.OneRecordIsCut | debag.py:45-56 | as written a single record no longer than the refill size comes back exactly when it fits it together with its header |
| Delimited.MarkerIsIgnored | debag.py:41 | as written the first eight bytes of a record never matter |
| Delimited.ReadRecord | debag.py:37-59 | one round of the loop: refill, cut, check |
| Delimited.UndelimitFile | debag.py:35-63 | the loop returns the chunks, their number and why it stopped |
| PrefixCodec.OrIsSum | bgpparse.py:153-159 | or-ing into bits that are all zero adds |
| PrefixCodec.AddressIsBe32 | bgpparse.py:151-159 | the shifted and or-ed address is the network-order number whose missing bytes are zero |
| PrefixCodec.DecodeEncode | bgpparse.py:127-164 | every list of canonical prefixes survives encoding and decoding |
| PrefixCodec.ByteLengthIsOctets | bgpparse.py:138-148 | a prefix of n bits takes the least number of octets that holds them, and four above 32 bits |
| PrefixCodec.DecodeCutShort | bgpparse.py:149 | a prefix that runs past the end fails its assertion, whatever came before it |
| PrefixCodec.EncodeDecode | bgpparse.py:127-164 | every accepted byte string is the encoding of the canonical list it decodes to |
| PrefixCodec.GetPrefixes | bgpparse.py:127-164 | the loop computes the decoding, or the assertion failure |
| AsPath.DecodeEncode | bgpparse.py:303-333 | as intended an encoded path decodes to itself if and only if it does not end in an empty segment |
| AsPath.EncodeDecode | bgpparse.py:303-333 | as intended every accepted attribute is the encoding of its path |
| AsPath.Path4IsRead | bgpparse.py:335-345 | as intended a four-byte path is read without fallback |
| AsPath.SingleSegmentFallsBack | bgpparse.py:281-285 | as intended a single non-empty two-byte segment is rejected as four-byte and read correctly |
| AsPath.Path2IsRead | bgpparse.py:335-345 | as intended a two-byte path is read correctly if and only if it is not acceptable as four-byte |
| AsPath.AmbiguousHasTwoSegments | bgpparse.py:281-285 | as intended what is acceptable both ways has at least two two-byte segments |
| AsPath.AmbiguousPath | bgpparse.py:281-285 | such an attribute, misread (as intended) |
| AsPath.SameFraming | bgpparse.py:314-326 | where the numbers are read changes neither acceptance nor the number and kinds of segments |
| AsPath.DecodeEncodeAsWritten | bgpparse.py:322-326 | as written a path decodes to itself exactly when each segment is empty or one particular AS, and the last is not empty |
| AsPath.DecodeShifted | bgpparse.py:322-326 | as written exactly which path every encoded path decodes to: one number in four (or two) of each segment, the first made of the segment header, every other one straddling its predecessor |
| AsPath.Path4AsWritten | bgpparse.py:322-345 | the same for what is stored for a four-byte path |
| AsPath.Path2AsWritten | bgpparse.py:322-345 | and for a two-byte path exactly when in addition it is not acceptable as four-byte |
| AsPath.GetSegment | bgpparse.py:303-326 | one segment: its assertions, its numbers, the rest |
| AsPath.GetSegments | bgpparse.py:328-333 | the loop over segments |
| AsPath.ParseAttributeAsPath | bgpparse.py:335-345 | four-byte numbers first, then two-byte, then nothing |
| BgpUpdate.WalkEncoded | bgpparse.py:167-197 | the walk visits each encoded attribute once, in order, with either length form |
| BgpUpdate.EncodeWalked | bgpparse.py:167-197 | an accepted section is the encoding of its attributes if and only if its last payload is not cut short |
| BgpUpdate.WalkTruncated | bgpparse.py:173-184 | a last payload that is cut short is accepted as far as it goes |
| BgpUpdate.WalkShortHeader | bgpparse.py:173-183 | a last header that is cut short raises struct.error |
| BgpUpdate.ProcessIsWalk | bgpparse.py:172-197 | parsing attributes while walking equals walking and then parsing |
| BgpUpdate.DictionaryHas | bgpparse.py:200-210 | a code is in the dictionary at the end exactly when an attribute with that code, and a readable path if it is one, was sent; so the except flag means what it says |
| BgpAttributes.DictionaryHolds | bgpparse.py:177-198 | under each code the dictionary holds what the last attribute with that code left, a path that cannot be read leaving nothing |
| BgpAttributes.SetKeepsOrder | bgpparse.py:200-212 | keys stay in the order in which they were first set, which is part of what is hashed |
| BgpAttributes.DecodeSent | bgpparse.py:215-378 | each of sixteen kinds of attribute, as the RFCs lay it out, is accepted, and what is kept of it: all of ORIGIN, NEXT_HOP, MED, LOCAL_PREF and two-byte aggregators, the upper half of each community, the first number of each large community |
| BgpAttributes.DecodedIsSent | bgpparse.py:215-431 | and nothing else is accepted under those codes, nor any other code |
| BgpAttributes.AcceptedWhen | bgpparse.py:185-193 | a section of attributes is accepted exactly if each is a path, readable or not, or such an attribute; else the process exits |
| BgpAttributes.AggregatorIsKept | bgpparse.py:356-358 | a four-byte aggregator is kept right exactly when its address repeats the lower half of its AS |
| BgpAttributes.CommunitiesCollide | bgpparse.py:215-225 | two community lists are kept alike exactly when all upper halves agree |
| BgpAttributes.UpdateHoldsPath | bgpparse.py:335-345 | from an encoded UPDATE its AS path is found under code 2 as it was sent, or as written as the shifted path, unless another follows |
| BgpAttributes.UpdateHoldsSent | bgpparse.py:380-431 | and any other attribute under its code as what is kept of it |
| BgpAttributes.ExceptFlagMeans | bgpparse.py:200-210 | the except flag is set exactly if routes are announced and ORIGIN, AS_PATH or NEXT_HOP left nothing |
| BgpUpdate.SectionsTile | bgpparse.py:111-119 | a body has given sections if and only if it is their concatenation with the two length fields |
| BgpUpdate.SectionsFault | bgpparse.py:112-117 | which of the two exceptions a body that does not tile leaves with |
| BgpUpdate.RoutesFault | bgpparse.py:115-118 | routes that cannot be read fail an assertion before any attribute is looked at |
| BgpUpdate.BodyRoundTrip | bgpparse.py:111-164 | parsing an encoded UPDATE gives back withdrawn routes and announced routes, and the parse of its attributes, whose values BgpAttributes states |
| BgpUpdate.BodyIsEncoding | bgpparse.py:111-197 | an accepted body is the encoding of what was read, unless its attributes are cut short |
| BgpUpdate.BgpRoundTrip | bgpparse.py:55-69 | the header checks accept an encoded message and pass on its body |
| BgpUpdate.BgpByType | bgpparse.py:55-73 | for any bytes: which pass the header checks (sixteen ones, a length that fits, a type of 1 to 4), and what each type makes of the body |
| BgpUpdate.CapabilitiesComeBack | bgpparse.py:80-109 | the optional parameters of an OPEN, written one capability each, are read back into the dictionary |
| BgpUpdate.ParametersAreCapabilities | bgpparse.py:80-100 | accepted optional parameters are the encoding of capabilities, with at most two bytes ignored behind them |
| BgpUpdate.OpenComesBack | bgpparse.py:102-109 | an encoded OPEN gives back its fixed fields and its capabilities |
| BgpMessage.BGPMessage.ParseBgpUpdate | bgpparse.py:111-119 | the fields of the object, or the exception |
| BgpMessage.BGPMessage.ProcessPathAttributes | bgpparse.py:167-212 | the loop over attributes, the dictionary and the except flag |
| BgpMessage.ReadAttribute | bgpparse.py:173-184 | one attribute header and its possibly shortened payload |
| BgpMessage.CutSections | bgpparse.py:112-119 | the three sections or the exception |
| BgpMessage.ParseParameters | bgpparse.py:80-100 | the loop over the optional parameters, with its assertions |
| BgpMessage.ParseMessage | bgpparse.py:55-73 | the header checks and what is made of each of the four types, all fields of an OPEN included |
| BmpSession.BmpdIsHandleAll | collector.py:44-56 | for every byte stream and every cut, a session leaves the tables that handling the stream's messages leaves |
| BmpSession.HandleByType | bmpapp.py:78-156 | for any bytes: type 0 applies its announcements and then its withdraws to the table of its peer unless its BGP part does not parse, is no UPDATE or has the except flag; accepted messages of types 1 to 3 at most make an empty table; type 4 changes nothing; 5, 6 and what is no message raise |
| BmpSession.CutsLeaveSameTables | collector.py:44-56 | two cuts of the same stream leave the same tables and end the same way |
| BmpApp.BmpContext.NewPeer | bmpapp.py:56-68 | a new peer gets a record of its header fields and an empty table of its own, the others keep theirs |
| PeerRecords.SamePeerSameRecord | bmpparse.py:128-136 | the record depends only on the bytes by which peers are told apart |
| PeerRecords.RecordIsEncoded | bmpparse.py:129-136 | a message whose per-peer header encodes type, flags, distinguisher, address, AS and BGP identifier makes a record of exactly these |
| PeerRecords.RecordIsFirst | bmpapp.py:56-91 | each peer's record is that of the first message handled that introduces it |
| PeerRecords.SessionRecordsAll | collector.py:45-56 | however the stream is cut, the records are those of its messages |
| BmpApp.BmpContext.Parse | bmpapp.py:78-158 | the tables and peer records after one message and whether the call returned |
| BmpApp.DrainInto | collector.py:51-55 | the inner loop hands on every complete message |
| BmpApp.RunSession | collector.py:38-56 | the receive loop on objects is the session on values, tables and peer records |
| BmpApp.ProcessTopic | topic.py:63-69 | every message handed on, and success only if nothing is left over |
| EndToEnd.HandleAllEncoded | bmpapp.py:86-156 | handling encoded messages runs, for each peer, exactly that peer's calls on its own table, whatever its consumer has read so far, unless a call raises; none does as intended, and as written if and only if no message withdraws from a table whose withdraw list is gone |
| EndToEnd.StreamBuildsTables | collector.py:45-56 | encoded Route Monitoring messages of any peers, with other accepted messages between them, in any blocks, leave each peer's table equal to the fold of its updates and withdraws (both variants) |
| EndToEnd.FreshConsumer | BGPribdb.py:188-217 | a table nobody has read serves a consumer that starts empty, in either variant |
| EndToEnd.StreamReachesConsumer | BGPribdb.py:183-217 | and a consumer draining that table holds the routes the peer announced last (intended) |
| EndToEnd.StreamReachesConsumerAsWritten | BGPribdb.py:188-217 | as written a consumer that starts empty and drains that table agrees with it at every prefix |
| Interleaving.SessionSurvives | collector.py:45-56 | as intended a session never ends by itself; as written it does if and only if for some peer a message withdraws a route after an ordinary read of its table with no refresh since |
| Interleaving.SessionIsRun | collector.py:45-56 | with blocks arriving and consumers reading and refreshing in any order, while the session runs each table and its consumer are where one run leads: that peer's calls, with that consumer's reads between them |
| Interleaving.NothingLeftAnytime | BGPribdb.py:183-217 | so a consumer told at any moment that nothing is left holds the routes its peer announced last in the messages received so far (intended) |
| Interleaving.NothingLeftAnytimeAsWritten | BGPribdb.py:183-217 | as written, while the session runs, exactly when that reply is true |
| Interleaving.ShortfallAnytime | BGPribdb.py:188-217 | as written, while the session runs, exactly which entries of a consumer outside a refresh differ from what its peer announced last |

## Left out

- Sockets, threads, reconnection, Kafka, configuration files, logging, dump files and printing.
- RibAgreement.NothingLeftMeansAgreement: is stated for the intended variant, because it is false of the code as written; RibLedger.NothingLeftAsWritten says exactly when it holds there, RibLedger.EarlyReplyIsWrong, RibLedger.BareHashIsHeld and RibAsWritten.WithdrawIsTorn are its failures.
- Interleaving.ShortfallAnytime: speaks of sessions that still run, which Interleaving.SessionSurvives decides; after a raise RibLedger.Shortfall and RibAsWritten.TableOnlyGrows describe the table.
- The Peer Up data kept beside a peer record (`bmpapp.py:30-46`), the TLVs of `bmpparse.py`, and `bgppeel.py`.
- EndToEnd.StreamReachesConsumer: is stated for the intended variant; EndToEnd.StreamReachesConsumerAsWritten is its counterpart, where a read that reports "nothing left" too early is not taken at its word.
- BgpRibDb.BGPribdb.GetUpdateRequest: allows any entry to be picked, while Python 3.7 and later always pick the newest.
- The read side of `ribdb.py`, never written there: its reader is a set of steps that follow the comments at lines 8-52.
- The list `unhandled_codes` of a BGP message, which nothing reads, and which of several exceptions a rejected BMP message raises.
- The files `oBMPparse.py`, `parse.py`, `bgprib.py`, `forward.py`, `forwarder.py`, `router.py`, `probe.py`.
