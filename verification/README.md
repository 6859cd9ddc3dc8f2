# exio, modelled and verified in Dafny

exio publishes in-memory tables over sockets. A table is a vector of rows with an index; a
session that subscribes gets a snapshot and then every change. Messages are trees of named items
in a framed text format called SAM. A reactor thread moves bytes between sockets and queues and
hands clients with input to a pool of workers.

This project models that path from end to end and proves what it promises.

| file | part of exio |
|---|---|
| `SamText`, `SamTree`, `SamContainer` | escaping, digits, message trees, and the container with its two lookup maps |
| `SamCodec`, `SamWire`, `SamDecoder`, `SamBuffer` | the SAM format as functions and in literal characters, the decoding loops, the growing encode buffer |
| `Framing` | cutting a stream of self-delimiting messages into arbitrary chunks |
| `Inbound`, `InboundProtocol` | the read buffer, `do_work`, and the callbacks under every interleaving |
| `Outbound` | the bounded outbound queue and `handle_output` under every interleaving |
| `Reactor`, `ReactorSafety`, `ReactorDelivery` | reactor, workers and clients as one transition system, its invariants, and what it gets done |
| `KeyOrder`, `TableModel`, `TableEffects`, `TableReplay` | tables as values, what each operation does to the data, and replaying the events |
| `TableMessages`, `Snapshot`, `Publishing` | the messages of a table, the batcher, and who is sent what |
| `TableObject` | the table object with its indexes, refining the values |
| `Subscriber`, `Sync`, `SyncRuns`, `Deliveries` | a subscriber's fold, agreement over every run, and exactly what each session is handed |
| `EndToEnd` | table, messages, bytes, chunks, decoder and fold put together |
| `SessionSlots` | the session registry |

Concurrency is modelled by transition systems in which each critical section, and each shared read
outside one, is a step; a theorem about a run then holds for every interleaving. What the kernel
and the clock decide (bytes read, bytes a socket takes, readiness, time) is an arbitrary choice in
a step or an arbitrary function. Bytes are characters of a `string`. C++ integer widths are written
out where they matter: the 32-bit digit counter of `encode_header` and the conversion to `int` in
`utils::to_str`.

## Main results

- Take any run of a table with clean column names, any interleaving of a subscriber's outbound queue
  with its socket, and any cutting of the bytes into reads. What the subscriber decodes is an initial
  part of what it was sent. Once everything has arrived, and a whole snapshot was sent, it holds every
  row that has a field besides its key, with all its fields; if no row was ever deleted it holds
  nothing that is not the table's, so that only rows consisting of their key can be missing
  (`EndToEnd.TableReachesSubscriber`). Messages over the decoder's limit are excluded.
- Decoding undoes encoding in front of any further bytes, and no proper prefix of an encoding is
  taken for anything (`SamCodec.RoundTrip`, `SamCodec.PrefixNeedsMore`), so the delivery of messages
  does not depend on chunking (`Framing.ChunkingDoesNotMatter`).
- Over every interleaving no wake-up is lost, no input is stranded, no client is run twice or
  deleted while in use (`ReactorSafety`), no registration, release or request to stop is missed
  (`ReactorSafety.EveryClientIsRegistered`, `ReactorDelivery`), callbacks come in order and end with one close
  (`InboundProtocol.CallbackTrace`), and no outbound byte is lost, duplicated or sent after the close
  (`Outbound.Conservation`).
- An update writes exactly the values given and changes nothing else but new columns and the time
  (`TableEffects.UpdateWrites`).
- The snapshot batcher terminates, covers the rows in order, never exceeds the encoder's limit, and
  fails exactly when a single row is too large (`Snapshot.TakeSnapshot`).

## Where the code does not do what one would expect

- The sanity checks of `encode_header` can fire: digits are counted on a length truncated to 32
  bits. `SamBuffer.HeaderChecksIff` says for which lengths they pass, `SamBuffer.HeaderCanFail` gives
  one that fails, and `SamBuffer.DecodableIsEncodable` shows that every length a decoder would accept
  passes.
- Names and types are written unescaped. The round trip holds for a tree with clean names exactly
  when the type is clean and the length acceptable (`SamCodec.RoundTripIff`); a name with a
  delimiter in it is lost (`SamCodec.NameWithDelimiterIsLost`).
- The removal message carries no row key, so two deletions sound alike
  (`SyncRuns.DeletionsSoundAlike`) and no subscriber can follow deletions, whatever it makes of all it
  has received (`SyncRuns.NobodyCanFollowDeletions`). `SyncRuns.DeletionIff` says when one stays in
  agreement all the same, and `SyncRuns.SubscriberAgrees` what holds in any case: after a snapshot
  it lacks no field of a row that has one besides its key, it can only hold too much.

## Model

| member | source | states |
|---|---|---|
| SamText.EscapeLength | libexio/sam.cc:154-189 | an escaped value is longer by exactly the number of special characters |
| SamText.ReadEscaped | libexio/sam.cc:502-563 | the token scan undoes escaping, in front of any delimiter and any further text |
| SamText.RawReadIff | libexio/sam.cc:502-563 | an unescaped name is read back exactly when it holds neither the delimiter nor the escape character |
| SamText.ToStrAtMost11 | libexio/utils.cc:51-58 | a number printed through `int` has at most eleven characters, none special |
| SamTree.PutFieldLookup | libexio/sam.cc:608-626 | after put_field the name leads to the new value and every other lookup is unchanged |
| SamTree.PutPathFinds | libexio/sam.cc:636-653 | a field put under a qualified name is found under it |
| SamTree.PutPathFrame | libexio/sam.cc:636-653 | every other field, at every qualified name, is as it was |
| SamTree.PutPathConsistent | libexio/sam.cc:636-653 | putting under a qualified name keeps field names and child names distinct at every level |
| SamTree.MergeConsistent | libexio/sam.cc:1127-1162 | merge keeps field names and child names distinct at every level |
| SamTree.MergeFindField | libexio/sam.cc:1127-1162 | at every qualified name the merged value is the source's if it has one, else the old one |
| SamTree.MergeFindChild | libexio/sam.cc:1127-1162 | at every qualified name the merged container is the merge of both sides' containers |
| SamTree.MergeOrder | libexio/sam.cc:1127-1162 | merge keeps the places of old items and appends new ones in the order of the source |
| SamTree.MergeIdempotent | libexio/sam.cc:1127-1162 | merging the same source again changes nothing, nor does merging a container with itself |
| SamContainer.FieldPosIs | libexio/sam.cc:656-682 | the field map leads where a search of the item list would |
| SamContainer.NodePosIs | libexio/sam.cc:843-869 | the child map leads where a search of the item list would |
| SamContainer.SoundIsConsistent | libexio/sam.cc:685-708 | maps that agree with the list at every level exclude duplicate names |
| SamContainer.AddSound | libexio/sam.cc:685-708 | add_internally keeps both maps in agreement with the list, given a new name |
| SamContainer.PutLeafIs | libexio/sam.cc:608-626 | put_field through the map keeps the agreement and is put_field on the list |
| SamContainer.PutBranchIs | libexio/sam.cc:712-745 | put_child through the map keeps the agreement and is put_child on the list |
| SamContainer.FindLeafAt | libexio/sam.cc:1002-1038 | the walk down the child maps finds what the qualified name means in the tree |
| SamContainer.PutLeafAt | libexio/sam.cc:636-653 | put_field with a qualified name builds the missing containers and keeps the agreement |
| SamContainer.MergeInto | libexio/sam.cc:1127-1162 | the merge loop keeps the agreement and computes the merge of the trees |
| SamCodec.FullLengthIsLeast | libexio/SamBuffer.cc:198-265 | the header length is the least number that counts the body, the fixed header and its own digits |
| SamCodec.HeaderLength | libexio/sam.cc:223-246 | the length in the header is the length of the message |
| SamCodec.CalcTracksEncoder | libexio/sam.cc:281-305 | the size calculator differs from the encoder by the digits of the length against five, for every tree |
| SamCodec.CheckedFits | libexio/sam.cc:307-312 | a message accepted with a margin encodes within the limit less the margin; without a margin exactly the messages within the limit are accepted |
| SamCodec.RoundTripIff | libexio/sam.cc:383-493 | with clean names, decoding an encoding in front of any bytes returns the message and its length exactly when the type is clean and the length acceptable |
| SamCodec.RoundTrip | libexio/sam.cc:383-493 | a well-formed message in front of any bytes decodes to itself, item order included, and exactly its bytes are consumed |
| SamCodec.FirstNameMustBeClean | libexio/sam.cc:502-563 | a message that survives the round trip has a clean first name |
| SamCodec.NameWithDelimiterIsLost | libexio/sam.cc:329-354 | the field `a=b` with value `c` comes back as the field `a` with value `b=c` |
| SamCodec.DecodeExtend | libexio/sam.cc:383-493 | once the decoder has answered, further bytes do not change the answer |
| SamCodec.PrefixNeedsMore | libexio/sam.cc:383-493 | every proper prefix of an encoding of acceptable length makes the decoder ask for more, whatever its names and type |
| SamCodec.Decode | libexio/sam.cc:383-493 | a message found consumes at least one byte and at most what is there |
| SamCodec.SamStream | libexio/Client.cc:768-895 | for every list of well-formed messages and every cutting into chunks, exactly the complete messages have been delivered and the rest is kept |
| SamWire.SpecialCharacters | libexio/exio/sam.h:59 | the special characters are the nine of the list used for the plain run |
| SamWire.EscapedText | libexio/sam.cc:112-151 | each character of a value is written in order, behind a backslash exactly when it is one of the nine |
| SamWire.ItemsText | libexio/sam.cc:329-354 | items follow one another in order as name, equals sign, value or bracketed items, comma |
| SamWire.MessageText | libexio/sam.cc:223-246 | a message in literal characters: brace, tag by size, colon, its own length, colon, type, colon, bracketed items, brace, newline |
| SamWire.MessageEnds | libexio/sam.cc:223-246 | the opening brace, the separator behind the tag, and the last three characters stand where they should |
| SamWire.HeaderDecides | libexio/sam.cc:383-493 | a wrong opening or separator and a length over the limit are refused; a good header asks for more until the message is complete and is then answered |
| SamDecoder.ScanToken | libexio/sam.cc:502-563 | the token loop computes the scan the round trip is proved about |
| SamDecoder.DecodeContainer | libexio/sam.cc:502-563 | the container loop computes the decoding function |
| SamDecoder.DecodeMsg | libexio/sam.cc:383-493 | the message decoder computes the decoding function, errors included |
| SamBuffer.CountDigits | libexio/SamBuffer.cc:185-196 | the digit loop counts the digits of the value truncated to 32 bits |
| SamBuffer.HeaderChecksIff | libexio/SamBuffer.cc:198-265 | the two sanity checks pass exactly for the stated lengths, and then the width is that of the least self-counting length |
| SamBuffer.HeaderCanFail | libexio/SamBuffer.cc:198-265 | a length for which a check fires |
| SamBuffer.DecodableIsEncodable | libexio/SamBuffer.cc:198-265 | every length the decoder accepts passes the checks |
| SamBuffer.DynamicSamBuffer.constructor | libexio/SamBuffer.cc:121-127 | a new buffer is empty behind its header reserve |
| SamBuffer.DynamicSamBuffer.CheckSpace | libexio/SamBuffer.cc:134-155 | room for n bytes, at least doubling when it has to grow, and the bytes are kept |
| SamBuffer.DynamicSamBuffer.Append | libexio/SamBuffer.cc:157-170 | the bytes are appended whatever resizing happens |
| SamBuffer.DynamicSamBuffer.EncodeHeader | libexio/SamBuffer.cc:198-265 | the header goes in front of everything appended, inside the reserve, exactly when the checks pass |
| SamBuffer.HeaderText | libexio/SamBuffer.cc:198-265 | the header text is that of the least self-counting length and fits the reserve |
| SamBuffer.WriteStr | libexio/sam.cc:112-151 | the run-copying loop appends the escaped value |
| SamBuffer.EncodeContents | libexio/sam.cc:329-354 | the recursive loop appends the encoded container |
| SamBuffer.EncodeMsg | libexio/sam.cc:223-246 | the buffer holds the encoded message, whose text `SamWire.MessageText` spells out, and its size is returned, exactly when the header checks pass |
| Framing.ParseExtend | libexio/Client.cc:834-859 | decoding what has arrived and then the rest is decoding everything at once |
| Framing.WorkIsParse | libexio/Client.cc:768-895 | any number of work calls deliver what parsing the concatenation of all chunks would |
| Framing.ChunkingDoesNotMatter | libexio/Client.cc:768-895 | delivery depends on the bytes arrived only: the complete messages in order, and the started one kept |
| Inbound.ReadBuffer.Grow | libexio/ReactorReadBuffer.cc:18-62 | half as much capacity again, at least one byte, and the pending bytes are kept |
| Inbound.ReadBuffer.Put | libexio/Client.cc:768-895 | a chunk is appended to the pending bytes however much growing it takes |
| Inbound.ReadBuffer.Consume | libexio/exio/ReactorReadBuffer.h:13-52 | the consumed bytes leave the front |
| Inbound.ReadBuffer.Shift | libexio/exio/ReactorReadBuffer.h:13-52 | moving the pending bytes to the array start loses none |
| Inbound.InboundClient.HandleInput | libexio/Client.cc:425-494 | bytes read are queued unless the connection is closed, a full chunk asks for another read, the end of the stream and an error ask for a close |
| Inbound.InboundClient.HandleClose | libexio/Client.cc:698-721 | the first close queues the sentinel, later ones do nothing |
| Inbound.InboundClient.ProcessInput | libexio/AdminSession.cc:490-543 | one message is delivered and its bytes reported, or nothing happens, or an error reply is queued and a close asked for |
| Inbound.InboundClient.DoWork | libexio/Client.cc:768-895 | everything queued before the sentinel is parsed, complete messages are delivered, the tail is kept, undecodable bytes are answered once per call, and the sentinel leads to one close callback |
| Inbound.InboundClient.TakeChunks | libexio/Client.cc:768-895 | the queued chunks before the sentinel are appended to the buffer in order |
| Inbound.InboundClient.Deliver | libexio/Client.cc:834-859 | the decode loop ends, having delivered everything decodable |
| InboundProtocol.CallbackTrace | libexio/Client.cc:698-895 | over every interleaving: inputs, then at most one close, then nothing, nothing after a release; offers are contiguous; every byte read is offered before the close |
| InboundProtocol.CloseIsReported | libexio/Client.cc:698-895 | over every interleaving, a closed connection whose sentinel has been taken and whose worker is idle has been reported with process_close as the last event, unless the session released |
| InboundProtocol.ReleaseSilences | libexio/Client.cc:723-755 | from any state and through any run, no callback is made after a release |
| InboundProtocol.TakeSplits | libexio/Client.cc:698-721 | with the sentinel last, taking the queue loses no byte and leaves nothing behind |
| Outbound.Conservation | libexio/Client.cc:517-696 | over every interleaving: sent then queued bytes are the accepted ones; the count is exact and bounded; nothing follows the sentinel; at the sentinel everything has been sent |
| Outbound.ClampNeverFires | libexio/Client.cc:593-696 | in every reachable state the clamp of the pending count changes nothing |
| Outbound.NothingAfterClose | libexio/Client.cc:517-585 | a queue that stopped accepting never accepts again |
| Outbound.QueueAccepts | libexio/Client.cc:517-585 | a message is taken over whole exactly when the queue accepts and the unsent bytes stay within the bound; one that does not fit ends accepting; the sentinel goes behind the message |
| Outbound.EverythingIsAccepted | libexio/Client.cc:517-585 | without a close, everything offered is accepted as long as it fits the bound, whatever the socket does |
| Outbound.SmallRunsAreSent | libexio/Client.cc:517-696 | from the start, without a close and within the bound, sent and queued bytes together are all that was offered |
| Outbound.AcceptedIsPrefix | libexio/Client.cc:517-585 | over every run what is accepted is an initial part of what was offered, and all of it while the queue accepts more |
| Outbound.SentIsPrefix | libexio/Client.cc:517-696 | the bytes that reach the socket are an initial part of those offered, and all of them once an accepting queue is drained |
| Outbound.DrainedKeeps | libexio/Client.cc:593-696 | one call of handle_output loses nothing and takes the sentinel only after everything before it |
| Outbound.DrainsEverything | libexio/Client.cc:593-696 | with a willing socket one call sends everything and asks for a close exactly when the sentinel waits |
| Outbound.OutboundQueue.QueueData | libexio/Client.cc:517-585 | refused exactly when the queue no longer accepts, accepted exactly when it does and the bound is kept, dropped with a shutdown otherwise; the state moves by the queue step |
| Outbound.OutboundQueue.LookAtFront | libexio/Client.cc:593-696 | the first critical section returns the front item, nothing, or takes the sentinel |
| Outbound.OutboundQueue.AccountFor | libexio/Client.cc:593-696 | the second critical section removes exactly the bytes the socket took |
| Outbound.OutboundQueue.HandleOutput | libexio/Client.cc:593-696 | the loop computes what a call without interference does |
| Reactor.NotifQ.PushMsg | libexio/Reactor.cc:120-139 | a message is queued and announced, a no-event is dropped only behind a waiting message; this is the push step of the transition system |
| Reactor.NotifQ.PullAll | libexio/Reactor.cc:141-150 | every waiting message is taken and the pipe is left empty |
| Reactor.Without | libexio/Reactor.cc:461-508 | removing the doomed clients keeps exactly the others, still without repetition |
| ReactorSafety.NoWakeupIsLost | libexio/Reactor.cc:299-357 | whenever the reactor polls, a client with output has POLLOUT requested, or the pipe is readable, or an invalidate is due |
| ReactorSafety.PipeAnnouncesMessages | libexio/Reactor.cc:120-150 | messages wait exactly when the pipe is readable, despite coalescing |
| ReactorSafety.NoInputIsStranded | libexio/Reactor.cc:441-487 | whenever the reactor polls, a client with input is on the run queue, or with a worker that will look again before it lets go, or is being destroyed under a finite timeout |
| ReactorSafety.RunStateIsSafe | libexio/Reactor.cc:667-735 | a client is on the run queue at most once, no two workers hold it, and nothing queued, held or registered has been deleted |
| ReactorSafety.DeletionIsSafe | libexio/Reactor.cc:461-508 | only closed, released, registered clients that are neither queued nor held are deleted |
| ReactorSafety.StepKeeps | libexio/Reactor.cc:292-513 | every step of reactor, workers and application keeps the joint invariant, that every busy client is held by somebody, and that every client is registered or about to be |
| ReactorSafety.StepHeld | libexio/Client.cc:144-182 | through every step, a client whose run state is not idle is on the run queue, with a worker, or about to be queued |
| ReactorSafety.EveryClientIsRegistered | libexio/Reactor.cc:568-611 | over every run a client that exists is registered, or its registration is among the messages; in poll it is registered or the pipe is readable |
| ReactorDelivery.NoReleaseIsForgotten | libexio/Reactor.cc:615-641 | whenever the reactor polls, a released client is being destroyed or the pipe is readable |
| ReactorDelivery.NoStopIsMissed | libexio/Reactor.cc:292-357 | whenever the reactor polls after it was asked to stop, the pipe is readable |
| ReactorDelivery.StopEndsTheLoop | libexio/Reactor.cc:595-599 | the message to stop sets the flag, the flag stays set, and a round that ends with it is the last |
| ReactorDelivery.PollSetIsExact | libexio/Reactor.cc:299-333 | whenever the reactor polls, it polls exactly its open clients, and asks for POLLOUT only where there is output |
| ReactorDelivery.EveryOpenClientIsServed | libexio/Reactor.cc:389-425 | when poll returns, exactly the open clients can be served in the round |
| ReactorDelivery.StepCounts | libexio/Client.cc:425-721 | every step is accounted for: what it adds to and takes from a client's queues, who closes it, who releases it |
| ReactorDelivery.NothingReadIsLost | libexio/Client.cc:425-494 | through any run without a drain the input queue grows by exactly the reads, and one sentinel if it was closed |
| ReactorDelivery.DueCycleVisitsAll | libexio/Reactor.cc:461-487 | a destruction cycle that is due visits every client being destroyed |
| ReactorDelivery.IdleClientIsStruckOff | libexio/Reactor.cc:461-508 | a closed and idle client is gone after its turn: from the clients, from the destroying set, deleted |
| ReactorDelivery.OthersAreSpared | libexio/Reactor.cc:461-508 | striking off touches no other client |
| KeyOrder.Listing | libexio/Table.cc:829-838 | the walk over an ordered map visits every key once, in ascending order |
| TableModel.DoKeepsGood | libexio/Table.cc:305-375 | every operation keeps row keys and columns distinct, each row's key field right, and every other field in a column |
| TableModel.ReachableGood | libexio/Table.cc:305-519 | every table reached by operations from an empty one has these properties |
| TableModel.AddColumnKeepsData | libexio/Table.cc:347-375 | in such a table a new column changes no field but the time of the last update |
| TableModel.UpdateTwice | libexio/Table.cc:305-330 | repeating an update raises no event and changes no row and no column |
| TableEffects.RowIsWritten | libexio/Table.cc:842-907 | a row that has all the values is left alone; otherwise they are written, nothing else changes but the time, which is the clock's reading |
| TableEffects.ColumnAppears | libexio/Table.cc:347-375 | a new column appears in every row with the empty value and a new time; a reserved name changes no row |
| TableEffects.ColumnsAppear | libexio/Table.cc:332-345 | after any list of columns, the columns are the old and the listed ones and every row is widened by exactly the new ones, empty |
| TableEffects.UpdateWrites | libexio/Table.cc:305-330 | after update_row the row exists with every value written and all else as it was; other rows stay in place and only get the new columns; a changed row carries a time read during the call |
| TableEffects.RemovalRemoves | libexio/Table.cc:460-519 | delete_row takes out exactly the row of the key, clear_table all rows; the rest and the columns stay |
| TableReplay.RowEventReplays | libexio/Table.cc:842-907 | the event of a row update turns exactly that row into the updated one |
| TableReplay.AddColumnReplays | libexio/Table.cc:347-375 | the events of a new column reproduce it on a copy |
| TableReplay.WithoutIsCut | libexio/Table.cc:495-519 | removing by key is removing at the indexed position |
| TableReplay.RunReplays | libexio/Table.cc:305-519 | over every sequence of operations, replaying the events on a copy gives the table: keys, order, fields, columns; and every event is new and true where it occurs |
| TableMessages.StartSnapshot | libexio/Table.cc:79-135 | an update message for the table, without rows |
| TableMessages.AddSnapshotRow | libexio/Table.cc:89-124 | naming the row by counting children appends it as the next row and sets the count |
| TableMessages.NumberSnapshot | libexio/Table.cc:730-738 | numbering adds the fields snapi and snapn and leaves the rest; `TableMessages.NumbersAreRead` says what is read back |
| TableMessages.NumbersAreRead | libexio/Table.cc:730-738 | the head of a numbered message says i under snapi and n under snapn, in decimal |
| TableMessages.SerialiseUpdate | libexio/TableEvents.cc:51-85 | one row with its key and the changed fields in key order |
| TableMessages.SerialiseClear | libexio/TableSerialiser.cc:73-79 | the clear notice for the table |
| TableMessages.RowNamesDiffer | libexio/Table.cc:98-103 | rows of a message have different names |
| Snapshot.FitsMeans | libexio/Table.cc:703-706 | a batch is accepted exactly when its encoding, its length counted as five digits, leaves fifty bytes below 99999 |
| Snapshot.SnapFieldsFitTheRoom | libexio/Table.cc:703-738 | the two numbering fields never need more than the fifty bytes kept for them |
| Snapshot.NumberedBatchFits | libexio/Table.cc:703-741 | an accepted batch, once numbered, encodes in at most 99999 bytes and carries the SAM0100 tag |
| Snapshot.FitsAlone | libexio/Table.cc:703-706 | a row of an accepted batch is accepted on its own |
| Snapshot.BuildBatch | libexio/Table.cc:688-700 | the inner loop builds the message of the next rows, at most the batch size |
| Snapshot.CutBatches | libexio/Table.cc:686-728 | the halving loop ends; it gives up exactly when some row does not fit alone; otherwise accepted batches join to all rows in order; the size kept comes from halving, the size before it was refused, and all batches but the last are at least that long |
| Snapshot.TakeSnapshot | libexio/Table.cc:675-743 | on success message i of n carries batch i, says i under snapi and n under snapn, and fits the limit; the batch size is the one the rows called for; failure exactly when some row does not fit alone |
| Publishing.SerialiseEvents | libexio/Table.cc:256-286 | the messages of the events in order; new rows and new columns have none |
| Publishing.SerialiseRemoval | libexio/TableEvents.cc:88-100 | the removal notice, whose row key field is empty |
| Publishing.CopySubscribers | libexio/Table.cc:771-782 | the subscribers whose session exists, in order, repetitions included |
| Publishing.SendMessages | libexio/Table.cc:288-297 | message by message, subscriber by subscriber |
| TableObject.UpdateFields | libexio/Table.cc:842-907 | the walk changes exactly the non-reserved fields that differ, stamps the time if any, and the event carries exactly that |
| TableObject.IndexedIff | libexio/Table.cc:444-457 | an index is a bijection with the positions exactly when no key repeats and it is what a rebuild gives |
| TableObject.Rebuild | libexio/Table.cc:444-457 | clearing and re-entering gives that index |
| TableObject.EraseFromIndex | libexio/Table.cc:495-519 | dropping a key and decrementing later positions in place gives the index of the remaining keys |
| TableObject.UpdateEveryRow | libexio/Table.cc:366-373 | every row updated in place, with its events in order |
| TableObject.GrowColumns | libexio/Table.cc:347-375 | a new column is appended, indexed and filled in; a known one changes nothing |
| TableObject.DataTable.constructor | libexio/Table.cc:140-147 | the initial state of the transition system, with a batch size of 500 |
| TableObject.DataTable.AddNewRow | libexio/Table.cc:444-457 | the row is appended and the index rebuilt |
| TableObject.DataTable.UpdateRow | libexio/Table.cc:305-330 | the state moves by the update step of the transition system, whose effect on the data is `TableEffects.UpdateWrites`; the events' messages go to the existing subscribers; the indexes stay right |
| TableObject.DataTable.AddColumns | libexio/Table.cc:332-345 | the state moves by the step of adding the columns, and the indexes stay right |
| TableObject.DataTable.Clear | libexio/Table.cc:460-474 | the state moves by the clearing step: rows and index emptied, the notice published |
| TableObject.DataTable.DeleteRow | libexio/Table.cc:495-519 | the state moves by the deletion step: the row goes, later positions move down in the index, the removal is published |
| TableObject.DataTable.Publish | libexio/Table.cc:234-302 | every message of the events goes to every existing subscriber |
| TableObject.DataTable.SendSnapshot | libexio/Table.cc:675-743 | a whole snapshot is sent and the batch size it called for is kept, or nothing at all is sent or changed when a row does not fit |
| TableObject.DataTable.AddSubscriber | libexio/Table.cc:149-214 | the state moves by the subscription step: listed, described and sent a snapshot if every row fits |
| TableObject.DataTable.SnapshotToAll | libexio/Table.cc:629-641 | the state moves by the snapshot step for the subscribers that exist when they are copied |
| TableObject.DataTable.SnapshotUnderLock | libexio/Table.cc:634-641 | each subscriber of an earlier copy of the list gets a snapshot in turn, or nothing is sent when a row does not fit |
| Subscriber.UpdateEffect | libexio/TableSerialiser.cc:44-70 | receiving an update message adds its rows' fields under their keys, in order |
| Subscriber.RowCells | libexio/Table.cc:104-110 | a row read back from a message has exactly the row's fields |
| Sync.EventsKeep | libexio/Table.cc:234-302 | hearing the messages of sensible events, a view that holds everything goes on to; without removals one that is true, or in agreement, stays so |
| Sync.SnapshotSyncs | libexio/Table.cc:675-743 | a whole snapshot, whatever its batches, brings any true view into agreement |
| Sync.SnapshotIncludes | libexio/Table.cc:675-743 | a whole snapshot puts every row and field into any view, however stale |
| SyncRuns.BroadcastHeard | libexio/Table.cc:288-297 | a session subscribed several times hears a broadcast as if subscribed once |
| SyncRuns.SubscriberAgrees | libexio/Table.cc:149-375 | over every run, once it has been sent a whole snapshot, a subscriber holds every row having a field besides its key, with all fields; without deletions what it holds is true of the table, and with a snapshot it is in agreement |
| SyncRuns.DeletionIff | libexio/Table.cc:495-519 | after a deletion a view in agreement stays so exactly when it did not hold the row |
| SyncRuns.DeletionsSoundAlike | libexio/TableEvents.cc:88-100 | in every state, deleting either of two rows sends the same, so no fold of the messages agrees with the table after both |
| SyncRuns.NobodyCanFollowDeletions | libexio/TableEvents.cc:88-100 | for every way of folding everything received there is a run, with the subscriber listed and sent a snapshot, after which it disagrees with the table |
| Deliveries.UpdateForm | libexio/Table.cc:89-135 | an update message, read by literal names, gives the table, the kind, the number of rows, and row i in the container row_i |
| Deliveries.UpdateSays | libexio/TableSerialiser.cc:44-70 | the message of a row update gives the key and every changed field |
| Deliveries.NoticeForm | libexio/TableEvents.cc:29-100 | the clear and removal notices, read by literal names |
| Deliveries.OneMessageEach | libexio/Table.cc:256-286 | one message for each update, removal and clearing, none for new rows and columns |
| Deliveries.BroadcastInbox | libexio/Table.cc:288-297 | a session listed k times is handed each message k times in a row and nothing else |
| Deliveries.ChangeReaches | libexio/Table.cc:234-302 | a change hands each existing subscriber the messages of its events, once per listing, behind what it had |
| Deliveries.SubscriptionReaches | libexio/Table.cc:149-214 | a subscription hands the new subscriber the description and then the snapshot, and nobody else anything |
| Deliveries.RoundReaches | libexio/Table.cc:629-641 | a round of snapshots hands a session listed once exactly the one made for it |
| EndToEnd.RunClean | libexio/Table.cc:149-743 | a table whose column names are clean sends only messages with clean, distinct names |
| EndToEnd.TableReachesSubscriber | libexio/Table.cc:149-743 | through outbound queue, socket, chunks and decoder the messages delivered are the first ones sent; once all bytes have arrived their fold agrees with the table; they all arrive if the queue keeps accepting, is drained and is read, and it keeps accepting if nobody asks for a close and all fits its bound |
| SessionSlots.RoomIff | libexio/exio/AdminInterfaceImpl.h:30-31 | a slot is free exactly while fewer than the maximum are in use |
| SessionSlots.LastInLine | libexio/AdminInterfaceImpl.cc:745-762 | the slot given out last is offered again only when no other is free |
| SessionSlots.SessionRegistry.constructor | libexio/AdminInterfaceImpl.cc:60-68 | all slots free, cursor at one |
| SessionSlots.SessionRegistry.FindSlot | libexio/AdminInterfaceImpl.cc:745-762 | the first free slot in round-robin order, never slot 0, found exactly when the registry is not full; the cursor moves behind it |
| SessionSlots.SessionRegistry.Create | libexio/AdminInterfaceImpl.cc:731-784 | fails exactly when every slot is in use; otherwise one free slot is taken and no other touched |
| SessionSlots.SessionRegistry.Close | libexio/AdminInterfaceImpl.cc:143-161 | the slot is free again, no other touched |

## Left out

- Nested containers are values: `SamContainer` has the item list and both maps, with positions in
  place of pointers, so pointer identity and update in place of a shared child are not captured.
- `txContainer::remove` and renaming a child after insertion.
- Item names and types that are not clean: the encoder does not escape them, so the round trip is
  stated for clean names.
- The over-read of one byte past the end in the decoder's loops: a position past the end reads as
  the end, and no result depends on that byte.
- Overflow of `size_t` and `ssize_t`, failed allocations, and the `int` size argument of
  `process_input` for buffers of two gigabytes and more.
- Unsubscribing: a session that left and came back would keep rows cleared in between.
- SamCodec.FirstNameMustBeClean: only the first name is shown to be necessarily clean; later names are
  clean by assumption in the round trip.
- SyncRuns.SubscriberAgrees: the session must exist whenever the table publishes a change; messages to a
  session that has gone are dropped.
- TableMessages.AddSnapshotRow: a row has no metadata children.
- Publishing.SerialiseEvents: there are no metadata events.
- TableObject.DataTable.AddSubscriber: the table description is a parameter, of which only the type is
  fixed.
- EndToEnd.TableReachesSubscriber: update messages have no size check in the source, so their
  encodings are assumed not to exceed the decoder's limit; and the stream carries the messages of one
  table only.
- Per-cell metadata, column attributes and the content of the table description message.
- Logon, heartbeats, admin commands and their formatting, alerts, logging, the client program.
- The reactor's destructor beyond its request to stop, and the fairness of threads: the reactor
  theorems are safety properties.
- The row pointer of `UpdateSerialiser` and the splitting of an update over several messages, which
  `add_update` never asks for.
