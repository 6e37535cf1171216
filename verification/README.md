# Broker data plane: a verified model

A model in Dafny 4.11 of the message broker's data plane, with proofs about whole runs of it.

The broker keeps, for every queue, an append-only data file of records (an 8-byte length followed by a serialized
payload). Accepting a durable message appends a record, acknowledging it overwrites that record in place with the
flag `valid` set to "0", garbage collection rewrites the live records to a temporary file that replaces the data
file, and a restart rebuilds the queue from the file. Around that store stand the protobuf encoding of the payload,
the routing of a publication to bound queues, the tables of exchanges, queues and bindings, the round robin among
subscribers, the thread pool that runs deliveries, the minted identifiers, and muduo's byte buffer.

The results to read first:

- `BrokerRuns.BrokerRestart`, `BrokerMessages.RestartBringsBack` and `BrokerBindings.RestartBindsAgain`: after any run of
  the whole broker with working tables, earlier restarts included, a restart brings back exactly the durable queues, the
  durable bindings and, in each queue, the unacknowledged durable messages in order of publication; told by simple
  queues and by the events alone.
- `QueueRuns.CrashRecovery` and `QueueCounts.OutstandingSurvive`: the same for one queue, over its files byte by byte,
  with restarts between any two operations of the run, told once with a simple queue and once by the operations alone.
- `Crashes.HarmlessIff` and `Crashes.CrashInRun`: a crash inside an operation, at any byte of its writes. It is as good
  as a restart exactly when it is not inside a new record, not inside the copies of compaction, and not between the
  removal and the renaming of the files with something live; the lemmas beside them say what is recovered otherwise.
- `QueueRuns.StaleIffMoved`, `QueueRuns.CompactionLosesAck`, `QueueRuns.AckInsideRecord` and
  `LostAck.CompactionLosesAcknowledgement`: where the code breaks that promise without a crash. `remove` throws away the
  list that `gc` returns, so messages that compaction moved keep their old place; exactly which ones, what then
  happens to their acknowledgement, and a run that ends there.
- `QueueCounts.FirstInFirstOut` and `QueueCounts.Conservation`: order and conservation of messages in the queue object.
- `Routing.TableRightIff`: the routing table is right for all routing keys exactly when the binding key does not
  start with two `#` words, which the legality check rules out.
- `ThreadPool.TasksConserved`, `Channel.FanOut`, `Arguments.ArgumentsRoundTrip`, `Uuid.CounterPartIff`,
  `Consumers.WindowFairIff`.

## How it is built

One module per component. What an operation does is a function on values (`Append`, `Clear`, `Collect`, `InsertStep`,
`AckStep`, `BindStep`, ...). Each class has the source's fields and its methods are proved to compute those functions;
the theorems over runs are about the functions.

- `Bytes`, `Wire`, `PayloadCodec`: integers in bytes, varints and length-delimited fields as in the Protocol Buffers
  encoding ("Base 128 Varints", "Length-Delimited Records"), UTF-8 as in section 4 of RFC 3629, the generated code.
- `Framing`, `MessageLog`, `MessageMapper`: frames in a file, the log of payloads, the objects that read and write it.
- `QueueStore`, `QueueRuns`, `QueueCounts`, `LostAck`, `Crashes`, `MessageQueue`: one queue, its runs, its counts, a
  run that loses an acknowledgement, crashes inside an operation, and the class `QueueMessage`.
- `Splitting`, `Arguments`, `Routing`: `split`, the text form of arguments, topic matching.
- `Exchanges`, `Queues`, `Bindings`, `MessageStores`, `VirtualHost`, `HostRuns`, `BrokerRuns`, `BrokerMessages`,
  `BrokerBindings`, `Channel`: the broker's state and its runs.
- `Consumers`, `ThreadPool`, `Uuid`, `NetBuffer`: round robin, thread pool, identifiers, buffer.

Random bytes, minted identifiers, the order in which a hash map is traversed and the success of a statement on a table
are parameters or arbitrary choices. A mutex-protected method is one atomic step.

Where code and comments disagree the model follows the code: the length of a record takes `sizeof(size_t)`, 8 bytes,
not the 4 of the comment at mqserver/message.hpp:146; `gc` appends to a temporary file that is already there; the flag
`durable` of an exchange is compared with `true`, that is with 1, which is `UNDURABLE`
(mqserver/exchange.hpp:215, mqcommon/msg.pb.h:95).

## Model

| member | source | states |
|---|---|---|
| `Wire.VarintRoundTrip` | mqcommon/msg.pb.cc:256-273 | a varint below 128^k reads back in at most k bytes and leaves exactly what followed it |
| `Wire.KnownVarint` | mqcommon/msg.pb.cc:256-273 | 150 and 300 have the bytes of the encoding's own description: seven bits a byte, the low ones first |
| `Wire.DelimitedRoundTrip` | mqcommon/msg.pb.cc:262-264 | a length-delimited string up to the runtime's size limit reads back and leaves exactly what followed it |
| `PayloadCodec.PropertiesRoundTrip` | mqcommon/msg.pb.cc:252-349 | parsing the serialized properties gives them back, for UTF-8 strings and any 32-bit mode |
| `PayloadCodec.PayloadRoundTrip` | mqcommon/msg.pb.cc:537-633 | parsing a serialized payload gives it back, including whether it has properties, up to the size the runtime serializes |
| `PayloadCodec.EncodeInjective` | mqcommon/msg.pb.cc:594-633 | two payloads with the same bytes are equal |
| `PayloadCodec.KnownEncoding` | mqcommon/msg.pb.cc:310-349 | a message with all its fields has exactly these 17 bytes: field numbers, wire types and order |
| `PayloadCodec.ClearingFlagChangesLastByte` | mqserver/message.hpp:56-64 | setting `valid` from "1" to "0" keeps the length of the serialized payload and changes its last byte only |
| `PayloadCodec.PropertiesByteSize` | mqcommon/msg.pb.cc:351-380 | the computed size is the number of bytes of the serialized properties |
| `PayloadCodec.ByteSizeLong` | mqcommon/msg.pb.cc:635-665 | the computed size is the number of bytes the serializer writes |
| `PayloadCodec.SerializeProperties` | mqcommon/msg.pb.cc:310-349 | writes the encoding of the properties into the buffer from `target` on and leaves what is before |
| `PayloadCodec.Serialize` | mqcommon/msg.pb.cc:594-633 | writes the encoding of the payload into the buffer from `target` on and leaves what is before |
| `PayloadCodec.SerializeAsString` | mqserver/message.hpp:119-120 | a buffer of exactly `ByteSizeLong` bytes is filled to its end with the encoding |
| `PayloadCodec.InternalParseProperties` | mqcommon/msg.pb.cc:252-308 | the parser's loop computes the parse the round trip is about, unknown fields and nested groups skipped, with the fields read so far on failure |
| `PayloadCodec.ParseFromString` | mqcommon/msg.pb.cc:537-592 | the same for the payload, whose properties field may come more than once |
| `Framing.UnframeFrames` | mqserver/message.hpp:150-177 | scanning a sequence of frames meets exactly its bodies, whatever bytes follow |
| `Framing.FrameBytes` | mqserver/message.hpp:122-138 | a record is eight bytes of length, the low ones first, and then the body |
| `Framing.FramesTile` | mqserver/message.hpp:122-141 | each byte of the file belongs to the header or the body of exactly one record |
| `Framing.FramesDisjoint` | mqserver/message.hpp:122-141 | two records do not overlap, headers included |
| `Framing.OverwriteBody` | mqserver/message.hpp:66-67 | writing a body of the same length over a record changes that record and no other |
| `Framing.PlacesExact` | mqserver/message.hpp:140-141 | below 4 GiB the 32-bit offset and length recorded for an appended record are the true ones |
| `MessageLog.LoadLayout` | mqserver/message.hpp:144-179 | loading a well-formed file, whatever follows it, yields its records that are not flagged "0", in order |
| `MessageLog.LoadedUnlessCleared` | mqserver/message.hpp:171-174 | of the records of a file, loading passes over those flagged "0" and over nothing else |
| `MessageLog.ClearRecordChangesOneByte` | mqserver/message.hpp:54-74 | clearing a record changes one byte of the file, the last of that record, from "1" to "0" |
| `MessageLog.AppendToLog` | mqserver/message.hpp:115-143 | inserting appends the record to the file and gives the message the true place of that record |
| `MessageLog.ClearInLog` | mqserver/message.hpp:54-74 | with a true place, removing clears exactly that record: the length check passes |
| `MessageLog.ClearAfter` | mqserver/message.hpp:54-74 | with a place behind the first n records, removing clears none of them: they still load |
| `MessageLog.CompactionPreservesMeaning` | mqserver/message.hpp:75-112 | with no temporary file, `gc` leaves exactly the live records, the file loads to the same messages, the messages returned carry their true places, and a second `gc` changes nothing |
| `MessageLog.CompactionWithLeftover` | mqserver/message.hpp:86-95 | whatever bytes a left-over temporary file has, they stay in front of the live records and the places returned are behind them; what `gc` gives is the same exactly when there are none, and the meaning is kept by a file that reads to its end exactly when no live record is in it |
| `MessageMapper.File.Read` | mqcommon/helper.hpp:149-170 | reads the bytes asked for, and fails when the file is absent or too short |
| `MessageMapper.File.Write` | mqcommon/helper.hpp:180-201 | overwrites or extends the file at the offset, and fails when the file is absent |
| `MessageMapper.MessageMapper.InsertInto` | mqserver/message.hpp:115-143 | appends the frame of the message and records its place modulo 2^32 |
| `MessageMapper.MessageMapper.Remove` | mqserver/message.hpp:54-74 | computes `Clear` on the files, flags the message, and reports whether the length fitted |
| `MessageMapper.MessageMapper.LoadMessages` | mqserver/message.hpp:144-179 | the scan loop returns the messages `Load` gives, as new objects, and whether it reached the end |
| `MessageMapper.MessageMapper.Gc` | mqserver/message.hpp:75-112 | computes `Collect`: files and the messages returned with their places |
| `QueueStore.WastefulMeansHalf` | mqserver/message.hpp:274-275 | the rounded test `durable * 10 / total < 5` is exactly `2 * durable < total` |
| `QueueStore.BuiltIsCopy` | mqserver/message.hpp:206-229 | the payload built has the given body, identifier and key, or a minted identifier and no key; the mode given, or `DURABLE`, on a durable queue and `UNDURABLE` otherwise; flag "1" exactly for mode `DURABLE` |
| `QueueStore.InsertKept` | mqserver/message.hpp:224-241 | an accepted message comes last; its record is appended to the file, and it is indexed, exactly for mode `DURABLE`; nothing else changes |
| `QueueStore.AddAllFirst` | mqserver/message.hpp:197-200 | of messages with the same identifier the index keeps the first |
| `QueueStore.IndexedInsert` | mqserver/message.hpp:204-241 | inserting a message with a new identifier keeps the containers equal to the simple queue's |
| `QueueStore.IndexedFront` | mqserver/message.hpp:244-256 | so does `front`, which moves the oldest pending message to the waiting ones |
| `QueueStore.IndexedAck` | mqserver/message.hpp:259-284 | so does `remove` |
| `QueueRuns.StepKeeps` | mqserver/message.hpp:193-284 | every operation, restart and compaction included, keeps file, places, containers and counter in agreement with the simple queue |
| `QueueRuns.CrashRecovery` | mqserver/message.hpp:193-284 | over any run, with restarts between any two operations, the file loads to the durable messages not yet acknowledged, in insertion order, and a restart rebuilds exactly that queue |
| `QueueRuns.OffsetsDelimitRecords` | mqserver/message.hpp:115-143 | in every reached state a durable message not moved by compaction has the place of its own record, header included |
| `QueueRuns.RecordsTileFile` | mqserver/message.hpp:115-143 | in every reached state the file is tiled by its records, headers included, without gap or overlap, and the counter is their number |
| `QueueRuns.AckChangesOneByte` | mqserver/message.hpp:54-74 | in every reached state the acknowledgement of a message that compaction has not moved changes one byte of the file, the last of its own record, from "1" to "0" |
| `QueueRuns.PlaceKept` | mqserver/message.hpp:75-112 | a live record keeps its place through compaction exactly when no dead record is before it |
| `QueueRuns.CompactionMoves` | mqserver/message.hpp:275-279 | any compaction leaves a wrong place in memory for exactly the live messages that had one already or have an acknowledged record before theirs |
| `QueueRuns.StaleIffMoved` | mqserver/message.hpp:259-284 | over any run, a held message has a wrong place exactly when some compaction, with no restart since, found an acknowledged record before its own |
| `QueueRuns.StalePlace` | mqserver/message.hpp:259-284 | in any state a live message has the true place of its record, or one behind it if compaction has moved it, and payload and length are right |
| `QueueRuns.MovedAckIsLost` | mqserver/message.hpp:269-279 | acknowledging a message whose place lies behind its record leaves that record live, to be delivered again |
| `QueueRuns.CompactionLosesAck` | mqserver/message.hpp:269-279 | so it is, after any compaction, for every delivered message with at least as many bytes of acknowledged records before its record as that record has |
| `QueueRuns.AckInsideRecord` | mqserver/message.hpp:54-74 | acknowledging through a place inside the record, d bytes too far: the records before it still load, the scan meets a record of the same length made of both forms, and goes on with the last d bytes of the cleared form in place of the next d bytes of the file |
| `LostAck.CompactionLosesAcknowledgement` | mqserver/message.hpp:259-284 | a run of 6002 allowed steps from an empty file after which an acknowledgement is lost in that way |
| `Crashes.TornInsert` | mqserver/message.hpp:115-143 | a crash inside the two writes of a new record: the next process has all live messages and none of their places, leaves the torn file as it is, and the one after finds the same |
| `Crashes.TornAckLost` | mqserver/message.hpp:54-74 | no acknowledgement of a message recovered from a torn file reaches that file |
| `Crashes.AppendedBehindTear` | mqserver/message.hpp:115-177 | whatever is appended behind a torn record, cut at any byte, is read as its missing bytes first, those of its length included; until there are enough the scan fails where it failed |
| `Crashes.AckIsAtomic` | mqserver/message.hpp:54-74 | a crash at any byte of an acknowledgement leaves the file as it was or the acknowledgement complete |
| `Crashes.CopyCutShort` | mqserver/message.hpp:75-112 | a crash after any number of bytes of the copies: the next process has all live messages with true places, in a file that starts with those bytes |
| `Crashes.CopyDuplicates` | mqserver/message.hpp:85-112 | with k whole copies the process after the next has the first k messages twice; exact only for k = 0 |
| `Crashes.CopyTorn` | mqserver/message.hpp:85-177 | with k whole copies and part of another, cut at any byte, the process after the next reads the missing part of that record, of its length too, from the live records behind it and goes on in the middle of them |
| `Crashes.FirstHeaderOnly` | mqserver/message.hpp:126-133 | a crash between the two writes of the first copy: the process after the next finds none of the live records where it looks |
| `Crashes.RemovedNotRenamed` | mqserver/message.hpp:97-104 | a crash between removal and renaming: the next process has an empty queue over a file with all live messages, and the one after has them again |
| `Crashes.HarmlessIff` | mqserver/message.hpp:54-143 | the next process is in the state of a restart before or after the operation exactly when the crash is not inside a new record, not after the first byte of a copy, and not between removal and renaming with something live |
| `Crashes.CrashInRun` | mqserver/message.hpp:54-284 | so it is in every state that a run reaches between two operations |
| `Crashes.CrashInAck` | mqserver/message.hpp:269-279 | and in the compaction that follows an acknowledgement, which starts from the file with that record cleared and the counter not yet reset |
| `QueueCounts.SpaceBound` | mqserver/message.hpp:271-279 | over a server lifetime the counter exceeds the unacknowledged durable messages by at most 2000 or by their number |
| `QueueCounts.FileBound` | mqserver/message.hpp:271-279 | over any run with restarts the file holds at most 2000 dead records or as many as live ones |
| `QueueCounts.FirstInFirstOut` | mqserver/message.hpp:239-255 | in the queue object, from any state whatsoever until the next restart: payloads pending plus accepted are those `front` handed out followed by those pending, in order |
| `QueueCounts.Conservation` | mqserver/message.hpp:204-284 | in the queue object, over a server lifetime, acknowledgements of moved messages included: what the two containers held plus what was accepted is, as a bag, what they hold plus what `remove` took out, and no identifier is held twice |
| `QueueCounts.ReachedCounted` | mqserver/message.hpp:193-284 | every state that a run with restarts reaches is one from which these lifetimes start |
| `QueueCounts.LegalLifetime` | mqserver/message.hpp:204-284 | until the next restart, what is left of a run is such a lifetime |
| `QueueCounts.OutstandingSurvive` | mqserver/message.hpp:193-284 | over any run with restarts the file loads to, and a restart makes the queue, the messages held at first and the durable ones inserted, without those acknowledged later, in order of insertion |
| `MessageQueue.QueueMessage.Recovery` | mqserver/message.hpp:193-202 | computes `RecoverStep`: compacted files, their messages pending and indexed, the counter reset |
| `MessageQueue.QueueMessage.Insert` | mqserver/message.hpp:204-241 | computes `InsertStep`; an accepted message comes last and is the copy of what was given: body, identifier, key, mode and flag; fails exactly when a durable message finds no file |
| `MessageQueue.QueueMessage.Front` | mqserver/message.hpp:244-256 | computes `FrontStep` and hands out the oldest pending message, the same object |
| `MessageQueue.QueueMessage.Remove` | mqserver/message.hpp:259-284 | computes `AckStep` for a message that was delivered |
| `MessageQueue.QueueMessage.CompactIfWasteful` | mqserver/message.hpp:274-279 | compacts and resets the counter exactly when the test says so, and leaves the messages in memory as they are |
| `Splitting.Split` | mqcommon/helper.hpp:69-96 | terminates, appends the nonempty pieces in order and returns the new size; an empty separator does nothing |
| `Splitting.FieldsCutAndJoin` | mqcommon/helper.hpp:74-94 | the pieces are free of the separator and joined give the string back |
| `Splitting.SplitUnique` | mqcommon/helper.hpp:74-94 | for a one-character separator they are the only such list |
| `Splitting.SplitAgain` | mqcommon/helper.hpp:69-96 | the pieces are nonempty, and joined and split again they are the same |
| `Arguments.GetArgs` | mqserver/queue.hpp:40-48 | writes the arguments in some order that lists each key once |
| `Arguments.SetArgs` | mqserver/queue.hpp:51-63 | stores each piece under the text before its first '=', the whole piece under itself when it has none |
| `Arguments.ArgumentsRoundTrip` | mqserver/exchange.hpp:39-62 | in every order, reading the text back gives the arguments exactly when no key has '=' or '&' and no value has '&' |
| `Arguments.ParsedAt` | mqserver/queue.hpp:54-62 | a piece is cut at its first '=', and is both key and value without one |
| `Arguments.StoredLast` | mqserver/queue.hpp:51-63 | of pieces with the same key the last one counts, and what no piece mentions stays |
| `Arguments.WrittenOne` | mqserver/queue.hpp:40-48 | one argument is written as key, '=', value, '&' |
| `Routing.IsLegalRoutingKey` | mqserver/route.hpp:14-29 | decides the set of legal routing keys |
| `Routing.IsLegalBindingKey` | mqserver/route.hpp:30-73 | decides the set of legal binding keys |
| `Routing.LegalMeans` | mqserver/route.hpp:30-73 | that set byte by byte and word by word: a wildcard stands alone in its word and no '#' has a wildcard beside it |
| `Routing.MatchesOne` | mqserver/route.hpp:100-119 | a pattern word matches one word if it is '*', any number of them if it is '#', and else only itself |
| `Routing.MatchesConcat` | mqserver/route.hpp:100-119 | a pattern in two parts matches exactly when the words split in two that match them |
| `Routing.CellMatches` | mqserver/route.hpp:100-119 | cell (i, j) is the matching relation of the first i binding words and the first j routing words |
| `Routing.FirstColumn` | mqserver/route.hpp:101-103 | without two leading '#' only the cells (0,0) and (1,0) of the first column can hold |
| `Routing.DiagonalRedundant` | mqserver/route.hpp:108-110 | for every pattern, dropping the diagonal term of the '#' rows leaves the whole table as it is |
| `Routing.TableRightIff` | mqserver/route.hpp:100-121 | the table is right for all routing words exactly when the binding words do not start with two '#' |
| `Routing.LegalNeverStartsWithTwoHashes` | mqserver/route.hpp:57-71 | the legality check rules that case out |
| `Routing.FillRow` | mqserver/route.hpp:106-118 | the inner loop fills one row from the row above |
| `Routing.FillTable` | mqserver/route.hpp:100-121 | the loops compute the table's last cell |
| `Routing.Route` | mqserver/route.hpp:74-127 | illegal keys and unknown types never route; legal ones route for direct exactly if they are equal, for fanout always, for topic exactly if the words match |
| `Exchanges.ExchangeManager.DeclareExchange` | mqserver/exchange.hpp:178-202 | an existing exchange stays; a new one is there with the arguments given, a durable one only if its row is new and written; the new state and the result |
| `Exchanges.ExchangeManager.DeleteExchange` | mqserver/exchange.hpp:205-223 | the exchange is gone unless it has mode 1 and its row cannot be deleted; the others stay; a row is deleted only for mode 1 |
| `Exchanges.ExchangeMapper.Recovery` | mqserver/exchange.hpp:132-159 | every row becomes an exchange, in whatever order the rows come |
| `Exchanges.DeleteMirrorIff` | mqserver/exchange.hpp:205-223 | deleting an exchange keeps the table a mirror of the durable exchanges exactly when it was not durable |
| `Exchanges.DeletedDurableReturns` | mqserver/exchange.hpp:178-223 | a deleted durable exchange comes back with a restart and cannot be declared durable before |
| `Exchanges.RestartRebuildsDurable` | mqserver/exchange.hpp:132-160 | a restart of a mirrored state rebuilds the durable exchanges, equal exactly when their arguments survive the text form |
| `Queues.MsgQueueManager.DeclareQueue` | mqserver/queue.hpp:170-192 | an existing queue stays; a new durable one gets a row or is refused; the new state and the result |
| `Queues.MsgQueueManager.DeleteQueue` | mqserver/queue.hpp:195-211 | queue and row go, or neither when the row cannot be deleted |
| `Queues.MsgQueueMapper.Recovery` | mqserver/queue.hpp:125-152 | every row becomes a queue, in whatever order the rows come |
| `Queues.DeclareKeepsMirror` | mqserver/queue.hpp:170-192 | the table stays a mirror of the durable queues, and the table's key then never refuses a declaration |
| `Queues.DeleteKeepsMirror` | mqserver/queue.hpp:195-211 | so it does when a queue is deleted, whether or not the statement succeeds |
| `Queues.RestartRebuildsDurable` | mqserver/queue.hpp:125-152 | a restart rebuilds the durable queues and no others, each equal exactly when its arguments survive the text form |
| `Bindings.BindingMapper.Recovery` | mqserver/binding.hpp:100-117 | rebuilds the two-level map row by row, the first row of a pair counting |
| `Bindings.BindingManager.Bind` | mqserver/binding.hpp:133-154 | an existing binding stays; a durable one is refused when its row cannot be written; the new map and table |
| `Bindings.BindingManager.UnBind` | mqserver/binding.hpp:156-171 | the pair leaves the map and its row the table; nothing happens when it is not bound |
| `Bindings.BindingManager.RemoveExchangeBindings` | mqserver/binding.hpp:173-183 | all bindings and rows of the exchange go |
| `Bindings.BindingManager.RemoveMsgQueueBindings` | mqserver/binding.hpp:185-193 | the loop takes the queue out of every inner map, and its rows go |
| `Bindings.BindKeepsSane` | mqserver/binding.hpp:133-154 | binding keeps every binding under its own two names, whether or not its row is written |
| `Bindings.PruneKeepsSane` | mqserver/binding.hpp:156-193 | so does removing bindings, whether or not the statement succeeds |
| `Bindings.RestartedSane` | mqserver/binding.hpp:100-131 | so does a restart, whatever the rows |
| `Bindings.FirstRowCounts` | mqserver/binding.hpp:100-117 | of rows for the same pair the first one counts |
| `Bindings.BindKeepsMirror` | mqserver/binding.hpp:133-154 | binding keeps one row per durable binding and no other row, although the table has no key |
| `Bindings.PruneMirrorIff` | mqserver/binding.hpp:156-193 | removing bindings keeps the mirror exactly when the statement succeeds or nothing durable was removed |
| `Bindings.RestartRebuildsDurable` | mqserver/binding.hpp:100-131 | a restart rebuilds exactly the durable part of the map, and the table still mirrors it |
| `MessageStores.MessageManager.InitQueueMessage` | mqserver/message.hpp:335-351 | a name without a store gets a new queue object recovered from its files; no two queue objects share an object |
| `MessageStores.MessageManager.DestroyQueueMessage` | mqserver/message.hpp:353-367 | the queue object of the name goes and both its files are absent |
| `MessageStores.MessageManager.Insert` | mqserver/message.hpp:368-382 | the queue object of the name gets the message, the others keep their state; fails exactly without a store or, for a durable message, a file |
| `MessageStores.MessageManager.Front` | mqserver/message.hpp:384-398 | the oldest pending message of that queue object, if there is one |
| `MessageStores.MessageManager.Ack` | mqserver/message.hpp:400-414 | acknowledges in that queue object; without a store nothing happens |
| `VirtualHost.VirtualHost.constructor` | mqserver/virtualhost.hpp:16-29 | everything recovered from tables and files, with a store for every queue, in whatever order |
| `VirtualHost.VirtualHost.DeclareExchange` | mqserver/virtualhost.hpp:32-39 | the new state of the whole broker and the result |
| `VirtualHost.VirtualHost.DeleteExchange` | mqserver/virtualhost.hpp:41-45 | bindings go first, even when the exchange then cannot be deleted |
| `VirtualHost.VirtualHost.DeclareQueue` | mqserver/virtualhost.hpp:56-66 | the store is opened first, even when the declaration is then refused |
| `VirtualHost.VirtualHost.DeleteQueue` | mqserver/virtualhost.hpp:68-74 | bindings and store go first, even when the queue then cannot be deleted |
| `VirtualHost.VirtualHost.Bind` | mqserver/virtualhost.hpp:85-100 | fails without exchange or queue; a new binding has the key given, and a row exactly when the queue is durable and the exchange's mode is not 0 |
| `VirtualHost.VirtualHost.UnBind` | mqserver/virtualhost.hpp:102-105 | the new state of the whole broker |
| `VirtualHost.VirtualHost.BasicPublish` | mqserver/virtualhost.hpp:117-126 | one copy into the queue's store, with the queue's own durability; succeeds exactly when the queue is declared and has a store and, for a durable message, a file |
| `VirtualHost.VirtualHost.BasicConsume` | mqserver/virtualhost.hpp:128-131 | hands out the oldest pending message |
| `VirtualHost.VirtualHost.BasicAck` | mqserver/virtualhost.hpp:133-136 | acknowledges a delivered message |
| `VirtualHost.IntegrityIff` | mqserver/virtualhost.hpp:32-105 | an operation keeps every binding between declared ends and every queue with a store, unless it deletes a durable queue whose row cannot be deleted |
| `VirtualHost.DoneAnyway` | mqserver/virtualhost.hpp:41-105 | even when it fails, a declaration of a queue opens its store, and a deletion takes exactly the bindings concerned and the queue's store |
| `HostRuns.RunsKeepIntegrity` | mqserver/virtualhost.hpp:32-105 | the same over every run |
| `HostRuns.RunsKeepMirrors` | mqserver/virtualhost.hpp:32-105 | over every run with working tables both tables mirror the maps, and only durable queues have durable bindings |
| `HostRuns.RestartIntegrityIff` | mqserver/virtualhost.hpp:16-29 | after a restart bindings have declared ends exactly when each durable binding's exchange has a row |
| `HostRuns.RestartLosesExchange` | mqserver/virtualhost.hpp:85-100 | the failing side is reached: an exchange of mode `UNDURABLE` and a durable queue are declared and bound, and the restart leaves the binding without its exchange |
| `HostRuns.StepRecoverable` | mqserver/virtualhost.hpp:32-136 | every operation with working tables keeps a row for each durable queue and binding and no other, durable bindings on durable queues, and a store for each queue |
| `HostRuns.RestartRecoverable` | mqserver/virtualhost.hpp:16-29 | so does every restart, whatever it loses of exchanges and arguments |
| `BrokerRuns.StoresAreQueues` | mqserver/virtualhost.hpp:16-136 | over any run of the whole broker with restarts each store holds the messages of its own simple queue, pending and waiting |
| `BrokerRuns.BrokerRestart` | mqserver/virtualhost.hpp:16-136 | after any such run, whatever earlier restarts lost of exchanges and arguments, a restart brings back exactly the durable queues, the durable bindings and each queue's unacknowledged durable messages in order |
| `BrokerMessages.RestartBringsBack` | mqserver/virtualhost.hpp:16-136 | the same told by the events alone: the queues declared durable and not deleted since, each with the durable messages published to it and not acknowledged since, in order of publication |
| `BrokerBindings.RestartBindsAgain` | mqserver/virtualhost.hpp:85-105 | told by the events alone: a restart binds a pair with a key exactly when some event bound it with that key while the exchange was declared with a mode other than 0, the queue declared durable and the pair unbound, and none since has unbound it or deleted one of its ends |
| `BrokerBindings.RestartBringsExchanges` | mqserver/virtualhost.hpp:32-45 | and it brings back exactly the exchanges that the events leave stored, with their modes |
| `BrokerBindings.GoodRuns` | mqserver/virtualhost.hpp:16-136 | the runs of `BrokerRuns.BrokerRestart` are runs of this kind, which need no condition on messages |
| `Channel.FanOut` | mqserver/channel.hpp:157-170 | along publications in any order to the queues routed to: each that is declared, as all are with referential integrity, gains exactly its copy at the tail, with body, identifier, key and mode as published; every other store and all but the stores is unchanged |
| `Channel.AnyOrder` | mqserver/channel.hpp:157-170 | two orders of serving the same queues end in the same state |
| `Channel.Channel.PublishAll` | mqserver/channel.hpp:157-170 | the loop is a run of publications to exactly the queues routed to, each once, in some order, and pushes one task for each in that order |
| `Channel.Channel.BasicPublish` | mqserver/channel.hpp:138-172 | without the exchange nothing happens; otherwise it is such a run for the exchange's bindings, with the routing key of the properties: with a fanout exchange to every queue bound with a legal key, with a direct one to those bound with that key, with a topic one to those whose words match |
| `Channel.Channel.Consume` | mqserver/channel.hpp:228-249 | one message goes to the subscriber whose turn it is; the queue's counter moves by exactly one, and not without message or subscriber; no other counter and no subscriber changes |
| `Channel.HandsOut` | mqserver/channel.hpp:228-245 | the subscriber gets the body and the properties of the oldest message, which leaves the queue |
| `Channel.HandsOutAcked` | mqserver/channel.hpp:246-248 | that message waits for an acknowledgement exactly if there is no subscriber or he did not ask for automatic acknowledgement |
| `Channel.CopyDelivered` | mqserver/channel.hpp:245 | the body, identifier and routing key delivered are those published |
| `Channel.Channel.ConsumeEach` | mqserver/channel.hpp:228-249 | k deliveries hand out the first k messages in order, by turns of the subscribers, and before the counter wraps nobody gets more than one more than another |
| `Channel.AutoAckTakes` | mqserver/channel.hpp:247-248 | delivery with automatic acknowledgement takes the first pending message out of the store, from the durable ones too, and leaves the rest of the messages held and every other store as they are |
| `Channel.DeliverySteps` | mqserver/channel.hpp:228-249 | a delivery is a `Consume` step of the broker's runs, followed by an `Ack` step when acknowledged automatically |
| `Consumers.QueueConsumer.Create` | mqserver/consumer.hpp:37-52 | a tag already there yields nothing, a new one comes last; tags stay distinct |
| `Consumers.QueueConsumer.Remove` | mqserver/consumer.hpp:54-67 | the one consumer with the tag leaves, the others keep their order |
| `Consumers.QueueConsumer.Choose` | mqserver/consumer.hpp:69-77 | the consumer whose turn it is; the 64-bit counter wraps |
| `Consumers.QueueConsumer.ChooseEach` | mqserver/consumer.hpp:69-77 | k calls in a row serve the consumers of turns 0 to k - 1, and before the wrap none is served more than once more than another |
| `Consumers.RoundRobinFair` | mqserver/consumer.hpp:69-77 | over any number of calls before the wrap the numbers of turns differ by at most one |
| `Consumers.OneTurnEach` | mqserver/consumer.hpp:69-77 | each window of n calls before the wrap gives each of n consumers one turn |
| `Consumers.WindowFairIff` | mqserver/consumer.hpp:74-75 | a window of n calls is fair exactly when it does not cross the wrap of the counter or n divides 2^64 |
| `Consumers.ConsumerManager.Choose` | mqserver/consumer.hpp:174-188 | only the queue's own counter moves; a queue without an entry has no consumer |
| `ThreadPool.Threadpool.Push` | mqcommon/threadpool.hpp:48-51 | one atomic step: the task comes last |
| `ThreadPool.Threadpool.TakeAll` | mqcommon/threadpool.hpp:73-81 | one atomic step: the worker has the whole pool and the pool is empty |
| `ThreadPool.Threadpool.RunNext` | mqcommon/threadpool.hpp:82-85 | one step of the loop: the next task of the worker's batch |
| `ThreadPool.MoveKeeps` | mqcommon/threadpool.hpp:35-87 | every step of any thread keeps the invariant on batches, workers and executed tasks |
| `ThreadPool.TasksConserved` | mqcommon/threadpool.hpp:35-87 | in every interleaving the swapped batches followed by the pool are the pushes in order, each batch is run in push order, and no task runs twice |
| `ThreadPool.ExitNeedsStop` | mqcommon/threadpool.hpp:56-70 | in every interleaving the flag is set exactly if `stop` was called, and no worker has left unless it was |
| `ThreadPool.StoppedLeaves` | mqcommon/threadpool.hpp:70 | once `stop` was called a worker that tests the flag takes no further batch and runs no further task |
| `ThreadPool.RunningStays` | mqcommon/threadpool.hpp:70-81 | before that a worker that tests the flag waits, and no batch taken is empty |
| `ThreadPool.NeverRunAreInPool` | mqcommon/threadpool.hpp:56-87 | once all workers have exited `stop` has been called, and a task was never run exactly if it is still in the pool |
| `Uuid.Generator.Mint` | mqcommon/helper.hpp:102-125 | the text of eight random bytes and eight windows of the counter, which then advances |
| `Uuid.RandomText` | mqcommon/helper.hpp:108-113 | the random bytes in order, two digits each, with dashes after the fourth, the sixth and the eighth |
| `Uuid.CounterText` | mqcommon/helper.hpp:115-122 | bytes of the counter at shifts 28, 24 and so on to 0, with a dash after the second |
| `Uuid.Digits` | mqcommon/helper.hpp:102-125 | a byte is two lower-case hexadecimal digits, the high one first |
| `Uuid.CounterPartIff` | mqcommon/helper.hpp:115-122 | the windows of two counters are equal exactly when the counters are equal modulo 2^36 |
| `Uuid.DistinctCountersDistinctIds` | mqcommon/helper.hpp:102-125 | whatever the random bytes, counters that differ modulo 2^36 give different identifiers |
| `NetBuffer.Buffer.Retrieve` | third/include/muduo/net/Buffer.h:113-124 | the first bytes leave; an emptied buffer goes back to its start |
| `NetBuffer.Buffer.RetrieveAsString` | third/include/muduo/net/Buffer.h:164-170 | the bytes returned and the bytes left are what was there |
| `NetBuffer.Buffer.MakeSpace` | third/include/muduo/net/Buffer.h:390-409 | content kept, by the copy onto overlapping bytes too, and room for `len` more; called when there was not, its assertion holds |
| `NetBuffer.Buffer.EnsureWritableBytes` | third/include/muduo/net/Buffer.h:194-201 | content kept and room for `len` more |
| `NetBuffer.Buffer.Append` | third/include/muduo/net/Buffer.h:182-187 | the data come last |
| `NetBuffer.Buffer.Prepend` | third/include/muduo/net/Buffer.h:354-360 | the data come first |
| `NetBuffer.Buffer.Shrink` | third/include/muduo/net/Buffer.h:362-369 | content kept in a new buffer with room for `reserve` more |
| `NetBuffer.Buffer.AppendInt` | third/include/muduo/net/Buffer.h:224-248 | the integer's bytes in network order come last |
| `NetBuffer.Buffer.PeekInt` | third/include/muduo/net/Buffer.h:290-323 | reads the first bytes as an integer in network order |
| `NetBuffer.Buffer.ReadInt` | third/include/muduo/net/Buffer.h:254-285 | reads the first bytes as an integer and takes them out |
| `NetBuffer.Buffer.PrependInt` | third/include/muduo/net/Buffer.h:328-352 | the integer's bytes in network order come first |
| `NetBuffer.NetworkAt` | third/include/muduo/net/Buffer.h:224-248 | byte i of an integer of k bytes is the one of weight 256^(k - 1 - i), in two's complement |
| `NetBuffer.IntegersReadBack` | third/include/muduo/net/Buffer.h:224-323 | a signed integer of any width reads back unchanged, and what follows it stays |
| `NetBuffer.BytesWriteBack` | third/include/muduo/net/Buffer.h:224-323 | and bytes read as an integer are the bytes that integer writes |

## Left out

- QueueRuns.CrashRecovery: covers runs in which held identifiers are distinct, strings are UTF-8 and sizes within the protobuf runtime's limits, a file stays below 4 GiB and an acknowledgement names a delivered message that compaction has not moved; what happens to moved ones is stated by `QueueRuns.StaleIffMoved`, `QueueRuns.CompactionLosesAck` and `QueueRuns.AckInsideRecord`, and crashes inside an operation are in `Crashes`.
- Crashes.HarmlessIff: judges the state of the next process; what the one after it reads behind a torn copy depends on the contents of the records, and `Crashes.CopyTorn` gives it as what the scan makes of the bytes there. A crash leaves a prefix of the bytes being written, of an acknowledgement through a true place; a second crash during recovery is not modelled.
- Crashes.ReadOn: a damaged length fails the scan as a short read does, while the code first allocates a body of that length and may throw; so too for `Crashes.FirstHeaderOnly`, `Crashes.AppendedBehindTear`, `Crashes.CopyTorn` and `QueueRuns.AckInsideRecord`.
- QueueRuns.AckInsideRecord: what the scan makes of the bytes behind the damaged record depends on the contents of the messages; it is stated as the load of those bytes.
- QueueCounts.FirstInFirstOut: within one server lifetime; the waiting messages of a queue come back in front after a restart, as `QueueCounts.OutstandingSurvive` says.
- QueueCounts.Conservation: as long as identifiers are distinct from those held; `unordered_map::insert` drops a second message of the same identifier from the waiting ones.
- BrokerRuns.BrokerRestart: runs with working tables from empty tables and files, under the conditions of `QueueRuns.CrashRecovery` for each queue. Exchanges are not part of the result, since their table does not mirror them, but of `BrokerBindings.RestartBringsExchanges`; nor are the arguments of queues, which need not survive their text form.
- Uuid.Generator.Mint: the quality of the random bytes.
- ThreadPool.TasksConserved: safety only; whether a waiting worker is ever woken, and what a task does or throws, is not modelled. `stop` and `push` may come in any order.
- MessageMapper.File.Write: no failure but an absent file; disk errors are not modelled.
- MessageQueue.QueueMessage.Remove: the record is cleared after the entries are erased instead of before, which nothing under the queue's lock can observe; an identifier that was not delivered is outside the precondition because the code dereferences the missing entry.
- Wire.DelimitedRoundTrip: the protobuf runtime is not part of this repository; its limits and its skipping of unknown fields are modelled, but not the keeping of unknown fields for the next serialization, nor what serializing beyond 2^31-1 bytes leaves.
- Consumers.QueueConsumer.Choose: the index is not truncated to 32 bits, so fewer than 2^31 consumers are assumed.
- `clear` of the managers, `size`, `getBinding` and the counting getters: they would only add easy members. After `clear` the tables no longer exist and inserts fail.
- Getters, constructors and methods of one assignment are in the modules, with contracts that give the whole new state, but have no row above.
- The SQL text, quoting and the statements' failures other than as a flag; the directory helpers.
- The life of consumers after their queue is deleted, `ConsumerManager::create` and `remove`, and the channel's replies.
- muduo's event loop, codec and dispatcher, `Buffer::readFd` and the searches for line ends, the broker's and the connections' plumbing, the client programs, logging and the demos.
- Everything in the generated protobuf code but serializing, sizing and parsing of the two stored messages.
