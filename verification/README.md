# Borealis: inference, deployment, tables, catalog copy, stream boxes, marshaling, SQL

A Dafny model of the parts of Borealis (a distributed stream processing engine) where
state, ordering and interleaving decide whether the system is right. Each module follows
the source files named in the table below. Code that changes things in place is a class or
a method with loops, proved against functions and relations; the properties of these are
separate lemmas. The copy of the catalog, which two threads carry out, is a state machine
whose runs are all interleavings.

| module | what it models |
|---|---|
| `Basics` | bytes, options, sequences without repetition |
| `Network` | boxes, streams, schemas; what inferring one box does to the schemas of its out streams |
| `InferenceOrder` | inference in any order: confluence, the exact verdict, cycles |
| `UpstreamOrder` | what a box waits for: what comes first in every complete scan, and what a complete scan can put later |
| `HeadOrder` | the order the head takes boxes in, and which box comes up before which |
| `MarshalDiagram` | the code generator's scan over one set of boxes |
| `Deployment` | the messages the head sends to each node, and the order of each node's trace |
| `DeploymentReach` | how far a deployment gets: what its status says, what the traces then hold, and that they hold nothing else |
| `DeploymentGaps` | where the deployer departs from its intent, and exactly when |
| `DeploymentOrder` | exactly which plans give traces in order whatever the nodes answer |
| `DeployDiagram` | the head's scan over per-node lists, and the deployer that follows it |
| `HeadDeployment` | the same from the head's lists: exactly which networks it deploys in order |
| `Storage` | a table with secondary indexes; runs of inserts and deletes |
| `WhereClause` | where clauses, their meaning, and the flattening of nested conjunctions |
| `AccessPaths` | which cursor the factories pick, and why it finds the same rows as a filtered scan |
| `TableCursors` | tables and cursors that move and delete in place |
| `Statements` | select, delete and update loops over a cursor, and the delete box |
| `ScanUpdates` | updates by scan turn by turn, and exactly when they do what they are to do |
| `CatalogMessages` | a catalog, the messages that tell of it and their order, and what an update does to them |
| `CatalogCopy` | the head copies its catalog to a global component while updates arrive |
| `CatalogRaces` | the two steps that make the copy go wrong, and how it ends |
| `LRWaitFor` | the box that holds back data until a control key has passed it |
| `Combine` | the box that joins one tuple from each input by key, with a bit mask |
| `ScatterGather` | frames split for two workers and joined again |
| `MarshalCodec` | the code generated to put tuples with arrays into an event and take them out |
| `MarshalStrays` | tuples refused halfway, and exactly when the others come back all the same |
| `SqlGrammar` | the grammar of the streaming SQL front end, as data, and the trees its words stand for |
| `SqlParser` | the recursive descent parser of the streaming SQL front end |

## Model

| member | source | states |
|---|---|---|
| Network.EqualSchema | src/modules/catalog/CatalogSchema.cc:10-60 | two schemas are equal exactly when they have as many fields and agree on every name and type; the arrays inside are not compared |
| Network.AllInsHaveSchemas | tool/head/DeployDiagram.cc:270-282 | the loop over in streams says exactly whether all of them have schemas |
| Network.InferBox | src/modules/catalog/CatalogBox.cc:19-130 | the outcome for a ready box, and what it means: done exactly when its kind gives as many schemas as it has out streams and each declared one has the fields inferred for it; then each out stream without a schema has its own and nothing else changes |
| Network.MatchOutsFills | src/modules/catalog/CatalogStream.cc:11-41 | matching gives every out stream a schema, changes none that had one, touches no other stream |
| Network.MatchOutsLocal | src/modules/catalog/CatalogStream.cc:11-41 | whether matching succeeds and what it assigns depend on the out streams alone |
| Network.MatchOutsExact | src/modules/catalog/CatalogStream.cc:11-41 | matching succeeds exactly when every inferred schema has the fields of what its out stream was declared with or was first given; each undeclared stream then has the first schema inferred for it |
| Network.DistinctOutsExact | src/modules/catalog/CatalogStream.cc:22-37 | for a box with distinct out streams: done exactly when its kind types it with a schema for each and these agree with the declared ones; every other out stream is given just the schema of its place |
| Network.InferBoxOutLocal | src/modules/catalog/CatalogBox.cc:19-130 | the outcome for a box depends only on its own in and out streams |
| InferenceOrder.SettledContains | tool/head/DeployDiagram.cc:249-323 | a scan that stopped has inferred every box any other scan infers, with the same schemas |
| InferenceOrder.RejectedStays | tool/head/DeployDiagram.cc:285-296 | if one scan ends at a rejected box no scan of the same boxes ends well or with a cycle |
| InferenceOrder.InferredWellTyped | tool/head/DeployDiagram.cc:285-308 | when a scan stops, the schemas of every inferred box's out streams are those its kind makes of its in streams: the same fields where declared, the very schema where not |
| InferenceOrder.RejectedIllTyped | tool/head/DeployDiagram.cc:285-298 | a box a scan is rejected at is ready, and its kind makes no schemas of its in streams that fit those its out streams were declared with |
| InferenceOrder.Confluence | tool/marshal/MarshalDiagram.cc:353-413 | any two scans of the same boxes, in whatever order, end alike; without a rejected box they infer the same boxes and give every stream the same schema |
| InferenceOrder.ExactVerdict | tool/head/DeployDiagram.cc:232-326 | the boxes inferred are the least set closed under "all ins have schemas or come out of the set", and the scan succeeds exactly when that is all of them |
| InferenceOrder.Pigeonhole | tool/head/DeployDiagram.cc:318-323 | a walk longer than the set of stuck boxes meets one twice |
| InferenceOrder.CycleNeverInferred | tool/head/DeployDiagram.cc:249-315 | no box on a dependency ring is ever inferred |
| InferenceOrder.CyclicIffCycle | tool/head/DeployDiagram.cc:318-323 | when no box is rejected, "Cyclic network." is reported exactly when a missing schema has no producer or a ring of boxes waiting for one another exists |
| UpstreamOrder.AwaitedIsEarlier | tool/head/DeployDiagram.cc:266-308 | in every order of inference a box comes after every box it waits for, directly or through others |
| UpstreamOrder.StreamsSuffice | tool/head/DeployDiagram.cc:266-308 | when some scan is complete, any list in which each in stream starts with a schema or comes out of a box before is an order of inference |
| UpstreamOrder.NotAwaitedLater | tool/head/DeployDiagram.cc:266-308 | some complete scan takes a box before any given box it does not wait for |
| MarshalDiagram.MarshalDiagram.Scan | tool/marshal/MarshalDiagram.cc:359-403 | takes a ready box off the set, or shows that none is ready |
| MarshalDiagram.MarshalDiagram.InferSchema | tool/marshal/MarshalDiagram.cc:319-416 | the result is that of a scan in some order; a box of unknown external kind ends it with a good status although streams are left without schemas |
| DeployDiagram.DeployDiagram.Scan | tool/head/DeployDiagram.cc:257-316 | one round: the flags that come out mean all done, stuck with no box ready, or one box moved from the list to infer to the list to deploy; that box is the first in node and list order whose in streams all have schemas |
| DeployDiagram.DeployDiagram.InferSchema | tool/head/DeployDiagram.cc:232-326 | ends because the pending count falls; the result is that of a scan in the head's order, and every node's boxes are listed in the order they were inferred |
| DeployDiagram.PlansOrdered | tool/head/DeployDiagram.cc:302-308 | after a complete scan every node's plan has its schemas and lists each box after the boxes of that node it reads from, if readers wait for these |
| DeployDiagram.UndeclaredReadersWait | tool/head/DeployDiagram.cc:275-308 | readers wait when no stream that is read on the node of its own source starts with a schema; other streams may |
| DeployDiagram.OrderedIffReadersWait | tool/head/DeployDiagram.cc:275-308 | scans that may look at the boxes in any order all give ordered plans exactly when each box that reads a stream of its own node waits for the box it comes from |
| HeadOrder.OneHeadOrder | tool/head/DeployDiagram.cc:257-316 | the order in which the head takes the boxes is determined by its lists |
| HeadOrder.SourceTakenFirst | tool/head/DeployDiagram.cc:257-316 | in the head's order p comes before b if some box that b waits for, or b, waits for each box upstream of p or is listed after it |
| DeployDiagram.ReadersWaitForFirst | tool/head/DeployDiagram.cc:257-316 | a box that waits for the box it reads from comes up after it, however the lists are |
| DeployDiagram.SourcesFirstListInOrder | tool/head/DeployDiagram.cc:257-316 | if this holds wherever a box reads a stream of its own node, the head's plans are ordered |
| DeployDiagram.HeadListsIff | tool/head/DeployDiagram.cc:257-316 | `HeadListsInOrder` says no more and no less than that the plans of the head's one order are ordered |
| DeployDiagram.DeployDiagram.Deploy | tool/head/DeployDiagram.cc:17-45 | for every located network: if the head can infer it the status is the answer to the last send, or good when nothing was to be sent; if not it is bad and nothing is sent. Nothing but schemas goes to a node twice and nothing the network does not call for is sent. A good status means that every box is in the trace of its node and every published stream is known there; with every send taken every subscription is known at its subscriber too. If the head's own order puts readers after the boxes of their node and no node is subscribed too early, every trace is in order whatever the nodes answer |
| DeployDiagram.DeployDiagram.DeployPendingNode | tool/head/DeployDiagram.cc:334-439 | inputs, then boxes, then subscriptions; stops at the first failure |
| DeployDiagram.DeployDiagram.DeploySchemaTo | tool/head/DeployDiagram.cc:646-724 | new marks, messages and status are those of `Deployment.DeploySchema` |
| DeployDiagram.DeployDiagram.DeployNodeInput | tool/head/DeployDiagram.cc:534-640 | new marks, messages and status are those of `Deployment.DeployInput`; a stream is marked before its input is acknowledged |
| DeployDiagram.DeployDiagram.DeployBoxNode | tool/head/DeployDiagram.cc:842-884 | each box not deployed yet is deployed once, in list order |
| DeployDiagram.DeployDiagram.DeployBoxIns | tool/head/DeployDiagram.cc:910-1041 | each stream from another node is declared as an input, after its schema, unless marked |
| DeployDiagram.DeployDiagram.DeployNodeOutput | tool/head/DeployDiagram.cc:1068-1155 | a failed subscription does not end the scan and the last one sent decides; the mark goes to the subscriber's endpoint |
| Deployment.SendKeeps | tool/head/DeployDiagram.cc:395-415 | a prepared message keeps every trace in order and every mark true, acknowledged or not |
| Deployment.DeploySchemaKeeps | tool/head/DeployDiagram.cc:646-724 | after success the schema is in the trace and every mark is true; after failure the traces are still in order, which includes each schema's elements coming first when no schema has two of them or elements of elements |
| Deployment.DeployInputKeeps | tool/head/DeployDiagram.cc:566-613 | after success every published stream is defined in the trace; in any case the traces stay in order |
| Deployment.DeployInsKeeps | tool/head/DeployDiagram.cc:910-1041 | after success every in stream from another node is defined in the trace |
| Deployment.DeployBoxesKeeps | tool/head/DeployDiagram.cc:859-876 | every box of the node is in its trace after the streams it reads |
| Deployment.DeployNodesInOrder | tool/head/DeployDiagram.cc:334-439 | for any ordered plans in which no node is subscribed before its turn to a stream its boxes read, and any answers: every box in every trace comes after an input or a box that defines each stream it reads |
| Deployment.SendElementsExact | tool/head/DeployDiagram.cc:660-707 | the scan over the fields sends exactly the element schemas not marked, in field order; the last answer alone decides, and one that is taken marks the outer schema |
| Deployment.ToSendAre | tool/head/DeployDiagram.cc:660-702 | the elements to send are the element schemas of the array fields, without those marked |
| Deployment.ToSendInOrder | tool/head/DeployDiagram.cc:660-702 | one for each such field, in the order of the fields |
| DeploymentReach.NodesLast | tool/head/DeployDiagram.cc:31-41 | whatever the plans and answers: a deployment ends well exactly when it sent nothing or the last thing sent was taken |
| DeploymentReach.NodesReached | tool/head/DeployDiagram.cc:334-439 | for any plans: no message but a schema is taken by a node twice, nothing is taken that the node's plan does not call for; after a good end all published streams and boxes are remembered, and with every send taken all subscriptions, and what is remembered is exactly what was taken |
| DeploymentReach.OutputExact | tool/head/DeployDiagram.cc:1083-1147 | each subscription not marked at its endpoint is sent in turn whatever the answers before; the last answer decides, and exactly those taken are marked |
| DeploymentReach.SubscriptionLostIff | tool/head/DeployDiagram.cc:1083-1150 | a node's subscriptions end well with a subscriber left out exactly when the last one sent is taken and an earlier one refused |
| DeploymentReach.SubscriptionLost | tool/head/DeployDiagram.cc:1083-1150 | two subscriptions, the first refused: the whole deployment ends well without it |
| DeploymentGaps.DeploySchemaExact | tool/head/DeployDiagram.cc:646-724 | status, trace and marks after a call for a schema not marked, from the list of its unmarked elements and the answers |
| DeploymentGaps.MarkedButMissingIff | tool/head/DeployDiagram.cc:694-724 | for any schema not marked: afterwards it is marked and not in the trace exactly when the call failed and some element was taken |
| DeploymentGaps.RefusedSchemaStaysMarked | tool/head/DeployDiagram.cc:694-724 | such a schema counts as deployed ever after: each later call succeeds and sends nothing |
| DeploymentGaps.ElementNeverMarked | tool/head/DeployDiagram.cc:694-702 | sending the schema of an array's elements marks only the outer schema |
| DeploymentGaps.ElementSentTwice | tool/head/DeployDiagram.cc:694-702 | an element sent for one schema is sent again for another exactly when that one has it too, whatever became of it |
| DeploymentGaps.ElementsPrecedeIff | tool/head/DeployDiagram.cc:660-724 | when a call succeeds, the elements are in the trace before their schema exactly when each of those to send was taken at least once or was there already |
| DeploymentGaps.ElementsFirstIff | tool/head/DeployDiagram.cc:660-724 | for any trace with elements first: it stays so whatever the answers exactly when every element to send, but the last, is there already, and each one's own elements are |
| DeploymentGaps.InOrderIffNoneHidden | tool/head/DeployDiagram.cc:1068-1155 | every trace is in order whatever the nodes answer exactly when no node is subscribed, before its turn, to a stream that one of its boxes reads |
| DeploymentOrder.InOrderIff | tool/head/DeployDiagram.cc:334-439 | for plans that list no box twice: every trace is in order whatever the nodes answer exactly when on every node each box is listed after those of its node it reads from, and no node is subscribed too early |
| HeadDeployment.HeadInOrderIff | tool/head/DeployDiagram.cc:17-45 | for a located network the head can infer: every trace is in order whatever the nodes answer exactly when the head's own order puts readers after the boxes of their node and no node is subscribed too early |
| Storage.RunCovers | src/external/bdb/Table.cc:106-161 | after any run of inserts and deletes every row is in every index |
| Storage.ConcatAt | src/external/bdb/Table.cc:496-505 | byte j of the i-th key field stands in the key behind the fields before it, as it stands in the row |
| Storage.ExactThroughoutIff | src/external/bdb/Table.cc:508-536 | the indexes are exact at every moment of a run exactly when every insert brings a new key (or there is no index) |
| Storage.InsertKeepsExactIff | src/external/bdb/Table.cc:528-535 | an insert keeps the indexes exact exactly when its key is new (or there is no index): otherwise the old pair stays behind |
| Storage.DeleteKeepsExact | src/external/bdb/Table.cc:653-661 | deleting a row with its index pairs keeps the indexes exact |
| Storage.IndexDeleteCounts | src/external/bdb/Table.cc:132-161 | deleting a pair takes out one occurrence of it and nothing else, and nothing when it is missing |
| WhereClause.GetSubclauseFields | src/external/bdb/SelectQBox.cc:151-196 | the stack loop ends and returns each leaf clause's entry exactly once; left to right when no conjunction is inside another |
| WhereClause.LeavesAre | src/external/bdb/SelectQBox.cc:126-196 | a leaf clause has one entry with its own text or field and value; a conjunction has, in the place of each part, the entries of that part |
| WhereClause.MatchesIff | src/external/bdb/TableCursors.h:61-65 | a row satisfies a clause exactly when every leaf entry holds of it: its condition holds, or its field has its value |
| WhereClause.Conjoin | src/modules/queryProcessor/expr/SQLUtil.cc:12-24 | the conjunction the parser builds has the leaves of both parts in order and no conjunction inside |
| AccessPaths.KeyEqualFactory | src/external/bdb/TableCursors.cc:20-120 | accepts exactly an equality on a one-field key, or equalities that fill the key as the factory knows it by name, and keeps each key field's value |
| AccessPaths.CollectValues | src/external/bdb/TableCursors.cc:48-107 | the loops accept exactly when every key field is given once and nothing else is asked |
| AccessPaths.IndexKeyEqualFactory | src/external/bdb/TableCursors.cc:126-160 | accepts exactly an equality on an indexed field, and takes the first index on it |
| AccessPaths.CursorFactory | src/external/bdb/Table.cc:754-769 | the primary key if it will do, else an index, else a scan |
| AccessPaths.AcceptedIffPermutation | src/external/bdb/TableCursors.cc:48-107 | with distinct key fields a conjunction is accepted exactly when its fields are a permutation of the key |
| AccessPaths.RepeatedKeyFieldDropsClause | src/external/bdb/TableCursors.cc:66-82 | in an accepted conjunction every clause is about a key field exactly when no key field is named twice; otherwise a clause is dropped |
| AccessPaths.DistinctNeeded | src/external/bdb/TableCursors.cc:48-107 | the key path of an accepted conjunction finds the matching rows of every table, for every tuple and meaning of expressions, exactly when no key field is named twice |
| AccessPaths.NoLookupNoKeyPath | src/external/bdb/Table.cc:327-347 | a table made from the catalog never gets a key cursor: an equality on an indexed field goes to the index, all else to a scan |
| AccessPaths.ConcatInjective | src/external/bdb/Table.cc:496-505 | concatenated fields of fixed widths equal concatenated values exactly when every field equals its value |
| AccessPaths.PathFindsMatches | src/external/bdb/Table.cc:754-769 | whichever path is picked leads to exactly the keys of the rows whose where clause entries all hold, if no key field is named twice |
| TableCursors.LessTotal | src/external/bdb/TableCursors.h:86-117 | byte order is a strict total order |
| TableCursors.LessIff | src/external/bdb/TableCursors.h:86-117 | a key is less than another exactly when it is a proper beginning of it or has the lesser byte where they first differ |
| TableCursors.Table.EvalKey | src/external/bdb/Table.cc:496-505 | the key buffer is the concatenation of the key fields |
| TableCursors.Table.InsertRow | src/external/bdb/Table.cc:508-536 | the new table is `Storage.Insert` of the old |
| TableCursors.Table.DeleteFromIndexes | src/external/bdb/Table.cc:653-661 | every index loses the row's pair |
| TableCursors.ExactEntries | src/external/bdb/TableCursors.h:326-426 | in an exact index the entries of a value are the keys of the rows with that value, each once |
| TableCursors.PassOver | src/external/bdb/TableCursors.h:86-117 | moving to the next larger key loses only that key from what is to come |
| TableCursors.Cursor.Reset | src/external/bdb/TableCursors.h:49-80 | the cursor stands on a row of its path with all others still to come, or the path is empty |
| TableCursors.Cursor.NextMatch | src/external/bdb/TableCursors.h:86-117 | the scan goes to the next row that satisfies the where clause and misses none |
| TableCursors.Cursor.FetchEntry | src/external/bdb/TableCursors.h:405-425 | the entry's row is in the table: the missing-row branch is never taken |
| TableCursors.Cursor.Advance | src/external/bdb/TableCursors.h:358-378 | the cursor moves to one of the keys that were to come, with exactly the others left |
| TableCursors.Cursor.DeleteRow | src/external/bdb/TableCursors.h:306-321 | the row and its index pairs go, and what is still to come does not change, even when the cursor's own index entry is taken from under it |
| Statements.Select | src/external/bdb/Table.cc:701-751 | for all three cursors each row of which every leaf entry of the where clause holds is delivered exactly once, all rows when there is none; only the index cursor needs exact indexes |
| Statements.Delete | src/external/bdb/Table.cc:869-919 | for all three cursors exactly the rows of which every leaf entry of the where clause holds go, each is handed back once, and exact indexes stay exact |
| Statements.Update | src/external/bdb/Table.cc:778-858 | the rows updated are those of which every leaf entry of the where clause holds; by primary key an update is right wherever it moves its row; by scan when matching rows get distinct keys and each stays, goes back, or goes ahead to where nothing matches and does not match itself. It ends, replaces each matching row exactly once and puts it under its new key; exact indexes stay exact if and only if no row takes the key of one that stays (or there is no index) |
| Statements.WholeUpdate | src/external/bdb/Table.cc:778-786 | the same for a cursor already made: the update loop over it |
| Statements.MovedRow | src/external/bdb/Table.cc:816-828 | one turn for a row that moves: the scan meets it again exactly when it lies ahead and matches; another row is lost exactly when its key is taken, and then the indexes are no longer exact |
| ScanUpdates.ComesRightIff | src/external/bdb/Table.cc:778-828 | an update by scan that gives matching rows distinct keys comes to an end with each replaced once and put under its new key exactly when none is put in the way of the scan: no number of turns makes it right otherwise |
| ScanUpdates.TakeTurns | src/external/bdb/Table.cc:778-828 | the update loop cut off after n turns: what it replaced and the tables it went through are such a run, at its end exactly when the cursor is |
| Statements.DeleteBox | src/external/bdb/DeleteQBox.cc:66-117 | over a batch of inputs each row is deleted and passed on once, by the first tuple that matches it; inputs pass through when asked |
| CatalogMessages.ToldIff | tool/head/HeadServer.cc:316-397 | the messages of a catalog are the one sequence with schemas before inputs before tables before boxes before subscriptions before views in which the messages of each kind are, one by one and in map order, those of the schemas, in streams, tables, boxes, subscriptions of out streams, and views, each with its own name, body and node |
| CatalogMessages.UpdateRewrites | tool/head/HeadServer.cc:160-205 | after an update the catalog's messages are what they were, with the new body or node in those that name the thing it is about and no other |
| CatalogCopy.LoadIsExact | tool/head/HeadServer.cc:313-423 | for every interleaving: if the flag still reads Running when the end of the load is acknowledged and no update was applied behind it, the component has exactly the current catalog's messages, kind after kind and in map order, and then the end of the load |
| CatalogCopy.SnapshotSafety | tool/head/HeadServer.cc:313-525 | in every interleaving without the two races, and whatever is answered, every load that ends is exact and in step, and no reflected move finds a copy running |
| CatalogCopy.CoarseIsRaceFree | tool/head/HeadServer.cc:436-525 | schedules in which sends and updates are single steps have no races |
| CatalogCopy.AllPhases | tool/head/HeadServer.cc:319-396 | the places the nested loops pass add up to schemas, inputs, tables, boxes, subscriptions, views: the sequence that tells of the catalog |
| CatalogCopy.ActKeepsInv | tool/head/HeadServer.cc:313-498 | every step of sender and handler keeps: what the component has is what the sender has passed of the catalog as it is now |
| CatalogCopy.LostUpdate | tool/head/HeadServer.cc:398-406 | for every catalog and change there is a run, all sends acknowledged, that loses it between the last look at the flag and its clearing |
| CatalogCopy.HandlerOvertaken | tool/head/HeadServer.cc:507-525 | for every catalog and move there is a run, all sends acknowledged, that reaches the "Need to call send_catalog_changed" branch |
| CatalogRaces.ExactlyTheRaces | tool/head/HeadServer.cc:313-525 | after any run without races, a step leaves every continuation without races right exactly when it is not itself an announcement behind the last look at the flag or a restart over an update in hand |
| CatalogRaces.LateIsLost | tool/head/HeadServer.cc:398-406 | wherever an update is announced so late, an acknowledged continuation ends with all at rest, the component connected, and the update lost |
| CatalogRaces.OvertakenChangeIsLost | tool/head/HeadServer.cc:408-431 | wherever a change is overtaken, an acknowledged continuation resets the component, copies the whole catalog and only then makes the change |
| CatalogRaces.OvertakenMoveIsFatal | tool/head/HeadServer.cc:507-525 | wherever a move is overtaken, an acknowledged continuation reaches that branch |
| CatalogCopy.CopyCompletes | tool/head/HeadServer.cc:313-431 | without races and with every send acknowledged: if no update is announced between the check for a reset and the reset, every copy that ends has left the component with the whole catalog; the sender gives up, or is bound to, exactly when one was |
| CatalogCopy.GaveUp | tool/head/HeadServer.cc:408-431 | in every acknowledged run a sender that gives up leaves the component connected, the flag clear and the two not in step |
| CatalogCopy.LeftHalfway | tool/head/HeadServer.cc:408-420 | for every catalog and change there is such a run: a connected component is left without the change, the flag clear and no sender running |
| CatalogCopy.MoveReflection | tool/head/HeadServer.cc:160-205 | after an undisturbed load with moves acknowledged the component has every box where the head has it; a table's node exactly when it was moved since, or the head has none |
| CatalogCopy.StaysInStep | tool/head/HeadServer.cc:507-525 | only an unacknowledged move or a new request ends this |
| CatalogCopy.LoadPlaces | src/modules/catalog/CatalogTable.cc:85-126 | a load places every box where the head has it and every table nowhere, as a table's element names no node |
| CatalogCopy.LastWordPlaces | tool/head/HeadServer.cc:436-525 | a component knows exactly the things whose element it got, each at the node the last message about its place names |
| CatalogCopy.HeadHasNodes | tool/head/HeadServer.cc:160-205 | with each name once, the head has each thing at the node of its entry |
| CatalogCopy.QuietLoad | tool/head/HeadServer.cc:313-400 | left alone, a load comes to its last message with exactly the catalog's messages delivered |
| LRWaitFor.LRWaitForBox.Run | src/external/udb/LRWaitForQBox.cc:206-414 | one invocation, group and key by group and key: what is due goes out before new data, what passes of the new data follows, what is held stays in order; a threshold there was stays what the control tuples made it, and only data-as-first mode makes one of a group's first data key |
| LRWaitFor.LRWaitForBox.RaiseThresholds | src/external/udb/LRWaitForQBox.cc:226-254 | the thresholds after the control tuples |
| LRWaitFor.LRWaitForBox.ReleaseGroup | src/external/udb/LRWaitForQBox.cc:257-288 | in one group exactly the lists with a key up to the threshold go out whole, in whatever order the keys are walked |
| LRWaitFor.LRWaitForBox.AcceptData | src/external/udb/LRWaitForQBox.cc:342-414 | each data tuple passes, seeds its group's threshold, or is held |
| LRWaitFor.ThresholdIsMaximum | src/external/udb/LRWaitForQBox.cc:244-251 | a group's threshold is the largest of the one it had, if any, and its control keys |
| LRWaitFor.LanePassesOrIsHeld | src/external/udb/LRWaitForQBox.cc:346-414 | within one invocation all tuples of a group and key pass or all are held, in every mode |
| LRWaitFor.SeededByFirst | src/external/udb/LRWaitForQBox.cc:379-389 | data leaves the thresholds there were; in data-as-first mode a group without one gets the key of its first data tuple, and in no other mode does any |
| LRWaitFor.WhoPasses | src/external/udb/LRWaitForQBox.cc:354-414 | which groups and keys pass in one data phase, from the thresholds at its start, the group's first data tuple and the modes alone; they pass or are held as a whole and in order |
| LRWaitFor.InvocationIs | src/external/udb/LRWaitForQBox.cc:206-414 | an invocation comes to just that, after the lists that were due |
| LRWaitFor.RunGrows | src/external/udb/LRWaitForQBox.cc:206-414 | an invocation after a run makes a longer run |
| LRWaitFor.ConservationAndFifo | src/external/udb/LRWaitForQBox.cc:268-288 | in every mode and over every run, consumed tuples of a group and key are the emitted ones followed by the held ones in arrival order, and what is held lies above the threshold |
| LRWaitFor.ThresholdsNeverFall | src/external/udb/LRWaitForQBox.cc:244-251 | no invocation lowers a threshold, in any mode |
| LRWaitFor.RunThresholds | src/external/udb/LRWaitForQBox.cc:230-254 | without data-as-first mode the thresholds depend on the control stream alone |
| LRWaitFor.EmittedIsDataUpToThreshold | src/external/udb/LRWaitForQBox.cc:230-414 | with neither mode, what a run emits is the consumed data whose key is at most its group's final threshold |
| LRWaitFor.SchedulingIndependence | src/external/udb/LRWaitForQBox.cc:230-414 | however the inputs are cut into invocations the same tuples come out, in the same order per group and key, and the same are held |
| LRWaitFor.HashRefinesFlat | src/external/udb/LRWaitForQBox.cc:308-337 | the hash of lists simulates the flat list per group of the commented code: same tuples per invocation, same order per group and key |
| Combine.CombineBox.Setup | src/external/udb/CombineQBox.cc:10-78 | succeeds exactly when there is an input and all key fields agree with the first; otherwise names the first input that does not and why |
| Combine.CombineBox.Accept | src/external/udb/CombineQBox.cc:115-173 | what waits for the key, and the output when every input has delivered, for one tuple |
| Combine.CombineBox.Run | src/external/udb/CombineQBox.cc:101-180 | one invocation takes the inputs in turn |
| Combine.FullAndEmpty | src/external/udb/CombineQBox.cc:21 | a mask is the final mask exactly when every bit is set, zero exactly when none is |
| Combine.BitsAfterSet | src/external/udb/CombineQBox.cc:147 | setting bit i sets it and leaves every other bit |
| Combine.OverwriteSlot | src/external/udb/CombineQBox.cc:135-137 | writing one input's slot leaves every other slot as it is |
| Combine.SlotsAfterArrival | src/external/udb/CombineQBox.cc:127-147 | mask and slots go on to represent the arrivals since the last output: a bit per input heard from, the latest tuple in its slot |
| Combine.FullIffComplete | src/external/udb/CombineQBox.cc:150 | the mask is final exactly when every input has delivered |
| Combine.KeysIndependent | src/external/udb/CombineQBox.cc:119-171 | what waits and is put out for a key is what it would be if the box saw only that key |
| Combine.RoundByRound | src/external/udb/CombineQBox.cc:150-171 | the first tuples of a key that cover all inputs put out one tuple, made of the last header and each input's last tuple, and are forgotten; tuples that do not are what waits |
| Combine.FirstRound | src/external/udb/CombineQBox.cc:150-171 | any sequence of tuples starts with such a round or has none |
| Combine.PutOutIs | src/external/udb/CombineQBox.cc:150-169 | the tuple put out has the header of the last tuple of the round and the fields evaluated from the last tuple of each input |
| Combine.InTurnIs | src/external/udb/CombineQBox.cc:107-112 | in one invocation no input is taken after a later one, and each input's tuples are taken in their order |
| ScatterGather.ScatterBox.Run | src/external/array/ScatterQBox.cc:108-176 | each frame's halves go to the two outputs in order; a fake tuple goes whole to the first only |
| ScatterGather.ScatterIs | src/external/array/ScatterQBox.cc:131-162 | the first output gets for each frame its first 160 bytes, or all of a fake one; the second gets, for the i-th real frame in i-th place, the last 160 |
| ScatterGather.GatherBox.ProcessInputTuple | src/external/array/GatherQBox.cc:178-222 | whatever arrived, what was put out is the two streams joined in pairs, and the queues hold what one is ahead |
| ScatterGather.GatherBox.Run | src/external/array/GatherQBox.cc:96-170 | one invocation appends its output to what was sent |
| ScatterGather.GatherBox.OneQueueEmpty | src/external/array/GatherQBox.cc:198-219 | at most one of the two queues holds anything |
| ScatterGather.GatherUndoesScatter | src/external/array/GatherQBox.cc:191-221 | however far the two streams are delivered, in whatever turns, exactly the first frames come out |
| ScatterGather.IdentityIffNoFakes | src/external/array/ScatterQBox.cc:131-145 | with everything delivered the frames are back exactly when none was fake |
| ScatterGather.ScatterThenGather | src/external/array/GatherQBox.cc:96-222 | several invocations of a scatter box and a gather box in any turns: what gather has put out is the pairs of what it was given, and without fake frames exactly the first frames, as many as both streams brought: all of them once everything is delivered |
| ScatterGather.OneMoreEvent | src/external/array/GatherQBox.cc:96-170 | what one more invocation adds: its frames to those sent, or as many arrays as it takes and there are to those delivered |
| MarshalCodec.Batch | tool/marshal/GenerateBody.cc:510-547 | the event gains the tuple with the length of each array in its slot, and the arrays in field order: of each the first bytes behind its pointer, as many as the shape says of a fixed one and as the int32 product of rows and row size says of a variable one; refused exactly when such a size is negative, and then it gains exactly the arrays before the first such |
| MarshalCodec.BatchAll | tool/marshal/GenerateBody.cc:510-547 | a sequence of tuples, some refused, leaves the accepted ones' data and the array data all of them left, which is the accepted ones' alone exactly when no refused one left any |
| MarshalCodec.StraysShow | tool/marshal/GenerateBody.cc:510-547 | the array data is that of the accepted tuples exactly when no refused tuple leaves any; otherwise there is more |
| MarshalCodec.SizeIs | tool/marshal/GenerateBody.cc:515-530 | the computed size of an array is the shape's if fixed, else the one int32 equal to rows times row size modulo 2^32 |
| MarshalCodec.FittingSize | tool/marshal/GenerateBody.cc:522-530 | a product of rows and row size from 0 to 2^31 - 1 is the size itself |
| MarshalCodec.BoundSurvives | tool/marshal/GenerateBody.cc:522-530 | an upper bound comes back exactly when rows times row size, as the sender computes it, is in the range 0 to 2^31 - 1 |
| MarshalCodec.SlotHoldsSize | tool/marshal/GenerateBody.cc:535-541 | each slot holds its array's size after all are written |
| MarshalCodec.TakeArrays | tool/marshal/GenerateBody.cc:765-800 | the arrays are taken from their places one after the other, the bounds from the sizes, and the running size is right for the next tuple |
| MarshalCodec.SameIff | tool/marshal/GenerateBody.cc:765-800 | the arrays and bounds of a tuple come back exactly when every size fits and the event has its array data at that place |
| MarshalCodec.Handler | tool/marshal/GenerateBody.cc:729-826 | round trip: every tuple of an event comes back, with every byte outside the array pointers, every array (the first bytes behind its pointer, as many as the shape or its bound says) and every bound, exactly when all sizes fit and the event's array data begins with that of the tuples |
| MarshalStrays.SendAndTake | tool/marshal/GenerateBody.cc:510-826 | sender and receiver together, some tuples being refused: the accepted ones come back exactly under that condition on what all of them left |
| MarshalStrays.AlwaysLeadIff | tool/marshal/GenerateBody.cc:510-547 | whatever is in memory the array data begins with that of the accepted tuples, exactly when no refused tuple that left data comes before an accepted one with array data |
| SqlParser.Parser.ParseStatement | tool/padmin/SQLParser.c:810-960 | accepts exactly the token sequences that the grammar derives, and returns the tree they stand for, whose leaves are their names, numbers and choices in order |
| SqlParser.Parser.ParseSelectStatement | tool/padmin/SQLParser.c:974-1215 | returns a select the tokens begin with, or shows there is none |
| SqlParser.Parser.ParseSelectList | tool/padmin/SQLParser.c:1268-1325 | returns the list the tokens begin with, as far as commas lead, or shows there is none |
| SqlParser.Parser.ParseSelectColumn | tool/padmin/SQLParser.c:1448-1500 | the second token decides between item and expression |
| SqlParser.Parser.ParseSelectExpression | tool/padmin/SQLParser.c:1715-1905 | succeeds exactly when the six tokens are there |
| SqlParser.Parser.ParseCreateStatement | tool/padmin/SQLParser.c:1914-2470 | the second token decides between schema, stream and window |
| SqlParser.Parser.ParseCreateWindow | tool/padmin/SQLParser.c:2296-2450 | returns the window statement the tokens begin with, sizes in order, or shows there is none |
| SqlParser.Parser.ParseSchemaList | tool/padmin/SQLParser.c:2497-2710 | returns the list in parentheses the tokens begin with, or shows there is none |
| SqlParser.OneReading | tool/padmin/SQL.g:23-81 | the same tokens do not begin with two statements |
| SqlGrammar.GrammarIff | tool/padmin/SQL.g:23-81 | the token sequences the rules of the grammar derive are exactly those that some tree stands for |
| SqlGrammar.LeavesAreKept | tool/padmin/SQL.g:23-81 | the leaves of a tree, left to right, are the names, numbers and choices among its tokens |
| SqlParser.Unambiguous | tool/padmin/SQL.g:23-81 | two trees that stand for the same tokens are equal |
| SqlParser.ColumnsPrefixFree | tool/padmin/SQL.g:39-52 | no select column's tokens are the beginning of another's |

## Where the code departs from its intent

Kept as the code has it, each with a lemma that says exactly when:

- an outer schema refused after an element was taken, element schemas sent again or after
  a refusal left out (`MarkedButMissingIff`, `ElementSentTwice`, `ElementsPrecedeIff`,
  `ElementsFirstIff`);
- a subscription that is refused while a later one of its node is taken: the deployment ends
  well without it (`SubscriptionLostIff`, `SubscriptionLost`);
- a subscriber at a node's own endpoint, which hides a stream from that node, and a stream
  declared beforehand and read on the node of its source, whose reader can be listed first
  (`InOrderIffNoneHidden`, `OrderedIffReadersWait` for scans in any order, `HeadInOrderIff`
  for the head's own);
- inserts over an existing key (`InsertKeepsExactIff`) and updates by scan that move rows
  (`ComesRightIff` for distinct new keys, `Update` for the indexes);
- a key field named twice (`RepeatedKeyFieldDropsClause`, `DistinctNeeded`), and tables made
  from the catalog, whose cursor factory does not know the key (`NoLookupNoKeyPath`);
- an update announced behind the sender's last look at the flag and a restart over an update
  in hand (`ExactlyTheRaces`), and an update announced just before the sender's reset
  (`CopyCompletes`); tables without a node in their elements (`MoveReflection`);
- fake tuples (`IdentityIffNoFakes`), bounds whose sizes do not fit (`BoundSurvives`,
  `Handler`), and tuples refused after some of their arrays are in the event
  (`AlwaysLeadIff`).

## Left out

- Network.InferBox: the typing rules of each box kind are an uninterpreted function of the box and its in schemas.
- `locate`: the pending lists it builds are the starting point, with what it guarantees as preconditions of `Deploy`; that only one subscriber per stream survives is seen as the list handed to the deployer.
- Replica sets, partitioned streams, regions, views, tables and table schemas of the deployer, and the loop over tables that does not advance.
- `tool/padmin/DeployDiagram.cc` and `tool/padmin/HeadServer.cc`, which repeat the code under `tool/head`.
- RPC, sockets, event loops, XML text, logging and DOM parsing: a send is an answer and, if taken, an entry in a trace.
- Berkeley DB itself: the primary is an ordered map, an index a map from bytes to the keys in filing order, a cursor a position; hash and queue tables, transactions and errors of the store are not modelled.
- Deleting from the head of a queue table and inserting with a record number.
- Updates through an index cursor, whose effect depends on where the store puts a duplicate.
- Promotion of value types: an equality compares the bytes of field and value, which have the same width.
- The evaluation context's cache, select lists and the count output of the select box: a select delivers rows.
- Statements.Update: does not cover scans in the way of themselves, which `ComesRightIff` shows never come right, or two matching rows moved to one key.
- Network.MatchOuts: when a later out stream does not match, the source leaves the schemas already given to earlier ones; the model leaves all as they were.
- ScatterGather.ScatterThenGather: the turns of the two boxes are a list of events; it stands for the scheduler, which is not modelled.
- A second sender thread, which a request can start after the flag is cleared but before the first thread has left its loop; a component that connects starts empty.
- A `modify` of an unknown name, which changes whatever box was opened last, is covered as a change of that box.
- The component's own rules for elements: it takes what it acknowledges. `utility/client/region/RegionalCatalog.cc` refuses `<table>` elements, so with it a load of a catalog with tables does not end.
- HeadServer's methods in place: the two threads are steps of a state machine, so fields and locals are parts of a value.
- Limits on how much an invocation dequeues: a batch is what was dequeued.
- The string form of group-by values and the tuple memory in the stream boxes.
- Raw pointers, header copies, slice, id and chunk fields in scatter and gather; other numbers of workers than two.
- Combine.CombineBox.Run: the header copied to the output is the first bytes of the last tuple, its length a parameter.
- The pointer the handler writes over each array's size; what it leads to is in the received tuple instead.
- MarshalCodec.Handler: reads events whose tuples `Batch` made and that have at least as much array data; other byte strings are read out of bounds by the source.
- Error recovery of the generated parser, its tree adaptor and rewrite streams, the lexer; any mismatch is a failure to parse.
- Availability monitor, meta optimizer, aggregates, random and delay boxes, clients and the demo.
