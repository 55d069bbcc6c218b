# Verified model of the messaging server

The repository is a store-and-forward messaging service: clients register, connect and send
each other texts through a central C server, which keeps what it cannot deliver yet in files.
This project models the part 2 server, the parts of the Python client that decode its bytes, and
the web service's text normalisation, and proves what they keep.

## Layers

- **Bytes of the store.** `Text` has the printf and scanf conversions, `Rows` the lines of
  `usuarios.txt`, `Mail` the fixed-size records of `mensajes_<user>.dat`. `Disk` and `Database`
  are the file-system calls and the `db_*` functions as methods, loops included; each is proved
  equal, for any file contents, to a function of `Files`, together with what a stop at any call
  leaves. `Readers` settles when the two ways of reading `usuarios.txt` agree. `Refinement` proves
  that on files that represent a `MessageStore` (a map of users and a queue per receiver) each of
  those functions is the abstract step.
- **The protocol.** `Protocol` turns each request into a worker whose steps are one `db_*` call
  or one connection attempt; the outcome of an attempt is arbitrary. `Exec` runs any sequence of
  arrivals and steps. `Safety`, `Acks` and `Ids` hold for every such interleaving, and `Bytes`
  carries them over to workers that read and write the files, as long as every new name is one
  word; `ByteSafety` proves what is left of them for arbitrary names. `Solo`, `Queues`,
  `Delivery`, `Sequential` and `Runs` treat runs whose handlers do not overlap. `Overlaps` shows by
  example what goes wrong in the others. `Answers` and `Addresses` say in plain terms what each
  request and each step does: codes, fields, entries, addresses. `Boundaries` says exactly which
  store steps strand a message, and `Duplicates` exactly which drains let an accepted message be
  pushed twice.
- **The network.** `Wire` has the partial-write loop and the bounded reader, `Requests` the
  fields of each operation, `Frames` the pushes and the client's listener, `Listing` the user
  list. `Handlers` puts the server together: each handler, on bytes, is the abstract worker run
  alone. `Handoff` is the separate step system in which the main thread hands an accepted
  descriptor to a new worker. `Formats` writes the frames, lines and records out as bytes.
- **Normalisation.** `Normalize`.

## Reading the results

- A message is *accepted* when `db_prepare_message` returns 0; the reply goes out before the
  message is stored. It is *pushed* when the connection to the listener succeeded; the handlers
  ignore what `sendMessage` returns.
- A message is deleted by id only, so a delete for one message also removes another sender's
  message with the same id. The safety results speak of ids for that reason. A delete logged
  after the acceptance may belong to a push made before it.
- Byte strings are Dafny strings.

Where the code and its documentation differ, the model follows the code:

- `readme.md:196` gives DISCONNECT the answer 2 for a user that is not connected. The address is
  compared first and offline users are stored at 0.0.0.0, so the answer is 3 except to a
  request from 0.0.0.0 (`Runs.DisconnectWhenOffline`).
- `readme.md:39` says users and pending messages survive a restart. They do, except after a stop
  between the unlink and the rename of a table rewrite or of a delete
  (`Database.RestartKeepsTable`, `Database.RestartKeepsMail`). Every successful rewrite passes that
  state (`Database.GapLosesEveryUser`). A stop before the last unlink of an unregistration leaves
  the old messages for whoever registers the name next (`Database.MailOutlivesUser`), and so does
  a stop that lost the table (`Database.GapKeepsEveryMailbox`).
- `readme.md:210` says an undelivered message stays pending. It does when the drained file has
  distinct ids (`Sequential.DrainConservesIffDistinct`, `Runs.SharedIdLosesAMessage`).
- The client admits names of 255 characters, but a 255-byte name before another field does not
  reach the server intact (`Requests.RequestRoundTrip`).
- A name that is empty or holds white space registers with code 0 and reads back as something
  else or not at all (`Refinement.RegisterRefines`, `Refinement.EmptyNameReadsBackAsZero`).
- `get_user_info` stops at the first line that does not parse, the `db_*` functions skip it. After
  REGISTER of a name of two words, the second no number, users registered later are hidden from `get_user_info` until the
  next rewrite of the table, and DISCONNECT answers them 1 (`Readers.HistoryInStep`,
  `Readers.NameInStep`, `Bytes.HiddenUserAnswered`).
- An attachment with an empty file name is pushed live as an attachment but drained as a plain
  message (`Frames.StoredAndLiveAgree`).
- In part 2 only cut requests and SENDATTACH close the socket (`Requests.TratarPeticion2`).

## Model

| member | source | states |
|---|---|---|
| Safety.NoMessageVanishes | parte2/server/src/c_files/funciones.c:332-424 | In every interleaving of any number of workers and any push outcomes, every accepted message is with the worker about to store it, or in its receiver's queue, or a delete of its id or an unregistration of its receiver was logged after the acceptance |
| Acks.AcceptedIsAccountedFor | parte2/server/src/c_files/funciones.c:113-231 | The same seen from one message, with the delete traced back to a push of that id to that receiver |
| Safety.PushesAreGenuine | parte2/server/src/c_files/funciones.c:164-179 | In every interleaving every push carries the receiver, sender, id, text and file name of a send accepted earlier |
| Acks.AcksFollowPushAndDelete | parte2/server/src/c_files/funciones.c:375-410 | In every interleaving every delete follows its own push, and every acknowledgement follows its own push and its own delete, with the sender, id, kind and file name of the push |
| Acks.AcksNeverOutnumberPushes | parte2/server/src/c_files/funciones.c:187-217 | In every interleaving, for each sender and id, no more acknowledgements than pushes |
| Ids.AcceptedIds | parte2/server/src/c_files/database.c:352-356 | In every interleaving the n-th accepted send since its sender registered has id ((n-1) mod (2^32-1)) + 1, never 0, whatever else runs |
| Ids.IdsDistinctInAWindow | readme.md:41 | Two accepted sends of one registration fewer than 2^32-1 sends apart have different ids |
| Bytes.BytesRefine | parte2/server/src/c_files/funciones.c:23-524 | For interleaved runs in which each decision is read from the bytes of the files, for arbitrary names: every worker goes through the steps of the abstract run, the same events are logged and the files represent the abstract store throughout, if and only if no step registers a new name that is not one word |
| Bytes.StepRefines | parte2/server/src/c_files/funciones.c:113-231 | One step of one worker on files that represent the store is the abstract step; they still represent the store afterwards if and only if the step does not register a new name that is not one word |
| Bytes.HiddenUserAnswered | parte2/server/src/c_files/funciones.c:253-264 | A run in which r registers after a name with a space did: DISCONNECT answers r that there is no such user, while the db_* functions see its row |
| Bytes.ParsedTasksFit | parte2/server/src/c_files/servidor.c:174-350 | Whatever bytes a client sends, a request that is served is one the byte results cover |
| ByteSafety.NoMessageVanishesOnDisk | parte2/server/src/c_files/funciones.c:332-424 | In every interleaved run on the bytes, whatever names are registered: an accepted message is with the worker about to store it, or in its receiver's mailbox file, or a delete of its id or an unregistration of its receiver was logged since |
| ByteSafety.LogIsGenuineOnDisk | parte2/server/src/c_files/funciones.c:113-231 | In the same runs every push repeats an earlier acceptance, and deletes and acknowledgements follow their own push |
| ByteSafety.StepIsSomeStep | parte2/server/src/c_files/funciones.c:113-231 | On files whose table has any shape a worker takes the step it would take on some abstract store with the same queues: same next worker, same event, same queues |
| Sequential.NonOverlappingRunsAreSound | parte2/server/src/c_files/funciones.c:113-424 | In every run without overlapping handlers, whatever pushes and acknowledgements fail: pending messages only for registered offline users; since the receiver last joined or left, delivered plus pending never exceed the accepted ones, and equal them as multisets if and only if no file drained for it kept a message that shares an id with one it sent; distinct ids in the drained files are enough |
| Sequential.ServeKeepsSound | parte2/server/src/c_files/funciones.c:59-524 | Each of the five requests, served from start to end, keeps that for every receiver |
| Sequential.DrainResult | parte2/server/src/c_files/funciones.c:143-226 | For any pending queue and any outcomes a connect pushes, in stored order, exactly the messages before the first failing push attempt, none exactly if the first attempt fails; the records whose id does not occur among them stay, in order; with distinct ids the exact suffix stays; nothing stays if no push failed; the user is offline if one did |
| Sequential.DrainDeliversAll | parte2/server/src/c_files/funciones.c:143-226 | When the listeners answer, a connect pushes everything pending in order and leaves the user online with nothing pending |
| Sequential.SendResult | parte2/server/src/c_files/funciones.c:355-423 | An accepted send is stored behind what is pending if the receiver is offline, pushed and deleted if its listener answers, and otherwise the one message pending for a receiver now offline |
| Sequential.DrainConservesIffDistinct | parte2/server/src/c_files/database.c:443-447 | A drain conserves delivered plus pending messages under all push outcomes if and only if no id occurs twice in the file |
| Runs.SharedIdLosesAMessage | parte2/server/src/c_files/database.c:443-447 | A run without overlap in which two senders share an id and the second push fails: two accepted, one delivered, none pending |
| Runs.DisconnectWhenOffline | parte2/server/src/c_files/funciones.c:250-276 | In every reachable state DISCONNECT for an offline user answers 3 at its first step unless the request comes from 0.0.0.0, and served without interference it answers 2 if and only if it does |
| Answers.RegisterAnswer | parte2/server/src/c_files/funciones.c:59-81 | Served alone, REGISTER answers 1 for a known name and changes nothing; otherwise 0, with a new offline user at 0.0.0.0 port 0 whose counter is 0 |
| Answers.UnregisterAnswer | parte2/server/src/c_files/funciones.c:86-108 | Served alone, UNREGISTER answers 1 for an unknown name and changes nothing; otherwise 0, and the user goes with its queue |
| Answers.DisconnectAnswer | parte2/server/src/c_files/funciones.c:251-282 | Served alone, DISCONNECT answers 1 for an unknown user, 3 from any address but the stored one, online or not, 2 for an offline user, each without a change, and otherwise 0 with the user offline at 0.0.0.0 port 0 |
| Answers.DisconnectFirstStep | parte2/server/src/c_files/funciones.c:251-273 | In every interleaving the first step of DISCONNECT answers 1 or 3 on the same conditions and changes nothing |
| Answers.ConnectRefused | parte2/server/src/c_files/database.c:207-250 | CONNECT answers 1 for an unknown user and 2 for an online one, and nothing changes |
| Answers.ConnectAnswer | parte2/server/src/c_files/funciones.c:113-231 | CONNECT of an offline user, whatever is pending and fails: 0, the user online at the address given, the file drained; apart from that users only go offline and no counter changes |
| Answers.ConnectPush | parte2/server/src/c_files/funciones.c:148-217 | Every push of a CONNECT goes to the address and port of that CONNECT with a message of the file, as an attachment exactly if it has a file name, followed by its delete; a sender that was online has the acknowledgement right behind, at its own address, or is offline in the end |
| Answers.ConnectOther | parte2/server/src/c_files/funciones.c:148-217 | A CONNECT logs nothing else, and an acknowledgement stands two places behind its push, repeats it, and goes to a sender that was online at the address it had |
| Answers.ConnectAllUp | parte2/server/src/c_files/funciones.c:148-217 | When the listeners answer a CONNECT takes nobody offline |
| Answers.SendFirstStep | parte2/server/src/c_files/database.c:343-379 | In every interleaving the first step of a send between known users accepts the message with the sender, its next id, the text and, for SENDATTACH, the file name, advances that counter alone, and takes the receiver's stored address and state along |
| Answers.SendRefused | parte2/server/src/c_files/database.c:336-341 | A send with an unknown sender or receiver answers 1, and nothing changes |
| Answers.SendStored | parte2/server/src/c_files/funciones.c:352-354 | A send to an offline receiver: 0, the exact message at the end of its queue, nobody dialled |
| Answers.SendUnreached | parte2/server/src/c_files/funciones.c:412-418 | A send to an online receiver whose listener does not answer: the exact message pending and the receiver offline |
| Answers.SendPushed | parte2/server/src/c_files/funciones.c:355-410 | A send to an online receiver whose listener answers: the exact message pushed to the stored address and its id deleted; an online sender acknowledged at its stored address, or offline if that fails; every entry and field given |
| Addresses.PushesGoToTheRoute | parte2/server/src/c_files/funciones.c:156-160 | In every interleaving each push goes to the receiver and address some worker settled at its first step: those of its CONNECT, or those stored for the receiver of its send |
| Addresses.AcksGoToTheSender | parte2/server/src/c_files/funciones.c:187-194 | In every interleaving each acknowledgement goes to an address at which its addressee was online at some point of the run |
| Addresses.FilesGoAsAttachments | parte2/server/src/c_files/funciones.c:162-179 | In every interleaving a message with a file name is pushed as an attachment |
| Addresses.PushSteps | parte2/server/src/c_files/funciones.c:371-418 | A push step logs the head of the queue, to the address of the route; if the listener does not answer, an online receiver is offline at 0.0.0.0 port 0 after the next step |
| Addresses.AckSteps | parte2/server/src/c_files/funciones.c:384-410 | The sender is looked up after the delete; if online, an answered dial logs exactly the acknowledgement to the address found, and an unanswered one leaves it offline after the next step |
| Addresses.StoreStep | parte2/server/src/c_files/database.c:384-418 | A store step appends the message to its receiver's queue, whoever is registered by then |
| Addresses.DrainStep | parte2/server/src/c_files/funciones.c:143-163 | A drain takes the whole queue in order, each message an attachment exactly if it has a file name |
| Addresses.DeleteStep | parte2/server/src/c_files/database.c:443-447 | A delete step takes out exactly the messages with that id from the receiver's queue and touches no other |
| Addresses.LeaveStep | parte2/server/src/c_files/funciones.c:276-282 | The last step of DISCONNECT: 0 and offline, 2 if the user went offline since, 1 if it was unregistered since |
| Runs.AlwaysOfflineAtZero | parte2/server/src/c_files/database.c:286-290 | In every reachable state offline users are stored at 0.0.0.0 port 0 |
| Runs.ServeIsARun | parte2/server/src/c_files/servidor.c:160-350 | Serving a request on an idle server is a run of the step system without overlap, with the same world at the end |
| Overlaps.PushedTwice | parte2/server/src/c_files/funciones.c:352-372 | A run of overlapping handlers in which the live delivery and the drain both push the one accepted message: one acceptance, two pushes |
| Overlaps.StoredTooLate | parte2/server/src/c_files/funciones.c:337-421 | A run of overlapping handlers that ends with every handler finished, the receiver connected and its message still pending |
| Overlaps.StoredForNobody | parte2/server/src/c_files/database.c:384-418 | A run in which an unregistration between accepting and storing leaves a message pending for a user that does not exist |
| Boundaries.OnlyRegisteredExactly | parte2/server/src/c_files/database.c:384-418 | In every interleaving messages are pending for registered users only, throughout, if and only if no store step finds its receiver unregistered |
| Boundaries.PendingForRegistered | parte2/server/src/c_files/database.c:384-418 | If every store step of a run finds its receiver registered, then in the end messages are pending for registered users only |
| Boundaries.NoneStrandedExactly | parte2/server/src/c_files/funciones.c:337-423 | In every interleaving each pending message of an online user is in the hands of a worker, throughout, if and only if no worker that saw the receiver offline stores a message while the receiver is online and no other worker will take care of it |
| Boundaries.FinishedMeansDelivered | parte2/server/src/c_files/funciones.c:337-423 | Without such a store step, however handlers overlap: when all of them have finished no online user has a message pending |
| Duplicates.AtMostOnceExactly | parte2/server/src/c_files/funciones.c:148-179 | In every interleaving, for a message accepted once: throughout the run at most one copy is pushed or about to be pushed, if and only if no drain of it starts while some worker has a copy it has not deleted |
| Duplicates.PushedAsOftenAsAccepted | parte2/server/src/c_files/funciones.c:352-372 | Without such an overtaking drain, however handlers overlap: pushes, copies in hand and copies loose in the file never exceed the acceptances |
| Duplicates.CopiesAreBounded | parte2/server/src/c_files/funciones.c:113-424 | In every interleaving pushes, copies in hand and copies loose in the file never exceed the acceptances by more than the copies overtaken |
| Handoff.EveryWorkerGetsItsOwn | parte2/server/src/c_files/servidor.c:120-172 | With unbounded workers, spurious wake-ups and failing thread creation: at most one created worker has not copied yet, and every copy is the descriptor accepted for that worker |
| Handoff.WaitingForASignal | parte2/server/src/c_files/servidor.c:143-147 | No lost wake-up: while the main thread waits, its worker has yet to signal, and the flag is set only if that worker is at its signal |
| Handoff.HandoffProgresses | parte2/server/src/c_files/servidor.c:129-147 | No stuck state: away from accept some thread can step, every step of the main thread or a worker lowers a measure that is 0 exactly at accept, and a spurious wake-up raises it by at most 2 |
| Handoff.AlwaysInv | parte2/server/src/c_files/servidor.c:120-172 | The hand-over invariant behind the three results above holds in every reachable state |
| Handoff.MainSteps | parte2/server/src/c_files/servidor.c:120-147 | Accepting records the descriptor; publishing clears the flag and sets the shared variable; creating makes the worker or gives the connection up; testing waits or goes back; waiting gives the mutex up |
| Handoff.WorkerSteps | parte2/server/src/c_files/servidor.c:167-172 | A worker takes the mutex, copies the shared variable, sets the flag, wakes a waiting main thread and lets the mutex go |
| Rows.RowRoundTrip | parte2/server/src/c_files/database.c:21-53 | A printed row fits the 512-byte line buffer, and reading and parsing it gives the same row and leaves the rest of the file |
| Rows.RowsOfPrinted | parte2/server/src/c_files/database.c:91-104 | Splitting and parsing a concatenation of printed rows gives exactly those rows |
| Rows.ReadersAgree | parte2/server/src/c_files/funciones.c:35-47 | On every table of printed rows the free-running fscanf scan and the line-by-line sscanf scan read the same rows |
| Rows.FirstAndLast | parte2/server/src/c_files/funciones.c:39-47 | Of several rows with one name the fscanf scan finds the first and the line readers keep the last |
| Rows.LongLineIsCut | parte2/server/src/c_files/database.c:27-52 | A line longer than the buffer is read in pieces of 511 bytes |
| Readers.HistoryInStep | parte2/server/src/c_files/database.c:116 | Over any history of registrations of arbitrary names and of rewrites the table is in step throughout if and only if the line of every registered name is in step by itself |
| Readers.AgreeIffInStep | parte2/server/src/c_files/funciones.c:35-47 | For any table of complete lines: both scans read the same rows now and after any further registrations of one-word names if and only if the table is in step |
| Readers.NameInStep | parte2/server/src/c_files/database.c:95 | The line of a name without newlines is in step if and only if the name is at most one word |
| Readers.WriteInStep | parte2/server/src/c_files/database.c:226-233 | A rewrite puts any table in step; a registration keeps a table in step if and only if its own line is |
| Readers.SpacedNameStopsScan | parte2/server/src/c_files/funciones.c:36 | A name whose second word is no number stops the fscanf scan at its line, whatever is registered later |
| Readers.HiddenUser | parte2/server/src/c_files/funciones.c:35-47 | After REGISTER of a name with a space a user registered next is read by the line reader and not by the fscanf scan |
| Rows.PrintedRowLength | parte2/server/src/c_files/database.c:365-366 | A printed row has at most 311 bytes, so snprintf never truncates it |
| Text.ScanIntDec | parte2/server/src/c_files/database.c:95 | The integer conversion reads back what %d or %u printed and stops after it |
| Text.ScanTokenWhole | parte2/server/src/c_files/database.c:95 | The bounded string conversion reads back a whole word of at most its width |
| Refinement.ConnectRefines | parte2/server/src/c_files/database.c:192-250 | On files that represent a store, db_connect returns the code of the map update and leaves files that represent the updated map |
| Refinement.DisconnectRefines | parte2/server/src/c_files/database.c:255-312 | The same for db_disconnect |
| Refinement.PrepareRefines | parte2/server/src/c_files/database.c:315-379 | The same for db_prepare_message, with the wrapping counter |
| Refinement.UnregisterRefines | parte2/server/src/c_files/database.c:129-188 | The same for db_unregister, the mailbox included |
| Refinement.RegisterRefines | parte2/server/src/c_files/database.c:79-124 | The code is that of the map update; the files represent the updated map if and only if the name is known or is one non-empty word of at most 255 bytes; for every new name the old rows stay and the rows of its line come after them |
| Refinement.EmptyNameReadsBackAsZero | parte2/server/src/c_files/database.c:116 | The line written for an empty name parses as a user called 0 at address .0.0.0 |
| Refinement.DepositRefines | parte2/server/src/c_files/database.c:384-418 | db_store_message appends one message to the receiver's queue |
| Refinement.RemoveRefines | parte2/server/src/c_files/database.c:421-459 | db_delete_message is the filter on the id, whoever the sender is |
| Refinement.PendingRefines | parte2/server/src/c_files/database.c:464-499 | db_get_pending_messages returns the whole queue in order |
| Refinement.InfoRefines | parte2/server/src/c_files/funciones.c:23-54 | get_user_info returns the row the db_* functions see, or none exactly for unknown users |
| Files.RewriteNames | parte2/server/src/c_files/database.c:147-161 | A rewrite keeps names unique, connected in {0, 1} and offline rows at 0.0.0.0 port 0 |
| Files.RewriteRefines | parte2/server/src/c_files/database.c:210-236 | Rewriting the rows is the update of the name-keyed map |
| Files.RewriteKeepsOthers | parte2/server/src/c_files/database.c:210-236 | A rewrite that drops no user keeps every name, the order and every other row |
| Files.DropTakesOneRow | parte2/server/src/c_files/database.c:147-161 | Unregistering takes out that user's row and leaves the others as they were, in order |
| Files.UsersLookup | parte2/server/src/c_files/database.c:98-101 | Looking a name up in the rows is looking it up in the map |
| Files.NoTable | parte2/server/src/c_files/database.c:133-134 | Without usuarios.txt registering creates it, accepting a message answers 2, and every other call answers 1 and changes nothing |
| Files.RowCodes | parte2/server/src/c_files/database.c:214-225 | The codes read off a row as it stands, whatever its flag: only 1 counts as online for CONNECT, only 0 as offline for DISCONNECT |
| Mail.RecordRoundTrip | parte2/server/src/h_files/database.h:5-10 | A struct written to the file and read back is the same message |
| Formats.RecordBytes | parte2/server/src/h_files/database.h:5-10 | A record written out: zero-padded fields of 256 bytes and a little-endian id of four |
| Formats.RowBytes | parte2/server/src/c_files/database.c:219-226 | A line of usuarios.txt written out |
| Formats.DecimalBytes | parte2/server/src/c_files/database.c:226 | Decimals as printed |
| Mail.QueueRoundTrip | parte2/server/src/c_files/database.c:464-499 | A mailbox file is a whole number of records and reads back as its queue |
| Mail.StoreAppends | parte2/server/src/c_files/database.c:398-413 | Appending one record to the bytes appends the message to the queue |
| Mail.DeleteFilters | parte2/server/src/c_files/database.c:443-447 | Copying the records with another id is the order-preserving filter on the queue |
| Queues.WithoutAllIsKeep | parte2/server/src/c_files/funciones.c:182 | Deleting the ids of a list of sent messages one after the other is one filter on those ids |
| Queues.DrainSplit | parte2/server/src/c_files/funciones.c:148-182 | Sent prefix plus what its deletes leave never exceeds the queue, and equals it if and only if no message behind shares an id with a sent one |
| Queues.DistinctSuffix | parte2/server/src/c_files/funciones.c:148-182 | With distinct ids exactly the unsent suffix is left |
| Database.Database.Register | parte2/server/src/c_files/database.c:79-124 | For any file contents: the code and the file that the file function of the same name describes |
| Database.Database.Unregister | parte2/server/src/c_files/database.c:129-188 | For any file contents: code and files; a stop at any file-system call leaves the whole old table, the whole new one, or none with the whole new one in the temporary file; on code 0 the call passes that gap, and the state in which the table is new and the mailbox still there |
| Database.StopsKeepATable | parte2/server/src/c_files/database.c:163-171 | What the stops of a rewrite amount to: at each, usuarios.txt is the whole old or the whole new table, or is absent while the temporary file is the whole new one |
| Database.GapIsPassed | parte2/server/src/c_files/database.c:170-171 | One of the stops of a successful rewrite is the one without usuarios.txt |
| Database.Database.Connect | parte2/server/src/c_files/database.c:192-250 | For any file contents: code, files and the table at each stop; on code 0 the call passes the gap between unlink and rename |
| Database.Database.Disconnect | parte2/server/src/c_files/database.c:255-312 | For any file contents: code, files and the table at each stop; on code 0 the call passes the gap between unlink and rename |
| Database.Database.Prepare | parte2/server/src/c_files/database.c:315-379 | For any file contents: code, files and the table at each stop; the id and receiver address handed out are those of the rows; on code 0 the call passes the gap between unlink and rename |
| Database.Database.Deposit | parte2/server/src/c_files/database.c:384-418 | For any file contents: one record appended, the file created if missing |
| Database.Database.Remove | parte2/server/src/c_files/database.c:421-459 | For any file contents: the records with another id, in order; stops inside it leave the old or the new mailbox, or none with the new one in the temporary file, and that gap is passed |
| Database.Database.GetPending | parte2/server/src/c_files/database.c:464-499 | For any file contents: every whole record, decoded, in order |
| Database.Database.GetConnected | parte2/server/src/c_files/database.c:504-572 | The code, and an array filled exactly and in bounds with one entry per connected row in file order |
| Database.Database.CountConnected | parte2/server/src/c_files/database.c:518-530 | The counting pass finds as many rows as the filling pass writes |
| Database.Database.FillConnected | parte2/server/src/c_files/database.c:545-566 | The filling pass stores one untruncated entry per connected row, in order, at indices below the count |
| Database.Database.GetUserInfo | parte2/server/src/c_files/funciones.c:23-54 | The fscanf loop returns the first matching row of the free-running scan |
| Database.Database.StartCopy | parte2/server/src/c_files/database.c:199-200 | A leftover temporary file is emptied before anything is copied into it |
| Database.Database.Init | parte2/server/src/c_files/database.c:56-74 | usuarios.txt is created empty if missing and otherwise untouched |
| Database.RestartKeepsTable | parte2/server/src/c_files/database.c:242-243 | After a stop inside a rewrite and a restart the table is the old or the new one if and only if usuarios.txt was there or one of the two is empty |
| Database.GapLosesEveryUser | parte2/server/src/c_files/database.c:242-243 | In the state between unlink and rename, which every successful rewrite passes, a stop and restart leave no user |
| Database.RestartKeepsMail | parte2/server/src/c_files/database.c:454-455 | After a stop inside a delete and a restart the pending messages are those before or after it if and only if the mailbox was there or one of the two is empty |
| Database.GapLosesTheMail | parte2/server/src/c_files/database.c:454-455 | In the state between unlink and rename of a delete a stop and restart leave nothing pending |
| Database.MailOutlivesUser | parte2/server/src/c_files/database.c:170-176 | After a stop between the rename and the unlink of the mailbox the user is gone, and whoever registers the name next has the old messages pending, some if and only if the mailbox held a record; after the whole unregistration nothing is pending |
| Database.GapKeepsEveryMailbox | parte2/server/src/c_files/database.c:242-243 | After a stop in the gap of any rewrite and a restart no user is left, and whoever registers a name next has what was pending for it, some if and only if its mailbox held a record |
| Database.NewcomerInherits | parte2/server/src/c_files/database.c:384-418 | Whatever the files: whoever registers a name has what is in its mailbox, some if and only if it holds a record |
| Disk.Reader.ReadLine | parte2/server/src/c_files/database.c:21-53 | Up to and including a newline, at most one byte less than the buffer, always terminated, in bounds |
| Wire.SendMessage | parte2/server/src/c_files/comunicaciones.c:11-27 | Under arbitrary partial writes: 0 and the whole buffer in order, or -1 and a proper prefix |
| Wire.SendFields | parte2/server/src/c_files/funciones.c:166-178 | Fields sent one by one under arbitrary partial writes: if every call reports success the frame is sent, and reading gives the fields back if and only if they are readable |
| Wire.LeerCadena | parte2/server/src/c_files/comunicaciones.c:49-66 | -1 exactly when the stream ends first; otherwise the C string of at most 255 bytes, terminated in bounds, and the rest of the stream untouched |
| Wire.ReadOneField | parte2/server/src/c_files/comunicaciones.c:49-66 | A field of at most 254 bytes is read whole with its NUL; a longer one is cut at 255 with its NUL left behind |
| Wire.FieldOf255HidesTheNext | parte2/server/src/c_files/comunicaciones.c:54-63 | After a field of 255 bytes the next read returns the empty string |
| Wire.FramingExact | parte2/server/src/c_files/servidor.c:316-339 | Successive reads give back the fields sent if and only if each field before the last has at most 254 bytes and the last at most 255, but for empty fields behind one of 255 |
| Requests.RequestRoundTrip | parte2/server/src/c_files/servidor.c:174-350 | The server parses the request the client meant, for all seven operations, if and only if its fields survive the framing |
| Requests.PortRoundTrip | parte2/server/src/c_files/servidor.c:238 | strtol reads back every printed port |
| Requests.ParsedFits | parte2/server/src/c_files/servidor.c:185-193 | Whatever bytes arrive, the parsed fields are C strings of at most 255 bytes and the port is an int |
| Formats.RequestBytes | parte2/server/src/c_files/servidor.c:183-339 | Each of the seven requests written out: operation, NUL and the fields in order, and the server serves exactly that request |
| Formats.UnknownOperation | parte2/server/src/c_files/servidor.c:174-350 | Any other operation is unknown, and nothing but its name is read |
| Formats.CutRequest | parte2/server/src/c_files/servidor.c:174-318 | A request whose peer closes inside a field is cut short |
| Requests.TratarPeticion2 | parte2/server/src/c_files/servidor.c:174-350 | Reads exactly the fields of the operation in order and leaves the bytes after them; closes the socket once on a cut request and after SENDATTACH, and on no other path |
| Requests.TratarPeticion1 | parte1/server/src/c_files/servidor.c:173-300 | The same reading without SENDATTACH, and the socket is closed exactly once on every path |
| Frames.StoredAndLiveAgree | parte2/server/src/c_files/funciones.c:160-179 | Stored, read back and drained, a message gives the bytes of the live push if and only if it is not an attachment with an empty name |
| Frames.PushShown | parte2/client/client.py:166-199 | The listener shows exactly the stored fields if and only if they are ASCII and no attachment field is empty |
| Frames.AckShown | parte2/client/client.py:179-208 | The same for the two acknowledgements |
| Handlers.PushBytes | parte2/server/src/c_files/funciones.c:166-178 | The two push frames written out, field by field |
| Handlers.AckBytes | parte2/server/src/c_files/funciones.c:200-206 | The two acknowledgement frames written out, field by field |
| Formats.FileRequest | parte2/client/client.py:210-217 | A file request serves the path, which comes after the asking user, if both decode and it is not empty |
| Frames.ClientFraming | parte2/client/client.py:79-96 | The client reads back the fields of a frame if and only if they are ASCII |
| Frames.ReceiveString | parte2/client/client.py:79-96 | The bytes up to a NUL or the end of the stream, failing at the first byte that does not decode |
| Frames.ListenerConnection | parte2/client/client.py:146-221 | What one connection of the listener shows or serves, for any bytes and all five operations |
| Listing.DirectoryRoundTrip | parte2/client/client.py:543-559 | The client rebuilds precisely the map from connected name to address and port if and only if the entries are ASCII |
| Listing.DirectoryIsOnlineUsers | parte2/server/src/c_files/funciones.c:294-327 | On every represented store that map is the map of the online users |
| Formats.ListBytes | parte2/server/src/c_files/database.c:558-562 | The reply with one connected user written out, and the directory the client makes of it |
| Listing.SplitEntry | parte2/client/client.py:551-555 | Splitting an entry at the separator gives its name, address and port |
| Listing.EntryNotTruncated | parte2/server/src/c_files/database.c:559-560 | An entry never exceeds its 400-byte buffer |
| Listing.Client.Users | parte2/client/client.py:533-562 | The loop leaves in the directory what the reply as a whole describes, or fails |
| Handlers.Server.Handle | parte2/server/src/c_files/servidor.c:160-350 | From the bytes of a request to the end of its handler: the first reply byte in numbers for every request and store, the id or the user list behind it, and world and connection outcomes those of the worker with exactly the request's fields run alone; a new name that is not one word gets 0 and the exact files; no request, no reply and no change |
| Handlers.Server.FConnect | parte2/server/src/c_files/funciones.c:113-231 | On the bytes of the files and of the wire: the answer 0, 1 or 2 as a byte, and the abstract worker run alone, with the drain |
| Handlers.ConnectPackets | parte2/server/src/c_files/funciones.c:156-206 | Every packet a CONNECT puts on the wire is a message of the user's file pushed to the address of that CONNECT, or the acknowledgement of one to its sender's own address |
| Handlers.PacketsHaveEvents | parte2/server/src/c_files/funciones.c:166-206 | Every packet on the wire is that of a push or an acknowledgement in the log, to its address and with its fields |
| Handlers.EventOnTheWire | parte2/server/src/c_files/funciones.c:166-206 | A push or an acknowledgement is one packet to its own address, and nothing else is sent |
| Handlers.Server.FSend | parte2/server/src/c_files/funciones.c:332-522 | The same for SEND and SENDATTACH: the byte 0 and the sender's next id, or the byte 1 alone |
| Handlers.Server.FDisconnect | parte2/server/src/c_files/funciones.c:236-289 | The same for DISCONNECT, with its four answers and their conditions |
| Handlers.Server.FUnregister | parte2/server/src/c_files/funciones.c:86-108 | The same for UNREGISTER, answering 0 or 1 |
| Handlers.Server.FRegister | parte2/server/src/c_files/funciones.c:59-81 | The same for REGISTER when the name is known or one non-empty word; otherwise the exact files |
| Handlers.Server.FUsers | parte2/server/src/c_files/funciones.c:294-327 | The code, and for a connected user the count and the entries, each NUL-terminated |
| Handlers.Server.Deliver | parte2/server/src/c_files/funciones.c:360-414 | One delivery attempt: the push frame in a packet to the given address, the delete, and, if the sender is online and answers, the acknowledgement frame in a packet to the sender's stored address; or no packet and the receiver marked offline |
| Handlers.Server.DrainPending | parte2/server/src/c_files/funciones.c:143-226 | The drain loop is the delivery of the whole pending queue in order |
| Solo.RunDelivery | parte2/server/src/c_files/funciones.c:148-226 | The worker's steps from its queue to its end are the delivery loop in closed form |
| Solo.ServeSend | parte2/server/src/c_files/funciones.c:332-424 | What serving a send alone does to store, log and outcomes |
| Solo.ServeConnect | parte2/server/src/c_files/funciones.c:113-231 | What serving a connect alone does |
| Delivery.DeliverAllEffect | parte2/server/src/c_files/funciones.c:148-226 | The delivery loop pushes a prefix in order, deletes exactly its ids from the receiver's file, touches no other queue, and leaves the receiver offline if cut short |
| Normalize.NormalIsCanonical | parte2/web_service/ws_normalize.py:24-27 | Two messages normalise to the same text if and only if their words are the same |
| Normalize.NormalIsIdempotent | parte2/web_service/ws_normalize.py:24-27 | Normalising twice is normalising once |
| Normalize.NormalIsTidy | parte2/web_service/ws_normalize.py:24-27 | No leading, trailing or doubled white space, and never longer than the input |
| Formats.PythonSpaces | parte2/web_service/ws_normalize.py:26 | The characters that count as white space, by code point |
| Formats.TwoWords | parte2/web_service/ws_normalize.py:26 | Two words, however they are spaced, become themselves with one space between |

## Left out

- Failures of open, write, rename, malloc and getpeername, and the codes 2 and 3 that only they
  produce: these calls succeed in the model. A connection attempt to a listener may fail.
- Path characters in user names and the 300-byte path buffers, which a name of 255 bytes fits.
- Failures of `sendMessage` to a listener or to the client, which every handler ignores.
- The error answer of `read_line_sys` on a failed read.
- Decimal numbers outside the range of their C type in `usuarios.txt`, for which sscanf has no
  defined result; the model wraps them. Only a name that is not one word can put one there.
- NUL bytes inside `usuarios.txt` for the fscanf scan; the store never writes one.
- The line buffer is one array per line read rather than one reused array.
- The atomicity of a `db_*` call and of `get_user_info` is taken from the database mutex, not
  proved from lock operations.
- Delivery in finite time and exactly-once delivery under overlapping handlers: the code provides
  neither (`Overlaps`). `Boundaries.NoneStrandedExactly` and `Duplicates.AtMostOnceExactly` say for
  which runs it does.
- Readers.NameInStep: is about names without newlines. For a name with newlines `Readers.HistoryInStep`
  gives the condition on its line.
- Handlers.Server.FSend: stands for both `f_send` and `f_sendattach`, which differ only in the
  frames and the stored file name.
- Protocol.Step: has no step for USERS, which changes nothing.
- Listing.PyInt: refuses the spaces and underscores that Python's int accepts and the server never sends.
- Requests.RequestRoundTrip: speaks of ports 1 to 65535, which is what the client sends; port 0 is
  what the server reads from an empty field, so for it a name of 255 bytes would get through.
- The transfer of a file's contents between clients, the Python shell, threads and printing.
- The RPC log and the HTTP plumbing of the web service.
- The part 1 database, handlers and client, which part 2 contains.
- `recvMessage`, which nothing calls.
