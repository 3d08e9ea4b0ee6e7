# Socket-Group-Chat core in Dafny

Socket-Group-Chat is a group chat with a background job queue. This project
models its core and proves properties of the model. The core has these parts:

- **Store** (`Store`). An in-memory store for jobs and chat messages. It is
  two insertion-ordered maps keyed by id. Here it is the class
  `InMemoryStore`, whose methods are specified by pure state transitions
  (`PutJob`, `UpdateJobSpec`, `PutMessage`). `listMessages` is a stable sort
  by timestamp (`MessageOrder`).
- **Job worker** (`JobWorker`). The worker moves a job to Processing, waits,
  then writes Completed and a result message. This is split at the `await`
  into `StartJob` and `FinishJob`, so other work can run in between. For a
  FileUpload job with a primitive payload (a string, number, boolean or
  null), the test `'fileName' in payload` throws a TypeError. The finish
  step then rejects and the job stays Processing. The POST handler accepts
  such a payload when it is truthy (see "## Findings"). The job invariant,
  a result exactly when Completed, is kept by the POST handler, the tick and
  the finish steps.
- **Scheduler** (`Scheduler`). The 500 ms tick lists the jobs, keeps the
  Pending ones, and starts a worker for each. `Tick` runs the start steps in
  list order. `ResumeAll` runs the suspended finish steps and collects the
  ids whose promise rejects. `TickThenResume` states what a job looks like
  after both.
- **Hub** (`Hub`, `Wire`). This is the WebSocket server's message handler.
  A chat or file frame becomes a Message with a fresh id and the current
  time. The message is stored first, then one envelope goes to every OPEN
  client.
- **Jobs API** (`JobsApi`). `POST /jobs` checks the type first, then the
  payload's truthiness. `GET /jobs/:id` answers 200 or 404.
- **Client connection** (`WebSocketHook`). This is the browser hook's state:
  socket state, reconnect counter, pending reconnect timer and
  `isConnected`. It is the class `WebSocketClient`, with one method per
  event. Retries back off exponentially, 2^attempts seconds, while
  attempts < 5. `disconnect` sets the counter to 5, so no retry follows. An
  unmount closes the socket but leaves the counter alone, so the close
  event that follows still schedules a retry (`DisconnectStopsRetries`).
  Inbound envelopes are decoded back to Messages; for a well-formed message
  this round-trips the hub's envelope (`BroadcastRoundTrip`).
- **File validation** (`FileValidation`). This covers the 10 MB limit, the
  empty-file check, and `formatFileSize`. Here `formatFileSize` is computed
  exactly with integer arithmetic: it picks the largest unit of 1024 that
  the size reaches, rounds to the nearest hundredth (a tie goes up), and
  drops trailing zeros.

Conventions:

- Dates are integer milliseconds.
- The current time and fresh ids (`new Date()`, `uuidv4()`) are method
  parameters.
- Frames and request bodies are modelled after JSON decoding.

## Model

| member | source | states |
|---|---|---|
| Wire.TypeTag | common/src/types/message.ts:1-4 | the wire string of a message type is "message" exactly for the text type, and "file" for a file |
| Store.Set | backend/src/store/store.ts:21 | Map.set, as called here and at lines 31 and 40: the key holds the new value; every other key keeps its value; the key set gains only that key; insertion order stays a duplicate-free listing of the keys |
| Store.SetValues | backend/src/store/store.ts:35-37 | iteration order of map values: a new key's value is appended at the end; an existing key keeps its position with the new value |
| Store.PutJob | backend/src/store/store.ts:20-22 | createJob stores the job under its id (overwriting), leaves other jobs and all messages unchanged, keeps the store valid |
| Store.UpdateJobSpec | backend/src/store/store.ts:29-33 | updateJob replaces a present job in place (order unchanged) and is a no-op for an unknown id |
| Store.PutMessage | backend/src/store/store.ts:39-41 | createMessage stores the message under its id; other messages and all jobs are unchanged |
| Store.ListMessagesCorrect | backend/src/store/store.ts:48-52 | listMessages is sorted by timestamp, is a permutation of the stored messages, and keeps insertion order among equal timestamps |
| Store.CopyValues | backend/src/store/store.ts:35-37 | Array.from(map.values()): one entry per key in insertion order, each the stored value |
| Store.InMemoryStore.constructor | backend/src/store/store.ts:15-17 | a new store has no jobs and no messages |
| Store.InMemoryStore.CreateJob | backend/src/store/store.ts:20-22 | the new state is PutJob of the old state |
| Store.InMemoryStore.GetJob | backend/src/store/store.ts:24-27 | returns the stored job exactly when the id is present |
| Store.InMemoryStore.UpdateJob | backend/src/store/store.ts:29-33 | the new state is UpdateJobSpec of the old state |
| Store.InMemoryStore.ListJobs | backend/src/store/store.ts:35-37 | the jobs in insertion order, each stored under its own id |
| Store.InMemoryStore.CreateMessage | backend/src/store/store.ts:39-41 | the new state is PutMessage of the old state |
| Store.InMemoryStore.GetMessage | backend/src/store/store.ts:43-46 | returns the stored message exactly when the id is present |
| Store.InMemoryStore.ListMessages | backend/src/store/store.ts:48-52 | the result is sorted by timestamp, a permutation of the stored messages, and stable |
| MessageOrder.WithTimestampAppend | backend/src/store/store.ts:51 | selecting one timestamp's messages distributes over concatenation |
| MessageOrder.InsertPermutes | backend/src/store/store.ts:51 | inserting one message adds exactly that message to the multiset |
| MessageOrder.InsertKeepsSorted | backend/src/store/store.ts:51 | inserting into a sorted list keeps it sorted |
| MessageOrder.InsertIsStable | backend/src/store/store.ts:51 | insertion places a message after every earlier message with the same timestamp |
| MessageOrder.SortCorrect | backend/src/store/store.ts:51 | the sort is sorted, a permutation, and stable (per-timestamp order equals input order) |
| MessageOrder.SortUnique | backend/src/store/store.ts:51 | any sorted list with the same per-timestamp order as the input is the sort's result |
| MessageOrder.SortedSameFiltersEqual | backend/src/store/store.ts:51 | two sorted lists with the same per-timestamp order are equal |
| MessageOrder.StableSortByTimestamp | backend/src/store/store.ts:49-51 | the loop computes the stable sort: sorted, a permutation, same per-timestamp order |
| JobWorker.IsPrimitive | backend/src/services/job-worker.ts:25 | the values on which `'fileName' in payload` throws a TypeError: null, booleans, numbers and strings |
| JobWorker.DeclaredFileName | backend/src/services/job-worker.ts:25 | a file name is declared only for a FileUpload job whose object payload has a string `fileName`, and it is that string |
| JobWorker.ResultMessage | backend/src/services/job-worker.ts:22-27 | the result text names the file when the FileUpload payload has a string fileName, otherwise the job id; it fails exactly for a FileUpload job with a primitive payload |
| JobWorker.ResultNamesFile | backend/src/services/job-worker.ts:25-27 | when a file name is declared, the result message contains it |
| JobWorker.StartSpec | backend/src/services/job-worker.ts:6-16 | a missing job changes nothing; otherwise only that job changes, to Processing with updatedAt = now; keys, order and messages are kept |
| JobWorker.FinishSpec | backend/src/services/job-worker.ts:35-43 | re-reads the job and marks it Completed with the result computed from the snapshot; an absent job (the re-check at line 36) or a throwing selection changes nothing |
| JobWorker.ProcessJobUninterrupted | backend/src/services/job-worker.ts:6-43 | start then finish with nothing in between: the job ends Completed with its result, or Processing when selection throws |
| JobWorker.StartResultsConsistent | backend/src/services/job-worker.ts:12-16 | the start step keeps the job invariant (a result exactly when Completed) if and only if it does not restart a Completed job, which would become Processing with its old result |
| JobWorker.FinishResultsConsistent | backend/src/services/job-worker.ts:34-43 | the finish step keeps the job invariant: it writes the result together with Completed |
| JobWorker.FinishMarkingFailure | backend/src/services/job-worker.ts:22-43 | the corrected finish step: on a throwing selection the job is recorded Failed with the new updatedAt; otherwise it is the finish step as written |
| JobWorker.ProcessJobMarkingFailure | backend/src/services/job-worker.ts:6-43 | with the corrected finish step a job always ends in a final status, Failed exactly when selection throws and Completed otherwise, keeping the job invariant for a Pending job |
| JobWorker.StartJob | backend/src/services/job-worker.ts:6-19 | the new state is StartSpec; it suspends exactly when the job exists, holding the snapshot read before the update |
| JobWorker.FinishJob | backend/src/services/job-worker.ts:22-43 | the new state is FinishSpec; it rejects exactly when result selection throws |
| Scheduler.PendingJobs | backend/src/index.ts:25 | the filter keeps exactly the Pending jobs, and distinct ids stay distinct |
| Scheduler.PendingKeepsOrder | backend/src/index.ts:25 | the filter keeps listJobs order: of two kept jobs, the earlier one comes from an earlier list position |
| Scheduler.PendingOrigins | backend/src/index.ts:25 | gives the two increasing list positions that the i-th and j-th kept jobs come from |
| Scheduler.StartAll | backend/src/index.ts:26-30 | the start steps, the i-th with its own clock reading, keep the store valid and keep its keys, order and messages |
| Scheduler.StartAllAt | backend/src/index.ts:26-30 | with distinct ids, the job named by the i-th id becomes Processing, stamped with the i-th clock reading |
| Scheduler.StartAllOutside | backend/src/index.ts:26-30 | a job no dispatched id names is unchanged |
| Scheduler.ListedJobs | backend/src/index.ts:25 | listJobs has distinct ids and lists exactly the stored jobs |
| Scheduler.PendingAreListed | backend/src/index.ts:25 | every stored Pending job appears in the tick's filtered list |
| Scheduler.TickStarts | backend/src/index.ts:24-31 | the i-th listed Pending job is the stored record, and the tick leaves it Processing with the clock reading of its own worker call |
| Scheduler.TickSkips | backend/src/index.ts:24-31 | a tick adds or removes no job and leaves every non-Pending job as it was |
| Scheduler.Tick | backend/src/index.ts:24-31 | the loop's new state is TickSpec, where the i-th worker call reads times(i); it dispatches the ids of PendingJobs, which keeps listJobs order (PendingKeepsOrder), and returns one suspended worker per Pending job |
| Scheduler.FinishAll | backend/src/index.ts:26-29 | the finish steps, the i-th with its own clock reading, keep the store valid and keep its keys, order and messages |
| Scheduler.Rejected | backend/src/index.ts:27-29 | the ids reaching the catch are exactly those whose result selection throws |
| Scheduler.ResumeAll | backend/src/index.ts:26-29 | the new state is FinishAll, where the i-th timer callback reads times(i), and the reported failures are Rejected |
| Scheduler.FinishAllAt | backend/src/index.ts:26-29 | with distinct ids, each resumed job ends as its own finish step leaves it, at its own clock reading |
| Scheduler.FinishAllOutside | backend/src/index.ts:26-29 | jobs without a resumed worker are unchanged |
| Scheduler.TickThenResume | backend/src/index.ts:24-31 | after a tick and its timers, the i-th Pending job is Completed with its result at its own timer's time, or stays Processing at its start time when selection throws |
| Scheduler.TickThenResumeSkips | backend/src/index.ts:24-31 | a job that was not Pending comes out of a tick and its timers unchanged |
| Scheduler.TickResultsConsistent | backend/src/index.ts:24-31 | a tick keeps the job invariant, because it starts only Pending jobs, which carry no result |
| Scheduler.FinishAllResultsConsistent | backend/src/index.ts:26-29 | the timers' finish steps keep the job invariant |
| Scheduler.PrimitivePayloadStuck | backend/src/services/job-worker.ts:25 | a POST of a FileUpload job with payload "report.pdf" is accepted; after a tick and its timers the job is Processing, and a later tick and its timers leave it unchanged |
| Hub.BuildMessage | backend/src/websocket/server.ts:17-55 | chat and file frames, and only they, give a message with the fresh id and time; content is the text or the file name; fileData is present exactly for files |
| Hub.EnvelopeOf | backend/src/websocket/server.ts:29-70 | the envelope carries the message's fields and type string; fileData only for files |
| Hub.Broadcast | backend/src/websocket/server.ts:37-41 | every send carries the envelope and goes to an OPEN client |
| Hub.BroadcastExactlyOnce | backend/src/websocket/server.ts:37-41 | with distinct client ids, each OPEN client gets exactly one send and any other client none |
| Hub.NoSendsTo | backend/src/websocket/server.ts:37-41 | a client not in the set receives nothing |
| Hub.SendToOpen | backend/src/websocket/server.ts:72-76 | the forEach loop performs exactly Broadcast's sends, in client order |
| Hub.HandleFrame | backend/src/websocket/server.ts:13-80 | an ignored or unparseable frame changes nothing; otherwise the message is stored first and then sent once to each OPEN client |
| Hub.BuiltMessageWellFormed | backend/src/websocket/server.ts:17-55 | storing the message built for a frame keeps every stored message well formed (fileData exactly for file messages) |
| JobsApi.ParseJobType | backend/src/api/jobs.ts:11-14 | accepts exactly the strings "file_upload" and "chat_message" |
| JobsApi.Truthy | backend/src/api/jobs.ts:16 | a payload is falsy exactly when it is missing, null, false, 0 or the empty string |
| JobsApi.DecidePost | backend/src/api/jobs.ts:8-30 | invalid type gives 400 "Invalid job type" (checked first); a falsy payload gives 400 "Payload is required"; otherwise a Pending job with the request's type and payload and createdAt = updatedAt = now |
| JobsApi.CreatedJobIsStored | backend/src/api/jobs.ts:31-34 | a created job is stored under its id, appended to listJobs for a fresh id, messages untouched |
| JobsApi.PostResultsConsistent | backend/src/api/jobs.ts:21-31 | a created job is Pending without a result, so storing it keeps the job invariant |
| JobsApi.PostJob | backend/src/api/jobs.ts:8-35 | a rejected request leaves the store unchanged; an accepted one answers 201 with the job and stores it |
| JobsApi.GetJobById | backend/src/api/jobs.ts:37-49 | 200 with the stored job, or 404 "Job not found" |
| WebSocketHook.BackoffDelay | frontend/src/hooks/useWebSocket/useWebSocket.ts:55 | the delay is at least one second |
| WebSocketHook.ConnectStep | frontend/src/hooks/useWebSocket/useWebSocket.ts:36-86 | nothing when OPEN; otherwise a CONNECTING socket, or isConnected false when construction throws |
| WebSocketHook.OpenStep | frontend/src/hooks/useWebSocket/useWebSocket.ts:45-48 | open sets isConnected and resets the counter to 0 |
| WebSocketHook.CloseStep | frontend/src/hooks/useWebSocket/useWebSocket.ts:50-61 | close clears isConnected and schedules a retry after 2^attempts s exactly when attempts < 5 |
| WebSocketHook.TimerStep | frontend/src/hooks/useWebSocket/useWebSocket.ts:56-59 | the timer increments the counter before reconnecting and keeps the counter within 0..5 |
| WebSocketHook.CloseSocket | frontend/src/hooks/useWebSocket/useWebSocket.ts:96 | `ws.close()` leaves no OPEN or CONNECTING socket; a CLOSING or CLOSED socket is unchanged; there is a socket afterwards exactly when there was one before |
| WebSocketHook.DisconnectStep | frontend/src/hooks/useWebSocket/useWebSocket.ts:132-140 | disconnect cancels the timer, sets the counter to 5 and leaves no OPEN or CONNECTING socket |
| WebSocketHook.UnmountStep | frontend/src/hooks/useWebSocket/useWebSocket.ts:91-98 | cleanup cancels the timer and closes the socket but keeps the counter |
| WebSocketHook.RetrySchedule | frontend/src/hooks/useWebSocket/useWebSocket.ts:54-59 | consecutive failures from counter a give min(n, 5 - a) retries, the i-th after 2^(a+i) s |
| WebSocketHook.FreshRetrySchedule | frontend/src/hooks/useWebSocket/useWebSocket.ts:54-59 | from counter 0 the delays are 1000, 2000, 4000, 8000, 16000 ms and no more |
| WebSocketHook.DisconnectStopsRetries | frontend/src/hooks/useWebSocket/useWebSocket.ts:132-140 | after disconnect a close schedules nothing; after unmount it still schedules a retry while attempts < 5 |
| WebSocketHook.MessageTypeOf | frontend/src/hooks/useWebSocket/useWebSocket.ts:68 | "message" maps to the text type, every other tag to File |
| WebSocketHook.DecodeInbound | frontend/src/hooks/useWebSocket/useWebSocket.ts:63-77 | malformed frames give nothing; a parsed envelope gives the message with its fields and mapped type |
| WebSocketHook.BroadcastRoundTrip | frontend/src/hooks/useWebSocket/useWebSocket.ts:63-77 | decoding the hub's envelope of a well-formed message gives back that message |
| WebSocketHook.WebSocketClient.constructor | frontend/src/hooks/useWebSocket/useWebSocket.ts:30-34 | starts with no socket, isConnected false, counter 0, no callback |
| WebSocketHook.WebSocketClient.Mount | frontend/src/hooks/useWebSocket/useWebSocket.ts:88-89 | the state after mount is ConnectStep of the initial state |
| WebSocketHook.WebSocketClient.OnOpen | frontend/src/hooks/useWebSocket/useWebSocket.ts:45-48 | the new state is OpenStep of the old |
| WebSocketHook.WebSocketClient.OnClose | frontend/src/hooks/useWebSocket/useWebSocket.ts:50-61 | the new state is CloseStep of the old |
| WebSocketHook.WebSocketClient.FireTimer | frontend/src/hooks/useWebSocket/useWebSocket.ts:56-59 | the new state is TimerStep of the old |
| WebSocketHook.WebSocketClient.SendMessage | frontend/src/hooks/useWebSocket/useWebSocket.ts:101-111 | exactly one chat frame is sent when OPEN, nothing otherwise |
| WebSocketHook.WebSocketClient.SendFile | frontend/src/hooks/useWebSocket/useWebSocket.ts:113-126 | exactly one file frame is sent when OPEN, nothing otherwise |
| WebSocketHook.WebSocketClient.RegisterCallback | frontend/src/hooks/useWebSocket/useWebSocket.ts:128-130 | a callback is registered |
| WebSocketHook.WebSocketClient.OnMessage | frontend/src/hooks/useWebSocket/useWebSocket.ts:63-77 | a message is delivered exactly when a callback is set and the frame parses, and it is the decoded one |
| WebSocketHook.WebSocketClient.Disconnect | frontend/src/hooks/useWebSocket/useWebSocket.ts:132-140 | the new state is DisconnectStep of the old |
| WebSocketHook.WebSocketClient.Unmount | frontend/src/hooks/useWebSocket/useWebSocket.ts:91-98 | the new state is UnmountStep of the old |
| FileValidation.MaxFileSizeValue | frontend/src/utils/fileValidation.ts:4 | the limit is 10485760 bytes |
| FileValidation.UnitIndex | frontend/src/utils/fileValidation.ts:18 | the unit index i satisfies 1024^i <= bytes < 1024^(i+1) |
| FileValidation.UnitName | frontend/src/utils/fileValidation.ts:17 | index 0 is "Bytes"; past "GB" the unit reads "undefined" |
| FileValidation.Hundredths | frontend/src/utils/fileValidation.ts:20 | the nearest count of hundredths, ties going up |
| FileValidation.Digits | frontend/src/utils/fileValidation.ts:20 | a non-empty string of decimal digits without a leading zero |
| FileValidation.DigitsRoundTrip | frontend/src/utils/fileValidation.ts:20 | reading the written digits back gives the number |
| FileValidation.Decimal | frontend/src/utils/fileValidation.ts:20 | a whole number of hundredths prints without a fractional part |
| FileValidation.FormatFileSize | frontend/src/utils/fileValidation.ts:11-21 | zero is "0 Bytes"; a negative size is "NaN undefined" |
| FileValidation.SmallSizeInBytes | frontend/src/utils/fileValidation.ts:11-21 | sizes 1..1023 print exactly, in Bytes |
| FileValidation.WholeUnits | frontend/src/utils/fileValidation.ts:11-21 | k whole units (1 <= k < 1024) print as "k unit" |
| FileValidation.OneAndAHalfUnits | frontend/src/utils/fileValidation.ts:11-21 | 1.5 units print as "1.5 unit" |
| FileValidation.MaxFileSizeFormatted | frontend/src/utils/fileValidation.ts:4 | the limit prints as "10 MB" |
| FileValidation.ValidateFileSize | frontend/src/utils/fileValidation.ts:29-36 | no error exactly when size <= maxSize (the limit itself passes); above it the message names both formatted sizes and says "exceeds maximum allowed size" |
| FileValidation.OverLimitMessage | frontend/src/utils/fileValidation.ts:29-36 | above the default limit the message ends "(10 MB)" |
| FileValidation.ElevenMegabytesRefused | frontend/src/utils/fileValidation.ts:29-36 | an 11 MB file gives "File size (11 MB) exceeds maximum allowed size (10 MB)" |
| FileValidation.ValidateFileNotEmpty | frontend/src/utils/fileValidation.ts:43-48 | "Cannot upload empty file" exactly for size 0 |

## Findings

| source | as written | input that shows it | evidently intended | confidence | as-written member | corrected member |
|---|---|---|---|---|---|---|
| backend/src/services/job-worker.ts:25 | `'fileName' in job.payload` throws a TypeError on a primitive payload, which backend/src/api/jobs.ts:16 accepts when truthy; the rejection is only logged, so the job stays Processing and no later tick picks it up again | POST /jobs with `{type: "file_upload", payload: "report.pdf"}` | the job ends in a final status; the Failed status exists for this but is never set | not executed | Scheduler.PrimitivePayloadStuck | JobWorker.FinishMarkingFailure, with JobWorker.ProcessJobMarkingFailure |

The scheduler and the worker methods follow the code as written. The corrected finish step is stated beside them and is not wired into `Tick` or `ResumeAll`.

## Left out

- Logging is a no-op: backend/src/utils/logger.ts is not part of this model.
- The express app and the `ws` transport (backend/src/server.ts, ports, routing, shutdown) are not modelled. Requests and frames enter already JSON-decoded.
- A frame's fields are assumed to have their declared JSON types. What happens when a client sends, say, a numeric userId is not modelled.
- Dates are integer milliseconds, not ISO-8601 strings. The hook's `new Date(data.timestamp)` is the identity.
- Wall-clock time and uuid generation are parameters (`now`, `freshId`). In a tick, each worker call and each timer callback has its own clock reading (`times(i)`). The two `new Date()` calls inside one finish step get one value.
- The 500 ms interval and the 100 ms `await` are explicit steps. `Tick` runs all start steps; `ResumeAll` runs suspended finish steps in the order given. Other interleavings are reachable only by calling the store methods between the steps.
- The object spreads that copy records on read and write are not modelled, because records are immutable values here. Aliasing between the store and its callers cannot be observed.
- Job payload numbers are integers. Fractional JSON numbers are not modelled.
- The per-job catch receives only finish-step rejections. The start step cannot throw in this model.
- WebSocketHook.WebSocketClient.OnClose: modelled only for the current socket. A close or open event from a socket that `connect` has already replaced is not modelled.
- WebSocketHook.WebSocketClient.Mount: models the first mount only. A change of `url` re-running the effect is not modelled, and neither is React's re-rendering.
- WebSocketHook.WebSocketClient.OnMessage: the registered callback is a flag. Its body is the UI's.
- WebSocketHook.DecodeInbound: inbound frames are assumed to be the hub's envelopes. A frame that parses to another value, such as `{}` or `5`, is delivered by the source as a Message with undefined fields; this is not modelled.
- FileValidation.UnitIndex: the unit is computed exactly. `Math.log` rounding error near an exact power of 1024 is not modelled, nor are sizes above 2^53.
- frontend/src/utils/base64.ts is not part of this model. It wraps the browser's FileReader, atob and Blob.
- The React components (frontend/src/components/ChatPage.tsx, frontend/src/index.tsx) are not modelled. They are presentation code.
