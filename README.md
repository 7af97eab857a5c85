# Wavelog hardware interface websocket server, modelled in Dafny

The server relays frequency-change (QSY) commands from HTTP clients to
radio devices that hold a websocket open under a device id. A QSY can carry
an operating mode, looked up from the frequency (QRG) in a named
frequency-to-mode table. This project models two parts of that server and
proves what they promise:

- **The mode resolver** (`mode_from_qrg_resolver.py`, module `Resolver`).
  It checks that the named table exists and that its content is a list. It
  then scans the range records in order and validates each one as it reaches
  it. A record needs truthy `freq_from`, `freq_to` and `mode`, so 0 and ""
  count as missing, and it needs `freq_from <= freq_to`. The mode of the
  first record whose half-open range `[freq_from, freq_to)` contains the QRG
  is returned. If no record contains it, the result is `None`. `Scan` is the
  specification of that scan. `GetModeFromQrg` is the loop itself, with its
  early `break` and `raise`, and it is proved equal to the specification.
- **The device registry and command dispatch** (`server.py`, module
  `Server`). `Registry` holds the dict `app.wss` as a `map` from device id to
  connection handle. `Registry.constructor` is startup; after it,
  `Connect` and `Disconnect` are the only writers. `Qsy` and `QsyWithMode`
  are the two GET handlers. `Shutdown` closes the registered connections
  until one close raises. The JSON each handler sends and returns is built
  in `Messages`, with its exact keys and values stated.

Transport effects are made explicit. A websocket is an opaque `ConnId`. The
result of `send_json` is an input `sendOk`. A handler returns a `Dispatch`
value: 200 with the reply, the target connection and the message sent; 404
with its reason; or 500.

Three facts about the code shape the model:

- There is no table cache, no remote fetch and no cache-flush endpoint. A
  table is read from its file on every resolution, so the model has no
  cache state and no fetch failure.
- Validation stops at the first matching record. A table that is broken
  only after the matching record still yields a mode
  (`InvalidBeyondMatchIgnored`).
- A record's fields are tested with Python truthiness, so a bound of 0 or
  an empty mode makes the table invalid.

## Model

| member | source | states |
|---|---|---|
| `Resolver.GetModeFromQrg` | mode_from_qrg_resolver.py:6-50 | the loop, with its early exits, returns exactly what the specification `Resolve` gives: DoesNotExist for a missing table, Invalid for non-list content, otherwise the result of the ordered scan |
| `Resolver.Scan` | mode_from_qrg_resolver.py:31-48 | the scan never reports a missing table, and a mode it returns is never empty (validation rejects an empty mode) |
| `Resolver.MissingTableExaminesNothing` | mode_from_qrg_resolver.py:17-20 | a missing table yields DoesNotExist, whatever its content would be: no record is examined |
| `Resolver.NotAListIsInvalid` | mode_from_qrg_resolver.py:26-29 | content that is not a JSON array is Invalid |
| `Resolver.FirstCoverWins` | mode_from_qrg_resolver.py:31-48 | if every record before `k` is valid and does not contain the QRG, and record `k` is valid and contains it, the result is the mode of record `k` |
| `Resolver.FirstBadRangeRejects` | mode_from_qrg_resolver.py:36-44 | if every record before `k` is valid and does not contain the QRG, and record `k` lacks a truthy field or has `freq_from > freq_to`, the result is Invalid |
| `Resolver.NoCoverNoMode` | mode_from_qrg_resolver.py:22-50 | if every record is valid and none contains the QRG, the result is no mode, not an error |
| `Resolver.ScanExplained` | mode_from_qrg_resolver.py:31-48 | the converse: every result comes from a stopping index `k` with every earlier record valid and not containing the QRG; a mode is record `k`'s and `k` contains the QRG, Invalid means record `k` fails validation, no mode means the scan ran to the end |
| `Resolver.ScanAppend` | mode_from_qrg_resolver.py:46-48 | records after the stopping point do not affect the result; after a table that yields no mode, the appended records decide |
| `Resolver.InvalidBeyondMatchIgnored` | mode_from_qrg_resolver.py:46-48 | a table that is invalid only after the first match still yields the matched mode |
| `Resolver.SkippedRecordIrrelevant` | mode_from_qrg_resolver.py:31-48 | a valid record that does not contain the QRG can be removed from anywhere in the table without changing the result |
| `Resolver.HalfOpenRange` | mode_from_qrg_resolver.py:41-46 | ranges are half-open: a valid record never matches its own `freq_to`, a valid record with `freq_from == freq_to` never matches, and resolution proceeds as if the record were absent |
| `Resolver.Examples` | mode_from_qrg_resolver.py:31-50 | for `[100,200)->A, [200,300)->B`, 199 gives A, 200 gives B and 300 gives no mode; `[14000,14350)->USB` gives USB at 14200; a bound of 0 or `freq_from > freq_to` gives Invalid |
| `Messages.QsyCommand` | server.py:39-44 | the command sent by `trigger_qsy` has exactly the keys `command` and `params`, with `command` equal to "qsy" and `params` holding exactly `frequency` equal to the QRG |
| `Messages.QsyWithModeCommand` | server.py:87-93 | the command sent by `trigger_qsy_with_mode` has exactly the keys `command` and `params`, with `command` equal to "qsy_with_mode" and `params` holding exactly `frequency` and `mode`; an absent mode is sent as null |
| `Messages.QsyReply` | server.py:53-57 | the reply has exactly the keys `device_id`, `qrg` and `result`, with `result` equal to "success" |
| `Messages.QsyWithModeReply` | server.py:102-107 | the reply has exactly the keys `device_id`, `qrg`, `mode` and `result`; an absent mode is echoed as null |
| `Server.Registry.constructor` | server.py:138-140 | at startup the registry is empty |
| `Server.Registry.Connect` | server.py:115-135 | an id already registered makes the handler close the new socket with code 1001 and leave the registry unchanged; a new id has exactly that connection stored under it, with no other entry changed; when `accept` or the 1001 close raises a disconnect exception, the clean-up removes the id's entry, whichever connection owns it |
| `Server.Registry.Disconnect` | server.py:133-135 | on disconnect the id is removed, nothing else changes, and removing an absent id is a no-op |
| `Server.Registry.Qsy` | server.py:25-57 | an id not in the registry gives 404 and nothing is sent; a failed send gives 500; otherwise the qsy command goes to that id's connection and the reply echoes the id and QRG; 200 exactly when the device is connected and the send succeeded; the registry is never changed |
| `Server.Registry.QsyWithMode` | server.py:60-107 | a missing or invalid table gives 404 before the registry is read, whether or not the device is connected; otherwise as `Qsy`, with the resolved mode, `None` included, in both the command and the reply |
| `Server.Registry.Shutdown` | server.py:154-157 | the connections are closed one per registered id, without repetition, each id paired with its own connection; when no close raises, every registered connection is closed; when the close at position `failAt` raises, the loop stops after that attempt and the later connections stay open; the registry is unchanged |
| `Lifecycle.DuplicateThenDisconnect` | server.py:118-135 | of two connections under one id only the first is accepted, the other is closed with 1001; after the first disconnects, `Qsy` answers 404 for the id, and `QsyWithMode` answers 404 "device not connected" unless the table is invalid, when it answers 404 "table invalid" |
| `Lifecycle.FailedDuplicateEvictsFirst` | server.py:115-135 | a duplicate whose 1001 close raises a disconnect exception removes the first device's entry (the pop is by id), so `Qsy` answers 404 for a device whose socket is still open, and a third connection under that id is accepted |

## Left out

- File-system access and JSON parsing of the table (`os.path`, `open`, `json.load`): the resolver takes "the table file exists" as a boolean and the parsed content as a value. The table name only picks the file, so it is not a parameter.
- JSON values of other types in a record (a string `freq_from`, a numeric `mode`), which Python would compare loosely or reject with a `TypeError`: fields are `Option<int>` and `Option<string>`.
- A list element that is not a JSON object: Python raises `AttributeError` on `.get`, and the handler does not catch it. Records are always objects in this model.
- FastAPI routing, websocket accept, receive and close framing, and the CORS middleware: a connection is an opaque handle, a close is the returned `Admission`, and a send's outcome is the `sendOk` input.
- The debug echo loop of the connect handler: it does not touch the registry.
- Server.Registry.Connect: only the disconnect exceptions (`WebSocketDisconnect`, `ConnectionClosed`) lead to the clean-up that pops the id. A handler that ends with any other exception, for example from `receive_text` or `send_json` in the echo loop, never calls `Disconnect`, so its id stays registered and every later connection under it is closed with 1001. The model has no such path: nothing in it removes an entry except the disconnect clean-up. That clean-up pops by id, not by connection, as `Connect` with `transportClosed` and `Disconnect` state.
- Logging and its setup, and `run.py`, which only starts uvicorn.
- Async interleaving and concurrent access to `app.wss`: the code between two `await`s runs atomically. The connect handler's admission (`Connect`) and its clean-up (`Disconnect`) are separate steps, and the dispatch handlers read the map before they suspend at `send_json`. No scheduler is modelled, so the model does not say what other handlers do at those points.
- Server.Registry.Shutdown: Python closes the connections in dict insertion order. A Dafny map has no order, so the model fixes which connections are closed and not their order; `failAt` counts positions in whatever order the loop takes. A connect handler that pops its id while shutdown is suspended at an `await ws.close()` changes the dict during iteration, and the next step of the loop raises `RuntimeError`. The model does not include this case: its loop iterates over the registry as it was when shutdown began.
- The error detail strings of the HTTP 404 and 500 answers: a 404 carries only its reason (missing table, invalid table, device not connected).
