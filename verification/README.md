# Bus GPS simulator and chat validator — a Dafny model

This project models two parts of the public-transport backend:

- The **GPS position simulator** from `backend/src/app.js`. It covers:
  - the per-bus initialiser (`inicializarSimulador`), which snaps a bus to its nearest stop;
  - the per-bus step of `actualizarPosiciones`, which runs every two seconds. While stopped it counts dwell time. While moving it draws a speed, advances progress along the current segment and, on arrival, moves the stop indices on by the back-and-forth ("ida"/"vuelta") rule;
  - the linear interpolation `interpolar`.
- The **chat message validator** `enviarMensaje` from `backend/src/controllers/chatController.js`. It decides between 400, 500 and 201, and chooses the stored row and the Socket.IO rooms that are told.

Modules:

| file | module | contents |
|---|---|---|
| options.dfy | `Options` | `Option` |
| geo.dfy | `Geo` | `Point`, `Interpolate` and its endpoint/segment properties |
| ping_pong.dfy | `PingPong` | stop indices and direction (`Leg`), the arrival rule `Arrive`, the round-trip period |
| simulator.dfy | `Simulator` | `Stop`, `BusState`, `Sample`, the invariant `Valid`, `Tick`, `Run`, dwell lemmas |
| initializer.dfy | `Initializer` | nearest-stop scan and the initial state |
| js_text.dfy | `JsText` | JavaScript `trim` and UTF-16 `length` |
| chat.dfy | `Chat` | request values, truthiness, `Send` |

Modelling choices:

- The two `Math.random()` calls become one parameter `draw` in [0,1) per tick. A stopped bus draws only when it departs, and a moving bus draws once for its speed.
- The haversine distance is abstract. The initialiser takes a distance function. A tick takes the current segment's length `segment >= 0`.
- There is no guard against a zero distance. A zero-length segment is an arrival: the code divides by zero and the progress becomes infinite, which is at least 1.
- Real numbers are exact `real`s.
- The code sets the next index to `(nearest + 1) % paradas.length`. So a bus snapped to the last stop starts outbound towards stop 0. `PingPong.WrapStart` names that leg, and the invariant admits it. After the first arrival every leg is adjacent.
- A tick may read a stop that does not exist. JavaScript then throws on `undefined.latitud` or `undefined.es_parada_principal`. Such a tick yields `Fault`, carrying what the code had already written before the throw. A stopped tick has already added its dwell. A moving tick has already set its speed.
- Routes with fewer than two stops are not refused. On an empty route the bus still gets a state. The code's next index there is NaN; the model stores 0 in its place. Neither index addresses a stop, so every tick of that bus faults. A one-stop route is modelled, and `Simulator.SingleStopRouteFaults` shows how it breaks.
- On an arrival tick the emitted position is the stop the bus has just left. The code interpolates the two stops it read before updating the indices, with progress 0. `Simulator.Tick` states this.
- Chat body fields are `undefined`, `null`, an integer or a string. The default `tipo = 'general'` applies only to `undefined`. `v || null` maps every falsy value to `null`. A truthy message that is not a string has no `trim`, so the handler answers 500.

Behaviour of the code as written that a reader might not expect, all kept in the model:

- The initial next index wraps modulo the route length; it is not clamped.
- There is no zero-distance error. A zero-length segment arrives at once.
- Routes shorter than two stops are not rejected.
- The moving speed is `25 + (draw - 0.5) * 10` with `draw` in [0,1). That is [20,30), so the [10,40] clamp never acts.
- On arrival the code does not reset the dwell. It is already 0, because the invariant keeps it 0 while moving.

## Model

| member | source | states |
|---|---|---|
| Geo.Interpolate | backend/src/app.js:187-192 | the interpolated point is the first stop at progress 0, the second at progress 1, and the stop itself when both stops coincide |
| Geo.InterpolateStaysOnSegment | backend/src/app.js:187-192 | for progress in [0,1] each coordinate lies between those of the two stops |
| Geo.InterpolateReversed | backend/src/app.js:187-192 | interpolating from b to a at 1-t gives the same point as from a to b at t |
| PingPong.Arrive | backend/src/app.js:246-265 | on arrival the reached stop becomes current; the new next stop is its neighbour in the new direction; the direction flips exactly when the outbound bus reaches the last stop or the inbound bus reaches stop 0, and then the bus stands at that end; a leg on the route stays on the route |
| PingPong.LegAtPhase | backend/src/app.js:249-265 | every phase of the round trip is an adjacent leg within the route |
| PingPong.ArriveAdvancesPhase | backend/src/app.js:249-265 | one arrival advances the round-trip phase by one, wrapping at 2(n-1) |
| PingPong.OutboundSweep | backend/src/app.js:249-265 | starting at stop 0 outbound, after k < n-1 arrivals the bus is at stop k heading for k+1; after n-1 arrivals it is at the last stop, inbound, heading for n-2 |
| PingPong.RoundTrip | backend/src/app.js:249-265 | every adjacent leg on a route of n stops returns to itself after 2(n-1) arrivals |
| PingPong.FirstLegReturns | backend/src/app.js:249-265 | from stop 0 outbound, 2(n-1) arrivals bring the bus back to stop 0 outbound heading for 1 |
| Simulator.Clamp | backend/src/app.js:229 | the clamped speed lies in [lo,hi]; it equals the input when that is already in range and the nearer bound otherwise |
| Simulator.CruiseSpeed | backend/src/app.js:226-229 | a moving bus's speed is within [10,40] and, for a draw in [0,1), within [20,30) |
| Simulator.DepartureSpeed | backend/src/app.js:221 | a departing bus's speed is within [15,25) |
| Simulator.Increment | backend/src/app.js:231-240 | one tick at speed v km/h over a segment of d km advances progress by exactly v·2/3600/d, which is positive |
| Simulator.Tick | backend/src/app.js:207-284 | the tick faults exactly when it reads a missing stop, leaving the state with the dwell already added (stopped bus) or the speed already drawn (moving bus); it keeps the invariant (indices on the route, 0 <= progress < 1, stopped implies speed 0, progress 0 and even dwell below the threshold, moving implies dwell 0); a stopped bus stays in place, adds 2 s of dwell, emits nothing and leaves with dwell 0 and the speed `DepartureSpeed(draw)` once dwell reaches the threshold; a moving bus emits a sample naming the segment it started on; it arrives exactly when progress would reach 1 or the segment is degenerate, and then has progress 0, speed 0, the indices moved on by `Arrive`, and the departed stop's position; otherwise it stays on the segment, with the drawn cruising speed (in [10,40]), progress grown by exactly that speed's `Increment`, at the interpolated point |
| Simulator.Run | backend/src/app.js:205-207 | any number of ticks from a valid state never faults and ends in a valid state |
| Simulator.Waiting | backend/src/app.js:211-224 | while the dwell stays below the threshold each stopped tick only adds 2 s |
| Simulator.WaitThenLeave | backend/src/app.js:211-224 | the tick on which the dwell reaches the threshold departs, keeping indices, position and progress, with dwell 0 and a speed in [15,25) |
| Simulator.StopDuration | backend/src/app.js:211-224 | a bus that has just arrived is still stopped in place after fewer than 5 ticks (principal stop) or 3 ticks (other stop), and has left after exactly that many |
| Simulator.FaultPersists | backend/src/app.js:207-238 | the state a faulting tick leaves faults again on the next tick, for any draw and segment, so such a bus throws on every tick |
| Simulator.RunFollowsArrivals | backend/src/app.js:243-265 | over any run of ticks that does not fault, the final stop indices and direction are the starting ones moved on by `PingPong.Arrive` once per arrival in the run, so the ping-pong lemmas apply to the simulator |
| Simulator.SingleStopRouteFaults | backend/src/app.js:249-253 | on a one-stop route the first moving tick arrives and turns the bus round to index -1; the following dwell and departure ticks succeed; the next moving tick faults |
| Initializer.NearestIsUnique | backend/src/app.js:129-145 | at most one index is nearest with the lowest-index tie-break, so the scan's answer is determined |
| Initializer.NearestStop | backend/src/app.js:129-145 | the scan returns an index of least distance, and no earlier index is as close; an empty list yields 0 |
| Initializer.Initialise | backend/src/app.js:113-163 | every bus gets a state: outbound, progress 0, speed 0, not stopped, dwell 0, at the reported position; on a non-empty route it sits at the nearest stop with next index (nearest + 1) mod n; on an empty route the tick faults, and faults again from the state it leaves; on a route of two or more stops the state satisfies the simulator's invariant |
| JsText.LeadingSpace | backend/src/controllers/chatController.js:52 | counts exactly the white space before the first other character |
| JsText.TrailingSpace | backend/src/controllers/chatController.js:52 | counts exactly the white space after the last other character |
| JsText.Trim | backend/src/controllers/chatController.js:52 | the trimmed text is the slice of the input between its leading and trailing white space; it is empty exactly when the input is all white space, and otherwise starts and ends with a non-space |
| JsText.TrimIdempotent | backend/src/controllers/chatController.js:71 | trimming an already trimmed message changes nothing |
| JsText.Utf16Length | backend/src/controllers/chatController.js:59 | the JavaScript length is between the character count and twice it, and equals the character count for text inside the Basic Multilingual Plane |
| JsText.Utf16LengthOfChar | backend/src/controllers/chatController.js:59 | a character counts one unit inside the Basic Multilingual Plane and two outside it |
| JsText.Utf16LengthConcat | backend/src/controllers/chatController.js:59 | the length of a concatenation is the sum of the lengths, so with the one-character case the length of every string is determined |
| Chat.Announce | backend/src/controllers/chatController.js:77-89 | with a Socket.IO server the message goes first to everyone, to room `parada-<id>` exactly when the stop id is truthy, and to room `ruta-<id>` exactly when the route id is truthy; without one it goes nowhere; each channel is told at most once |
| Chat.Send | backend/src/controllers/chatController.js:40-89 | 400 "required" exactly when username or message is falsy; 500 exactly when the message is a truthy non-string; 400 "empty" exactly when a non-empty message is all white space; 400 "too long" exactly when a non-blank message exceeds 500 UTF-16 units before trimming; otherwise 201 with the trimmed, non-empty message of at most 500 characters, falsy ids stored as null, kind defaulting to "general" only when absent, and the announcements of `Announce` |
| Chat.PaddedMessageRefused | backend/src/controllers/chatController.js:59-64 | "x" followed by k >= 500 spaces trims to one character yet is refused as too long |
| Chat.BlankBeforeLength | backend/src/controllers/chatController.js:52-64 | 600 spaces are refused as blank, not as too long, because the blank check comes first |
| Chat.EmojiMessageRefused | backend/src/controllers/chatController.js:59-64 | n emoji outside the Basic Multilingual Plane are n characters but 2n UTF-16 units, so any n above 250 is refused as too long, even when n <= 500 |

## Left out

- Haversine distance `calcularDistancia` and bearing `calcularDireccion` (app.js:173-202): floating-point trigonometry. The distance is a parameter. The bearing is not part of `Sample`.
- `Math.random()` (app.js:221, 228): replaced by the parameter `draw` in [0,1).
- Floating point: all arithmetic is on exact reals. The infinite progress of a zero-length segment is modelled only through its effect, which is an arrival.
- The database reads of the initialiser, the position insert, `io.emit`/`io.to` broadcasts and logging (app.js:111-127, 294-327): I/O. `Sample` carries the fields the code writes and broadcasts, except bus id, plate, route, bearing, altitude and timestamp.
- The single `try/catch` around the loop over all buses (app.js:206, 329-331): a throw for one bus also skips the remaining buses of that tick. `Tick` models the throw for the one bus; the loop over the registry is not modelled.
- `setInterval`, `async`/`await` and the start-up sequence (app.js:335-339), together with the Express and Socket.IO set-up (app.js:1-100, 341-406): plumbing.
- Geo.Interpolate: stop coordinates are taken to be numbers. The initialiser `parseFloat`s the bus position (app.js:135-138, 161-162), but the tick passes the stops' `latitud`/`longitud` to `interpolar` as the database returns them (app.js:276-279). If the driver returns those columns as strings, `lat1 + (lat2 - lat1) * progreso` concatenates text instead of adding; this is not modelled.
- Simulator.Tick: ticks are taken not to overlap. `setInterval` (app.js:337) does not wait for the previous `actualizarPosiciones`, and the broadcast (app.js:306-319) reads the shared state after `await db.query` (app.js:294). So a broadcast can pair a later tick's position and speed with this tick's stop names. `Sample` is what one tick produces on its own.
- Bus identity fields (`id`, `placa`, `ruta_id`, `ruta_nombre`): carried unchanged by the code, so omitted from `BusState`.
- Chat: the database insert and its possible 500, and the columns the database adds through `RETURNING *`, are I/O. JSON booleans, non-integer numbers, objects and arrays in the body are not modelled.
- Initializer.Initialise: the model shows that every tick of a bus on an empty route faults. It does not model the shared `try/catch` through which that fault also skips every later bus on every tick.
- JsText.Utf16Length: a JavaScript string may hold an unpaired surrogate (JSON `"\ud800"`); a Dafny `string` cannot, so such messages are not modelled.
- `getMensajes`, `getMensajesParada`, `getMensajesRuta`, `limpiarMensajesAntiguos`, `busController.js`, `rutaController.js`, `config/database.js` and `routes/*.js`: SQL queries and wiring with no logic of their own.
