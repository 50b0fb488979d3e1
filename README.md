# Camera core of an ESP32 voice assistant, in Dafny

This project models three parts of the firmware's camera support:

- **`Esp32Camera`** (`main/boards/common/esp32_camera.cc`). This is the camera object:
  - the preview geometry chosen from the frame size;
  - `Capture`, with its frame hand-back and the RGB565 byte swap into the preview buffer;
  - the started and streaming flags;
  - `Explain`, which uploads a picture as a chunked multipart/form-data POST. An encoder thread feeds JPEG chunks through a 40-entry FreeRTOS queue while the caller writes them to the request.
- **The camera HTTP endpoints** (`main/http_server.cc`):
  - the MJPEG live view `stream_handler`;
  - `start_handler` and `stop_handler`;
  - the `/snapshot` handler.
- **`CameraConnection`** (`main/camera_connection.cc`). This supervises the websocket control channel:
  - `Start` and `Stop`;
  - the `ConnectLoop` state machine with its retry counter;
  - `Connect`;
  - `SendMcpMessage`;
  - the heartbeat thread.

Every foreign call is an input. The model replaces each one as follows:

- the camera driver by a sequence of `esp_camera_fb_get` answers;
- `esp_camera_init` by a success flag;
- `frame2jpg` by the JPEG it would produce, or `None`;
- the JPEG encoder by the sequence of chunks it would send;
- the HTTP client by its open result, status and body;
- a websocket connect by its outcome.

Outputs are recorded rather than performed:

- HTTP responses and frame/buffer traffic go into a log of effects;
- upload writes go into the client's `writes`;
- the connection threads' actions go into `acts`.

Threads are joinable flags, and a join clears the flag. In `Explain`, where the uploader would wait for the encoder, the encoder is run to the point it reaches. So a blocking queue receive lets the encoder send, and a join with nobody receiving lets the encoder fill the queue. When neither side can move, the outcome is `Hang`. The heartbeat join in `ConnectLoop` is not treated this way: it is taken to return at once (see "Left out").

The model has seven files:

- `common.dfy`: bytes, options, frames and ASCII literals.
- `jpeg_queue.dfy`: the chunk queue shared by the encoder and the uploader, as a class.
- `multipart.dfy`: the request body's pieces, and a reference grammar for a multipart body after section 5.1.1 of RFC 2046.
- `upload.dfy`: the HTTP client, `ExplainSpec` (everything one `Explain` call does, as a function of its inputs) and its properties.
- `esp32_camera.dfy`: the `Camera` class, and the methods of `Explain`, proved equal to `ExplainSpec`.
- `http_server.dfy`: the handlers, proved equal to log-producing specification functions, and the properties of those logs.
- `camera_connection.dfy`: the `CameraConnection` class. `ConnectLoop` and `SendHeartbeat` are proved equal to the script-driven functions `Loop` and `Heartbeat`, and the supervisor's properties are lemmas about those functions.

## Model

| member | source | states |
|---|---|---|
| `Esp32Camera.PreviewFor` | main/boards/common/esp32_camera.cc:54-87 | These are the six recognised sizes, with their width and height. In each, stride is 2·w and data_size is w·h·2. Every other size gives data_size 0, and data_size 0 happens only for those. |
| `Esp32Camera.SwappedPixelIsBigEndian` | main/boards/common/esp32_camera.cc:145-149 | A pixel loaded little-endian and swapped equals the frame's two bytes read high byte first. |
| `Esp32Camera.SourceSwapOverrunsPreview` | main/boards/common/esp32_camera.cc:145-150 | Take a camera whose preview was made for 128x128 and whose sensor has been switched to QQVGA. For an RGB565 frame of the sensor's size, the source's loop bound `fb_->len / 2` exceeds the words of the preview buffer. The bounded copy stops at the buffer's end. |
| `Esp32Camera.OverrunScenario` | main/boards/common/esp32_camera.cc:145-150 | That camera is reachable: built for 128x128 with every step succeeding, then `StartStreaming`. Given a 38400-byte frame, the source would copy 19200 pixels into 16384 words. |
| `Esp32Camera.PixelsToCopy` | main/boards/common/esp32_camera.cc:147 | The corrected copy count never exceeds the preview buffer or the frame. It equals `len / 2` whenever that fits in the buffer, and equals the buffer size otherwise. |
| `Esp32Camera.ConfiguredFrameFits` | main/boards/common/esp32_camera.cc:86-88 | An RGB565 frame of the size the preview was made for has exactly as many pixels as the buffer has words. So the bounded copy copies exactly what the source's loop copies. |
| `Esp32Camera.SwapPixels` | main/boards/common/esp32_camera.cc:145-150 | After the loop, `dst[i] == bswap16(src[i])` for every `i < count`, and the rest of the destination array is unchanged. |
| `Esp32Camera.DrainQueue` | main/boards/common/esp32_camera.cc:282-289 | The drain frees exactly the chunks before the first null-data chunk. It blocks for ever exactly when no null-data chunk is queued. Otherwise it leaves in the queue just what followed the null-data chunk. |
| `Esp32Camera.ForwardChunks` | main/boards/common/esp32_camera.cc:314-327 | Each chunk before the first null-data chunk is written once, in FIFO order, and freed. `total_sent` is the sum of their lengths. The null-data chunk is neither written nor freed. The loop blocks for ever exactly when no null-data chunk comes. |
| `Esp32Camera.AfterFailedOpen` | main/boards/common/esp32_camera.cc:278-291 | The open-failure path equals `ConnectFailTrace`. It joins the encoder first, which returns only when the encoder's whole output fits in the queue, then drains the queue and returns the "Failed to connect" result. |
| `Esp32Camera.SendUpload` | main/boards/common/esp32_camera.cc:294-354 | The upload path equals `UploadTrace`: its writes, its frees, `total_sent`, the join, the footer and the empty write, the status check, and the ReadAll/Close on status 200. |
| `Esp32Camera.SetRequestHeaders` | main/boards/common/esp32_camera.cc:271-277 | The headers set are exactly `RequestHeaders(token, …)`, in order. |
| `Esp32Camera.PostPhoto` | main/boards/common/esp32_camera.cc:278-354 | `Open`, then whichever of the two paths its answer selects. |
| `Esp32Camera.Camera.constructor` | main/boards/common/esp32_camera.cc:17-92 | The object starts holding no frame, with no encoder thread and not streaming. `inited_` is the init result. data_size is the preview size only after init and a sensor are found, and the buffer exists only if allocation succeeded too. |
| `Esp32Camera.Camera.SetExplainUrl` | main/boards/common/esp32_camera.cc:108-111 | Stores the URL and the token. |
| `Esp32Camera.Camera.SetWebsocketProtocol` | main/boards/common/esp32_camera.cc:358-360 | Stores whether a protocol is attached. |
| `Esp32Camera.Camera.Capture` | main/boards/common/esp32_camera.cc:113-155 | See the breakdown after this table. |
| `Esp32Camera.Camera.TakeFrames` | main/boards/common/esp32_camera.cc:118-129 | The frame loop: the held frame goes back before each get, and the loop stops at the first failed get with `fb_` null. Every frame lent is given back, except the held one. |
| `Esp32Camera.Camera.NextFrame` | main/boards/common/esp32_camera.cc:121-124 | One turn: the held frame is given back, then the new answer is held. |
| `Esp32Camera.Camera.ShowPreview` | main/boards/common/esp32_camera.cc:133-153 | This is the display part of `Capture`. If data_size is 0, the buffer is missing, the frame is not RGB565 or the board has no display, it copies nothing and shows nothing. Otherwise the first `PixelsToCopy` pixels are byte-swapped and the preview is shown once. |
| `Esp32Camera.Camera.StartCamera` | main/boards/common/esp32_camera.cc:157-167 | Already inited, it returns true and changes nothing. Otherwise it returns the init result, and `inited_` becomes that result. A successful init puts the sensor back to the configured frame size. |
| `Esp32Camera.Camera.StopCamera` | main/boards/common/esp32_camera.cc:169-181 | Not inited, it is a no-op. Otherwise it gives back the held frame, frees the preview buffer and clears `inited_`. |
| `Esp32Camera.Camera.StartStreaming` | main/boards/common/esp32_camera.cc:363-397 | Already streaming, it returns true and changes nothing. Not inited, it returns false with `streaming_` false. Otherwise it sets the flag, switches a present sensor to QQVGA (line 379), and notifies the protocol once, if one is attached. |
| `Esp32Camera.Camera.StopStreaming` | main/boards/common/esp32_camera.cc:400-414 | Not streaming, it is a no-op. Otherwise it clears the flag and notifies the protocol, if one is attached. |
| `Esp32Camera.Camera.IsStreaming` | main/boards/common/esp32_camera.cc:417-419 | Returns the streaming flag. |
| `Esp32Camera.Camera.Explain` | main/boards/common/esp32_camera.cc:239-355 | The result and everything observable — headers, open, writes, frees, chunks left in the queue, `total_sent`, read and close — equal `ExplainSpec`. The encoder thread is left joinable exactly when it was spawned and not joined. It requires a held frame, which the encoder reads at line 253. |
| `JpegQueue.ChunkQueue.constructor` | main/boards/common/esp32_camera.cc:245 | An empty queue of the given capacity, holding the encoder's output as still to be sent. |
| `JpegQueue.ChunkQueue.Produce` | main/boards/common/esp32_camera.cc:260 | One send into a free slot. It moves the next chunk to the back of the queue and leaves the FIFO stream unchanged. |
| `JpegQueue.ChunkQueue.Receive` | main/boards/common/esp32_camera.cc:317 | A blocking receive returns the oldest chunk of the stream. It blocks for ever (`None`) exactly when nothing is left to receive. |
| `JpegQueue.ChunkQueue.JoinEncoder` | main/boards/common/esp32_camera.cc:281 | A join with nobody receiving returns exactly when the encoder's remaining output fits in the queue's capacity. The stream is unchanged. |
| `Multipart.UploadBodyIsMultipart` | main/boards/common/esp32_camera.cc:294-311 | The question field, the file header, the JPEG and the footer are, byte for byte, how the grammar of section 5.1.1 of RFC 2046 lays out a two-part body. It has the fixed boundary, a `question` part and a `file` part (`camera.jpg`, `image/jpeg`), and ends with the close delimiter and an empty epilogue. The rule that the delimiter must not occur inside a part is not part of this (see "Left out"). |
| `Upload.HttpClient.SetHeader` | main/boards/common/esp32_camera.cc:271 | Appends the header. |
| `Upload.HttpClient.Open` | main/boards/common/esp32_camera.cc:278 | Succeeds exactly as the network answers. |
| `Upload.HttpClient.Write` | main/boards/common/esp32_camera.cc:301 | Appends the data to the request body's writes. |
| `Upload.HttpClient.GetStatusCode` | main/boards/common/esp32_camera.cc:342 | The server's status. |
| `Upload.HttpClient.ReadAll` | main/boards/common/esp32_camera.cc:347 | The server's body, which is then marked read. |
| `Upload.HttpClient.Close` | main/boards/common/esp32_camera.cc:348 | Marks the client closed. |
| `Upload.SentinelIndex` | main/boards/common/esp32_camera.cc:321-323 | The position of the first null-data chunk: every chunk before it has data, and it is the length of the stream when there is none. |
| `Upload.ExplainWithoutUrl` | main/boards/common/esp32_camera.cc:239-242 | An empty URL gives exactly the "URL or token is not set" result. There is no queue, no encoder thread, no header and no write, whatever the token. |
| `Upload.UploadOfWellFormedStream` | main/boards/common/esp32_camera.cc:294-340 | See the breakdown after this table. |
| `Upload.OpenFailureDrain` | main/boards/common/esp32_camera.cc:278-291 | With a failed open, the call returns exactly when the encoder's output, sentinel included, is at most 40 chunks. It then gives the "Failed to connect" result, writes nothing, frees every data chunk and leaves none behind. |
| `Upload.SentinelStopsUpload` | main/boards/common/esp32_camera.cc:294-340 | After a successful open, with any null-data chunk present, the writes are the two header pieces, then exactly the chunks before the first null-data chunk, in order, then the footer and the empty write when the call returns. That many chunks are freed, and the data chunks after the null-data chunk are those left in the queue. |
| `Upload.OnlyLastWriteEmpty` | main/boards/common/esp32_camera.cc:339-340 | If no data chunk is empty, the zero-length write that ends the chunked coding (section 7.1 of RFC 9112) is the last write and the only empty one. |
| `Upload.AuthorizationOnlyWithToken` | main/boards/common/esp32_camera.cc:273-275 | `Authorization: Bearer <token>` is sent if and only if the token is not empty, and no other Authorization header is sent. |
| `Upload.StatusDecidesResult` | main/boards/common/esp32_camera.cc:342-354 | A status other than 200 gives "Failed to upload photo" without reading or closing. Status 200 returns the response body unchanged, after reading and closing. |
| `Upload.ReturnedImpliesJoined` | main/boards/common/esp32_camera.cc:281 | Every return after the encoder was spawned has joined it. This covers both the join at line 281 and the one at line 329. |
| `CamHttp.DecimalRoundTrip` | main/http_server.cc:60 | The `%u` rendering of a length reads back as that length. |
| `CamHttp.PartHeaderShape` | main/http_server.cc:60 | A part header is 55 bytes plus the digits of N, and its Content-Length field reads back as N. |
| `CamHttp.PartHeaderFits` | main/http_server.cc:23 | The header fits in `part_buf[64]`, 63 characters and the NUL, if and only if N < 10^8. |
| `CamHttp.Step` | main/http_server.cc:38-77 | One turn of the loop. A missing frame adds one to `empty_count` and never ends the loop; a frame resets `empty_count` to 0. |
| `CamHttp.StreamHandler` | main/http_server.cc:13-82 | The handler's log of effects equals `StreamSpec`, over a script of loop turns. |
| `CamHttp.StreamTurn` | main/http_server.cc:38-78 | One pass of the loop body equals `Step`. |
| `CamHttp.SendPart` | main/http_server.cc:61-63 | The three sends joined by `\|\|`: each is attempted only after the one before it succeeded. |
| `CamHttp.StreamNotStarted` | main/http_server.cc:15-20 | When not streaming, the answer is 503 "Camera not started" and no frame is taken. |
| `CamHttp.HeadersNeutral` | main/http_server.cc:24-27 | The four stream headers take no frame and no buffer. |
| `CamHttp.StreamBalanced` | main/http_server.cc:36-79 | For every script, each frame taken is given back exactly once and in order, and each converted buffer is freed exactly once. This holds on success, on conversion failure and on send failure. |
| `CamHttp.PartOnSuccess` | main/http_server.cc:60-72 | A part that sends completely is the header with N = the payload length, then the payload (the frame itself for JPEG, the `frame2jpg` result otherwise), then CRLF. The loop goes on. |
| `CamHttp.PartShortCircuit` | main/http_server.cc:61-75 | After the first failed send, nothing more of that part is sent, and the loop ends. |
| `CamHttp.ConversionFailureEndsStream` | main/http_server.cc:53-57 | A failed conversion gives the frame back, sends a 500 and ends the loop. |
| `CamHttp.WarningsExact` | main/http_server.cc:40-42 | A warning is logged for count k exactly when `empty_count` passes through k and k is a multiple of 50. |
| `CamHttp.EmptyFrames` | main/http_server.cc:38-45 | n turns without a frame add n to `empty_count` and log exactly the warnings for the multiples of 50 passed on the way. |
| `CamHttp.CamServer.constructor` | main/http_server.cc:11 | `s_streaming` starts false. |
| `CamHttp.CamServer.StartHandler` | main/http_server.cc:84-97 | `s_streaming` becomes true, with "ok", unless the camera was not started and `StartCamera` fails. In that case it replies 500 "Start camera failed" and `s_streaming` is unchanged. Of the camera, only `inited_` and the sensor's frame size can change. |
| `CamHttp.CamServer.StopHandler` | main/http_server.cc:99-108 | `s_streaming` is cleared, and a started camera is stopped: its frame is given back and its buffer freed. The reply is "ok". Of the camera, only `fb_`, the frames given back, the preview buffer and `inited_` can change, and a camera that was not started keeps all of them. |
| `CamHttp.SnapshotHandler` | main/http_server.cc:146-178 | The handler's log of effects equals `SnapshotSpec`. |
| `CamHttp.SnapshotBalanced` | main/http_server.cc:154-176 | On every path, the frame taken, if any, is given back exactly once, and a converted buffer is freed exactly once. |
| `CamHttp.SnapshotResponses` | main/http_server.cc:149-175 | The replies by path: 500 "No camera", 503 "Frame not ready", the JPEG frame as it is, the converted frame, or a 500 when conversion fails. |
| `CamHttp.SnapshotReturnsBeforeSend` | main/http_server.cc:168-175 | A frame that must be converted is given back before any response call. |
| `CameraConn.ConnectResult` | main/camera_connection.cc:173-223 | A protocol object remains if and only if the channel opened, and then the link is connected. A failure, whether open failure or exception, leaves none. `should_connect_`, the counter and the heartbeat flag are untouched, and a failure leaves `is_connected_` as it was. |
| `CameraConn.LoopFacts` | main/camera_connection.cc:130-171 | See the breakdown after this table. |
| `CameraConn.GiveUpAfterMaxFailures` | main/camera_connection.cc:155-167 | From counter 0, giving up follows exactly 10 consecutive failed connects since the last success. With no success at all, exactly 10 connects failed with 9 back-offs. |
| `CameraConn.HeartbeatSends` | main/camera_connection.cc:225-257 | See the breakdown after this table. |
| `CameraConn.CameraConnection.constructor` | main/camera_connection.cc:37-45 | Starts not connecting and not connected, with no protocol, version 3, counter 0 and no threads. |
| `CameraConn.CameraConnection.Start` | main/camera_connection.cc:51-75 | Stores URL and token, and a non-zero stored version overrides the current one. An empty URL returns with the flag, the counter and the thread unchanged. Otherwise it sets `should_connect_`, zeroes the counter and spawns the loop thread. |
| `CameraConn.CameraConnection.Stop` | main/camera_connection.cc:77-97 | In the sequential model, where the loop is at a sleep or has ended when `Stop` runs: leaves both flags false, both threads joined and no protocol. The channel is closed exactly when a protocol was present. A second `Stop` changes nothing. |
| `CameraConn.CameraConnection.IsConnected` | main/camera_connection.cc:99-101 | True if and only if `is_connected_`, a protocol is present and its channel is open. |
| `CameraConn.CameraConnection.SendMcpMessage` | main/camera_connection.cc:103-116 | Returns true exactly when connected, and exactly then hands the message to the protocol. Otherwise nothing is sent. |
| `CameraConn.CameraConnection.Connect` | main/camera_connection.cc:173-223 | True exactly when the channel opened. The new state is `ConnectResult`, and a failure leaves no protocol. |
| `CameraConn.CameraConnection.Interrupt` | main/camera_connection.cc:80-81 | What `Stop` on another thread, or the closed callback at lines 199-204, does to the shared fields while a loop sleeps. A `Stop` that arrives during a `Connect` is not among these (see "Left out"). |
| `CameraConn.CameraConnection.Turn` | main/camera_connection.cc:133-167 | One iteration equals `Iteration`: stop when the flag is false, poll when connected, otherwise connect. |
| `CameraConn.CameraConnection.DialAndWait` | main/camera_connection.cc:141-167 | A connect and what follows it equals `Dial`. Success resets the counter and joins the old heartbeat thread before spawning the new one. Failure adds one to the counter, then gives up at the maximum or backs off. |
| `CameraConn.CameraConnection.ConnectLoop` | main/camera_connection.cc:130-171 | The final fields, the actions and the exit reason equal `Loop`, so `LoopFacts` and `GiveUpAfterMaxFailures` hold of every run. |
| `CameraConn.CameraConnection.Beat1` | main/camera_connection.cc:229-251 | One heartbeat: sleep, check the connection, send the printed message. It equals `BeatTurn`. |
| `CameraConn.CameraConnection.SendHeartbeat` | main/camera_connection.cc:225-257 | The final fields and the messages sent equal `Heartbeat`, so `HeartbeatSends` holds of every run. |

The `Capture`, `UploadOfWellFormedStream`, `LoopFacts` and `HeartbeatSends` rows state several things each.

`Esp32Camera.Camera.Capture`:

- A leftover encoder thread is joined first.
- It returns true if and only if both gets give a frame, and `fb_` is null on failure.
- Each held frame goes back before the next get, and every frame lent is given back except the held one.
- On success, the preview rule of `ShowPreview` applies. Capture still returns true when the preview is skipped.

`Upload.UploadOfWellFormedStream` applies to a non-empty URL, a successful open and a stream ending in its only null-data chunk:

- The concatenated writes are the two-part body laid out after RFC 2046, whose file content is the chunks' bytes, in the encoder's order.
- The last write is empty.
- `total_sent` is the JPEG length.
- Every data chunk is freed, and none is left in the queue.

`CameraConn.LoopFacts` holds for every script:

- The counter equals the number of failed connects since the last success, and never exceeds 10.
- The loop gives up if and only if the counter reached 10.
- Each failed connect is followed straight away by a back-off, except the one that gives up. That one is the last act, and the back-offs number one fewer than the failures exactly when the loop gives up.
- A new heartbeat thread is started only when none is joinable.
- The loop gives up only straight after a failed connect.

`CameraConn.HeartbeatSends`:

- Nothing is sent unless `should_connect_` and `IsConnected()` hold at the start.
- Otherwise it sends, in order, the printed messages up to the first stop or drop.
- The counter, the heartbeat handle and the protocol's presence never change, so a failed send changes no flag.

## Left out

- Hardware bring-up and sensor control are left out. This covers `esp_camera_init`, the sensor id and mirror settings, `set_quality`, the `set_framesize` of the constructor (the configured size is recorded instead), the warm-up frames, `esp_camera_deinit`, `SetHMirror` and `SetVFlip`. `esp_camera_init` and the sensor lookup are success/failure inputs.
- When `esp_camera_init` or the sensor lookup fails, the constructor returns before `memset` of the preview descriptor. The source then leaves the descriptor uninitialised. The model takes it as zero: data_size 0 and no buffer.
- JPEG compression (`frame2jpg_cb`, `frame2jpg`) is an external library:
  - The encoder is the sequence of chunks it would send, and `frame2jpg` is its result.
  - A trailing null-data chunk is not proved to exist, because the source never sends one while its chunk allocations succeed. The model handles its absence as `Hang`, and the properties that need it take it as `WellFormed`.
  - Which frame `Explain` encodes is not modelled: the encoder reads `fb_` and the result log reads its size.
- Concurrency is sequential:
  - Threads are joinable flags.
  - A blocking queue operation runs the other side until it can proceed, or ends in `Hang`.
  - `std::mutex`, atomics, `sleep_for` and `vTaskDelay` timing are not modelled.
  - Nothing is claimed about `Connect` replacing `websocket_protocol_` without the lock while other threads read it.
- `Explain` ignores every `Write` result, so a failed write has no behaviour to model.
- Network, HTTP server and websocket I/O are abstracted:
  - The HTTP client's answers are fixed when it is made.
  - Response calls are recorded in a log.
  - `WebsocketProtocol` is reduced to whether its channel is open.
- These external collaborators are left out:
  - `cJSON` building and printing (a heartbeat's printed text is an input);
  - `Settings` (`Start` takes the stored URL, token and version as parameters);
  - `SystemInfo` and `Board` (device id, client id, camera presence and display presence are parameters);
  - logging, the stack high-water mark and timestamps (`last_connection_time_`, `last_heartbeat_time_`);
  - the LVGL preview (`SetPreviewImage` is a counter of previews shown).
- Route registration, the HTML page and `cam_http_server_start`/`stop` are plumbing and are not modelled.
- The `on_connected_`, `on_disconnected_` and `on_message_` callbacks, their `SetOn*` setters and the incoming-JSON handler are not modelled. Their calls have no effect on the modelled fields.
- The destructors are not modelled separately. `~Esp32Camera` calls `StopCamera` and `~CameraConnection` calls `Stop`, which are modelled.
- `CameraConn.CameraConnection.Connect`: assumes that a successful `OpenAudioChannel` has run the opened callback, which sets `is_connected_`, before it returns.
- `CameraConn.CameraConnection.SendMcpMessage`: whether the protocol reference is still present under the lock, once `IsConnected()` held, is not modelled as a separate outcome. Nothing can run in between in the sequential model.
- `CameraConn.CameraConnection.ConnectLoop`: it is bounded by a finite script of rounds. A loop that would run for ever ends with `ScriptEnded` when the script does. `CameraConn.CameraConnection.SendHeartbeat` and `CamHttp.StreamHandler` are bounded by scripts in the same way.
- `CameraConn.CameraConnection.constructor`: the retry interval (5 s), the maximum attempts (10) and the heartbeat interval (30 s) never change, so they are module constants rather than fields.
- `CamHttp.StreamHandler`: each part's header is recorded as its full text. When that text is longer than 63 bytes, the source's `hlen` exceeds `part_buf` and the send reads past it. `CamHttp.PartHeaderFits` states when this cannot happen.
- `CameraConn.CameraConnection.DialAndWait`: the `heartbeat_thread_.join()` at line 151 is taken to return at once. The model does not wait for a heartbeat thread that is still running. In the source, the old heartbeat loop reads the shared flags, so if the link dropped and `Connect` succeeded again within 30 s, it keeps beating on the new session. `ConnectLoop` then stays in the join until that session drops or `Stop` runs. It then spawns a heartbeat while the link is down. The model instead logs `HeartbeatJoined` and `HeartbeatSpawned` straight after the successful connect.
- `Multipart.UploadBodyIsMultipart`: section 5.1.1 of RFC 2046 requires that the boundary delimiter occur in no part's content. The source uses a fixed boundary (line 268) around an arbitrary question and arbitrary JPEG bytes, and never checks either against it. The lemma proves the layout, not that the body parses back into the same two parts.
- `Esp32Camera.Camera.Explain`: requires a held frame (`fb_` not null). The source hands `fb_` unchecked to `frame2jpg_cb` (line 253) and dereferences it at line 353. After a failed `Capture`, it therefore crashes. The error reply that the `@warning` at line 237 promises for an empty camera buffer is not implemented.
- `Esp32Camera.Camera.Explain`: requires that no earlier encoder thread is still joinable. The source assigns `encoder_thread_` at line 252 without joining a previous one. Assigning to a joinable `std::thread` terminates the program, and the `@note` at line 236 promises a wait that the code does not make. Only `Capture` joins a leftover encoder.
- `CameraConn.CameraConnection.Stop`: a `Stop` that arrives while the loop is inside `Connect` is not modelled. The source's `Stop` clears both flags (lines 80-81) and then blocks in the join at line 84. Meanwhile `OpenAudioChannel` can still succeed, and its opened callback sets `is_connected_` back to true (lines 194-197). The loop then spawns a heartbeat (line 153) and exits, and `Stop` joins that heartbeat and closes a protocol that did not exist when `Stop` was called (lines 91-94). So in the program `Stop` can leave `is_connected_` true, unless `CloseAudioChannel` fires the closed callback; that callback's timing is not in the sources. The model treats the join as instant and lets `Interrupt` deliver a stop only at the loop's sleep points.
- `Esp32Camera.Camera.Explain`: a failed chunk allocation in the encoder callback is not modelled. The result of `heap_caps_aligned_alloc` (line 256) goes unchecked into the `memcpy` at line 259. A failed allocation crashes there, or, when `len` is 0, queues a null-data chunk in the middle of the stream. The encoder is modelled as a sequence of chunks, and a null-data chunk anywhere in it is handled as the end of the data.
- `Esp32Camera.Camera.StartStreaming`: `set_quality` and the warm-up frames are left out. Only the frame-size switch is kept.
- `Esp32Camera.Camera.ShowPreview`: it copies `PixelsToCopy` pixels, not the source's `fb_->len / 2`. See the Findings below.

## Findings

| source | as written | input that shows it | evidently intended | confidence | as-written member | corrected member |
|---|---|---|---|---|---|---|
| main/boards/common/esp32_camera.cc:145-150 | The byte-swap loop runs `fb_->len / 2` times. It never checks that count against `preview_image_.data_size`, which is fixed by the constructor's frame size. | A camera configured for FRAMESIZE_128X128 has a 32768-byte preview. After `StartStreaming`, which switches the sensor to FRAMESIZE_QQVGA at line 379 (`Esp32Camera.OverrunScenario`), an RGB565 frame of 160·120·2 = 38400 bytes arrives, and the loop writes 19200 words into a 16384-word buffer. | Copy no more pixels than the preview buffer holds. | not executed | `Esp32Camera.SourceSwapOverrunsPreview` | `Esp32Camera.PixelsToCopy` |
