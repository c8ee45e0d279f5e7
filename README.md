# Audio, configuration and pocket-pet logic of a Tuya T5 firmware, in Dafny

This project models the sequential core of a Tuya T5 firmware repository and
of its companion web server, and proves properties of that model. It covers
the two audio-streaming boards (the "devkit" and the object-detection app),
the server, two platform services and the pocket-pet game:

| module | file | what it models |
|---|---|---|
| `Common` | common.dfy | C integer widths and truncation, C strings, `OPERATE_RET` codes |
| `G711` | g711.dfy | the firmware's G.711 mu-law encoder and decoder and their buffer loops |
| `Speaker` | speaker.dfy | the devkit's 96000-byte jitter buffer, datagram filter and playback gate |
| `RingFifo` | ringfifo.dfy | the platform ring buffer as the microphone pipelines use it |
| `DevkitMic` | mic_devkit.dfy | the devkit's microphone pipeline: callback, trim, send loop, watchdog, keepalive |
| `OdMic` | mic_od.dfy | the object-detection board's microphone pipeline |
| `TcpClient` | tcp_client.dfy | the devkit's length-prefixed TCP client |
| `ServerTable` | server_table.dfy | the web server's mu-law decoding table |
| `Server` | server.dfy | the web server's mu-law decoder, framing, stream parser, auth gate and UDP receiver |
| `Settings` | settings.dfy | the BLE handler's TCP settings and Wi-Fi credentials in the key-value store |
| `WifiScan` | wifi_scan.dfy | the BLE `wifi_scan` reply on both boards |
| `Commands` | commands.dfy | the object-detection app's text commands and cloud data points |
| `NetMgr` | netmgr.dfy | the network manager's priority-ordered connection list |
| `Pixel` | pixel.dfy | the LED pixel device registry and device life cycle |
| `Keys` | keys.dfy | the pocket pet's key codes |
| `Snake` | snake.dfy | the pocket pet's snake game |
| `Menu` | menu.dfy | the pocket pet's menu system and pet statistics |

State that the source updates in place is a Dafny `class` with `modifies`
clauses: the jitter buffer, the mic contexts, the TCP client, the server's
connection and UDP counters, the key-value store, the network manager, the
pixel devices, the snake game and the menu. Each task thread becomes one
iteration of its loop, a method. What a socket, a driver, an allocation or
the RTOS reports becomes a parameter of that method. The pure parts are
functions: the codec, the header encoding, the parser, the command
classifier, the star count. Each class method is proved against a
specification function or a predicate, and lemmas state the properties
that relate several calls (round trips, preserved orderings, idempotence).

Where the source's comments and its code disagree, or the code departs
from the standard it names, the model follows the code:

- The firmware's encoder is commented as the mu-law of ITU-T
  Recommendation G.711, but it is not. Its segment ends (0x3F to 0x1FFF)
  are those for 14-bit magnitudes, and it applies them to 16-bit
  magnitudes biased by 132 without shifting them, so only segments 2 to 7
  and saturation occur, and 1000 decodes back as 5116
  (`G711.EncodeThousand`). The model proves what holds instead: sign,
  saturation, bounds and the decoder's symmetry.
- The devkit's mic trim is commented "Keep only 1 frame", but it leaves
  between 1 and 640 bytes in the ring (`DevkitMic.TrimLeavesPartialFrame`).
- The star bar's comment says values 0 to 19 give no star. The code's
  `(v + 9) / 20` gives one star from 11 upward (`Menu.Stars`).
- After eating, the snake's new tail segment is the stale array entry past
  the old length, because the body is shifted before it grows.
- The key codes the pocket pet's input handlers compare against (up 17,
  down 18, right 19, left 20, enter 10, escape 27) are those of
  `ai_pocket_pet_app.h`. The level indicator's header defines left and
  right the other way round and enter as 13.

Other behaviour the proofs exhibit, as written in the source:

- The snake timer's period `300 - (score / 5) * 20` reaches 0 ms at score
  75 and wraps to about 4.29e9 ms from score 80 (`Snake.SpeedUpWraps`).
- With more than 255 items, moving down from item 255 of a sub-menu wraps
  the 8-bit selection to 0 (`Menu.SubNavWraps`).
- The server adds 4 to a 32-bit length, so a header of 0xFFFFFFFC or more
  wraps and slices out of range (`Server.WrappedLengthPanics`).
- A tick of 0x1234 in the low 16 bits seeds the snake's LFSR with 0. It
  then stays 0 and the food is only ever tried at (0, 0)
  (`Snake.ZeroSeedStaysZero`).
- The `mic_streaming_get_stats` of the devkit reports the captured byte
  count under the name of bytes sent.

## Model

| member | source | states |
|---|---|---|
| G711.FirstAtLeast | apps/tuya_cloud/object_detection/src/g711_codec.c:31-39 | the index of the first table entry at least `val`, or the table size when there is none |
| G711.FirstAtLeastUnique | apps/tuya_cloud/object_detection/src/g711_codec.c:31-39 | any index with those properties is that index |
| G711.Search | apps/tuya_cloud/object_detection/src/g711_codec.c:31-39 | the linear scan returns the first table entry at least `val` |
| G711.Segment | apps/tuya_cloud/object_detection/src/g711_codec.c:24-26 | the segment of a biased magnitude is at most 8 (8 meaning past the table) |
| G711.ApplyMask | apps/tuya_cloud/object_detection/src/g711_codec.c:66-72 | the sign mask leaves the result below 0x80 exactly for a negative sample |
| G711.LinearToUlaw | apps/tuya_cloud/object_detection/src/g711_codec.c:41-76 | a non-negative sample encodes to at least 0x80, a negative one above -32768 to below 0x80 |
| G711.UlawToLinear | apps/tuya_cloud/object_detection/src/g711_codec.c:78-93 | every decoded sample lies within ±32124 |
| G711.Magnitude | apps/tuya_cloud/object_detection/src/g711_codec.c:85-89 | the rebuilt biased magnitude lies between 132 and 32256 |
| G711.BiasedRange | apps/tuya_cloud/object_detection/src/g711_codec.c:46-61 | above -32768 the biased magnitude lies between 132 and 32635 + 132 |
| G711.EncodeSaturates | apps/tuya_cloud/object_detection/src/g711_codec.c:64-69 | past the last segment the encoder returns 0x7F ^ mask: 0x80 for a non-negative sample, 0x00 for a negative one |
| G711.EncodeSegmentRange | apps/tuya_cloud/object_detection/src/g711_codec.c:24-26 | below saturation the segment is between 2 and 7; it is 8 exactly when the magnitude passes 0x1FFF |
| G711.EncodeFields | apps/tuya_cloud/object_detection/src/g711_codec.c:67-73 | the result is the sign mask applied to a 7-bit value whose segment field is 2..7 |
| G711.DecodeMasked | apps/tuya_cloud/object_detection/src/g711_codec.c:78-93 | the mask decides the decoded sign and the low seven bits the magnitude |
| G711.SignRoundTrip | apps/tuya_cloud/object_detection/src/g711_codec.c:41-93 | decoding an encoded sample above -32768 gives a non-zero value of the same sign |
| G711.EncodeZero | apps/tuya_cloud/object_detection/src/g711_codec.c:41-93 | 0 encodes to 0xDB, which decodes to 524 |
| G711.EncodeThousand | apps/tuya_cloud/object_detection/src/g711_codec.c:41-93 | 1000 encodes to 0xAB, which decodes to 5116: the encoder is not a close round trip |
| G711.EncodeMostNegative | apps/tuya_cloud/object_detection/src/g711_codec.c:49-51 | -32768 stays negative after `-pcm_val`, encodes to 0x7F and decodes to 0, so its sign is lost |
| G711.DecodeOddSymmetric | apps/tuya_cloud/object_detection/src/g711_codec.c:78-93 | flipping bit 7 negates the decoded value |
| G711.DecodeEndpoints | apps/tuya_cloud/object_detection/src/g711_codec.c:78-93 | 0xFF and 0x7F decode to 0; 0x80 to 32124 and 0x00 to -32124 |
| G711.MagnitudeIncreasing | apps/tuya_cloud/object_detection/src/g711_codec.c:85-89 | the rebuilt magnitude is strictly increasing in the complemented 7-bit code, across segment boundaries too |
| G711.DecodeDecreasing | apps/tuya_cloud/object_detection/src/g711_codec.c:84-92 | over 0x80..0xFF the decoder is strictly decreasing and never negative |
| G711.EncodeUlaw | apps/tuya_cloud/object_detection/src/g711_codec.c:95-102 | returns `len`, writes exactly the first `len` outputs, each the encoding of its input |
| G711.DecodeUlaw | apps/tuya_cloud/object_detection/src/g711_codec.c:104-111 | returns `len`, writes exactly the first `len` outputs, each the decoding of its input |
| Speaker.SpeakerStream.constructor | 1-devkit/src/speaker_streaming.c:60-91 | the initial state: empty buffer, inactive, no socket, playback not started, empty host, all statistics zero |
| Speaker.SpeakerStream.Level | 1-devkit/src/speaker_streaming.c:150-156 | the level is the number of buffered bytes, at most 96000 |
| Speaker.SpeakerStream.Write | 1-devkit/src/speaker_streaming.c:96-122 | an empty or missing write changes nothing; otherwise the buffer holds the newest min(count + len, 96000) bytes of old contents followed by the data, and the overrun count rises by one exactly when they did not fit |
| Speaker.SpeakerStream.Append | 1-devkit/src/speaker_streaming.c:114-119 | the copy loop appends the data after the old contents and keeps the read position |
| Speaker.SpeakerStream.Read | 1-devkit/src/speaker_streaming.c:128-145 | returns min(len, count) bytes, the oldest first, removes exactly those and leaves the rest of the destination alone |
| Speaker.SpeakerStream.OnDatagram | 1-devkit/src/speaker_streaming.c:201-223 | timeouts, errors and 1-byte pings change nothing; any other datagram adds one packet and its length in bytes, is written to the buffer keeping the newest bytes, and counts one overrun when it does not fit |
| Speaker.SpeakerStream.PlaybackStep | 1-devkit/src/speaker_streaming.c:251-297 | playback starts once 16000 bytes are buffered and stays started; afterwards a tick either hands the oldest 640 bytes to the driver and removes them, counting a driver error, or counts one underrun and changes nothing else |
| Speaker.SpeakerStream.Init | 1-devkit/src/speaker_streaming.c:308-434 | a missing or empty host is INVALID_PARM with nothing changed; init while active is OK with nothing changed; otherwise the host is stored (at most 63 characters), the buffer cleared and the result is the first failing step, with the module active only on success; statistics are kept |
| Speaker.SpeakerStream.Stop | 1-devkit/src/speaker_streaming.c:439-479 | returns OK; stop while inactive changes nothing; otherwise the module becomes inactive and the socket is closed |
| RingFifo.Fifo.constructor | 1-devkit/src/mic_streaming.c:309 | a new ring is empty, with the requested capacity and overflow policy |
| RingFifo.Fifo.Used | 1-devkit/src/mic_streaming.c:196 | the used size is the number of buffered bytes |
| RingFifo.Fifo.Write | apps/tuya_cloud/object_detection/src/mic_streaming.c:83 | a coverage ring accepts every byte and keeps the newest `capacity`; a stop ring appends only what fits and reports how much that was |
| RingFifo.Fifo.Read | 1-devkit/src/mic_streaming.c:216-218 | returns up to `n` of the oldest bytes and removes exactly those |
| RingFifo.Fifo.Reset | 1-devkit/src/mic_streaming.c:346 | the ring becomes empty |
| DevkitMic.Trimmed | 1-devkit/src/mic_streaming.c:199-209 | above 6400 buffered bytes the trim leaves between 1 and 640 bytes, a whole number of frames fewer; otherwise nothing is trimmed |
| DevkitMic.TrimmedUnique | 1-devkit/src/mic_streaming.c:204-207 | the bytes left are the only value in 1..640 a whole number of frames below the start |
| DevkitMic.TrimLeavesPartialFrame | 1-devkit/src/mic_streaming.c:204-207 | 6401 bytes are trimmed to 1, not to a whole frame; 7040 to exactly one frame |
| DevkitMic.Attempts | 1-devkit/src/mic_streaming.c:212-244 | a pass takes from the ring the frames it sent, plus at most the one whose send failed, and never more than is buffered |
| DevkitMic.ShouldPing | 1-devkit/src/mic_streaming.c:139-148 | a keepalive ping is due exactly when the time since the last send, taken modulo 2^32, exceeds 20000 ms |
| DevkitMic.MicStreaming.constructor | 1-devkit/src/mic_streaming.c:60-77 | the zeroed context: not initialised, not streaming, no ring, UDP closed |
| DevkitMic.MicStreaming.Init | 1-devkit/src/mic_streaming.c:289-322 | a no-op once initialised; otherwise the statistics are cleared, the result is the first failing step, and the module is initialised with a new empty ring exactly on success |
| DevkitMic.MicStreaming.Start | 1-devkit/src/mic_streaming.c:324-391 | not initialised gives INVALID_PARM and already streaming gives OK, both changing nothing; a failed UDP open is returned unchanged; otherwise ring and statistics are reset and streaming is on unless the task cannot be created, in which case it is rolled back and UDP is closed; the initialised flag is never changed |
| DevkitMic.MicStreaming.Stop | 1-devkit/src/mic_streaming.c:393-420 | returns OK; a no-op when not streaming; otherwise streaming stops, UDP closes and the ring is emptied, the statistics kept |
| DevkitMic.MicStreaming.OnFrame | 1-devkit/src/mic_streaming.c:93-125 | ignored unless streaming with a ring and given PCM; otherwise the bytes are counted as captured and the ring keeps the newest 64000; the dropped-frame counter does not move |
| DevkitMic.MicStreaming.StreamStep | 1-devkit/src/mic_streaming.c:178-283 | one pass: no ring means exit; otherwise the bloat trim, then the frames sent are the consecutive 640-byte frames after it, the sent counter and last-send time move only with sends, the empty counter resets when a frame is processed and rises when under a frame is left, and the watchdog count rises when it reaches 500 |
| DevkitMic.MicStreaming.TrimRing | 1-devkit/src/mic_streaming.c:199-209 | the trim discards whole frames from the front, counts each, and leaves the trimmed size |
| DevkitMic.MicStreaming.SendFrames | 1-devkit/src/mic_streaming.c:212-248 | the send loop sends the consecutive frames from the front while whole frames remain and the sender is ready; the first failure ends it and loses its frame |
| DevkitMic.MicStreaming.Stats | 1-devkit/src/mic_streaming.c:429-437 | reports bytes captured, under the name bytes sent, and frames sent |
| OdMic.TickRead | apps/tuya_cloud/object_detection/src/mic_streaming.c:98-109 | a tick reads nothing below one 320-byte frame, otherwise min(used, 640) bytes |
| OdMic.MicStreaming.constructor | apps/tuya_cloud/object_detection/src/mic_streaming.c:43-51 | the zeroed context: not initialised, not streaming, no ring, zero statistics |
| OdMic.MicStreaming.Init | apps/tuya_cloud/object_detection/src/mic_streaming.c:134-164 | a no-op once initialised; otherwise the result is the first failing step and on success an empty 8000-byte stop-policy ring exists |
| OdMic.MicStreaming.Start | apps/tuya_cloud/object_detection/src/mic_streaming.c:166-216 | not initialised gives INVALID_PARM and already streaming gives OK, both changing nothing; otherwise the ring is emptied and streaming starts only when the device opens and the task is created; the initialised flag is never changed |
| OdMic.MicStreaming.Stop | apps/tuya_cloud/object_detection/src/mic_streaming.c:218-245 | returns OK and keeps the statistics; a no-op when not streaming; otherwise streaming stops and the ring is emptied |
| OdMic.MicStreaming.OnFrame | apps/tuya_cloud/object_detection/src/mic_streaming.c:69-84 | ignored unless streaming with a ring and given PCM; otherwise the bytes that fit are appended and the rest lost |
| OdMic.MicStreaming.Tick | apps/tuya_cloud/object_detection/src/mic_streaming.c:96-125 | a tick removes TickRead(used) bytes; a message "audio:" followed by them, at most 650 bytes, is offered exactly when something was read and the client is connected; statistics advance only when that send succeeds |
| OdMic.MicStreaming.Stats | apps/tuya_cloud/object_detection/src/mic_streaming.c:252-260 | reports bytes sent and frames sent |
| TcpClient.EncodeHeader | 1-devkit/src/tcp_client.c:291-296 | the header is four bytes |
| TcpClient.DecodeHeader | 1-devkit/src/tcp_client.c:180-181 | byte 0 is the low byte of the decoded length and byte 3 its high byte |
| TcpClient.DecodeEncode | 1-devkit/src/tcp_client.c:181 | decoding an encoded header gives the length back |
| TcpClient.EncodeDecode | 1-devkit/src/tcp_client.c:293-296 | every four-byte header is the encoding of the length it decodes to |
| TcpClient.Collected | 1-devkit/src/tcp_client.c:332-392 | the receive loop never collects more than was asked for |
| TcpClient.CollectedComplete | 1-devkit/src/tcp_client.c:332-392 | when every socket read yields at least a full 4096-byte piece and there are enough of them, the loop collects exactly `len` bytes |
| TcpClient.Client.constructor | 1-devkit/src/tcp_client.c:24-36 | the zeroed context: empty host, port 0, not connected, not running |
| TcpClient.Client.Init | 1-devkit/src/tcp_client.c:214-231 | stores the host (at most 63 characters) and port, marks the socket closed and the client disconnected and stopped; the result is that of creating the mutex |
| TcpClient.Client.Start | 1-devkit/src/tcp_client.c:233-261 | a no-op returning OK while running; otherwise running exactly when the receiver task is created, whose result is returned |
| TcpClient.Client.Disconnect | 1-devkit/src/tcp_client.c:102-109 | an open socket is closed and the client is no longer connected |
| TcpClient.Client.Stop | 1-devkit/src/tcp_client.c:263-275 | the client stops, disconnects and its socket is closed |
| TcpClient.AuthMessage | 1-devkit/src/tcp_client.c:86-94 | without a configured token the default `auth:devkit-secret-token`; with one, `auth:` and the token cut to the 127 characters the buffer holds |
| TcpClient.Client.Connect | 1-devkit/src/tcp_client.c:50-97 | a failed socket, failed address resolution or failed connect each leave the client disconnected with the socket closed and their own error; a connection sends the authentication message for the build's token |
| TcpClient.Client.Receive | 1-devkit/src/tcp_client.c:133-207 | timeouts and short headers skip the pass; a length outside 1..2047 is skipped without reading; other receive failures disconnect; a body is stored with a NUL after it and handed on |
| TcpClient.Client.Send | 1-devkit/src/tcp_client.c:282-317 | refuses when not connected; otherwise sends the header encoding the length first and then the data, and is OK exactly when both went through |
| TcpClient.Client.ReceiveData | 1-devkit/src/tcp_client.c:332-392 | -1 when not connected, without a buffer or with a non-positive length; otherwise at most `len` bytes, exactly those the loop collected, with the rest of the buffer unchanged |
| ServerTable.TableLength | webapp/main.go:98-131 | the table has 256 entries |
| ServerTable.TableAgrees | webapp/main.go:98-131 | every entry of the server's table is what the firmware's decoder gives for that byte |
| ServerTable.TableSymmetric | webapp/main.go:98-131 | the table is odd-symmetric across bit 7, with zeros at 0x7F and 0xFF |
| Server.LowByte | webapp/main.go:139 | the low byte agrees with the sample modulo 256 |
| Server.BytesOfSample | webapp/main.go:139-140 | the two bytes are the little-endian two's-complement form of the sample |
| Server.DecodeG711ULaw | webapp/main.go:134-143 | the output is twice as long as the input |
| Server.DecodeMatchesFirmware | webapp/main.go:134-143 | each output pair is the little-endian form of the firmware decoder's sample for that input byte |
| Server.Frame | webapp/main.go:276-288 | a frame is four header bytes that decode to the payload length, then the payload |
| Server.FrameAtFront | webapp/main.go:394-401 | a buffer that starts with a complete frame is that frame followed by the rest |
| Server.Parse | webapp/main.go:393-402 | the parse accounts for the whole buffer: the frames taken off, then an incomplete rest, or a slice out of range |
| Server.ParseAtFront | webapp/main.go:394-401 | a complete frame at the front is taken off and the parse continues after it |
| Server.ParseStops | webapp/main.go:394-398 | a buffer without a complete frame is kept whole |
| Server.ParseWraps | webapp/main.go:396-400 | when 4 + length wraps below 4 in 32 bits, the next slice is out of range |
| Server.ParseFramed | webapp/main.go:393-402 | complete frames followed by an incomplete tail parse back to exactly those payloads and that tail |
| Server.SendRawRoundTrip | webapp/main.go:276-288 | what `sendToDevKitRaw` writes parses back to exactly its payload |
| Server.WrappedLengthPanics | webapp/main.go:396-400 | a header of 0xFFFFFFFC or more makes the slice run out of range instead of waiting for more data |
| Server.Reply | webapp/main.go:407-433 | a reply is sent exactly for an accepted, refused or missing authentication |
| Server.Classify | webapp/main.go:403-451 | before authentication: accepted exactly for "auth:" followed by the token, refused for any other "auth:" message, otherwise authentication is required; afterwards a message longer than 6 bytes starting "audio:" is audio and anything else but "pong" is relayed as it is |
| Server.SessionShape | webapp/main.go:386-459 | a session never has more actions than messages, a refusal is its last action, and it ends authenticated exactly when it started so or accepted a token |
| Server.NothingBeforeAccept | webapp/main.go:407-434 | nothing is broadcast on a connection before its token is accepted |
| Server.SessionStep | webapp/main.go:394-458 | one more message extends an unrefused session by its classification |
| Server.SessionPrefix | webapp/main.go:426-427 | after a refusal later messages change nothing |
| Server.Connection.constructor | webapp/main.go:359-365 | a new connection is unauthenticated with an empty buffer |
| Server.Connection.OnRead | webapp/main.go:386-459 | one read: the actions are the session over the frames parsed from buffer and data, the connection closes exactly on a refusal or a slice out of range, and the incomplete rest stays buffered |
| Server.ClassifyDatagram | webapp/main.go:487-503 | the 1-byte 0xFF is a ping, any other datagram under 2 bytes is dropped, and a packet is its sequence byte followed by the payload |
| Server.UdpStats.constructor | webapp/main.go:88-93 | all counters start at zero |
| Server.UdpStats.OnDatagram | webapp/main.go:480-539 | a ping is counted; a runt changes nothing; a packet is counted, records its sequence byte, counts a jump exactly when an earlier packet exists and the byte is not its successor modulo 256, and is decoded |
| Server.Jumps | webapp/main.go:505-515 | a run of n packets counts fewer than n jumps |
| Server.NoJumpsIffConsecutive | webapp/main.go:505-515 | a run counts no jump exactly when every packet follows the one before it, 255 wrapping to 0 |
| Server.WrapIsNoJump | webapp/main.go:506-507 | 255 then 0 is no jump; 0x10 then 0x12 is one |
| Settings.Terminated | 1-devkit/src/ble_config.c:529 | the stored bytes are the string and its NUL, and reading up to the NUL gives the string back |
| Settings.NulEnds | 1-devkit/src/ble_config.c:541 | reading a stored string up to its NUL gives exactly the string |
| Settings.PortBytes | 1-devkit/src/ble_config.c:535 | a port is stored as two bytes |
| Settings.PortRoundTrip | 1-devkit/src/ble_config.c:494-500 | reading the two stored port bytes gives the port back |
| Settings.Load | 1-devkit/src/ble_config.c:465-517 | a NULL output pointer: INVALID_PARM with nothing written; no stored host: NOT_FOUND with an empty host and token and port 5000; otherwise OK, a port only from a 2-byte value (else 5000), a token only from a 1..63-byte value (else the default token), both outputs shorter than 64; the object-detection board loads by the same rules |
| Settings.Saved | 1-devkit/src/ble_config.c:519-549 | a successful save adds exactly the host, port and token keys |
| Settings.SetTcpArgs | 1-devkit/src/ble_config.c:121-137 | the command saves only with a string host; the port defaults to 5000 and is cut to 16 bits; the token defaults to empty; the object-detection board reads its arguments the same way |
| Settings.SaveLoadRoundTrip | 1-devkit/src/ble_config.c:465-549 | a saved host and token under 63 bytes and any port load back unchanged |
| Settings.LongHostLoadsEmpty | 1-devkit/src/ble_config.c:481-490 | a host of 63 bytes or more is saved but loads back empty, with OK |
| Settings.LongTokenLoadsDefault | 1-devkit/src/ble_config.c:504-512 | a token of 63 bytes or more loads back as the default token |
| Settings.SetTcpThenLoad | 1-devkit/src/ble_config.c:121-137 | a set_tcp whose save succeeds loads back with the port cut to 16 bits |
| Settings.KvStore.constructor | 1-devkit/src/ble_config.c:481 | the store starts with the given entries |
| Settings.KvStore.Set | 1-devkit/src/ble_config.c:529 | the store's result is returned and the value kept only on success |
| Settings.KvStore.Save | 1-devkit/src/ble_config.c:519-549 | a NULL host or token is INVALID_PARM with the store unchanged; otherwise host, port and token are written in that order, stopping at the first failure, whose code is returned; the object-detection board saves the same way |
| Settings.KvStore.WifiConnect | 1-devkit/src/ble_config.c:40-84 | a NULL or empty SSID is INVALID_PARM with the store unchanged; otherwise the SSID is saved, then the password (empty when NULL) only if the SSID was, and the connect's own result is returned; the object-detection board applies the same guard and saves |
| WifiScan.SortByRssi | 1-devkit/src/ble_config.c:336-345 | the scan results end strongest first and are a permutation of what they were |
| WifiScan.BubblePass | 1-devkit/src/ble_config.c:337-344 | one inner pass moves a weakest entry of the unsorted part to its end and keeps the sorted suffix |
| WifiScan.Swap | 1-devkit/src/ble_config.c:339-341 | exchanges two neighbours and nothing else |
| WifiScan.Visible | 1-devkit/src/ble_config.c:360 | the visible networks are exactly the entries with a non-empty SSID, in order |
| WifiScan.Listed | 1-devkit/src/ble_config.c:357-369 | a list holds the first min(max, visible) visible networks |
| WifiScan.VisibleAppend | 1-devkit/src/ble_config.c:357-369 | the visible networks of two runs of results are those of the first followed by those of the second |
| WifiScan.VisibleSorted | 1-devkit/src/ble_config.c:336-369 | skipping hidden networks keeps a sorted list sorted |
| WifiScan.SelectNetworks | 1-devkit/src/ble_config.c:357-369 | the selection loop returns the first `max` visible networks |
| WifiScan.DevkitList | 1-devkit/src/ble_config.c:336-369 | the scan results are sorted in place, strongest first, as a permutation of what was scanned; the list is the first two visible networks of that order, so at most two and strongest first |
| WifiScan.ListedCap | apps/tuya_cloud/object_detection/src/ble_config.c:289 | capping the count at the number of results changes nothing |
| WifiScan.OdList | apps/tuya_cloud/object_detection/src/ble_config.c:289-300 | the object-detection board lists at most five visible networks in scan order |
| WifiScan.OdReply | apps/tuya_cloud/object_detection/src/ble_config.c:308-330 | the reply never exceeds the 240-byte limit: the list when it fits, the fixed "Too many networks" reply otherwise, each after the 4-byte channel header |
| Commands.FirstMatch | apps/tuya_cloud/object_detection/src/tuya_main.c:116-206 | no command when the message starts with none of the prefixes; otherwise the command of the first prefix it starts with, in the dispatcher's order |
| Commands.SwitchUnchanged | apps/tuya_cloud/object_detection/src/tuya_main.c:386-417 | the detection switch is unchanged by data points that never set DP 1 to the other value |
| Commands.VolumeUnchanged | apps/tuya_cloud/object_detection/src/tuya_main.c:419-437 | the volume is unchanged by data points that never set DP 3 |
| Commands.EffectOf | apps/tuya_cloud/object_detection/src/tuya_main.c:393-417 | a data point plays the alert exactly when it turns the switch on from off with the audio set up and a non-zero volume, and stops it exactly when it turns the switch off from on with the audio set up |
| Commands.SpeakerTracksVolume | apps/tuya_cloud/object_detection/src/tuya_main.c:419-437 | once any volume data point has arrived the amplifier is enabled exactly when the volume is non-zero; without one it keeps its level |
| Commands.App.constructor | apps/tuya_cloud/object_detection/src/tuya_main.c:73-79 | detection starts off and the volume at 70 |
| Commands.App.PlayAlert | apps/tuya_cloud/object_detection/src/tuya_main.c:234-275 | the alert plays only with the audio player set up and a non-zero volume |
| Commands.App.StopAlert | apps/tuya_cloud/object_detection/src/tuya_main.c:280-290 | the alert is stopped only with the audio player set up |
| Commands.App.OnSwitch | apps/tuya_cloud/object_detection/src/tuya_main.c:393-417 | the switch takes the new value; a repeated value does nothing, turning on plays the alert and turning off stops it |
| Commands.App.OnVolume | apps/tuya_cloud/object_detection/src/tuya_main.c:419-437 | the volume is the value cut to 8 bits and the amplifier is enabled exactly when it is non-zero |
| Commands.App.UpdateSpeaker | apps/tuya_cloud/object_detection/src/tuya_main.c:221-232 | the amplifier pin is high exactly when the volume is non-zero |
| Commands.App.OnDataPoint | apps/tuya_cloud/object_detection/src/tuya_main.c:386-437 | one data point moves the switch, the volume and the amplifier pin one step and has the alert effect of that point on the state it found |
| Commands.App.OnDataPoints | apps/tuya_cloud/object_detection/src/tuya_main.c:385-457 | after a batch of data points the switch, the volume and the amplifier pin are those the last matching points set (the pin follows the volume once any volume point came, and is untouched otherwise); each point's effect is the alert effect of that point on the switch and volume its predecessors left |
| Commands.App.MicOnCommand | apps/tuya_cloud/object_detection/src/tuya_main.c:156-169 | `mic on` refuses to start a running pipeline; otherwise it reports started exactly when the pipeline is streaming |
| Commands.App.MicOffCommand | apps/tuya_cloud/object_detection/src/tuya_main.c:170-178 | `mic off` on an idle pipeline changes nothing; otherwise it stops streaming |
| Commands.App.OnMessage | apps/tuya_cloud/object_detection/src/tuya_main.c:104-214 | `auth:ok` gets no reply and every other message one: pong, the test acknowledgement, the status of detection, volume, audio set-up and mic streaming, audio playing or not ready, audio stopped, the mic replies, the mic statistics, switched on or off, the heap figure, resetting, or the echo of an unknown command cut to 50 bytes; the switch and mic commands have their effects, and other commands leave the switch and the pipeline unchanged |
| Commands.App.Handle | apps/tuya_cloud/object_detection/src/tuya_main.c:110-213 | the same replies and effects, for an already classified command |
| NetMgr.FindKind | src/tuya_cloud_service/netmgr/netmgr.c:122-140 | no index exactly when no connection has the type; otherwise the first connection of that type |
| NetMgr.FirstUp | src/tuya_cloud_service/netmgr/netmgr.c:75-102 | none exactly when no link is up; otherwise the type of the first connection whose link is up |
| NetMgr.ActiveIsRegistered | src/tuya_cloud_service/netmgr/netmgr.c:75-102 | the active type is AUTO exactly when nothing is registered, and otherwise one of the registered connections |
| NetMgr.ActivePrefersUp | src/tuya_cloud_service/netmgr/netmgr.c:75-102 | when some connection's link is up, the active one is up and no lower in the list |
| NetMgr.InsertPos | src/tuya_cloud_service/netmgr/netmgr.c:260-278 | the new node goes after every node of equal or higher priority and before the first of lower priority |
| NetMgr.Insert | src/tuya_cloud_service/netmgr/netmgr.c:252-290 | insertion adds one node |
| NetMgr.InsertKeepsOrder | src/tuya_cloud_service/netmgr/netmgr.c:252-290 | insertion keeps the list in priority order, adds exactly the new node, leaves the nodes of equal or higher priority in place and keeps the types distinct |
| NetMgr.InsertMultiset | src/tuya_cloud_service/netmgr/netmgr.c:252-290 | the list after insertion holds the old nodes and the new one |
| NetMgr.InsertSorted | src/tuya_cloud_service/netmgr/netmgr.c:260-290 | insertion keeps the list sorted by priority, highest first |
| NetMgr.InsertDistinct | src/tuya_cloud_service/netmgr/netmgr.c:242-290 | inserting a type not yet present keeps every type once |
| NetMgr.FindUnique | src/tuya_cloud_service/netmgr/netmgr.c:122-140 | with distinct types each connection is found at its own index |
| NetMgr.RegisterThenFind | src/tuya_cloud_service/netmgr/netmgr.c:228-298 | after a registration the new connection is found by its type where it was inserted |
| NetMgr.ReportedLink | src/tuya_cloud_service/netmgr/netmgr.c:142-180 | a link reported up belongs to a managed, registered type |
| NetMgr.Changes | src/tuya_cloud_service/netmgr/netmgr.c:187-226 | an event publishes nothing when neither the active type nor the status changed; a type change activates the card and publishes the new type, a status change publishes the new status |
| NetMgr.NetManager.constructor | src/tuya_cloud_service/netmgr/netmgr.c:55-66 | the manager starts uninitialised, with no types, no connections, AUTO active and the link down |
| NetMgr.NetManager.Register | src/tuya_cloud_service/netmgr/netmgr.c:228-298 | a NULL connection or an already registered type is refused with the list unchanged; otherwise the connection is inserted by priority and the result of its open callback (OK without one) is returned |
| NetMgr.NetManager.ActiveConn | src/tuya_cloud_service/netmgr/netmgr.c:75-102 | AUTO without connections, else the first connection whose link is up, else the head; and whether the scan reached a connection without a `get` callback, which the source calls as a NULL pointer |
| NetMgr.NetManager.ConnByType | src/tuya_cloud_service/netmgr/netmgr.c:122-140 | AUTO finds nothing; any other type finds its first node |
| NetMgr.NetManager.GetStatus | src/tuya_cloud_service/netmgr/netmgr.c:142-180 | no out-parameter or AUTO is INVALID_PARM; an unmanaged type is NOT_SUPPORTED with the link down; a managed type reports its node's link, INVALID_PARM when the node has no get callback |
| NetMgr.NetManager.OnEvent | src/tuya_cloud_service/netmgr/netmgr.c:187-226 | an event for an unmanaged type is ignored; otherwise the active type and status are taken afresh and exactly their changes are published |
| NetMgr.NetManager.Target | src/tuya_cloud_service/netmgr/netmgr.c:379-382 | AUTO stands for the active connection, every other type for itself |
| NetMgr.NetManager.ConnSet | src/tuya_cloud_service/netmgr/netmgr.c:368-394 | before init RESOURCE_NOT_READY; no node of the target type is OK; otherwise the node's set callback result, or INVALID_PARM without one |
| NetMgr.NetManager.ConnGet | src/tuya_cloud_service/netmgr/netmgr.c:409-438 | the same rules for the get callback |
| NetMgr.NetManager.Init | src/tuya_cloud_service/netmgr/netmgr.c:308-354 | a failing card or mutex set-up returns its code and leaves the manager untouched; otherwise the mask is set, the link is down, every compiled connection in the mask is registered, nothing else is added, the active type is the first one up (else the head), and the manager is initialised exactly when some connection is |
| NetMgr.NetManager.RegisterCompiled | src/tuya_cloud_service/netmgr/netmgr.c:316-334 | each compiled connection whose type is in the mask ends up registered, no connection is dropped and nothing outside the compiled connections in the mask is added |
| NetMgr.NetManager.RegisterKeeping | src/tuya_cloud_service/netmgr/netmgr.c:228-298 | a registration of a connection leaves its type registered, drops nothing and adds nothing but that connection |
| Pixel.PopCount | src/peripherals/leds_pixel/tdl_leds_pixel_manage/src/tdl_pixel_dev_manage.c:39-49 | the number of colour channels never exceeds the type value |
| Pixel.PopCountBound | src/peripherals/leds_pixel/tdl_leds_pixel_manage/src/tdl_pixel_dev_manage.c:39-49 | an 8-bit colour type has at most eight channels |
| Pixel.PopCountZero | src/peripherals/leds_pixel/tdl_leds_pixel_manage/src/tdl_pixel_dev_manage.c:39-49 | no channel exactly when the colour type is 0 |
| Pixel.ShrStep | src/peripherals/leds_pixel/tdl_leds_pixel_manage/src/tdl_pixel_dev_manage.c:42-45 | shifting one more bit halves the value |
| Pixel.ShrGone | src/peripherals/leds_pixel/tdl_leds_pixel_manage/src/tdl_pixel_dev_manage.c:42-45 | after shifting out all eight bits nothing is left |
| Pixel.ColorCount | src/peripherals/leds_pixel/tdl_leds_pixel_manage/src/tdl_pixel_dev_manage.c:39-49 | the bit loop counts exactly the set bits of the colour type, at most eight |
| Pixel.Zeros | src/peripherals/leds_pixel/tdl_leds_pixel_manage/src/tdl_pixel_dev_manage.c:169 | the cleared buffer has the requested length and holds only zeros |
| Pixel.PixelDev.constructor | src/peripherals/leds_pixel/tdl_leds_pixel_manage/src/tdl_pixel_dev_manage.c:71-132 | a new device is stopped, with no pixels, no buffer, and as many channels as its colour type has bits |
| Pixel.PixelDev.Open | src/peripherals/leds_pixel/tdl_leds_pixel_manage/src/tdl_pixel_dev_manage.c:134-176 | a NULL configuration is INVALID_PARM and a started device is left as it is; otherwise the pixel count and resolution (1000 for 0) are taken, and the device starts with a zeroed buffer of channels × pixels exactly when the driver opens and the allocation succeeds, else COM_ERROR (the public open at line 261-277 passes the configuration to these rules) |
| Pixel.PixelDev.Close | src/peripherals/leds_pixel/tdl_leds_pixel_manage/src/tdl_pixel_dev_manage.c:200-229 | a stopped device is COM_ERROR and a failing driver close returns its code, both changing nothing; otherwise the device stops with no pixels and no buffer (the public close at line 458-472 has the same outcome) |
| Pixel.PixelDev.Refresh | src/peripherals/leds_pixel/tdl_leds_pixel_manage/src/tdl_pixel_dev_manage.c:178-198 | a stopped device is COM_ERROR; a started one hands its buffer and length to the driver's output, when there is one, and returns its result (the public refresh at line 287-307 has the same outcome) |
| Pixel.PixelDev.NumSet | src/peripherals/leds_pixel/tdl_leds_pixel_manage/src/tdl_pixel_dev_manage.c:309-353 | 0 is INVALID_PARM and the current count is OK, both changing nothing; otherwise the count is taken, a failing restart is COM_ERROR, a failing allocation MALLOC_FAILED with no buffer, and success leaves a zeroed buffer of channels × pixels |
| Pixel.PixelDev.ConfigSetPixelNum | src/peripherals/leds_pixel/tdl_leds_pixel_manage/src/tdl_pixel_dev_manage.c:383-392 | the set-pixel-count command is INVALID_PARM without an argument and OK otherwise, whatever the set did, with the argument cut to 16 bits |
| Pixel.PixelDev.ConfigGet | src/peripherals/leds_pixel/tdl_leds_pixel_manage/src/tdl_pixel_dev_manage.c:373-403 | the get commands are INVALID_PARM without an argument and otherwise report the recorded pixel count or resolution |
| Pixel.IndexOfName | src/peripherals/leds_pixel/tdl_leds_pixel_manage/src/tdl_pixel_dev_manage.c:51-69 | no index exactly when no device has the name; otherwise the first device with it |
| Pixel.StoredName | src/peripherals/leds_pixel/tdl_leds_pixel_manage/src/tdl_pixel_dev_manage.c:90 | the kept name is a prefix of the given one of at most the length limit, equal to it exactly when it fits and of exactly the limit otherwise |
| Pixel.FindsOwnName | src/peripherals/leds_pixel/tdl_leds_pixel_manage/src/tdl_pixel_dev_manage.c:51-69 | while names shorter than the stored maximum are unique, a device with such a name is found at its own place |
| Pixel.Registry.constructor | src/peripherals/leds_pixel/tdl_leds_pixel_manage/src/tdl_pixel_dev_manage.c:31-33 | the list starts empty, with the name length limit given |
| Pixel.Registry.Find | src/peripherals/leds_pixel/tdl_leds_pixel_manage/src/tdl_pixel_dev_manage.c:239-251 | a NULL name or an unknown name is COM_ERROR; otherwise the first device with that name |
| Pixel.Registry.DriverRegister | src/peripherals/leds_pixel/tdl_leds_pixel_manage/src/tdl_pixel_dev_manage.c:71-132 | the registration succeeds exactly when the name and the interface table are present, open, close and output exist and the colour type is in range (checked first by the public entry at line 484-504), no stored name equals the whole name, and every allocation and RTOS set-up succeeds; any failure leaves the list unchanged; the new device is appended at the tail, stopped, with its channel count and its name cut to the length limit, so afterwards the name is found exactly when it fits; the other devices stay where they were |
| Snake.Reverse | apps/tuya_t5_pocket/tuya_t5_pocket_ai/src/display/ui/snake_game.c:39-44 | every direction differs from its reverse |
| Snake.Step | apps/tuya_t5_pocket/tuya_t5_pocket_ai/src/display/ui/snake_game.c:449-467 | the new head is next to the old one, and stays put exactly when moving up from row 0 or left from column 0 |
| Snake.Shifted | apps/tuya_t5_pocket/tuya_t5_pocket_ai/src/display/ui/snake_game.c:449-476 | each segment takes its predecessor's place, the head takes one step, and the cells past the length are untouched |
| Snake.WallHitIsSelfCollision | apps/tuya_t5_pocket/tuya_t5_pocket_ai/src/display/ui/snake_game.c:455-463 | a snake of two or more pushed into the top or left wall collides with its own second segment |
| Snake.LfsrNext | apps/tuya_t5_pocket/tuya_t5_pocket_ai/src/display/ui/snake_game.c:884-890 | the generator's state is zero after a step exactly when it was zero before |
| Snake.Seed | apps/tuya_t5_pocket/tuya_t5_pocket_ai/src/display/ui/snake_game.c:179 | the seed is zero exactly when the tick's low 16 bits equal 0x1234 |
| Snake.ZeroSeedStaysZero | apps/tuya_t5_pocket/tuya_t5_pocket_ai/src/display/ui/snake_game.c:179 | with that tick the generator stays at zero and the food is always tried at (0, 0) |
| Snake.SpeedUpPeriod | apps/tuya_t5_pocket/tuya_t5_pocket_ai/src/display/ui/snake_game.c:419-420 | the new period is 300 − 20 × (score / 5), wrapped to 32 bits once the score reaches 80 |
| Snake.SpeedUpWraps | apps/tuya_t5_pocket/tuya_t5_pocket_ai/src/display/ui/snake_game.c:419-420 | score 75 gives a 0 ms period and score 80 wraps to 4294967276 ms; below 75 the period is at least 20 ms |
| Snake.Game.constructor | apps/tuya_t5_pocket/tuya_t5_pocket_ai/src/display/ui/snake_game.c:46-73 | a consistent stand-in for the state before the game is first shown: no screen, not initialised |
| Snake.Game.Random | apps/tuya_t5_pocket/tuya_t5_pocket_ai/src/display/ui/snake_game.c:884-890 | one draw advances the generator by one step and returns the new state |
| Snake.Game.OnSnake | apps/tuya_t5_pocket/tuya_t5_pocket_ai/src/display/ui/snake_game.c:513-518 | a cell is reported on the snake exactly when one of its first `length` segments is there |
| Snake.Game.GenerateFood | apps/tuya_t5_pocket/tuya_t5_pocket_ai/src/display/ui/snake_game.c:504-521 | food placed lies on the grid and off the snake; a zero generator only ever tries (0, 0), so it never places food when the snake covers that cell |
| Snake.Game.Move | apps/tuya_t5_pocket/tuya_t5_pocket_ai/src/display/ui/snake_game.c:449-476 | the body after a move is the shifted body |
| Snake.Game.Collision | apps/tuya_t5_pocket/tuya_t5_pocket_ai/src/display/ui/snake_game.c:478-497 | a collision exactly when the head is off the grid or on another segment |
| Snake.Game.ShowGameOverDialog | apps/tuya_t5_pocket/tuya_t5_pocket_ai/src/display/ui/snake_game.c:699-777 | the game is paused with the game-over dialog up; the selection is reset only when the dialog was not already up |
| Snake.Game.Tick | apps/tuya_t5_pocket/tuya_t5_pocket_ai/src/display/ui/snake_game.c:381-430 | a tick does nothing off screen, uninitialised, over or paused; otherwise the snake turns to the pending direction and moves; a collision ends the game with the dialog up on Yes and score, length, food, period and random state kept; eating grows the snake by one, adds one to the 16-bit score, places new food off the snake and speeds up on every fifth point; moving, and eating at full length, keep length, score, food, period, random state and dialogs; no outcome touches the screen, the initialised flag, the pending direction or the exit dialog |
| Snake.Game.Eat | apps/tuya_t5_pocket/tuya_t5_pocket_ai/src/display/ui/snake_game.c:405-421 | eating adds one to the length and to the 16-bit score, places food in the grid off the snake when a cell is found, and sets the period from the new score at every multiple of five, otherwise keeps it |
| Snake.Game.ResetSnake | apps/tuya_t5_pocket/tuya_t5_pocket_ai/src/display/ui/snake_game.c:830-877 | the snake is reset to three segments heading right at the centre, score 0, no dialog and the base period |
| Snake.Game.Restart | apps/tuya_t5_pocket/tuya_t5_pocket_ai/src/display/ui/snake_game.c:830-877 | restarting gives a fresh snake with no dialog up and new food off the snake |
| Snake.Game.Show | apps/tuya_t5_pocket/tuya_t5_pocket_ai/src/display/ui/snake_game.c:148-255 | showing the game again while it is on screen changes nothing; otherwise a fresh game is seeded from the tick and put on screen |
| Snake.Game.KeyInput | apps/tuya_t5_pocket/tuya_t5_pocket_ai/src/display/ui/snake_game.c:262-379 | keys act only with the game on screen; with the exit dialog, left/right toggle, enter leaves or closes and escape closes; with the game-over dialog, left/right toggle and enter restarts or leaves; while running, a direction key sets the next direction unless it reverses the current one and escape opens the exit dialog; choosing to leave, from either dialog, takes the game off the screen |
| Keys.KeyOf | apps/tuya_t5_pocket/tuya_t5_pocket_ai/src/display/ui/ai_pocket_pet_app.h:32-37 | each of the six key codes names its own key and every other code none |
| Menu.MainNav | apps/tuya_t5_pocket/tuya_t5_pocket_ai/src/display/ui/menu_system.c:211-238 | the selection stays among the seven buttons, moves back exactly on up/left away from the first, forward exactly on down/right away from the last, and by at most one |
| Menu.MainNavUndo | apps/tuya_t5_pocket/tuya_t5_pocket_ai/src/display/ui/menu_system.c:211-238 | down then up, or left then right, comes back to the same button wherever the move was possible |
| Menu.SubNav | apps/tuya_t5_pocket/tuya_t5_pocket_ai/src/display/ui/menu_system.c:240-268 | no item or another key leaves the selection alone; up moves back unless at the top, down moves forward unless at the bottom, and a selection inside the list stays inside it |
| Menu.SubNavWraps | apps/tuya_t5_pocket/tuya_t5_pocket_ai/src/display/ui/menu_system.c:250-253 | with more than 255 items, down from item 255 wraps the 8-bit selection to 0 |
| Menu.Fire | apps/tuya_t5_pocket/tuya_t5_pocket_ai/src/display/ui/menu_system.c:327-331 | an event reaches the application exactly when a callback is registered, and it is the event asked for |
| Menu.FoodEvent | apps/tuya_t5_pocket/tuya_t5_pocket_ai/src/display/ui/menu_system.c:325-376 | only the first two food items (hamburger and water) are available; the others are the locked foods |
| Menu.InfoAction | apps/tuya_t5_pocket/tuya_t5_pocket_ai/src/display/ui/menu_system.c:306-324 | in the information menu, counting from the first action (entry 0 when no "Actions:" label is found), the first action opens the pet-name keyboard, the second shows "Not supported yet" for 500 ms, the third "WIFI SETUP: Not supported yet" for 1500 ms, the fourth fires the randomise event when a callback is registered and is the only one that returns to the main menu; entries above the actions and past the fourth do nothing |
| Menu.SubSelection | apps/tuya_t5_pocket/tuya_t5_pocket_ai/src/display/ui/menu_system.c:299-463 | an event needs a callback; the menu closes exactly on the info menu's back action, the first two food, bath or sleep items or the first health item, and each of those fires its event when a callback is registered; locked foods fire their event and show "Need higher level"; the scan menu never closes; the main menu does nothing |
| Menu.InfoAboveActionsInert | apps/tuya_t5_pocket/tuya_t5_pocket_ai/src/display/ui/menu_system.c:306-324 | selecting an information line above the actions does nothing |
| Menu.MenuOfButton | apps/tuya_t5_pocket/tuya_t5_pocket_ai/src/display/ui/menu_system.c:276-296 | every button but the video one opens a sub-menu, and never the main menu |
| Menu.Merge | apps/tuya_t5_pocket/tuya_t5_pocket_ai/src/display/ui/menu_system.c:497-523 | each of health, hunger, cleanliness and happiness is taken when at most 100 and otherwise keeps its current value, the age likewise with 999, independently field by field; so in-range statistics stay in range, all-valid input is taken whole, and the name is kept |
| Menu.MergeIdempotent | apps/tuya_t5_pocket/tuya_t5_pocket_ai/src/display/ui/menu_system.c:497-523 | applying the same update twice is the same as once |
| Menu.TestStep | apps/tuya_t5_pocket/tuya_t5_pocket_ai/src/display/ui/menu_system.c:530-548 | health +5, hungry +10 and happy +3 wrap at 101, clean and the name are kept, the 16-bit age goes up by one, and in-range statistics stay in range |
| Menu.Stars | apps/tuya_t5_pocket/tuya_t5_pocket_ai/src/display/ui/menu_system.c:711-713 | the bar has 0 to 5 stars, full exactly from 91 upward, each star covering twenty points starting at 11, none up to 10 |
| Menu.StarsMonotone | apps/tuya_t5_pocket/tuya_t5_pocket_ai/src/display/ui/menu_system.c:711-713 | a higher value never shows fewer stars |
| Menu.InfoBarsAsDrawn | apps/tuya_t5_pocket/tuya_t5_pocket_ai/src/display/ui/menu_system.c:738-741 | as drawn, the Clean bar repeats the Happy bar: it is full exactly when happiness is at least 91 |
| Menu.CleanBarShowsHappiness | apps/tuya_t5_pocket/tuya_t5_pocket_ai/src/display/ui/menu_system.c:740 | a pet with cleanliness 0 and happiness 100 is drawn with a full Clean bar |
| Menu.InfoBars | apps/tuya_t5_pocket/tuya_t5_pocket_ai/src/display/ui/menu_system.c:738-741 | each bar is full exactly when its own statistic is at least 91, and a dirty pet shows an empty Clean bar |
| Menu.MenuSystem.constructor | apps/tuya_t5_pocket/tuya_t5_pocket_ai/src/display/ui/menu_system.c:165-168 | the menu starts on the main menu with the first button selected and no callback |
| Menu.MenuSystem.RegisterCallback | apps/tuya_t5_pocket/tuya_t5_pocket_ai/src/display/ui/menu_system.c:550-555 | the callback is recorded |
| Menu.MenuSystem.MainNavigation | apps/tuya_t5_pocket/tuya_t5_pocket_ai/src/display/ui/menu_system.c:211-238 | the selected button becomes the navigation result and stays one of the seven |
| Menu.MenuSystem.SubNavigation | apps/tuya_t5_pocket/tuya_t5_pocket_ai/src/display/ui/menu_system.c:240-268 | the sub-menu selection becomes the navigation result and stays inside the list |
| Menu.MenuSystem.MainSelection | apps/tuya_t5_pocket/tuya_t5_pocket_ai/src/display/ui/menu_system.c:270-297 | a button with a sub-menu opens it with its first item selected, the information menu returns its bars as drawn (health, hunger and happiness bars as their statistics give them, the Clean bar drawn from happiness), and the video button only shows "Video AI: Coming Soon..." |
| Menu.MenuSystem.HandleSubSelection | apps/tuya_t5_pocket/tuya_t5_pocket_ai/src/display/ui/menu_system.c:299-463 | the reaction is the one defined for the open menu and the selection, and the main menu comes back exactly when it says so |
| Menu.MenuSystem.HideSubMenu | apps/tuya_t5_pocket/tuya_t5_pocket_ai/src/display/ui/menu_system.c:465-471 | hiding returns to the main menu |
| Menu.MenuSystem.InitPetStats | apps/tuya_t5_pocket/tuya_t5_pocket_ai/src/display/ui/menu_system.c:483-495 | the pet starts as Ducky: health 85, hungry 60, clean 70, happy 90, age 15, all in range |
| Menu.MenuSystem.UpdatePetStats | apps/tuya_t5_pocket/tuya_t5_pocket_ai/src/display/ui/menu_system.c:497-523 | a NULL update returns 1 and changes nothing; otherwise 0 and each in-range value is taken while an out-of-range one keeps the current value |
| Menu.MenuSystem.UpdateForTesting | apps/tuya_t5_pocket/tuya_t5_pocket_ai/src/display/ui/menu_system.c:530-548 | the statistics take one testing step |

## Left out

- Threads, task delays, mutexes and task deletion: every task is one iteration of its loop, and every mutex-protected call is atomic.
- Sockets, DNS, the audio driver, the Wi-Fi station, BLE sends, cJSON and the Tuya IoT SDK calls: their outcomes are parameters and their effects are replies or actions.
- The web server's WebSocket and HTTP handlers, broadcasts, goroutines, HMAC-SHA256 session signing and session expiry. The auth token's environment override is not modelled; the token is a parameter.
- The server decodes UDP audio whether or not any browser is listening; the model does not track HTTP clients.
- The platform ring buffer (`tuya_ringbuf`) is not part of this model; `RingFifo.Fifo` states only the FIFO behaviour with its two overflow policies.
- The colour type constants of the pixel library come from a header that is not part of this model; their bounds are parameters of `Pixel.Registry.DriverRegister`.
- The pixel node structure's header is not part of this model: its name array is taken to hold `PIXEL_DEV_NAME_MAX_LEN` characters and a terminator, so a cut name still ends where the cut is.
- A connection registered without a `get` callback makes `__get_active_conn` call a NULL pointer (`src/tuya_cloud_service/netmgr/netmgr.c:91`). `NetMgr.NetManager.ActiveConn` reports this; `OnEvent` and `Init`, which use it, go on with the link the model stores, because what follows such a call is undefined.
- The other `tdl_pixel_dev_config` commands (driver colour channels, white colour control, PWM configuration, RGB line order) only copy values or call the driver; they are not modelled.
- LVGL drawing and styling, the menu's keyboard for the pet name, its `weight_kg` field (floating point) and the sub-menu item list: the child count and the start of the information menu's actions are parameters.
- Counters the source keeps in `uint32_t` are unbounded here, except where wrap-around matters (timer period, keepalive interval, sequence byte, volume, age).
- The devkit's UDP audio sender and its sequence counter are not part of this model; sequence numbers appear only as the server tracks them.
- Speaker.SpeakerStream.Write: requires `len <= 96000`; the receive task never writes more than its 1400-byte datagram buffer.
- DevkitMic.MicStreaming.OnFrame: the devkit ring overwrites its oldest bytes, so the write always accepts everything and the dropped-frame counter never moves; the model states this rather than a possible short write.
- TcpClient.Client.ReceiveData: the socket's answers are a finite list of steps, and running out of them stands for the receive timeout; bytes beyond a request are not carried into the next call.
- Server.Connection.OnRead: requires the buffered bytes to stay below 4 GiB, as a Go slice of that size is not modelled.
- WifiScan.SortByRssi: requires at least one access point; with none, `ap_count - 1` wraps in `uint32_t` and the loop indexes out of range.
- NetMgr.NetManager.Register: requires the registered type to be that of the connection and not AUTO, as every call in `netmgr_init` does.
- Snake.Game.GenerateFood: the source retries until it finds a free cell; the model bounds the retries with `attempts` and reports whether food was placed.
- Snake.Game.Tick: eating at the full length of 184 writes past the body array in the source; the model reports `BodyFull` after the move and does not grow the snake.
- Snake.Game.KeyInput: leaving the game (`snake_game_stop_and_cleanup`) is modelled only as the game screen going away.

## Findings

| source | as written | input that shows it | evidently intended | confidence | as-written member | corrected member |
|---|---|---|---|---|---|---|
| apps/tuya_t5_pocket/tuya_t5_pocket_ai/src/display/ui/menu_system.c:740 | the "Clean:" bar is drawn from `pet_stats.happy` | clean 0, happy 100: the Clean bar shows 5 stars | the Clean bar shows `pet_stats.clean` | not executed | Menu.InfoBarsAsDrawn | Menu.InfoBars |
