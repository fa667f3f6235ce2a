# A verified model of the Figura avatar relay

The relay is a small HTTP and websocket backend for a game mod. Clients authenticate
through the Mojang session service and receive a bearer token. They upload and
delete an avatar and read their limits. Over one websocket per identity they
exchange binary frames: TOKEN, PING, SUB and UNSUB from the client; AUTH, PING,
EVENT, TOAST, CHAT, NOTICE and KEEPALIVE from the server. A PING is fanned out to
the identity's subscribers, subject to a per-second ping quota.

This project models that core in Dafny:

- `wrappers.dfy`, `bytes.dfy`, `text.dfy` (modules `Wrappers`, `Bytes`, `Text`).
  These hold the Python primitives the core relies on: `Option`, big-endian
  integer packing of `struct` and `int.from_bytes`, `str.split`/`join`,
  `strip`, `replace(x, "")`, `str(int)` and `int(str)`.
- `codec.dfy` (`Codec`). The wire protocol: every `S2C` encoder, a client-side
  decoder as their partner, `C2S.parse`, and a client encoder as its partner.
- `paths.dfy` (`Paths`). The `collapse_double_slashes` middleware, which main.py
  and app.py define identically, and the backslash rewrite of the asset index keys.
- `models.py` column defaults (`models.dfy`, `Models`). The configured limits and
  their literal fallbacks, and the comma-joined badge columns that `get_limits`
  parses back.
- `quota.dfy` (`Quota`). The `ping_stats` window: reset on a new second, a rate
  test, then a size test.
- `relay.dfy` (`Relay`). api.py's database as maps and sets, plus the class
  `Server` holding the tables, `active_connections`, `ping_stats`, one session per
  websocket and what each websocket has been sent. Its methods are
  `get_auth_id`, `verify`, `get_motd`, `upload_avatar`, `delete_avatar`, the
  websocket handshake, one pass of its receive loop, and its `finally`.
  `get_limits` is a function, since it changes nothing.
- `legacy.dfy` (`Legacy`). The older in-memory app.py: dictionaries for pending
  ids, verified tokens and connections, with its own handshake that reads the
  whole first frame as the token.

Each inbound frame or HTTP request is one atomic step. A packet sent to a websocket
is appended to that connection's outbox. Randomly generated ids and tokens are
parameters; api.py's must not collide with stored ones. The Mojang answer is a
parameter `Option<Uuid>`, with `None` for any non-200 reply. The wall-clock second
is a parameter. The set of connections whose send raises is a parameter `failed`;
such a send is swallowed, as the code does.

Some behaviour of the code is easy to misread, and the model keeps it as written:

- The `finally` of api.py's websocket pops `active_connections[user]` whatever
  connection it holds, so an older connection of the same identity closing
  unregisters a newer one (`Relay.Server.Close`).
- With `sync` set, a PING reaches its sender only through a (sender, sender)
  subscription row, since the fanout loops over subscription rows only
  (`Relay.FanoutReaches`).
- The quota window is refreshed on every inbound frame that decodes, not only on PINGs.
- app.py's `verify` returns the existing token of an already verified username and
  leaves the pending id in place. An id recorded for an empty username also gives 400.

## Model

| member | source | states |
|---|---|---|
| Bytes.NatToBeToNat | api.py:112-115 | an unsigned value below 256^n packed into n big-endian bytes is read back unchanged |
| Bytes.BeToNatToBe | api.py:112-114 | reading n big-endian bytes and packing the value again gives the same bytes, so an identity survives its two 64-bit halves |
| Bytes.BeToNat | api.py:113-114 | `int.from_bytes(…, "big")`: the value of n bytes is below 256^n |
| Bytes.NatToBe | api.py:115 | the `Q` packing: exactly n big-endian bytes |
| Bytes.Int32ToBe | api.py:115 | `struct ">i"`: four bytes whose unsigned value is x, or x + 2^32 for negative x |
| Bytes.BeToInt32 | api.py:327 | `struct.unpack(">i")`: the result is non-negative exactly when the top bit is clear |
| Bytes.Int32RoundTrip | api.py:115 | packing a signed 32-bit ping id and unpacking it gives the id back |
| Bytes.Int32ToBeInverse | api.py:327 | every four bytes are the packing of their unpacked value |
| Text.Split | main.py:68 | `str.split(sep)`: at least one piece, and no piece holds the separator |
| Text.JoinSplit | main.py:68 | joining the pieces of a split with the separator restores the text |
| Text.Join | models.py:40-43 | `sep.join`: the first piece starts the result, and two or more pieces put the separator in it |
| Text.SplitJoin | models.py:40-43 | splitting a join of separator-free pieces gives the pieces back |
| Text.SplitPrefix | api.py:172 | text before the first separator becomes the first piece, and the rest splits as before |
| Text.SplitWithoutSep | api.py:172-173 | text without the separator splits into itself alone |
| Text.NonEmpty | main.py:68 | `filter(None, …)`: only non-empty pieces, each taken from the input, and every non-empty piece of the input kept |
| Text.NonEmptyConcat | main.py:68 | the filter works piece by piece, so the pieces kept stay in their order |
| Text.Strip | api.py:174 | `str.strip()`: the result is a contiguous part of the input with no whitespace at either end, and only whitespace was cut |
| Text.StripKeepsClean | api.py:174 | text with no whitespace at its ends is left as it is |
| Text.RemoveAll | api.py:323 | `replace("\x00", "")`: no NUL remains and every other byte keeps its count |
| Text.RemoveAllConcat | app.py:190 | the removal works byte by byte, so the bytes kept stay in their order |
| Text.RemoveAllAbsent | api.py:323 | text without NUL is unchanged |
| Text.NatToDigits | models.py:40-41 | decimal digits with no leading zero whose value is the number |
| Text.IntToString | models.py:40-41 | `str(x)`: a minus sign exactly for negative x, then digits |
| Text.ParseInt | api.py:208-209 | `int(s)` rejects the empty text |
| Text.IntToStringParses | models.py:40-41 | `int(str(x)) == x` for every integer |
| Codec.Int8ToByte | api.py:128 | `struct ">b"`: two's complement of a signed byte |
| Codec.ByteToInt8 | api.py:128 | the inverse of the signed-byte packing |
| Codec.PingPacket | api.py:111-115 | tag 1, the 16 identity bytes, the big-endian ping id, a 0/1 sync byte, then the data verbatim |
| Codec.EventPacket | api.py:118-122 | tag 2 followed by the 16 identity bytes |
| Codec.AuthPacket | api.py:106-108 | a client decodes it as the handshake acknowledgement |
| Codec.ToastPacket | api.py:125-128 | tag, sub-type byte, title, one NUL, message, at those positions |
| Codec.ChatPacket | api.py:131-133 | tag 4 followed by the message |
| Codec.NoticePacket | api.py:135-137 | a client decodes it as a notice of that kind |
| Codec.KeepalivePacket | api.py:139-141 | a client decodes it as a keepalive |
| Codec.FirstIndex | api.py:128 | the position of the first NUL, or none exactly when there is no NUL |
| Codec.ServerRoundTrip | api.py:106-141 | a client decodes every server packet to the message that was encoded, provided a toast title holds no NUL |
| Codec.PingRoundTrip | api.py:111-115 | a PING packet decodes to its identity, id, sync flag and data |
| Codec.ToastRoundTrip | api.py:125-128 | a TOAST decodes to its type, title and message when the title has no NUL |
| Codec.ToastTitleWithNul | api.py:128 | for every title `t1 + [0] + t2` with no NUL in `t1`, the decoded title is `t1` and the rest of the title, its NUL and the message become the message |
| Codec.FirstNulAt | api.py:128 | the first NUL of a packet body is the separator after a NUL-free title |
| Codec.CleanToken | api.py:323 | the cleaned token has no NUL and is no longer than the raw text |
| Codec.Parse | api.py:318-337 | `C2S.parse`: no message for an empty frame; the tag selects the frame type; a PING has a body exactly when at least 6 bytes long; SUB/UNSUB have a target exactly when 17 bytes long; other tags keep their payload |
| Codec.EncodeClient | api.py:311-315 | each client frame is its tag followed by the layout the parser reads: the token text; id, sync byte and data (6 + data bytes); or the 16 target bytes (17 bytes) |
| Codec.ClientRoundTrip | api.py:318-337 | the server parses what a client encodes: ping id, sync and data exactly, a (un)subscription target, a token after cleaning |
| Codec.PingFrameComplete | api.py:324-330 | every well-formed PING frame is the encoding of its own parse |
| Codec.CleanTokenExamples | api.py:323 | NULs are removed anywhere in the token, and only after stripping, so a NUL can shield whitespace |
| Paths.Segments | main.py:68 | the segments kept are non-empty and free of `/`, and every non-empty segment is kept |
| Paths.Normalize | main.py:68 | the normalised path starts with `/`, has no `//`, and ends in `/` only when it is `/` |
| Paths.JoinShape | main.py:68 | joining clean segments with `/` produces no doubled or trailing slash |
| Paths.NonEmptyOfClean | main.py:68 | filtering already non-empty segments changes nothing |
| Paths.NormalizeKeepsSegments | main.py:68 | the non-empty segments of the input appear in the output unchanged and in order |
| Paths.NormalizeIdempotent | app.py:18 | normalising twice equals normalising once |
| Paths.CollapseDoubleSlashes | main.py:66-71 | the scope path becomes the normalised path, and is written exactly when it differs |
| Paths.CollapseSettles | app.py:18-20 | a rewritten path is never rewritten again |
| Paths.FileIndexKey | main.py:34-35 | index keys have the same length, no backslash, and every other character kept |
| Models.BadgeCsv | models.py:40-43 | the column text is empty exactly for an empty list |
| Models.ParseBadges | api.py:208-209 | empty text is rejected; a parse gives one integer per comma-separated piece |
| Models.ParseAll | api.py:208-209 | every piece parses to the corresponding integer, or some piece does not parse |
| Models.BadgeRoundTrip | models.py:40-43 | a non-empty badge list read back from its column text is the same list |
| Models.EmptyBadgesRejected | models.py:40-43 | an empty badge list becomes the empty text, which `get_limits` cannot parse |
| Models.Zeros | models.py:15-18 | the fallback badge lists are all zero, of the requested length |
| Models.BadgeReadBack | models.py:40-43 | any badge list reads back from its column text as itself, or as a failure when empty |
| Models.DefaultsOf | models.py:15-18 | the default badge columns read back as the configured lists (or the zero fallbacks), and as a failure when a list is configured empty |
| Models.DefaultsWithoutConfig | models.py:31-43 | with nothing configured: ping size 1024, ping rate 32, equip 1, download 50, upload 1, avatar size 100000, 10 avatars, six and twenty-five zero badges |
| Quota.Refresh | api.py:365-370 | a window from another second restarts at zero in the current second; one from the same second is kept |
| Quota.Charge | api.py:378-385 | a ping is allowed exactly when one more ping fits the rate and its bytes fit the byte limit; a refusal keeps the window; an acceptance adds one ping and its bytes |
| Quota.ChargeOutcome | api.py:378-385 | the rate test comes first; a refusal leaves the window unchanged; an acceptance adds one ping and its bytes |
| Quota.WithinPreserved | api.py:365-385 | refreshing and charging never take a window over the identity's limits |
| Quota.Run | api.py:378-385 | a burst of pings gets one verdict per ping |
| Quota.RunFits | api.py:378-385 | pings that fit both limits are all accepted and add up in the window |
| Quota.RateBurst | api.py:378-380 | in a new second, `rate` pings that fit the byte limit pass and the next one is refused for rate |
| Quota.NextSecondRecovers | api.py:365-370 | once the second changes, a ping that fits on its own is accepted again |
| Relay.UserByToken | api.py:80-84 | a user is found exactly when the token is stored and its user exists, and it is that user |
| Relay.TokenAuthenticates | api.py:80-84 | in a consistent database a token authenticates exactly when it is stored, as its owner |
| Relay.UaVersion | api.py:170-176 | the version is non-empty, contains no `/`, has clean ends, and needs a `/` in the user agent |
| Relay.UaVersionReads | api.py:172-175 | `name/version` and `name/version/rest` yield the version stripped of surrounding whitespace, and no version when it is blank |
| Relay.GetLimits | api.py:190-212 | 403 exactly without a non-empty valid token; 500 exactly when a badge column does not parse; otherwise the row's limits with the parsed badges |
| Relay.LimitsOfDefaultUser | api.py:190-212 | a user with default columns gets the configured badge lists, or 500 when one of them is empty |
| Relay.UserNamedIs | api.py:55 | usernames are unique, so the user found by name is that user |
| Relay.PendingIdIs | api.py:39-40 | a username has at most one pending id, so the id found is that one |
| Relay.ReissueKeepsValid | api.py:56-64 | replacing a user's token keeps the database consistent, and the new token is that user's only token |
| Relay.RegisterKeepsValid | api.py:70-77 | creating a user with a fresh token keeps the database consistent, and the token is that user's only token |
| Relay.Fanned | api.py:387-398 | a fanout leaves the set of connections unchanged |
| Relay.FanoutReaches | api.py:390-398 | a registered, working identity is reached exactly when it subscribes to the target and is not the target, or `sync` is set |
| Relay.SendOne | api.py:390-398 | handling one subscription row delivers the packet to that subscriber's connection at most, and to no other |
| Relay.SentAll | api.py:390-398 | after the last row, every connection reached has the packet once and every other outbox is unchanged |
| Relay.SendRow | api.py:391-398 | one row: the packet is appended to the subscriber's registered connection exactly when it is not the sender without `sync` and its send does not fail; every other outbox is unchanged |
| Relay.SendToSubscribers | api.py:387-398 | the loop over the target's subscription rows ends with exactly the fanned-out outboxes |
| Relay.Receive | api.py:363-409 | every frame keeps the set of outboxes, refreshes the sender's window to the current second and leaves other windows alone; only SUB and UNSUB change subscriptions |
| Relay.ReceiveFrame | api.py:363-409 | one receive-loop pass gives the outcome `Receive` defines: refresh, a RATE or SIZE notice back, a counted fanout, or SUB/UNSUB |
| Relay.ReceiveKeepsWindows | api.py:365-385 | a receive-loop pass keeps every window within its user's limits and every outbox in place |
| Relay.Server.constructor | api.py:340 | the relay starts with empty tables, registry, windows and sessions |
| Relay.Server.Handshake | api.py:345-359 | authenticated exactly when the first frame is a TOKEN whose cleaned token is non-empty and valid; then the registry entry is replaced and AUTH is sent first; otherwise close 3000 with nothing registered |
| Relay.Server.Step | api.py:361-413 | one inbound frame changes the subscriptions, windows and outboxes as `Receive` says, and nothing else, keeping the relay consistent |
| Relay.Server.Close | api.py:414-416 | the identity's registry entry is removed whichever connection it names; a live session is recorded as ended (`Closed(1000)`), and a session refused at the handshake is left as it was |
| Relay.Server.GetAuthId | api.py:37-46 | the existing pending id of the username with no change, or else the new id recorded for it |
| Relay.Server.Verify | api.py:49-77 | 400 for an unknown id; a known username gets the new token in place of its old one; a new one needs the Mojang answer (403), a fresh identity (500) and is created with the default limits; on 200 the token is the user's only token |
| Relay.Server.UploadAvatar | api.py:215-242 | 403 without a valid token; 413 with no change when the data exceeds the user's maximum; otherwise the avatar is stored and EVENT reaches the subscribers other than the user |
| Relay.Server.DeleteAvatar | api.py:245-257 | 403 without a valid token, 404 without an avatar, else the avatar is deleted |
| Relay.Server.Motd | api.py:163-177 | 403 without a non-empty valid token; otherwise the user's version becomes the user agent's version when it has one |
| Legacy.FindByName | app.py:60-62 | the token found belongs to the username, and none is found only when no entry has that username |
| Legacy.LegacyReadsToken | app.py:189-192 | a clean token is read as it is, with or without the newer protocol's NUL tag byte in front |
| Legacy.LegacyRelay.constructor | app.py:10-12 | the three dictionaries start empty |
| Legacy.LegacyRelay.GetAuthId | app.py:41-47 | the new id is recorded for the username, and nothing else changes |
| Legacy.LegacyRelay.Verify | app.py:50-74 | 400 with no change for an unknown id or an empty username; an already verified username gets its existing token with no change; otherwise 403 on refusal, or the identity stored under the new token and the pending id removed |
| Legacy.LegacyRelay.Handshake | app.py:185-199 | authenticated exactly when the cleaned first frame is a verified token; then registered and sent a single zero byte; otherwise close 3000 with nothing registered |
| Legacy.LegacyRelay.Disconnect | app.py:201-209 | a disconnect or receive error pops the identity's registry entry whichever connection it names |

## Left out

- The FastAPI and websocket transport (accept, receive, close, `client_state`) is
  not modelled. So are concurrency between handlers and the interleaving of awaits.
  Each request or frame is one atomic step.
- SQLAlchemy sessions, `commit` and `flush` are left out. The tables are maps and
  sets. The `IntegrityError` of an identity that already has a row is modelled as
  500 with no change.
- The Mojang HTTP request is a parameter, and so is the UUID parsing of its reply.
- `secrets.token_hex` and `token_urlsafe` are parameters. A collision of api.py's
  values with stored ones is excluded by a precondition, since it would be an
  `IntegrityError`.
- `time.time()` is a parameter, the current second.
- SHA-256 of asset files, the asset download, zip extraction, `os.walk` and the
  asset and config file I/O are left out as foreign calls and I/O.
- The config file is the `Config` value that the defaults are computed from.
- UTF-8 decoding is left out: text is bytes. A TOKEN frame inside the receive loop
  that is not valid UTF-8 raises in `C2S.parse` (api.py:323) and is dropped before
  the window refresh; the model parses it and refreshes the window.
- Python's `str.strip` also strips non-ASCII whitespace. The model strips only
  ASCII whitespace (9 to 13 and 28 to 32).
- `int()` also accepts surrounding whitespace and underscores. `Text.ParseInt`
  accepts an optional `-` or `+` sign and decimal digits only. Badge columns written by the
  code hold only those.
- `user.last_used`, `random.choice` of the message of the day, `get_version`,
  `get_user_by_uuid`, `equip_item`, `download_avatar` and the asset endpoints do
  not touch the modelled state and are left out.
- `Relay.Server.Close` records every ended live session as `Closed(1000)`. It does
  not model the `client_state` test of api.py:417-418. The receive loop ends only on
  `WebSocketDisconnect` (api.py:410-411), so after a peer disconnect no close frame
  is actually sent.
- `Relay.Server.Close` leaves a session refused with 3000 unchanged. It does not
  model the `close(1000)` that the `finally` still attempts after the handshake's
  own `close(3000)` (api.py:351, 356, 417-418), nor the exception that close can raise.
- `Relay.Server.Step` does not model exceptions from the database during a frame.
  The code swallows them and goes on. A failed send of a NOTICE on the sender's
  own socket is also swallowed, and the model always appends it.
- `Legacy.LegacyRelay.Handshake` does not model the outer `except` of app.py
  (close with 1006 and re-raise). A transport failure reaches it, and so does a
  first frame that is not valid UTF-8, which fails in `decode('utf-8')`.
- Dictionary iteration order in app.py's `verify` loop is not modelled. Usernames
  are unique among verified tokens (`Legacy.NamesUnique`), so the token found is
  the same in any order.
- The commented-out proxy endpoint of app.py is not code and is not modelled.
