# hopper forwarding primers, modelled in Dafny

hopper is a reverse proxy for Minecraft servers. Once it has chosen a backend
for a client, it opens a connection to that backend and "primes" it. Priming
means sending the handshake first, so the backend learns where the player
really connects from. The configured `ForwardStrategy` names one of three
primers:

- **Passthrough** (strategy `None`, the default) re-sends the client's
  handshake packet byte for byte.
- **BungeeCord** refuses a server address that already contains a NUL.
  Otherwise it appends NUL, the client's IP, NUL, and the player's offline
  UUID, which is derived from the player name when the primer is built.
- **RealIP** refuses a server address that contains a `/`. Otherwise it
  inserts `///` and the client's `ip:port` into the address. The insertion
  point is the end of the address. When a mod loader has appended data after
  a NUL, the insertion point is one byte before that first NUL.

The project has five modules:

- `Bytes` (`bytes.dfy`) holds the `String` operations the primers use, over
  the UTF-8 bytes of the address: `contains`, `find`, `insert_str` with its
  char-boundary panic, and splitting and joining on a delimiter, which is how
  a backend reads the fields back.
- `Render` (`render.dfy`) holds the `Display` texts of IP addresses, socket
  addresses and UUIDs. It proves that none of them contains a NUL or a `/`.
- `Forwarding` (`forwarding.dfy`) holds the strategy enum, the primer
  constructors, and each primer's rewrite as a function with its properties.
  It also holds the imperative `prime_connection` methods. These update a
  `Stream` object whose `sent` log records the packets written to the
  backend.
- `RealIpFindings` (`findings.dfy`) compares the RealIP insertion point as
  written with the one evidently intended.
- `ForwardingExamples` (`examples.dfy`) works through concrete scenarios: a
  player at 203.0.113.5:54321 connecting to `mc.example.com`.

The RealIP code marks its NUL handling as mod-loader support
(`src/server/bridge/forwarding.rs:114`). A Forge client appends a NUL and a
marker such as `FML` to the host name, and the backend still has to find that
suffix after the first NUL. Inserting directly before that NUL does this and
keeps the host name whole. The code inserts at the NUL's offset minus one
(`src/server/bridge/forwarding.rs:118`). What this does depends on the input:

- `host NUL suffix` with an ASCII host does not panic. The data lands in the
  wrong place: before the host's last character.
- An address that starts with NUL panics, because `0 - 1` underflows.
- An address whose first NUL is past offset 1 panics when the byte before
  the NUL continues a multi-byte character, because `insert_str` is then
  given an offset that is not a char boundary.

The primers here follow the code. The differences are recorded under
Findings.

## Model

| member | source | states |
|---|---|---|
| Bytes.Find | src/server/bridge/forwarding.rs:117 | `find('\x00')` gives no offset exactly when the byte does not occur. Otherwise it gives the offset of the first occurrence: the byte is there and absent before it. |
| Bytes.InsertStr | src/server/bridge/forwarding.rs:124-126 | `insert_str` succeeds exactly at a char boundary: 0, the length, or an inner byte that does not continue a multi-byte character. Otherwise it panics. On success the result is longer by the inserted text, holds it at the offset, and removing it gives the original back. |
| Bytes.SplitJoin | src/server/bridge/forwarding.rs:73-79 | A backend splitting on the delimiter recovers exactly the fields that were joined, provided none contains the delimiter. |
| Bytes.JoinSplit | src/server/bridge/forwarding.rs:73-79 | Splitting an address on the delimiter and joining the fields back rebuilds it, so no forwarded byte is lost. |
| Render.IpText | src/server/bridge/forwarding.rs:77 | The rendered IP (`player_addr.ip()`) is non-empty and holds neither NUL nor `/`, so it can sit between BungeeCord's NULs. |
| Render.SocketAddrText | src/server/bridge/forwarding.rs:123 | The rendered `ip:port` holds neither NUL nor `/`. It ends with `:` followed by the port in decimal. |
| Render.NumeralRoundTrip | src/server/bridge/forwarding.rs:123 | Reading the rendered decimal or hex digits back gives the number that was rendered, so the forwarded port and groups are exact. |
| Render.UuidText | src/server/bridge/forwarding.rs:78 | The rendered UUID is 36 bytes long, holds neither NUL nor `/`, and has hyphens at offsets 8, 13, 18 and 23. |
| Forwarding.StrategyName | src/server/bridge/forwarding.rs:11-23 | Each strategy's configuration name (`none`, `bungeecord`, `realip`) reads back as that same strategy. |
| Forwarding.ParseStrategy | src/server/bridge/forwarding.rs:11-23 | The name `none` reads as the default strategy, `None`, and no other name does. |
| Forwarding.ParseStrategyNames | src/server/bridge/forwarding.rs:11-23 | Every name that reads as a strategy is that strategy's own name, so exactly the three renamed names are accepted, case-sensitively. |
| Forwarding.FromUsername | src/server/bridge/forwarding.rs:46-53 | Has no contract of its own. `Forwarding.FromUsernameForwards` states what the primer it builds forwards. |
| Forwarding.NewRealIp | src/server/bridge/forwarding.rs:94-96 | Has no contract of its own. `Forwarding.NewRealIpForwards` states what the primer it builds forwards. |
| Forwarding.RealIpData | src/server/bridge/forwarding.rs:123 | The inserted data is `///` followed by the client's `ip:port` text, 3 bytes longer than that text. It holds no NUL, so inserting it leaves the mod-loader suffix after the first NUL intact. |
| Forwarding.Stream.Write | src/server/bridge/forwarding.rs:83 | A write to an accepting connection appends exactly the packet and returns Ok. A broken connection returns an I/O error and nothing is appended. |
| Forwarding.BungeeCordRewrite | src/server/bridge/forwarding.rs:64-80 | BungeeCord fails with Invalid exactly when the address contains NUL, and it never panics. On success only the server address changes, and the old address is a prefix of the new one. |
| Forwarding.BungeeCordRoundTrip | src/server/bridge/forwarding.rs:69-79 | With no NUL in the address, splitting the forwarded address on NUL gives exactly the original address, the IP text and the UUID text. The address is the join of those three. |
| Forwarding.FromUsernameForwards | src/server/bridge/forwarding.rs:46-53 | A primer built by `from_username` forwards the original address, the IP without port, and the offline UUID of that player name. |
| Forwarding.BungeeCordIgnoresPort | src/server/bridge/forwarding.rs:77 | Only the IP is forwarded: two client addresses that differ only in port give the same BungeeCord handshake. |
| Forwarding.RealIpInsertIndex | src/server/bridge/forwarding.rs:115-119 | The insertion offset is either produced or an underflow panic, never an error. It underflows exactly when the address starts with NUL. Without a NUL it is the length. Otherwise it is one before the first NUL. |
| Forwarding.RealIpRewrite | src/server/bridge/forwarding.rs:106-126 | RealIP fails with Invalid exactly when the address contains `/`, and with no other error. On success only the server address changes, and it grows by exactly `///` plus the `ip:port` text. |
| Forwarding.RealIpPanics | src/server/bridge/forwarding.rs:115-126 | RealIP panics with an underflow exactly when there is no `/` and the first NUL is at offset 0. It panics in `insert_str` exactly when the first NUL is past offset 1 and the byte before it continues a multi-byte character. |
| Forwarding.RealIpWithoutNul | src/server/bridge/forwarding.rs:115-126 | With neither NUL nor `/`, the RealIP address is the original followed by `///` and `ip:port`. |
| Forwarding.RealIpRoundTrip | src/server/bridge/forwarding.rs:110-126 | With neither NUL nor `/`, splitting the forwarded address on `/` gives the original address, two empty fields, and the client's `ip:port`. |
| Forwarding.NewRealIpForwards | src/server/bridge/forwarding.rs:94-96 | A primer built by `RealIP::new` plans a serialized handshake whose address splits on `/` into the original, two empty fields, and that client's `ip:port`. |
| Forwarding.RealIpWithNul | src/server/bridge/forwarding.rs:115-126 | If the first NUL is at offset i ≥ 1 and offset i-1 is a char boundary (i = 1, or the byte before the NUL starts a character), the address becomes `s[..i-1] + data + s[i-1..]`. The data sits at offset i-1, cutting it out gives the original back, and the length grows by 3 plus the `ip:port` length. |
| Forwarding.RealIpAsciiPanics | src/server/bridge/forwarding.rs:115-126 | For an ASCII address, RealIP panics exactly when the address has no `/` and starts with NUL. |
| Forwarding.Planned | src/server/bridge/forwarding.rs:25-38 | Passthrough plans the raw received bytes. The rewriting primers plan a serialized handshake equal to the received one except for the server address. The only error a primer plans is Invalid. |
| Forwarding.DeliversAtMostOne | src/server/bridge/forwarding.rs:82-85 | Priming appends at most one packet to the connection, and exactly one when it returns Ok: the planned packet. |
| Forwarding.BungeeCordPrime | src/server/bridge/forwarding.rs:59-86 | `BungeeCord::prime_connection` writes the planned BungeeCord packet when the connection accepts it. It returns the refusal or write error otherwise, and in that case sends nothing. |
| Forwarding.RealIpPrime | src/server/bridge/forwarding.rs:101-132 | `RealIP::prime_connection` writes the planned RealIP packet when the connection accepts it. It returns the refusal, panic or write error otherwise, and in that case sends nothing. |
| Forwarding.PassthroughPrime | src/server/bridge/forwarding.rs:140-149 | `Passthrough::prime_connection` writes the received raw bytes unchanged and without validation. |
| Forwarding.PrimeConnection | src/server/bridge/forwarding.rs:33-37 | Priming by any primer keeps the sent log as a prefix and adds at most one packet, exactly one on Ok. A BungeeCord address with NUL, or a RealIP address with `/`, returns Invalid with nothing sent. Passthrough on a working connection sends exactly the raw bytes. |
| RealIpFindings.RealIpRewriteAtNul | src/server/bridge/forwarding.rs:114-126 | The corrected RealIP rewrite, which inserts at the first NUL itself. It fails with Invalid exactly when `/` is present and otherwise never panics. Only the address changes, and it grows by the forwarded data. |
| RealIpFindings.RealIpAtNulModLoader | src/server/bridge/forwarding.rs:114-126 | For `host NUL suffix`, the corrected rewrite gives `host ///ip:port NUL suffix`. The first NUL-delimited field is the host followed by the forwarded data. |
| RealIpFindings.RealIpAtNulAgrees | src/server/bridge/forwarding.rs:115-119 | Without a NUL, the corrected and the written insertion points give the same result. |
| RealIpFindings.RealIpModLoaderAsWritten | src/server/bridge/forwarding.rs:118 | As written, for `host NUL suffix` with an ASCII last host character, the data lands before that character. The result differs from the corrected one. |
| RealIpFindings.RealIpLeadingNulAsWritten | src/server/bridge/forwarding.rs:118 | As written, an address starting with NUL panics with an underflow. The corrected rewrite puts the data in front. |
| RealIpFindings.RealIpMultibyteAsWritten | src/server/bridge/forwarding.rs:124-126 | As written, `é NUL suffix` panics in `insert_str`, because offset 1 lies inside `é`. The corrected rewrite succeeds. |
| ForwardingExamples.PeerIpText | src/server/bridge/forwarding.rs:77 | The IP of 203.0.113.5:54321 renders as `203.0.113.5`. |
| ForwardingExamples.PeerRealIpData | src/server/bridge/forwarding.rs:123 | RealIP's data for 203.0.113.5:54321 is `///203.0.113.5:54321`. |
| ForwardingExamples.BungeeCordScenario | src/server/bridge/forwarding.rs:74-79 | For player Notch on `mc.example.com`, BungeeCord plans `mc.example.com NUL 203.0.113.5 NUL` followed by Notch's offline UUID text. |
| ForwardingExamples.RealIpScenario | src/server/bridge/forwarding.rs:123-126 | RealIP turns `mc.example.com` into `mc.example.com///203.0.113.5:54321`. |
| ForwardingExamples.RealIpModLoaderScenario | src/server/bridge/forwarding.rs:115-126 | As written, RealIP turns `mc.example.com NUL FML NUL` into `mc.example.co///203.0.113.5:54321m NUL FML NUL`. |

## Left out

- The tokio `TcpStream`, `async`, and the `async_trait` machinery are left out. The connection is the `Stream` object. Its `accepting` flag stands in for whether the backend's socket accepts writes. A write is modelled as all or nothing, with no partial writes.
- Wire framing is left out. `packet::write_serialize` and `write_into` frame a packet into bytes in modules outside this model, so `Packet` records what is written (a handshake to serialize, or raw bytes) and not its bytes. Decoding the raw packet (`DecodedPacket`, `into_data`, `as_ref`) is outside this model for the same reason.
- `PlayerUuid::offline_player` is not part of this model. The name-to-UUID derivation is the parameter `offlinePlayer`.
- `PlayerUuid`'s `Display` is not part of this model either. The UUID text is taken to be the hyphenated lowercase hex form.
- The `IpAddr` and `SocketAddr` `Display` texts are written out after the Rust standard library. The IPv6 form is included, but not IPv6 flow information, which `Display` does not print.
- The serde deserializer is left out. The names its renames accept are modelled by `ParseStrategy`, and the default `None` by `DEFAULT_STRATEGY`. Choosing a primer from the strategy happens in code that is not part of this model.
- Rust `String`'s UTF-8 validity is not modelled. The address is any byte sequence. `is_char_boundary`, the only part of it the code depends on, is modelled exactly.
- `.unwrap()` after `write!` into a `String` cannot fail, so it has no error path.
- Integer width: `a - 1` underflows only at 0, which is modelled as a panic. A release build would wrap to `usize::MAX`, and `insert_str` would then panic on that offset, so the outcome is a panic either way.
- Forwarding.RealIpPrime: follows the code as written, including both panics and the off-by-one insertion point. The corrected insertion is `RealIpFindings.RealIpRewriteAtNul`, and the primers do not use it.

## Findings

| source | as written | input that shows it | evidently intended | confidence | as-written member | corrected member |
|---|---|---|---|---|---|---|
| src/server/bridge/forwarding.rs:118 | RealIP inserts its data one byte before the first NUL | `mc.example.com\0FML\0` becomes `mc.example.co///203.0.113.5:54321m\0FML\0` | insert directly before the NUL: `mc.example.com///203.0.113.5:54321\0FML\0` | high; not executed | RealIpFindings.RealIpModLoaderAsWritten | RealIpFindings.RealIpAtNulModLoader |
| src/server/bridge/forwarding.rs:118 | `a - 1` underflows when the first NUL is at offset 0, and the task panics | `\0FML\0` | no panic: the data goes in front of the NUL, at offset 0 | high; not executed | RealIpFindings.RealIpLeadingNulAsWritten | RealIpFindings.RealIpRewriteAtNul |
| src/server/bridge/forwarding.rs:124-126 | `insert_str` is given an offset inside a multi-byte character, and the task panics | `é\0` (bytes C3 A9 00): offset 1 is inside `é` | no panic: the data goes right after `é` | high; not executed | RealIpFindings.RealIpMultibyteAsWritten | RealIpFindings.RealIpRewriteAtNul |
