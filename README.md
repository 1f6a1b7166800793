# rhole, modelled in Dafny

rhole is a DNS forwarding resolver with a denylist. At startup it reads
denylist and allowlist files, turns every listed name into a key (lower-cased,
one trailing root dot removed, IDNA-converted) and keeps the denylist keys
that are not allowlisted. For each query it then:
- refuses opcodes other than QUERY with REFUSED;
- rejects questions whose class is not IN with NOTIMP;
- answers a denylisted name with a synthesized NXDOMAIN that carries an SOA
  record;
- relays any other query to one of its upstream resolvers, chosen
  round-robin, and answers SERVFAIL when the exchange fails.

On a successful upstream answer it clears the AD (authenticated data) flag
unless the upstream is a loopback address. It keeps three wrapping 32-bit
counters: total queries, blocked queries, and the round-robin position.

The project models all of this. Its modules follow the program:
- `Wrappers` holds `Option`.
- `Strings` is the part of Go's `strings` package that rhole relies on:
  `ToLower`, `TrimSuffix`, `Index` and `Fields`.
- `Net` covers `JoinHostPort`, `IP.To4` and `IP.IsLoopback`, with a reference `SplitHostPort` as the inverse of `JoinHostPort`.
- `Dns` is the DNS message and `miekg/dns`'s `SetReply` and `SetRcode`.
- `Domain` is `normalize`.
- `Lists` covers `readLists` and the allowlist subtraction in `main`.
- `Rhole` is the `Server` class with `ServeDNS` and `exchange`, the counters
  and round-robin selection.

The imperative parts are methods proved against specification functions:
- `Lists.ReadLists`, `Lists.AddFile`, `Lists.AddLine` and
  `Lists.RemoveAllowed` are the loops of `readLists` and `main`.
- `Rhole.Server.ServeDNS` and `Rhole.Server.Exchange` update the server's
  counter fields.

The foreign calls are function-valued parameters:
- `toASCII` is `idna.ToASCII`; it returns None where Go returns an error.
- `parseIP` is `net.ParseIP`.
- `network(addr, query)` is the answer of `dns.Client.Exchange`; None stands
  for a transport error or a timeout.

A uint32 is an `int` in `[0, 2^32)`, and each increment wraps explicitly
(`Rhole.Inc`). `uint32(len(downstreams))` is `|downstreams| % 2^32`.

## Model

| member | source | states |
|---|---|---|
| `Strings.ToLower` | rhole.go:30 | lower-casing keeps the length and maps each character separately |
| `Strings.ToLowerIdempotent` | rhole.go:30 | lower-casing twice is lower-casing once |
| `Strings.ToLowerAppend` | rhole.go:30 | lower-casing distributes over concatenation |
| `Strings.TrimSuffix` | rhole.go:31 | with the suffix present, the result followed by the suffix is the input; without it, the input is unchanged |
| `Strings.Index` | rhole.go:58 | the position found is -1 or inside the string |
| `Strings.IndexFindsFirst` | rhole.go:58 | -1 exactly when the character is absent; otherwise it is the first position holding the character |
| `Strings.WordLen` | rhole.go:61 | the leading word run is no longer than the string |
| `Strings.WordLenMaximal` | rhole.go:61 | the run has no white space and stops at white space or the end |
| `Strings.Fields` | rhole.go:61 | every field `strings.Fields` returns is non-empty and free of white space (the lemmas below pin down which fields they are) |
| `Strings.FieldsOfBlank` | rhole.go:61 | a string of white space only has no fields |
| `Strings.FieldsSplit` | rhole.go:61 | splitting at a white-space character splits the fields at that point |
| `Strings.FieldsOfWord` | rhole.go:61 | a single word is its own only field |
| `Strings.FieldsUnwords` | rhole.go:61 | joining words with spaces and splitting again gives the words back |
| `Net.To4` | rhole.go:169 | the 4-byte form of a 4-byte address is itself; a 16-byte address has one exactly when it starts with the IPv4-mapped prefix ::ffff:, and it is then the last 4 bytes; any other length has none |
| `Net.IsLoopbackIP` | rhole.go:169 | an IP is loopback exactly when it is 4 bytes starting with 127, or 16 bytes of the form ::ffff:127.x.y.z, or ::1 |
| `Net.IsLoopback` | rhole.go:164-170 | an address is loopback exactly when it parses, and to one of those forms; an unparseable address never is |
| `Net.LoopbackExamples` | rhole.go:164-170 | 127.0.0.1 (IPv4-mapped) and ::1 are loopback; 8.8.8.8 is not |
| `Net.JoinHostPort` | rhole.go:179 | the address has the host's length plus the port's plus one (plus two for brackets when the host contains a colon) and ends in ":" and the port; the full layout, host in brackets when it contains a colon, follows together with `Net.JoinHostPortRoundTrip` |
| `Net.JoinHostPortRoundTrip` | rhole.go:179 | splitting the joined address at its last colon and removing the brackets gives back the host and the port |
| `Dns.SetReply` | rhole.go:105 | the reply copies the request's id and opcode, sets QR and success, keeps the request's first question (or the reply's own when the request has none), copies RD and CD for a standard query, and leaves RA, AD and the record sections as they were |
| `Dns.SetRcode` | rhole.go:98 | the reply has the given rcode, the request's id and opcode, QR set, the request's first question, RD and CD copied for a standard query, and the RA, AD and record sections of the message it started from |
| `Dns.SetReplyIdempotent` | rhole.go:105-111 | making a message a reply to the same request twice is doing it once |
| `Dns.SetRcodeAfterSetReply` | rhole.go:105-111 | `SetRcode` after `SetReply` on the same request is `SetRcode` alone |
| `Domain.NormalizeSeesOnlyFolded` | rhole.go:29-37 | names that agree after lower-casing and dropping one trailing dot get the same key |
| `Domain.Normalize` | rhole.go:29-37 | the key is IDNA's result on the folded name; when IDNA fails it is the lower-cased name, one trailing dot shorter when it ends in one and unchanged otherwise, with no ASCII capital |
| `Domain.FoldedDropsOneDot` | rhole.go:30-31 | folding removes exactly one trailing dot from a lower-cased name that ends in one, and leaves any other name unchanged |
| `Domain.NormalizeIgnoresCase` | rhole.go:30 | lower-casing the name first does not change its key |
| `Domain.NormalizeIgnoresRootDot` | rhole.go:31 | one appended root dot does not change the key of a name without a trailing dot |
| `Domain.NormalizeExample` | rhole.go:29-37 | "Example.COM." and "example.com" get the same key |
| `Domain.NormalizeNotIdempotent` | rhole.go:31 | for plain ASCII names, "a.." normalizes to "a.", and normalizing again gives "a" |
| `Lists.StripComment` | rhole.go:58-60 | the text kept is the prefix before the first "#"; it has no "#" and is the whole line when there is none |
| `Lists.ReadLists` | rhole.go:39-80 | the result is the keys of every field of every line of every file, or None as soon as one file is unreadable |
| `Lists.AddFile` | rhole.go:51-73 | scanning a file adds exactly the keys of its lines to the set |
| `Lists.AddLine` | rhole.go:57-72 | one line adds exactly the normalized fields of its text before "#" |
| `Lists.RemoveAllowed` | rhole.go:262-264 | deleting every allowlisted key leaves exactly the denylist minus the allowlist |
| `Lists.LoadDenylist` | rhole.go:252-264 | the server's denylist is the denylist files' keys minus the allowlist files' keys, or none when either read fails |
| `Lists.ListsKeysFailureSticks` | rhole.go:43-46 | after an unreadable file, reading further files never succeeds |
| `Lists.ListsKeysSucceeds` | rhole.go:42-79 | the read succeeds exactly when every file is readable |
| `Lists.ListsKeysMember` | rhole.go:42-79 | on success a key is in the result exactly when some file has it among its lines' keys |
| `Lists.KeysMember` | rhole.go:70-72 | a key of a line's fields is the normalization of one of them, and each field's normalization is a key |
| `Lists.LinesKeysMember` | rhole.go:51-73 | a key of a file is a key of one of its lines, and every line's keys are keys of the file |
| `Lists.LinesKeysAppend` | rhole.go:51-73 | the keys of two runs of lines are the union of their keys |
| `Lists.LinesKeysOrderFree` | rhole.go:51-73 | the order of the lines does not change the keys |
| `Lists.RepeatedLineAddsNothing` | rhole.go:70-72 | repeating a line, and so inserting duplicate keys, leaves the set unchanged |
| `Lists.TextAfterHashIgnored` | rhole.go:58-60 | text from the first "#" on contributes nothing |
| `Lists.BlankOrCommentLineAddsNothing` | rhole.go:58-72 | a blank or comment-only line adds no key |
| `Lists.LineOfWordsKeys` | rhole.go:57-72 | a line of space-separated words contributes exactly the words' normalizations |
| `Rhole.Inc` | rhole.go:118 | the atomic increment is one more, except that 2^32 - 1 wraps to 0 |
| `Rhole.Pick` | rhole.go:173-177 | with a non-zero `uint32(len)`, the chosen index is the counter mod N and always a valid index, so the negative-offset branch cannot be taken |
| `Rhole.Picks` | rhole.go:173-177 | k consecutive selections give k valid indices |
| `Rhole.Relay` | rhole.go:179-195 | a transport error gives no message; otherwise the upstream's answer is returned with only AD possibly changed, and AD is kept exactly when it was set and the answer is not a success or the upstream is loopback |
| `Rhole.Classify` | rhole.go:97-121 | REFUSED exactly for opcodes other than QUERY, NOTIMP exactly for a non-IN first question, a block exactly for a denylisted key, a relay otherwise |
| `Rhole.RefusedReply` | rhole.go:95-98 | the REFUSED reply answers the query, has RA and AD clear and empty sections |
| `Rhole.Accepted` | rhole.go:105-106 | an accepted query's reply answers it, has success rcode, RA set and empty sections |
| `Rhole.NotImplementedReply` | rhole.go:110-111 | the NOTIMP reply answers the query with RA set, AD clear and empty sections |
| `Rhole.ServerFailureReply` | rhole.go:150-153 | the SERVFAIL reply answers the query with RA set, AD clear and empty sections |
| `Rhole.BlockedReply` | rhole.go:121-141 | the block reply is NXDOMAIN with RA set, AD clear, no answer or additional records, and exactly one SOA authority record: owner the query name, class IN, TTL 9999, `invalid.`, `hostmaster.invalid.`, 1, 900, 900, 1800, 60 |
| `Rhole.LocalReply` | rhole.go:97-148 | a reply that is not relayed answers the query with REFUSED (RA clear), NOTIMP or NXDOMAIN (RA set), never has AD set, and only the NXDOMAIN has a record, exactly one, in the authority section |
| `Rhole.RelayedReply` | rhole.go:150-160 | a relayed query's answer is exchange's message, or a SERVFAIL reply to the query when exchange fails |
| `Rhole.Step` | rhole.go:118-142 | refused and NOTIMP queries change no counter; a block adds one to the total and blocked counts; a relay adds one to the total and the round-robin counter (all mod 2^32) |
| `Rhole.StepsCount` | rhole.go:118-142 | over any run of queries each counter is its start plus the number of queries of its kind, mod 2^32 |
| `Rhole.BlockedAtMostTotal` | rhole.go:118-142 | from zero, while fewer than 2^32 queries are accepted, the blocked count never exceeds the total |
| `Rhole.RoundRobinCovers` | rhole.go:173-177 | n consecutive relays that do not wrap the counter go to n different upstreams, covering all of them |
| `Rhole.RoundRobinWrapSkips` | rhole.go:173 | across the wrap, 3 upstreams with the counter at 2^32 - 2 get indices 0, 0, 1 |
| `Rhole.Server.constructor` | rhole.go:208-214 | a new server holds the given denylist and upstreams, with all counters zero |
| `Rhole.Server.Exchange` | rhole.go:172-196 | the round-robin counter goes up by one with wrap-around, the upstream at (new counter mod N) is asked, and the result is `Relay`'s |
| `Rhole.Server.ServeDNS` | rhole.go:94-162 | the counters move by `Step` for the query's verdict; the message written is the local reply for that verdict, or for a relay the upstream answer or SERVFAIL |

## Left out

- Reading files: `os.Open`, `bufio.Scanner`'s line splitting and its errors (rhole.go:43-49, 74-76). A list file is given as its lines, or as `Unreadable` when opening or scanning fails.
- The `hosts` branch of `readLists` (rhole.go:50, 63-68). Its flag is never set, because the line that sets it is commented out.
- Config and CLI: argument handling, TOML decoding, the default timeout, the signal loop and the blocked-percentage report (rhole.go:232-250, 266-294). These are process plumbing and floating point.
- `NewServer`'s listeners and client timeout, and `Serve`/`Close` (rhole.go:198-230). These are socket I/O. Only the `Server` value it builds is modelled, as the constructor.
- Writing the reply (`w.WriteMsg`) and logging its errors. `ServeDNS` instead returns the message it writes.
- The "Downstream error" log line when the exchange fails (rhole.go:152). Logging has no effect on the reply or the counters.
- `atomic.AddUint32` is a plain sequential increment with wrap-around. Concurrency between handlers is out of scope.
- `idna.ToASCII`, `net.ParseIP` and `dns.Client.Exchange` are parameters, so their own behaviour (IDNA mapping, address syntax, the wire protocol, timeouts) is not modelled.
- `Strings.ToLower` lower-cases ASCII letters only. Go's `strings.ToLower` applies full Unicode case mapping, and the IDNA conversion that follows it does no case mapping of its own. So the program gives "BÜCHER.de" and "bücher.de" the same key, and the model does not promise that: `Domain.NormalizeIgnoresCase` and `Domain.NormalizeSeesOnlyFolded` hold only for ASCII case.
- Go strings are byte strings, while the model's strings are sequences of characters. A list line or query name holding invalid UTF-8 cannot be expressed. Go's `strings.ToLower` replaces invalid bytes in non-ASCII input with U+FFFD, so distinct invalid entries can share a key in the program; the model says nothing about such entries.
- Rhole.Server.ServeDNS and Rhole.Classify require a QUERY to carry at least one question. The program reads the first question without checking (rhole.go:108), so a QUERY with an empty question section makes the handler panic with an index out of range. The model does not describe that panic, and does not show that no query can stop the server.
- The DNS message has only the fields rhole reads or writes. Records other than SOA are opaque, and nothing is encoded to the wire.

## Where the code differs from its stated design

The model follows the code in each case.
- Every response is said to carry RA. The REFUSED reply is built from a fresh message and has RA clear (`Rhole.RefusedReply`). A relayed answer carries whatever RA the upstream set.
- An empty upstream list is said to be rejected when the server is built. `NewServer` does not check it. The first relayed query would then divide by zero in `exchange`. `Rhole.Server.Exchange` and `Rhole.Server.ServeDNS` therefore require a non-zero `uint32(len(downstreams))` when a relay happens.
- The synthesized SOA carries a record TTL of 9999 while its MINIMUM field is 60 (rhole.go:131, 139). Section 3 of RFC 2308 sets the TTL of the SOA in a negative answer to the smaller of its MINIMUM field and the SOA's own TTL, which would be 60 here. The model keeps the program's 9999 (`Rhole.BlockedReply`).
- `normalize` removes only one trailing dot, so it is not idempotent (`Domain.NormalizeNotIdempotent`).
- The negative-offset branch in `exchange` cannot be taken on any platform. The remainder is below `uint32(len(downstreams))`, which fits in an `int`. It is modelled as unreachable.
- The round-robin counter wraps at 2^32. Across the wrap the rotation restarts at index 0, so unless N divides 2^32 some upstream is skipped in that round (`Rhole.RoundRobinWrapSkips`).
