# Docker Dash: verified models of the outbound filter and four smaller algorithms

Docker Dash can put an outbound-filter sidecar in front of containers. The
sidecar accepts a TCP connection, peeks at its first packet for a host name,
makes that name canonical, decides it against a policy (or against the
intersection of the policies of the connection's source), resolves and vets every
address, dials one, and splices the two streams. Policies are replaced while
connections are in flight. This project models that program and proves what it is
for, from single functions up to statements about every run of any number of
interleaved connections and reloads. Four smaller algorithms of the web client
and the release scripts are modelled beside it.

| file | what it models |
|---|---|
| text.dfy | trimming, splitting and numerals of Go's `strings` and `strconv` |
| iptext.dfy | `net.ParseIP` and `IP.String`, IPv4 and IPv6 |
| spelling.dfy | every text of an address as a grammar, and the proof that the parser accepts exactly these |
| canonical.dfy | the canonical text among them, and the round trip |
| authority.dfy | `destination`: host and port canonicalisation |
| destination.dfy | exactly which authorities name which host and port |
| policy.dfy | policy loading, in-place normalisation, allowlist matching |
| decision.dfy | metadata pinning, one policy, the intersection of scoped policies |
| wildcard.dfy | which wildcard entries cover IPv4 addresses |
| authorization.dfy | in-place validation of the resolver's answer, and the verdict on a connection |
| clienthello.dfy | the ClientHello parser and the encoder it inverts |
| stream.dfy | the buffered reader and `peekHostname` |
| forward.dfy | header, buffer replay and copy |
| dial.dfy | resolve once, vet, dial |
| machine.dfy | the running sidecar as a transition system, with its invariant |
| runs.dfy | theorems over every run |
| reachable.dfy | what can happen next from every reachable state: reloads, dials, refusals, delivery |
| progress.dfy | the server-sent-event reader of compose actions |
| boundary.dfy | what that reader is fed when chunk boundaries cut line ends |
| delivery.dfy | what it then delivers, for every text |
| blocks.dfy | the blocks of a text, and how cut blank lines group them |
| exact.dfy | which chunkings the reader gets right, exactly |
| sent.dfy | what the server sends, and that the reader reports exactly that |
| fuzzy.dfy | the command palette's scorer |
| gate.dfy | the image vulnerability gate |
| translations.dfy | translation lookup and the in-place override merge |

## How to read it

The main results, in the order of the sidecar's work:

* `ClientHello.ServerNameExactly` and `Stream.PeekedExactly`: for every byte stream,
  a host comes out exactly when the stream begins with one record that holds a hello
  announcing it, or with an HTTP header up to its first blank line.
* `Spellings.ParseIPExactly`: a text is read as an address exactly when the grammar of
  address texts derives it with that value: groups of one to four digits in either
  case, `::` at any place, a dotted tail.
* `Destinations.DestinationExactly`: an authority names a host and a port exactly when
  it is one of the ways to write them. `Authority.DestinationRoundTrip` and
  `Authority.CanonicalIffFixed` are the round trip and the fixed points.
* `Machine.LocatedExactly` joins the two: from the first byte to host and port.
* `Decisions.SpelledAddressPinned`, `Decisions.PinnedAsWritten`: pinning works on the
  address that is written, in whatever spelling.
* `Policies.NormalEntryExactly`, `Policies.LoadedExactly`, `Authorization.AcceptedExactly`:
  which entries, files and answers are accepted, and as what.
* `Authorization.VerdictExactly`, on top of `Decisions.ScopedIsIntersection`: the whole
  decision, reason and audit flag included, is the order-free intersection of the
  policies as they were given.
* `Forward.PeekAndSplice`: byte conservation for every chunking and every pattern of
  failing writes.
* `Runs.DialOnlyWhenPermitted`, `Reachable.PermittedCanDial`,
  `Reachable.UnpermittedIsDenied`: a connection dials only if the one policy it loaded
  permits it, under schema 2 by the policies the resolver gave for the very address
  that connected; what the current policy permits can be dialled and served, and what
  it does not permit can be counted as denied, with nothing dialled.
* `Runs.DialAsSpecified`: in every run the dialling events of a connection have an
  outcome that the sequential `Dial.DialResolved` is specified to have.
* `Runs.CountersConserved`, `Runs.OutcomeForever`, `Runs.DecisionForever`,
  `Runs.PointerMovesByLoad`, `Reachable.ReloadCompletes`, `Runs.ForwardedIsPrefix`,
  `Reachable.SplicedCanDeliver`, `Runs.Progress`, `Reachable.CanFinish`: counters,
  authorizations, reloads and both streams under arbitrary interleaving.
* `SentEvents.SentIsObserved`: what the server sends on a compose action is what the
  reader reports, for every chunking.

The sidecar is modelled as a transition system because its connections share only
the policy pointer and the counters, each through one atomic operation. An event
is one such operation with the local work before it, and the local work is the
same functions the sequential methods are proved against. `Runs.Progress` shows
that some event is enabled for every reachable connection that is not closed, and
that every answer of the resolvers and every dial result is enabled where the
connection waits for one.

Two readings of the code worth knowing:

* One property does not hold of the compose reader as it stands. Line endings are
  normalised piece by piece, so a piece boundary between a CR and its LF hides a
  line end. `ComposeProgress.FedIffBoundaryFree` says exactly when the reader sees
  the normalised text, and `ComposeProgress.ChunkingIrrelevant` that chunking is then
  irrelevant; both always hold for text with bare line feeds. For every text and
  every chunking, `Delivery.DeliveredAsMasked` says what is observed: up to carriage
  returns in the payloads, what the normalised text would give if every empty line
  cut between its CR and its LF were a comment line. So the blocks on either side of
  a cut blank line are read as one group. `ExactDelivery.ObservedIffIntact` gives the
  exact condition, for every text: the reader observes what the normalised text gives
  exactly when, up to the first error event, each group has the data and the type of
  its first block with data. For events and comments that means that no group joins
  two blocks with data (`ExactDelivery.PlainHarmless`); a cut blank line before a
  comment, or at the end of the stream, does no harm by itself.
* The comment on the matching function shows wildcards for names. The test is
  textual, and labels may be numbers, so the entry `*.2.3.4` admits the address
  `1.2.3.4` (`Wildcards.WildcardAdmitsAddress`). `Wildcards.WildcardCoversAddress`
  says exactly which wildcards cover an address: those whose base has at most three
  labels, all of them octets.

Library calls appear as parameters or as inputs: the conversion of bytes to text,
`http.ReadRequest` and JavaScript lower-casing are arbitrary functions; decoded JSON
files and answers, DNS answers, dial results, write failures, read chunking and
the moment of a reload are arbitrary values.

## Model

| member | source | states |
|---|---|---|
| Spellings.V4Exactly | docker/egress-filter/main.go:187-189 | a text is read as an IPv4 address exactly when it is four numbers from 0 to 255 without leading zeros between three dots, with their value |
| Spellings.ParseIPExactly | docker/egress-filter/main.go:187-189 | a text is read as an address exactly when it is one of that address's spellings: a dotted quad; or eight groups of one to four hexadecimal digits in either case; or fewer with `::` once, for at least one zero group; the last two groups optionally as a dotted quad |
| Spellings.SpellsLower | docker/egress-filter/main.go:170 | lower-casing a spelling of an address gives a spelling of the same address |
| CanonicalTexts.V4RoundTrip | docker/egress-filter/main.go:187-189 | the dotted text of an IPv4 address parses back to that address and holds no colon |
| CanonicalTexts.V6RoundTrip | docker/egress-filter/main.go:187-189 | the compressed text of any eight groups parses back to the same groups, wherever the zero run stands |
| CanonicalTexts.PrintRoundTrip | docker/egress-filter/main.go:187-189 | parsing undoes printing for every address of either family |
| CanonicalTexts.PrintInjective | docker/egress-filter/main.go:80-86 | two addresses with one canonical text are one address, so a set of texts pins addresses |
| IPText.EllipsisIsFirstLongest | docker/egress-filter/main.go:187-189 | the ellipsis of a canonical IPv6 text stands for the first longest run of at least two zero groups, and is there whenever one exists (section 4.2 of RFC 5952) |
| CanonicalTexts.PrintShape | docker/egress-filter/main.go:187-189 | a canonical address is lower case, holds only digits, colons and dots, never begins or ends in a dot, and has no colon (IPv4) or at least two and no dot |
| Authority.DestinationCanonical | docker/egress-filter/main.go:169-204 | every accepted authority yields a canonical host (an address text, or 1 to 63 character labels of legal characters, 253 in all) and an empty port or the decimal of 1 to 65535 |
| Authority.DestinationIdempotent | docker/egress-filter/main.go:169-204 | a canonical host with a canonical default port is returned unchanged |
| Authority.DestinationRejoined | docker/egress-filter/main.go:169-204 | the joined host:port form, bracketed when the host has colons and in any letter case, gives back exactly host and port whatever the default port |
| Authority.DestinationRoundTrip | docker/egress-filter/main.go:169-204 | for every accepted authority, canonicalising the host alone or the re-joined pair again changes nothing |
| Authority.CanonicalIffFixed | docker/egress-filter/main.go:168-204 | the fixed points of canonicalisation are exactly the canonical hosts |
| Authority.DestinationSpellings | docker/egress-filter/main.go:170-186 | letter case, one trailing dot and brackets never change the host an authority names |
| Authority.DefaultPortIrrelevant | docker/egress-filter/main.go:438-443 | the protocol's default port has no influence on the host |
| Authority.BareHostNotSplit | docker/egress-filter/main.go:171-178 | a canonical host is never taken for a host:port pair |
| Destinations.DestinationExactly | docker/egress-filter/main.go:169-204 | host and port come back exactly when the authority, in lower case, is a spelling of the host's address or its name, with at most one trailing dot, optional brackets, and a port (behind brackets if the host has colons) or else the default port; names are labels of 1 to 63 letters, digits and hyphens, none at either end, 253 characters in all |
| Destinations.AtoiExactly | docker/egress-filter/main.go:179-185 | a text reads as a positive number exactly when it is its decimal numeral behind any leading zeros and an optional plus sign |
| Destinations.AddressDestination | docker/egress-filter/main.go:169-204 | any spelling of an address, in letters of either case and in any of those forms, gives the canonical text of that address |
| Destinations.LabelsAreName | docker/egress-filter/main.go:187-203 | dotted labels other than four are a name and never an address, such as `10.0.0.1.nip.io` |
| Policies.Policy.Normalize | docker/egress-filter/main.go:111-132 | succeeds exactly when mode and all entries are acceptable (by `Policies.NormalEntryExactly`); then the object holds the normalised policy; on a bad entry the ones before it are rewritten and the rest untouched |
| Policies.LoadPolicy | docker/egress-filter/main.go:88-109 | a policy object comes back exactly when schema, mode and entries are acceptable (by `Policies.LoadedExactly`), holding the normalised value |
| Policies.NormalEntryShape | docker/egress-filter/main.go:119-129 | an accepted entry becomes a canonical host, or "*." before a canonical name that is no address |
| Policies.NormalEntryExactly | docker/egress-filter/main.go:119-129 | an entry is accepted, and as what, exactly when without white space and in lower case it is one of the ways to write a host without a port, or `*.` before one that is no address |
| Policies.PortRefused | docker/egress-filter/main.go:125-128 | an entry with a port is refused however host and port are written, with or without `*.` |
| Policies.JoinedPortRefused | docker/egress-filter/main.go:125-128 | so is the joined form of any canonical host and port, such as `allowed.example:443` |
| Policies.NormalEntryFixed | docker/egress-filter/main.go:119-129 | entries in normal form are kept as they are |
| Policies.NormalEntrySpellings | docker/egress-filter/main.go:119-129 | surrounding white space, letter case and one trailing dot of an entry do not change its normal form |
| Policies.NormalizeIdempotent | docker/egress-filter/main.go:111-132 | normalising reaches the normal form, and normalising again changes nothing |
| Policies.LoadedIsNormal | docker/egress-filter/main.go:102-108 | every loaded policy has schema 0 to 2, a valid mode and a normalised allowlist |
| Policies.LoadedExactly | docker/egress-filter/main.go:88-132 | a decoded file loads exactly with schema 0, 1 or 2, no mode or a known one, and acceptable entries; it keeps its schema, its mode ("enforce" if it has none), and each entry in its normal form at its place |
| Text.LowerTable | docker/egress-filter/main.go:121-170 | of the ASCII characters lower-casing changes the 26 capitals, each to its small letter |
| Text.TrimExactly | docker/egress-filter/main.go:121 | trimming takes all white space off both ends and nothing else |
| Policies.EntryMatchesByLabels | docker/egress-filter/main.go:141-155 | on canonical hosts the prefix and suffix tests mean: equal, or the labels of the wildcard's base are a suffix of the host's labels |
| Policies.MatchByLabels | docker/egress-filter/main.go:134-157 | a host text matches exactly when it is valid and some entry covers its canonical host by labels |
| Wildcards.WildcardCoversAddress | docker/egress-filter/main.go:136-157 | a normalised wildcard covers the text of some IP address exactly when its base has at most three labels and each is a number from 0 to 255 without leading zeros |
| Wildcards.AddressesAdmitted | docker/egress-filter/main.go:136-157 | a normalised allowlist admits an address exactly when it lists its text, or the address is IPv4 and ends in the octets of one of its wildcards |
| Wildcards.WildcardAdmitsAddress | docker/egress-filter/main.go:119-155 | the case at hand: `*.2.3.4` is accepted as a wildcard and admits 1.2.3.4 |
| Decisions.PinnedByValue | docker/egress-filter/main.go:159-166 | the text of an address is pinned exactly when the address is one of the three metadata addresses |
| Decisions.NoSpellingEscapes | docker/egress-filter/main.go:80-86 | whatever its spelling, an accepted authority is pinned exactly when its host is the metadata name or denotes a metadata address |
| Decisions.SpelledAddressPinned | docker/egress-filter/main.go:159-204 | for every address, every spelling of it and every way to write an authority around it, the authority names that address and is pinned exactly when it is a metadata address |
| Decisions.MetadataNamePinned | docker/egress-filter/main.go:80-86 | the metadata name is pinned in letters of either case and in every way to write it |
| Decisions.PinnedAsWritten | docker/egress-filter/main.go:159-166 | an accepted authority is pinned exactly when what is written there is the metadata name or a spelling of a metadata address |
| Decisions.MetadataByText | docker/egress-filter/main.go:81-86 | the metadata addresses are exactly those spelled 169.254.169.254, 169.254.170.2 and fd00:ec2::254 |
| Decisions.TriedSpellings | docker/egress-filter/main_test.go:47 | the four other spellings the program's tests try are pinned |
| Decisions.DecisionByCanonicalHost | docker/egress-filter/main.go:206-223 | deciding a raw authority and deciding its canonical host give the same full result |
| Decisions.DecisionFailsClosed | docker/egress-filter/main.go:206-223 | allowed exactly when the host is valid and not pinned, a policy with a valid mode is present, and it covers the host or is audit-only; audit exactly when allowed without being covered; no reason exactly when allowed without audit |
| Decisions.ScopedDecision | docker/egress-filter/authorization.go:89-105 | the early-return loop computes the decision fold over the policies in order |
| Decisions.ScopedIsIntersection | docker/egress-filter/authorization.go:89-105 | with valid modes the loop gives the order-free intersection: pinned hosts refused, every enforce policy must match, audit set exactly when some audit-only policy misses |
| Decisions.ScopedPermutes | docker/egress-filter/authorization.go:89-105 | permuting the policies changes nothing in the result, its reason included |
| Decisions.InsertedPolicy | docker/egress-filter/authorization.go:94-104 | inserting an audit-only policy anywhere never changes permission and sets audit exactly on a miss; inserting an enforce policy permits exactly what was permitted and matches it |
| Decisions.WidenedPolicy | docker/egress-filter/authorization.go:94-104 | widening one allowlist never turns a permission into a refusal nor adds an audit entry |
| Authorization.ResolveAuthorization | docker/egress-filter/authorization.go:44-87 | accepts exactly the answers that name the peer's own address and whose container id, count, ids, modes, sizes and entries are all acceptable; then only the allowlists changed, into their normal forms |
| Authorization.AuthorizedIsValidated | docker/egress-filter/authorization.go:67-84 | what is accepted has 1 to 100 policies with distinct ids of at least 1, valid modes and normalised lists, and its source is the canonical text of the peer's address |
| Authorization.AcceptedExactly | docker/egress-filter/authorization.go:44-87 | an answer is accepted exactly when its source is the canonical text of the address the peer spells, its container id 64 digits or letters a to f, its policies 1 to 100 with distinct ids of at least 1, a known mode and at most 1000 acceptable entries; then each policy keeps its place, id, mode and entries in their normal form |
| Authorization.AnswerForOneAddress | docker/egress-filter/authorization.go:45-67 | one answer never authorises two different addresses, however they are written |
| Authorization.ValidatedIntersects | docker/egress-filter/authorization.go:70-86 | an accepted answer satisfies all the intersection law needs |
| Authorization.Decide | docker/egress-filter/main.go:449-464 | the decision part of a connection: the loaded policy decides, unless it has schema 2, when only the policies accepted for the remote address do, and a missing or unacceptable answer refuses |
| Authorization.VerdictExactly | docker/egress-filter/main.go:449-464 | the whole decision with reason and audit flag, for every valid policy, canonical host, peer and answer: pinned hosts refused, then a miss of an enforce policy, then a miss of an audit-only policy allowed and logged, over the loaded policy or, under schema 2, over the policies of the answer as they were given; without an acceptable answer it is unavailable |
| Authorization.PeerIsAddress | docker/egress-filter/main.go:452-455 | the peer of a remote address and port is that address |
| ClientHello.ParseSNI | docker/egress-filter/main.go:392-419 | the extension walk returns the functional specification's name for every byte string, in bounds and terminating |
| ClientHello.ReadExtensionBlock | docker/egress-filter/main.go:337-391 | the cursor over the three length-prefixed fields finds the extension block, or reports that there is none |
| ClientHello.HelloServerName | docker/egress-filter/main.go:335-420 | for every well-formed hello with a server_name among arbitrary other extensions, the first one's name is returned |
| ClientHello.AnnouncedNameParsed | docker/egress-filter/main.go:405-417 | parsing inverts encoding: a hello that announces a name parses to that name |
| ClientHello.HelloWithoutServerName | docker/egress-filter/main.go:335-420 | a complete extension block without server_name gives no name |
| ClientHello.ServerNameExactly | docker/egress-filter/main.go:335-420 | for every byte string, a non-empty name is returned exactly when the bytes encode a hello whose first server_name extension carries that name |
| ClientHello.SmallHelloParsed | docker/egress-filter/main.go:335-420 | a hello written out byte by byte, with any random, gives its server name |
| ClientHello.ExtensionsFound | docker/egress-filter/main.go:393-403 | extensions of other types are skipped by their declared length, whatever their bodies hold |
| Stream.BufReader.Peek | docker/egress-filter/main.go:265-279 | peeking consumes nothing and depends on the stream alone, not on how it was cut into reads |
| Stream.BufReader.ReadByte | docker/egress-filter/main.go:293-296 | takes exactly the first unread byte, or reports how the stream ended |
| Stream.HeaderLength | docker/egress-filter/main.go:289-304 | the shortest prefix ending in a blank line within the limit, none if no prefix does |
| Stream.ReadHeader | docker/egress-filter/main.go:289-304 | consumes exactly that shortest prefix and nothing after it |
| Stream.PeekHostname | docker/egress-filter/main.go:264-313 | the result is a function of the stream for every chunking, consumed header and unread rest rebuild the stream, no peek goes beyond 16389 bytes and a full buffer is never reported |
| Stream.PeekConsumes | docker/egress-filter/main.go:264-313 | TLS consumes nothing; HTTP consumes the shortest prefix ending in a blank line, at most 16384 bytes |
| Stream.RecordPeeked | docker/egress-filter/main.go:271-286 | for every stream that starts as a TLS record, whatever follows it: the record is as long as its two length bytes say, the high one first, at most 16384, and its server name is the host |
| Stream.PeekedExactly | docker/egress-filter/main.go:264-325 | a host and a consumed header come back exactly when the stream begins with one record holding a hello that announces the name, and nothing is consumed; or begins with one of the eight method prefixes and has its first blank line within 16384 bytes, and exactly that header is consumed |
| Forward.ConnectAnswered | docker/egress-filter/main.go:438-506 | a header that begins with the characters `CONNECT ` is answered with the 200 line and left out of the payload; any other is part of the payload and not answered |
| Forward.SendHeader | docker/egress-filter/main.go:497-506 | a CONNECT header is answered and not forwarded, any other is forwarded and not answered |
| Forward.CopyBoth | docker/egress-filter/main.go:519-539 | the two copies, their rounds in any interleaving: in each direction what arrives is a prefix of what was unread, and all of it unless a write failed, whatever becomes of the other |
| Forward.Splice | docker/egress-filter/main.go:497-540 | in both directions the receiver gets a prefix of its payload, and the whole of it unless a write failed |
| Forward.PeekAndSplice | docker/egress-filter/main.go:430-528 | from the first byte on, the destination receives a prefix of the client's stream, or of the stream less exactly its header for CONNECT, and all of it unless a write failed |
| Dial.DialResolved | docker/egress-filter/main.go:227-252 | one lookup; nothing is dialled if any answer is nil, zoned or pinned; otherwise the attempts are a non-empty prefix of the answers in order, all but the last failed, and the last one's outcome is returned, a failure only after all were tried |
| Dial.AcceptableByValue | docker/egress-filter/main.go:239-243 | an answer is acceptable exactly when it has no zone and is no metadata address |
| Dial.TargetNamesAddress | docker/egress-filter/main.go:246 | the dialled host:port text denotes exactly the vetted address and the requested port |
| Machine.LocatedExactly | docker/egress-filter/main.go:430-448 | from the first byte on: a stream has a host and a port exactly when it asks, by hello (443) or by header (443 for CONNECT, else 80), for an authority that is a way to write them |
| Machine.StepKeepsConns | docker/egress-filter/main.go:426-540 | every step of any connection or reload keeps each connection's invariant: its decision is the verdict of its snapshot for its own peer, its dial attempts follow the vetted answers in order, and both directions of its splice conserve bytes |
| Machine.StepKeepsCounters | docker/egress-filter/main.go:431-494 | every step keeps each counter equal to the number of connections it stands for |
| Machine.StepKeepsHistory | docker/egress-filter/main.go:632-643 | installed policies stay valid and are only ever appended to |
| Machine.CountTotals | docker/egress-filter/main.go:580-586 | denied, allowed, failed and undecided connections partition the accepted ones |
| Runs.RunInv | docker/egress-filter/main.go:612-685 | every state of every run satisfies the invariant |
| Runs.RunEvolves | docker/egress-filter/main.go:426-540 | between any two states of a run, streams, bindings, decisions and outcomes persist and traces only grow |
| Runs.CountersConserved | docker/egress-filter/main.go:431-494 | accepted connections equal denied plus allowed plus upstream errors plus undecided ones; the audit counter exceeds the audited part of the allowed ones by exactly the connections between the two increments |
| Runs.OutcomeForever | docker/egress-filter/main.go:431-494 | a counted connection stays counted in the same counter, so it adds to one only |
| Runs.DecisionForever | docker/egress-filter/main.go:449-464 | a decided connection keeps its snapshot, authorization and decision across every later reload |
| Runs.PolicyAlwaysValid | docker/egress-filter/main.go:619-643 | after start-up the policy pointer always holds a valid normalised policy, and reloads counted plus the one in progress equal successful swaps |
| Runs.ReloadIsAtomic | docker/egress-filter/main.go:632-642 | of all events only a successful load moves the pointer, and it changes no counter and no connection; a failed load changes nothing; the reload counter moves only after a swap, by one |
| Runs.PointerMovesByLoad | docker/egress-filter/main.go:632-642 | in every step of every run, the pointer moves only to the value of a successful load with nothing else changed, and the reload counter only by one for a swap still uncounted |
| Runs.InstalledWasLoaded | docker/egress-filter/main.go:619-640 | every policy ever installed in a run is what loading some decoded file gave |
| Runs.VerdictIffPermitted | docker/egress-filter/main.go:449-464 | whatever the resolver answers, a valid policy allows a canonical host to a peer exactly when labels, modes and, for schema 2, the policies accepted for that peer permit it, these as they were given |
| Runs.SnapshotWasCurrent | docker/egress-filter/main.go:449 | the policy a connection decides by was the pointer's value while that connection was still reading |
| Runs.DialOnlyWhenPermitted | docker/egress-filter/main.go:426-488 | in every run, a connection that dialled was permitted by the single snapshot it loaded for the canonical host of its own first packet; under schema 2 by the intersection of the policies in an answer whose source is the connection's own address; and every target it dialled denotes the next answer, no metadata address, at the requested port |
| Runs.DialAsSpecified | docker/egress-filter/main.go:227-252 | in every run, one name is looked up for a connection, the host that was decided; all dial attempts of a connection but the last have failed, and once dialling is over, lookup, attempts and outcome are as the sequential dialling is specified |
| Runs.ForwardedIsPrefix | docker/egress-filter/main.go:497-540 | in every run and in both directions, the bytes delivered are a prefix of the payload and of the answer, all of it once nothing is in flight, and only after a successful dial |
| Runs.ReasonsReachable | docker/egress-filter/main.go:206-216 | the reasons for a missing policy, an invalid mode and a missing source policy never occur in the running sidecar |
| Runs.Progress | docker/egress-filter/main.go:426-540 | some event is enabled for every reachable connection that is not closed; every answer of the resolvers and every dial result is enabled where it is awaited |
| Reachable.StartedRun | docker/egress-filter/main.go:617-625 | for every policy that loads there is a run that starts with it |
| Reachable.ClientAccepted | docker/egress-filter/main.go:668-684 | from every reachable state any client can connect; it is then reading, with its own stream and address, and nothing else changed |
| Reachable.ReloadTakesEffect | docker/egress-filter/main.go:632-639 | every load that succeeds is the current policy at once, with connections and counters as they were |
| Reachable.ReloadCompletes | docker/egress-filter/main.go:630-642 | from every reachable state with no reload under way, a file that loads is in two steps the current policy and counted once, with the connections unchanged |
| Reachable.PermittedCanDial | docker/egress-filter/main.go:426-496 | the converse of dialling only when permitted, from every reachable state: a connection still reading that the current policy permits, whatever the resolver answers, dials any answers free of metadata endpoints in order until one succeeds, and is spliced, with every other connection left as it was |
| Reachable.ResolvingCanDial | docker/egress-filter/main.go:476-496 | the same for every granted connection of every reachable state |
| Reachable.AllAnswersFail | docker/egress-filter/main.go:244-252 | if every answer fails, each was tried once in order and the connection is counted as an upstream error |
| Reachable.HarmfulAnswerRefused | docker/egress-filter/main.go:239-243 | if any answer is nil, zoned or a metadata address, nothing is dialled and the connection is counted as denied |
| Reachable.UnpermittedIsDenied | docker/egress-filter/main.go:430-472 | from every reachable state, a reading connection without a destination, or one the current policy does not permit, can be counted as denied with nothing looked up or dialled |
| Reachable.SplicedCanDeliver | docker/egress-filter/main.go:497-540 | from every reachable state, a spliced connection can be served to the end: the destination has the whole payload and the client the whole answer |
| Reachable.CanFinish | docker/egress-filter/main.go:426-540 | from every reachable state every connection can be closed, with the others left as they were |
| ComposeProgress.Dispatch | public/js/api.js:490-509 | one block becomes at most one event; done and error events set their outcome |
| ComposeProgress.StreamComposeAction | public/js/api.js:485-522 | events, result and failure are a function of the pieces' normalised text alone |
| ComposeProgress.CutAppend | public/js/api.js:514-517 | cutting is incremental: what was cut stays cut and only the rest meets new text |
| ComposeProgress.CutRebuilds | public/js/api.js:515-516 | the pieces and the buffer rebuild the text, and none of them holds a blank line |
| ComposeProgress.FedIffBoundaryFree | public/js/api.js:514 | the reader sees the normalised stream exactly when no chunk boundary separates a CR from its LF |
| ComposeProgress.ChunkingIrrelevant | public/js/api.js:511-522 | two such chunkings of one text are observed alike |
| ChunkBoundaries.FedIsKept | public/js/api.js:514 | the reader is fed the text with exactly those CRLF line ends normalised that no chunk boundary cuts |
| Delivery.DeliveredAsMasked | public/js/api.js:485-522 | for every text and every chunking of it, log, completion and failure are, up to carriage returns in payloads, those of the normalised text in which each empty line cut between its CR and its LF is a comment |
| Delivery.FlushIsChunk | public/js/api.js:519-520 | what the decoder flushes at the end, which holds no line feed, is as good as one more chunk |
| EventBlocks.RunBlocks | public/js/api.js:511-520 | the reader of the normalised text handles the text's blocks one by one |
| EventBlocks.RunGroups | public/js/api.js:511-520 | the reader of the chunked text handles them group by group, a group being the blocks joined by cut blank lines |
| ExactDelivery.ObservedIffIntact | public/js/api.js:511-522 | for every text and every chunking of it, the reader observes what the normalised text gives, carriage returns in payloads aside, exactly when up to the first error event each group of blocks joined by cut blank lines has the data and the type of its first block with data |
| ExactDelivery.PlainHarmless | public/js/api.js:490-499 | where only blocks with data name a type, a group is harmless exactly when no two of its blocks hold data |
| ExactDelivery.ResultIfIntact | public/js/api.js:519-522 | under that condition the action's result is the one the normalised text gives |
| ExactDelivery.EventsDelivered | public/js/api.js:511-522 | one event is delivered for each group with data up to the first error; so unless something is told after an error, one for each block with data, less those joined to an earlier one |
| ExactDelivery.BoundaryMatters | public/js/api.js:514-517 | two data blocks arrive as sent when the text is whole, and as one event with both payloads when the blank line between them is cut |
| SentEvents.SentIsObserved | public/js/api.js:485-522 | for every sequence of events and keepalive comments in the server's format (src/routes/system-stacks.js, lines 282 to 286 and 399), and every chunking of their text: the observer is told exactly the events up to the first error, the failure is that error's payload, and the completion the last done's |
| SentEvents.UnfinishedIsObserved | public/js/api.js:519-520 | the same if the stream ends before the blank line of its last event |
| SentEvents.LastFrameDecides | src/routes/system-stacks.js:395-420 | an action ends with the payload of its final done event or fails with that of its final error event, and is incomplete without either or if the done payload is falsy |
| Fuzzy.GreedyScan | public/js/app.js:2472-2480 | the scan fails exactly when the query's characters do not begin one after the other in the text, and otherwise finds the least gap penalty of all their embeddings |
| Fuzzy.FuzzyScore | public/js/app.js:2466-2481 | empty queries score 0, occurring ones their first index, others 100 plus the least gap penalty plus the length term; infinite exactly when the query's characters do not begin one after the other in the text |
| Fuzzy.PointsExactly | public/js/app.js:2474 | the characters of the query are the only cut of it into surrogate pairs and other single units |
| Fuzzy.EmbeddingIsSubsequence | public/js/app.js:2474-2478 | for a query without stray low surrogates that is the same as being a subsequence of the text's characters |
| Fuzzy.LeastGapIsEarliestEnd | public/js/app.js:2474-2480 | the gap penalty telescopes to end position less query length, so the least penalty belongs to the earliest end |
| Fuzzy.EarliestNext | public/js/app.js:2475-2478 | the first match at or after the cursor keeps every other embedding behind |
| Gate.MatchesExactly | scripts/gate-image-vulnerabilities.js:49-55 | a rule matches a finding exactly when they agree on each of the nine properties that the rule names, and a location of the finding is the rule's path with slashes for backslashes and exactly one in front |
| Gate.EvaluateReports | scripts/gate-image-vulnerabilities.js:79-88 | allowed, blocked and unused are the specified filters, in order |
| Gate.PartitionInOrder | scripts/gate-image-vulnerabilities.js:80-85 | allowed and blocked findings together are the findings, each as often as it was found, and both lists keep their order |
| Gate.Partition | scripts/gate-image-vulnerabilities.js:80-85 | every finding is allowed under its only matching rule or blocked for lack of one |
| Gate.PassesGate | scripts/gate-image-vulnerabilities.js:146-147 | the gate passes exactly on an exact cover: one matching rule per finding, and every rule some finding's only match |
| Gate.PassingIsRigid | scripts/gate-image-vulnerabilities.js:76-88 | of two policies where one has all the rules of the other and more, at most one passes |
| Gate.OneRuleRigid | scripts/gate-image-vulnerabilities.js:76-88 | taking any one rule out of a passing policy, or putting any rule in anywhere, makes the gate fail |
| Translations.DeepMerge | public/js/i18n.js:60-69 | the in-place merge turns the target into the pure merge of the two trees and leaves the override tree unchanged and unshared |
| Translations.MergeKey | public/js/i18n.js:61-68 | one entry changes the target at that key only |
| Translations.MergeChild | public/js/i18n.js:62-64 | the recursive call below one key leaves all siblings as they were |
| Translations.LookupExactly | public/js/i18n.js:90-99 | a lookup finds exactly what stands at the end of a walk from object to object along the path |
| Translations.ResolveExactly | public/js/i18n.js:90-99 | a dotted key stands for the path of its parts |
| Translations.MergedLookup | public/js/i18n.js:90-99 | after a merge a path gives the override's leaf, nothing below such a leaf, the old value where the override has nothing, and a merge where both have objects |
| Translations.MergedResolve | public/js/i18n.js:80-99 | the same for dotted keys |
| Translations.MergedTwice | public/js/i18n.js:60-69 | merging the same overrides twice is merging them once |

## Left out

- Sockets, deadlines, linger, shutdown, the deny log, the metrics server, JSON decoding and file reading: input and output; they appear as arbitrary inputs and events.
- The HTTP call to the resolver socket: its decoded answer, or its absence, is an arbitrary input of `Authorization.ResolveAuthorization` and of the decision events.
- Liveness of the two copies: it depends on the peers; safety, conservation and absence of stuck connections are proved.
- Wrap-around of the 64-bit counters.
- Unicode lower-casing maps only the characters whose image is ASCII; every other non-ASCII character stays non-ASCII and is refused either way. Text is a sequence of Unicode characters, so byte sequences that are not valid UTF-8 are not distinguished from other refused characters.
- ComposeProgress.Dispatch: JSON payloads are kept as text, since their value is a function of it; the callback's own effects are not modelled.
- Fuzzy.FuzzyScore: the length term is a real number instead of a floating-point one.
- Gate.EvaluateReports: starts from the list of findings; the structural validation of the policy file, the reading of the two scanner reports and the artifact evidence are not modelled.
- Gate.PassesGate: states the pass condition over findings and rules; the checks on policy structure and artifact evidence that may also stop the script are not modelled.
- Translations.DeepMerge: arrays are leaves in both trees, and keys are visited in arbitrary order, which cannot matter because they are distinct. Objects hold their own keys only; names that JavaScript objects inherit from their prototype, and an override key `__proto__`, are not modelled.
- Translations.MergedLookup: finds own keys only; a name inherited from the prototype, such as `toString`, is found by the script.
- Translations.MergedResolve: the same for dotted keys.
- Translations.LookupExactly: the same for lookups; and since arrays are leaves, no path leads into one, as the script would by index.
- The remaining methods of the translation object (registration, language switching, parameter substitution) are not modelled.
- The HA lease, rate limiter, egress runner and prune guard: their implementations are not part of this model.
