# A verified model of the engine's identification and correlation core

zond-engine identifies what listens on a port, correlates what it identified with catalogues of
known vulnerabilities, and validates at build time the datagrams its corpus sends. This project
models the parts of that with the most state and the most branching, and proves what they keep
over every peer, every document and every sequence of calls.

| modules | what they model |
|---|---|
| `Reading`, `Http`, `Network`, `Collect` | one port's collection: the bounded read, redirects, the ladder of rungs, against an arbitrary peer |
| `Decoding` | how a reply's bytes become text, and text bytes |
| `Bounds`, `Runs`, `Clocks`, `Walks` | what every run of a collection costs and keeps, and which redirects it follows |
| `Answers`, `Redirections` | what a run returns, told along the run, and where a reply as written leads |
| `Replies`, `Slowest`, `SlowStages`, `Attained` | peers, byte by byte, that take all of the bound on every port |
| `Transcripts` | what a port said over a run, and how much of it a collection returns |
| `Versions`, `VersionOrder`, `WildVersions`, `Dpkg` | the two version orders, and exactly where each is an order |
| `SharedFronts`, `PackageOrder` | what the two orders say of versions as they are written |
| `Cpe`, `Bindings`, `Predicates`, `Interning` | platform identifiers and their two spellings, the affected-version language, the string pool |
| `Ranking`, `Backport`, `Judge`, `Verdicts`, `Joining`, `Citations`, `Remedies`, `Summaries`, `LostNotes` | one identification judged against a catalogue and a distributor's data |
| `Records`, `Corroboration`, `Lending`, `Replacement`, `Correlate`, `Drawing`, `Reporting` | findings recorded on ports, folded, replaced catalogue by catalogue, and what each says of the judgement above |
| `Ber`, `AsReq`, `L2tp`, `Isakmp`, `Rpc` | the validators that walk lengths, as decoders of exactly one grammar each |
| `Pace` | what applying paces to a configuration comes to |
| `Wrappers`, `Octets`, `Orders`, `Digits`, `Texts` | shared vocabulary |

A peer is an arbitrary function from the number of a network operation to what happens at it, so
a statement for every peer function is a statement for every peer. Time is in milliseconds.
Stages that loop in the source are methods proved equal to a function of the same inputs; what
the source promises is then proved of the functions. Objects the source updates in place
(`Interner`, `Host`, `Config`) are classes.

## What the proofs found

- **The longest collection is 32 seconds and seventeen waits, not 35.5 and nineteen** (documented
  at `src/fingerprint.rs:170-189`). The documented walk follows a redirect for a generic question
  that was refused with a `400`, and a reply with that status never has a redirect followed.
  `Walks.ShippedWalks` proves both figures for the shipped corpus and `Attained.ThirtyTwoSeconds`
  that one run takes them. `Attained.TheClockIsExact`, `TheTimeIsExact` and `TheWaitsAreExact` prove
  that the closed forms are what some peer takes and no peer more, on every port whose
  conversations each hold a probe and whose replies in plain HTTP hold no other structure the
  engine reads.
- **An escaped identifier joins nothing.** The correlator undoes the quoting of a formatted string and
  not the percent-encoding of a URI, so the two spellings of a release read alike exactly where the
  URI escapes nothing and leaves no vendor, product or version blank
  (`Bindings.ReadAlikeExactlyWhere`). The corpus emits `cpe:/a:treck:tcp%2fip:…`, which no entry
  stated of that product is ever joined by (`Joining.TcpIpJoinsNothing`). A version left blank reads
  as empty in the one and as `*` in the other, which are different texts and match alike
  (`Joining.TheSpellingsJoinAlike`).
- **The version order is not one.** The order of `src/version.rs:56-165` is called total at
  `src/version.rs:400`. A run of more than twenty digits that still fits 64 bits, which takes
  leading zeros, stands in a cycle. `WildVersions.OrderlyIsTame` gives the exact condition and
  `APaddedOneCycles` an example. The package order of the same file is a total preorder on all
  strings (`Dpkg.Chains`).
- **A vulnerability can be counted twice.** Repeats are removed where adjacent after sorting by
  severity and identifier, so two statements of one identifier at different severities survive
  with another vulnerability between them (`LostNotes.OneIsCountedTwice` gives the catalogue).
  Counts agree with identifiers exactly where nothing interleaves so.
- **The note about withdrawn vulnerabilities can be lost.** It is said on the first finding, except
  that a first group without a readable severity or title takes it along
  (`Summaries.TheNoteIsSaidExactlyWhen`, `LostNotes.TheNoteCanBeLost`).
- **A second correlation can change a port.** An observation recorded under the catalogue's own
  detection and claim is folded into the correlation the first time and dropped the second
  (`Replacement.AnObservationIsSpent`). The fields that decide it are in
  `Replacement.OnceSettlesExactlyWhen`. A third correlation never changes anything.
- **A port that lost its service keeps old correlations**: writing the listed ports is writing every
  port exactly where there is none (`Correlate.ListedAreEnoughExactlyWhen`).
- **A datagram can stop the build instead of failing it**: the L2TP walk reads two bytes of a first
  attribute that may hold fewer, and subtracts the header's length from a message that may be
  shorter, which a build that checks its arithmetic ends on (`L2tp.StopsExactlyWhere`).
- **A path that quotes a URL is not fetched.** A redirect to a path of the port is judged as a URL where
  `://` stands anywhere in it, as in `/login?next=http://elsewhere/`; it is fetched as written exactly where
  it holds none and opens no host (`Redirections.APathIsFetchedAsWrittenExactlyWhere`).
- **Folding two accounts of a claim depends on which was held** in two fields: a group only the older
  account carries is kept held and lost folded in, and of two subjects the held one stays
  (`Corroboration.WhatDependsOnWhichWasHeld`). In everything else the newer speaks either way
  (`Corroboration.TheNewerSpeaks`).
- **A redirect's page can be fetched twice in the clear** on any port asked the generic question
  first, named and not probed or only shared: exactly where the generic reply and the services' set
  redirect to one path (`Walks.APageTwiceExactlyWhere`). A named, unprobed port that answers in HTTP has one
  set, so there every redirect is (`Walks.TheSamePageTwice`).

## Model

| member | source | states |
|---|---|---|
| Reading.ReadBytes | src/fingerprint.rs:1936-1981 | the read loop, over its buffer, budget and deadline, returns the kept front of the pieces that arrive in time |
| Reading.ReadIsBounded | src/fingerprint.rs:1936-1981 | every read, against any trickle: at most 4096 bytes, a prefix of what was sent, one path-adjusted wait plus one continuation (the wait alone with no grace or nothing heard), and a clock reported expired exactly where all of it passed without a byte or a close |
| Reading.AtMostThatManyPieces | src/fingerprint.rs:1936-1981 | a read takes at most as many pieces as it keeps bytes, and keeps at most 4096 |
| Reading.ReadStopsForAReason | src/fingerprint.rs:1936-1981 | a read stops no sooner than the cap, the continuation's end, a zero grace or a silent budget makes it |
| Http.RedirectPath | src/fingerprint.rs:1354-1389 | a redirect yields a path only for a status from 300 to 399, and the path is rooted and free of control characters, whatever the peer wrote |
| Http.AControlLeadsNowhere | src/fingerprint.rs:1371-1376 | a control character of either set anywhere in a location leads nowhere |
| Http.ARefusalRedirectsNowhere | src/fingerprint.rs:962-966 | for every text, a reply the engine takes for a refusal of plain HTTP is one no redirect is read from |
| Redirections.AReplyLeadsToItsLocation | src/fingerprint.rs:1354-1369 | a reply as written, whatever headers come before and whatever follows, leads to what its first `Location` names, in any case and spacing, exactly where its code is in the three hundreds |
| Redirections.ABareReplyLeadsToItsLocation | src/fingerprint.rs:1355-1369 | and so does one whose lines end in a bare line feed |
| Redirections.ABodyLeadsNowhere | src/fingerprint.rs:1362-1364 | what follows the blank line leads nowhere, whatever it says |
| Redirections.ALocalPath | src/fingerprint.rs:1374-1388 | a location without a scheme is fetched as written, rooted where it was not; an empty one or one with a control character is not |
| Redirections.AUrl | src/fingerprint.rs:1380-1383 | a URL leads to its path, rooted before a query or a fragment and the root for none, exactly where it leads back to the port |
| Redirections.AUrlWithoutAScheme | src/fingerprint.rs:1380-1383 | and so does one that opens with a host |
| Redirections.APathIsFetchedAsWrittenExactlyWhere | src/fingerprint.rs:1380-1388 | a path of the port is fetched as written exactly where it holds no scheme and opens no host |
| Redirections.ARefusalIsFourHundred | src/fingerprint.rs:962-966 | a reply as written refuses exactly where its code is written `400` |
| Redirections.TheFirstInHttpLeads | src/fingerprint.rs:1434-1452 | of several replies the first in HTTP is the one that leads anywhere |
| Network.Dial | src/fingerprint.rs:1007-1049 | a further connection costs its timeout and one wait, and keeps one connection open at a time when none was |
| Network.ReadPort | src/fingerprint.rs:1894-1981 | a read costs one wait, its own time and at most one continuation, whatever the wire does |
| Network.Handshake | src/fingerprint/tls.rs:152-219 | a handshake costs its budget and one wait, keeps the connection exactly where it completes, and is TLS heard exactly there |
| Network.Legacy | src/fingerprint/tls.rs:254-309 | the legacy ClientHello consumes its connection and is TLS heard exactly where it names a version or refuses in TLS |
| Network.WhatTheLegacyHandshakeHears | src/fingerprint/tls.rs:254-309 | in the time it is given it hears a refusal exactly for an alert, each of four versions exactly for a hello that chose it, and nothing in anything else |
| Network.InTheTimeGiven | src/fingerprint.rs:1007-1049 | a dial connects and a handshake completes exactly where the peer lets it within the timeout and the path |
| Collect.AskInTurn | src/fingerprint.rs:1568-1596 | the loop over a connection's probes: every reply in order up to the first probe that cannot be written |
| Collect.Plaintext | src/fingerprint.rs:1226-1286 | the loop over the other services, replacing the connection held: what each drew, in order, then the set's redirect |
| Collect.Tunneled | src/fingerprint.rs:1482-1521 | the loop over the other services through TLS, each through a tunnel of its own |
| Collect.LastResort | src/fingerprint.rs:1162-1192 | the loop over strangers' probes, a connection each: every reply in order, up to the first connection that cannot be had |
| Collect.GuessesWorthThePath | src/fingerprint.rs:1201-1208 | every stranger is asked unless the path is slower than a probe waits and thoroughness was not asked for, and then at most one |
| Collect.Climbed | src/fingerprint.rs:896-936 | the loop over the ladder, holding a refusal in TLS and dialling anew from the second rung on, is the climb whose answers `Answers` gives |
| Runs.AskedKeeps | src/fingerprint.rs:1124-1150 | any rung asked in any state consumes its connection, hears TLS exactly where its responses carry it, and stays within its own bound, a lesser one where it refuses or falls silent |
| Runs.WalkedKeeps | src/fingerprint.rs:896-936 | every climb from any rung, in any state: closed at the end, TLS carried exactly where heard, rungs in order, and within the walk's recurrence |
| Runs.TheLadderIsTheClosedForm | src/fingerprint.rs:1107-1122 | the recurrence over either ladder is the closed form in services, probes and strangers' probes |
| Runs.TheWaitsAreTheClosedForm | src/fingerprint.rs:1107-1122 | the companion form, for the waits that allow for the path |
| Runs.Identify | src/fingerprint.rs:867-937 | a whole identification, at every level, with an address or without one: within both closed forms, one connection at a time, none left open, and TLS told of exactly where it was heard |
| Runs.CollectionIsBounded | src/fingerprint.rs:867-998 | for every peer, port and corpus shape, a collection takes at most the closed form plus one path allowance for each of its waits, which are at most the companion form |
| Runs.OneConnectionAtATime | src/fingerprint.rs:898-934 | on every run at most one connection to the port is ever open, and none is left open |
| Runs.TlsIsNeitherLostNorInvented | src/fingerprint.rs:899-998 | the result carries TLS exactly where a handshake completed or the legacy probe heard it, whatever failed or answered later, and a tunnel is never named without it |
| Runs.NoRungIsSkipped | src/fingerprint.rs:896-936 | a collection that comes back with nothing asked every rung, unless one could not be given a connection |
| Answers.AHeldRefusal | src/fingerprint.rs:896-936 | on a port numbered for TLS whose handshake failed and whose legacy handshake heard a refusal: what the third connection says in the clear is returned with the refusal and as behind TLS exactly where it refuses too; otherwise, or where there is no third connection, the refusal alone and no tunnel |
| Answers.TheFirstHandshake | src/fingerprint.rs:896-936 | there a first handshake that completes ends the run with what the tunnel says |
| Answers.TheLegacyHandshake | src/fingerprint.rs:896-936 | failing that, a version the legacy handshake heard is returned alone |
| Answers.PastBothHandshakes | src/fingerprint.rs:896-936 | failing both, the first answer in the clear, and else the guesses, are returned as they are, refusal or not |
| Answers.AnAnswerInTheClear | src/fingerprint.rs:896-936 | on any other port a first answer in the clear that does not refuse is returned as it is |
| Answers.PastTheClear | src/fingerprint.rs:896-936 | where the clear drew nothing, a completed guess at TLS, and else the guesses, are returned as they are |
| Answers.ARefusalInTheClear | src/fingerprint.rs:976-998 | a refusal in the clear gives way to a completed tunnel, is returned as behind TLS with what the legacy handshake heard, or is returned alone |
| Answers.ATunnelIsNamedExactlyWhere | src/fingerprint.rs:867-998 | on every run at every level a tunnel is named if and only if a handshake completed, or TLS was heard and what is returned opens with a refusal in the clear |
| Transcripts.TheTallyIsWhatWasLeftUnanswered | src/fingerprint.rs:1627-1636 | over every run the time told of as waited in vain is the sum, over the reads and handshakes made, of what each was given where the peer let all of it pass with nothing arriving or settling; connections and the legacy probe add none, and no operation counts twice |
| Transcripts.WhatIsReturnedWasSaidLast | src/fingerprint.rs:867-998 | on every run the replies returned are the last of what the port said, in the order it was said: none invented, repeated, reordered or dropped from inside; and all of it where TLS was never spoken |
| Transcripts.InTheClearSays | src/fingerprint.rs:1226-1286 | what is said in the clear is all returned in order, or opened as TLS and none of it is |
| Transcripts.ThroughTunnelSays | src/fingerprint.rs:1482-1521 | everything said through a tunnel is returned in order |
| Transcripts.AskedThroughTlsSays | src/fingerprint.rs:976-998 | a port asked again through TLS gives what it said there, or what it had said in the clear and nothing since |
| Walks.ShippedWalks | src/fingerprint.rs:168-189 | on every port of the shipped shape a collection is at most 32 seconds and 17 waits |
| Walks.TheCeilingCutsNothingShort | src/fingerprint.rs:168-189 | so no run, behind any path, exceeds the budget and its allowances |
| Walks.WhatIsFollowed | src/fingerprint.rs:1275-1284 | on every port the clear follows the generic question's redirect, where that is asked first, and then the redirect of the services' set, and nothing else |
| Walks.APageTwiceExactlyWhere | src/fingerprint.rs:1334-1341 | so it fetches a page twice exactly where the generic question is asked first, its reply redirects, and the set redirects to the same path |
| Walks.ARefusalIsNotFollowed | src/fingerprint.rs:1275-1280 | on a port a service names, no reply set taken for a refusal ever had a redirect followed for it |
| Walks.UnprobedFollows | src/fingerprint.rs:1275-1280 | on a port named and not probed the generic reply leads the set; its redirect is followed, and then the set's, which is the same one where the reply opens as HTTP |
| Walks.TheSamePageTwice | src/fingerprint.rs:1434-1452 | there, where the generic read is HTTP, the paths fetched are its redirect's twice over, exactly where it redirects back to the port, and none otherwise |
| Walks.ARefusalEndsTheClimb | src/fingerprint.rs:896-936 | off the ports numbered for TLS, a refusal in the clear ends the climb with what the port says through TLS |
| Decoding.ReadText | src/fingerprint/extract.rs:55-62 | the loop over a reply: each UTF-8 sequence its character, and every other byte the character of its own value |
| Decoding.AFrontIsKept | src/fingerprint/extract.rs:55-62 | any number of leading bytes are ASCII exactly where as many leading characters are, and are those characters then |
| Decoding.TlsShowsInTheText | src/fingerprint.rs:1242-1251 | a reply opens a TLS record exactly where its text does, so testing the text is testing the bytes |
| Decoding.ReadBack | src/fingerprint/extract.rs:71-84 | the loop over characters back to bytes |
| Decoding.EveryByteComesBackExactlyWhere | src/fingerprint/extract.rs:64-84 | reading a reply's text back gives every byte of it exactly where no lead of 0xC2 or 0xC3 stands before a continuation byte |
| Replies.ThatRefuses | src/fingerprint.rs:962-966 | eleven ASCII bytes that are a refusal, whatever follows them |
| Replies.ThatRedirects | src/fingerprint.rs:1354-1389 | twenty-five that redirect to the root, whatever follows them and whoever judges URLs |
| Slowest.TheEngineReadsSo | src/fingerprint/extract.rs:55-62 | the engine's decoder reads the replies such peers give as the exactness results ask |
| SlowStages.SlowClear | src/fingerprint.rs:1226-1286 | in the clear, against a peer that is mute, alerts in TLS, refuses or redirects at the last moment, to the millisecond and the wait |
| SlowStages.SlowThrough | src/fingerprint.rs:1482-1521 | the same through a tunnel, every service asked and a redirect followed |
| SlowStages.SlowGuesses | src/fingerprint.rs:1162-1192 | the same of the guesses at strangers, each answered |
| Attained.PortsWithoutStructurePlay | src/fingerprint/extract.rs:278-308 | and so does every port the engine reads no structure on, under that decoder |
| Clocks.TheClockIsBounded | src/fingerprint.rs:867-998 | for every peer, port and corpus shape, the clock shows at most the greatest, over the walks there are, of a walk's time and an allowance for each of its waits |
| Attained.TheClockIsExact | src/fingerprint.rs:168-189 | on every port, numbered for TLS or not, named or shared, behind every path, some peer makes the clock show exactly that, and none more |
| Attained.TheTimeIsExact | src/fingerprint.rs:168-189 | apart from the allowances of its own waits no run takes more than the closed form, and some run takes exactly that |
| Attained.TheWaitsAreExact | src/fingerprint.rs:184-189 | no peer makes more waits than the companion form, and some peer makes exactly that many |
| Attained.ThirtyTwoSeconds | src/fingerprint.rs:168-189 | on a port two services share with a probe each the forms are 32 seconds and seventeen waits, one run takes both, and behind every path that is the greatest clock |
| Attained.APageIsFetchedTwice | src/fingerprint.rs:1434-1452 | on every port asked generically first that is named or has a probe, a peer that is asked for its root twice |
| Versions.ComponentCompare | src/version.rs:119-165 | the loop over one component's runs is the comparison whose meaning `SharedFronts` gives |
| Versions.PartsCompare | src/version.rs:99-113 | the loop over components, a missing one reading as zero |
| Versions.SplitPreRelease | src/version.rs:80-95 | the scan for a hyphen that starts a pre-release |
| VersionOrder.Flips | src/version.rs:56-78 | reversing two versions reverses the answer, for all strings |
| VersionOrder.TameVersionsChain | src/version.rs:56-165 | the order is a total preorder on versions whose long digit runs overflow |
| VersionOrder.APreReleasePrecedes | src/version.rs:56-95 | any candidate comes before its release |
| VersionOrder.ATrailingZeroIsNothing | src/version.rs:99-113 | a trailing zero component changes no version |
| SharedFronts.TheFrontIsNothing | src/version.rs:56-165 | versions that start alike compare by what follows, as versions or as parts of a pre-release that had started |
| SharedFronts.TheSmallerNumberIsEarlier | src/version.rs:131-148 | of versions alike up to a number the smaller is earlier whatever follows: by value within 64 bits, and by length and then value past that |
| SharedFronts.TheSameNumberIsTheSameVersion | src/version.rs:131-148 | a number padded with zeros is the same version |
| SharedFronts.TextsCompareAsText | src/version.rs:149-160 | of versions alike up to a piece of text, the text decides |
| SharedFronts.ADigitIsLaterThanALetter | src/version.rs:149-160 | where a component starts, a digit is later than a letter |
| SharedFronts.MoreTextIsLater | src/version.rs:119-165 | any version that goes on into text is later than where it started |
| SharedFronts.ANumberAfterTextIsLater | src/version.rs:119-165 | and so is one that goes on from text into a number |
| SharedFronts.AMissingComponentIsZero | src/version.rs:99-113 | one more component is later where it is a number above zero |
| SharedFronts.ATextComponentIsEarlier | src/version.rs:99-113 | and earlier where it is text |
| WildVersions.WildVersionsCycle | src/version.rs:119-165 | every other version is above one that is above one that is above it |
| WildVersions.OrderlyIsTame | src/version.rs:119-165 | so a version chains with all that can be trusted exactly where each of its long digit runs overflows |
| WildVersions.APaddedOneCycles | src/version.rs:119-165 | a one padded to twenty-one digits is in a cycle |
| Dpkg.PartCompare | src/version.rs:221-246 | the loop over a version part's alternating runs |
| Dpkg.RunsCompareAsNumbers | src/version.rs:221-246 | digit runs of any length compare as the numbers they spell |
| Dpkg.Flips | src/version.rs:184-275 | reversing two package versions reverses the answer |
| Dpkg.Chains | src/version.rs:184-275 | the package order is a total preorder on all strings, well formed or not |
| Dpkg.AnExtendedVersionIsLater | src/version.rs:184-275 | a package version extended by a tilde comes before the one it extends, and by anything else without a colon or a hyphen after it |
| PackageOrder.TheSmallerEpochIsEarlier | src/version.rs:184-216 | of package versions as written the smaller epoch is earlier whatever follows, a missing one being zero and a prefix that is no number no epoch |
| PackageOrder.TheSmallerUpstreamIsEarlier | src/version.rs:184-246 | with one epoch, upstream versions that part at a number go by it whatever the revisions |
| PackageOrder.TheLighterUpstreamIsEarlier | src/version.rs:257-264 | and those that part at a character of text by where that sorts: tildes, letters, the rest |
| PackageOrder.TheSmallerRevisionIsEarlier | src/version.rs:184-246 | with one epoch and one upstream version, revisions that part at a number go by it |
| PackageOrder.WhatIsMissingIsZero | src/version.rs:201-216 | a missing epoch and a missing revision are the same version as zeros |
| Cpe.FormattedFields | src/cve.rs:1773-1786 | the character loop splits at unquoted colons and unquotes |
| Cpe.FieldsUndoJoin | src/cve.rs:1773-1786 | it inverts quoting and joining for every list of fields, whatever else was quoted |
| Cpe.OneReleaseTwoSpellings | src/cve.rs:1729-1764 | fields written as they are in a URI, a patch level run on, parse as their 2.3 spelling does, a patch level apart |
| Cpe.APatchLevelRunsOn | src/cve.rs:1729-1764 | the name parsed of a formatted string is its vendor and product in lower case and its version with the patch level run on, where neither blank, any nor none is one |
| Bindings.TheUriReadsAs | src/cve.rs:1729-1764 | what is read of a name's URI binding, percent-encoded and trimmed (section 6.1 of NISTIR 7695): its escapes as they stand |
| Bindings.FormattedWrites | src/cve.rs:1773-1786 | the formatted binding (section 6.2) is one of the quotings that are undone |
| Bindings.AWordIsItsOwnSpelling | src/cve.rs:1729-1764 | a value is spelled as it stands in a URI exactly where it is letters, digits, underscores, hyphens and periods (section 6.1 of NISTIR 7695) |
| Bindings.ReadAlikeExactlyWhere | src/cve.rs:1729-1786 | the two spellings of a release parse alike exactly where the URI leaves none of vendor, product and version blank and escapes nothing in them or in the patch level, however the other is quoted and whatever follows in either |
| Bindings.TcpIpIsTwoNames | src/cve.rs:1850-1857 | one product that is two, at every version |
| Joining.TheUriJoinsExactlyWhere | src/cve.rs:1686-1691 | a release's URI joins an entry stated under its name exactly where vendor and product are neither escaped nor blank and the version as read is within the entry's |
| Joining.TheSpellingsJoinAlike | src/cve.rs:1686-1691 | both spellings join the same entries under a plain name where version and patch level are plain, or neither is stated |
| Joining.TcpIpJoinsNothing | src/cve.rs:1850-1857 | an identifier of the corpus joins no entry stated of its product, which the formatted spelling does wherever the version is within it |
| Texts.AlikeButForCase | src/cve.rs:1686-1691 | names are compared so that two are one exactly where they differ in nothing but the case of ASCII letters |
| Predicates.WhatEachOperatorAccepts | src/cve.rs:1793-1828 | of a version that was read, `<`, `<=`, `>`, `>=`, `==`, `=` and a bare bound hold exactly where the version order puts it below, not above, above, not below and level |
| Predicates.APredicateIsItsClauses | src/cve.rs:1793-1828 | clauses joined by commas hold exactly where each holds alone, of every version |
| Predicates.UnlearnedSatisfiesOnlyAny | src/cve.rs:1793-1803 | a version nobody read satisfies `*` and nothing else |
| Predicates.ABoundReachesAllTheWay | src/cve.rs:1793-1828 | on trusted versions `<` and `<=` are closed downward, and `>` and `>=` upward |
| Predicates.ClausesOnlyNarrow | src/cve.rs:1793-1828 | clause order is irrelevant and another clause only narrows |
| Predicates.APredicateIsARange | src/cve.rs:1793-1828 | on trusted versions a predicate is convex: whatever lies between two it covers is covered |
| Interning.Interner.Intern | src/cve.rs:534-554 | interning keeps the pool free of repeats, moves no string, and answers the string's index, wrapped to 32 bits |
| Interning.Interner.Maybe | src/cve.rs:534-554 | the same for a string that may be missing |
| Interning.InternAll | src/cve.rs:1652-1668 | the loop over a document leaves a pool of its distinct strings, every entry indexed in it |
| Interning.LosslessExactlyWithinTheIndices | src/cve.rs:664-676 | viewing gives every document entry back exactly where its distinct strings number at most 2^32; in both interners |
| Ranking.SortedSorts | src/cve.rs:713-717 | the matches end worst first, then by identifier, every class of ties as it was |
| Ranking.StableSortsAgree | src/cve.rs:713-717 | one sequence answers to that, so the library's stable sort is this one |
| Ranking.SortedPermutes | src/cve.rs:713-717 | sorting neither adds nor loses an entry |
| Ranking.CountedOnceExactlyWhereNothingInterleaves | src/cve.rs:719-723 | after the sort and the removal of adjacent repeats no identifier is left twice, and entries number identifiers, exactly where no other vulnerability ranks between two statements of one |
| Ranking.OneSeverityEach | src/cve.rs:719-723 | entries that share an identifier and a severity never interleave |
| Ranking.OneIdentifierIsCountedTwice | src/cve.rs:719-723 | any critical and low statements of one identifier about a high one of another leave more entries than identifiers |
| Ranking.TheWorstIsKept | src/cve.rs:713-723 | what is kept is worst first, and every matched identifier is kept at its worst statement or a worse one |
| Backport.WithdrawnExactlyWhen | src/cve/backport.rs:214-277 | a vulnerability is withdrawn for a build exactly where some channel says the release never had it, or the build is known and at or past the governing fix |
| Backport.RuledByTheGoverningFix | src/cve/backport.rs:214-277 | the archive's first fix governs, and ESM's first only where the archive has none |
| Backport.NoFixNoJudgement | src/cve/backport.rs:262-277 | with no fix published the ruling is the open status and no build changes it |
| Backport.ANewerBuildStaysWithdrawn | src/cve/backport.rs:245-257 | upgrading in the package order never brings a withdrawn vulnerability back |
| Backport.RuledByAFixExactlyWhere | src/cve/backport.rs:214-277 | each ruling that names a fix, by the statuses: the release had it, that fix governs of that channel, and the build is known and before it, or not known |
| Backport.RuledOpenExactlyWhere | src/cve/backport.rs:262-277 | and each that names none: nothing fixed it, and the standing status says why, says nobody has looked, or there is none |
| Backport.WithdrawnByWhich | src/cve/backport.rs:214-257 | withdrawn as not affected exactly where the release never had it, and as fixed where it had and the known build is at or past the fix |
| Backport.TheReasonIsTheFirst | src/cve/backport.rs:214-244 | the reason given is the first such status's |
| Backport.TheFixWithdraws | src/cve/backport.rs:245-257 | a build at or past the fix a ruling names is one the same data withdraws it for |
| Judge.Judge | src/cve.rs:697-742 | the loop over the kept matches fills exactly the groups and the counters their classification calls for, which `Verdicts` reads off the data |
| Judge.EveryEntryIsAccountedFor | src/cve.rs:742-754 | for every classification, group sizes plus the withdrawn total are the entries kept |
| Judge.TheNumbersReconcile | src/cve.rs:703-754 | they are the distinct identifiers matched exactly where nothing interleaves |
| Judge.AnIdentifierLandsOnce | src/cve.rs:742-754 | then no identifier is in two groups, twice in one, or both reported and withdrawn |
| Judge.AnUnlearnedVersionIsNeverChecked | src/cve.rs:1793-1803 | an identification whose version was not learned is never claimed affected, nor a build of it unchecked, for every catalogue |
| Judge.AGroupIsWorstFirst | src/cve.rs:738-741 | every group keeps the order the matches were sorted into |
| Judge.UpgradingReportsNoMore | src/cve.rs:1543-1589 | a build upgraded in the package order is reported for no more, and nothing withdrawn comes back |
| Verdicts.ReportedForAFixExactlyWhere | src/cve.rs:1543-1589 | an entry of a placed build is grouped as fixed in the archive, or in ESM, exactly where the release had it, that channel's fix governs and the known build is before it, and as hidden where the build is not known; the fix named is the governing one |
| Verdicts.ReportedOpenExactlyWhere | src/cve.rs:1543-1589 | as without a fix, or untriaged, exactly where the release had it, nothing fixed it, and the standing status says so or there is none |
| Verdicts.AGroupHoldsItsOwnRulings | src/cve.rs:1543-1589 | so each group holds rulings of its own kind and no others |
| Verdicts.ReportedUnplacedExactlyWhere | src/cve.rs:1571-1578 | without data for the build: any version, build unchecked or affected, exactly by what the entry asks and whether a build was named |
| Verdicts.TheOverlayDecides | src/cve.rs:1548-1552 | what needs a setting is grouped as that and nothing else unless withdrawn, and what is in a client or behind an account is in no group |
| Verdicts.WithdrawnForExactlyWhat | src/cve.rs:1548-1561 | withdrawn as elsewhere, not affected or fixed, each exactly where the overlay or the statuses say so |
| Verdicts.EachCounterCountsItsOwn | src/cve.rs:742-754 | each counter is the number of entries withdrawn for its own reason |
| Citations.KeepFirsts | src/model/finding.rs:464-479 | the loop that drops repeats and ill-shaped identifiers keeps each well-shaped one where it first stands |
| Citations.ListedComeFirst | src/cve.rs:1037-1055 | with a list of exploited vulnerabilities a finding cites what it cites without one: the listed in their order, then the others in theirs, a permutation |
| Citations.UnmarkedCitesInOrder | src/cve.rs:1037-1055 | without a list it cites every well-shaped identifier once, in order |
| Citations.ShapedExactlyWhere | src/model/finding.rs:289-305 | an identifier is shaped so exactly where it is `CVE-`, four digits, a hyphen and a number |
| Remedies.Notices | src/cve.rs:1387-1395 | the loop collects the first three distinct notices |
| Remedies.NoticesAreFewAndDistinct | src/cve.rs:1387-1395 | distinct, at most three, each published with a fix of the group, and all of them where fewer |
| Remedies.NewestIsNewest | src/cve.rs:1384-1386 | the version named is one of the fixes and at or past all of them in the package order |
| Remedies.TheRemedyCoversTheGroup | src/cve.rs:1369-1428 | a group that names fixes always has a remedy, and any build at or past its version is one the distributor's data withdraws every entry of the group for |
| Remedies.WhatIsAdvised | src/cve.rs:1369-1428 | what each verdict's group is advised: to upgrade, to enable Pro and upgrade or to check the build, at the one fix of the group that settles all of it and with its first notices; to move release; to compare by hand; or nothing |
| Summaries.ReportedExactlyWhen | src/cve.rs:808-812 | a group goes unreported exactly where the catalogue has no name, no entry has a readable severity, or a lone entry lends it a blank title; reported, its severity is the group's greatest |
| Summaries.UncheckedBuildsAreBuilt | src/cve.rs:890-891 | the exit for a build nobody named is never taken |
| Summaries.MarkingInterferesWithNothing | src/cve.rs:756-781 | with and without a list, as many findings of the same claims, severities, confidences, remedies and notes, differing in marking and citation order alone |
| Summaries.ClaimsDiffer | src/cve.rs:764-776 | two findings of one identification never share a verdict |
| Summaries.FindingsAreInOrder | src/cve.rs:764-776 | they come in the report's order of verdicts |
| Summaries.OneEntrySpeaksForItself | src/cve.rs:1056-1068 | a weakness and a remediation of its own are told only of a lone entry, the second only where the distributor has nothing to say |
| Summaries.TheNoteIsSaidWhereTheFirstGroupIs | src/cve.rs:760-776 | the note goes with the first group there is, is said once at most, and on the first finding |
| Summaries.TheNoteIsSaidExactlyWhen | src/cve.rs:697-781 | for every catalogue, identification and overlay, what was withdrawn is said exactly where something was, the catalogue has a name, and the first group has a rated entry and a title |
| LostNotes.TheNoteCanBeLost | src/cve.rs:697-781 | any catalogue of three entries at any version, an unrated one needing a setting, a rated one and one in the clients, withdraws one, reports one, and says nothing of the first |
| LostNotes.SuchCataloguesExist | src/cve.rs:697-781 | such entries, under any three identifiers |
| LostNotes.OneIsCountedTwice | src/cve.rs:703-754 | a catalogue for which, whatever the distributor says, more is reported and withdrawn than vulnerabilities matched |
| Records.AddingKeeps | src/model/port.rs:392-405 | at the ceiling or below it, adding correlations leaves other claims as they were and makes each claim drawn a correlation of its detection |
| Records.ClaimsAreIndependent | src/model/finding.rs:845-976 | below the ceiling each claim ends as its own accounts folded in turn, whatever else was added |
| Records.WhatAClaimIsKnownBy | src/model/finding.rs:791-806 | a claim is its detection and its subject, else the lowest identifier cited, else its title |
| Records.LowestIsLowest | src/model/finding.rs:793-799 | that identifier is cited and none cited is below it |
| Corroboration.TheNewerSpeaks | src/model/finding.rs:845-976 | of accounts of two versions the newer gives stamp, severity, title, class and what it has of excerpt and remediation, and a correlation's certainty and references whole; observations keep the surer and every reference; whichever was held |
| Corroboration.WhatDependsOnWhichWasHeld | src/model/finding.rs:920-932 | the group agrees either way exactly where the newer carries one or the older none, and the subject where not both name different ones |
| Corroboration.TheLaterReadingWins | src/model/finding.rs:845-976 | of accounts of one version the later speaks, under the stamp held |
| Corroboration.AnObservationIsFilledIn | src/model/finding.rs:901-917 | an observation's build, advice and exploitation are filled in and never replaced |
| Records.ReplacingKeeps | src/model/port.rs:412-431 | replacing a catalogue's correlations leaves every other detection's findings alone and keeps the ceiling |
| Replacement.AgainChangesNothing | src/cve.rs:370-380 | replacing again changes nothing where no drawn claim is one an observation holds |
| Replacement.TwiceSettles | src/cve.rs:370-380 | on every port, a third time changes nothing the second did not |
| Lending.FoldsAwayExactlyWhere | src/model/finding.rs:845-976 | an observation folds away into any accounts of its claim exactly where it is no newer and of no other stamp or subject, a lone account is as sure, cites at least what it leads with and names what build, advice and exploitation it does, and it fills no gap in excerpt, remediation or group |
| Lending.UnionIsTheSecond | src/model/finding.rs:901-906 | adding one list of references to another without repeats gives the second exactly where the first leads it |
| Replacement.OnceSettlesExactlyWhen | src/model/port.rs:412-431 | below the ceiling a second replacement changes nothing exactly where every observation whose claim is drawn lends nothing so, by its fields |
| Replacement.AnObservationIsSpent | src/model/port.rs:412-431 | a surer observation lends its confidence once and is then gone |
| Replacement.CataloguesCommute | src/model/port.rs:412-431 | below the ceiling two catalogues' replacements on a port commute |
| Replacement.AtTheCeilingTheFirstHasIt | src/model/finding.rs:56-61 | with one place left, the catalogue joined first has it |
| Correlate.Host.ReplacePortCorrelations | src/model/host.rs:1086-1102 | one port rewritten and no other, nothing where the host has no such port |
| Correlate.Host.Correlate | src/cve.rs:370-380 | in whichever order the judged ports are written, the host ends as the judgements of its first state say |
| Correlate.ListedAreEnoughExactlyWhen | src/cve.rs:397-438 | writing the listed ports is replacing on every port, exactly where no port without a service holds a correlation of the catalogue |
| Correlate.AStalePortIsKept | src/cve.rs:397-438 | a port that lost its service keeps what was drawn on it, where replacing would take it |
| Correlate.ServicesStay | src/cve.rs:370-380 | correlating changes no service, so the next one draws what this one drew |
| Correlate.CorrelatingAgainChangesNothing | src/cve.rs:370-380 | a second correlation of a host changes nothing where no observation collides |
| Correlate.CorrelatingTwiceSettles | src/cve.rs:370-380 | on every host the second correlation is settled |
| Correlate.TwoCataloguesCommute | src/cve.rs:370-380 | correlations by two catalogues of different names commute below the ceiling |
| Drawing.JudgeIdentifiers | src/cve.rs:410-428 | the loop over a service's identifiers gathers what each draws, in order, and adds up what was withdrawn |
| Drawing.TheseAreTheGroups | src/cve.rs:738-754 | what the judging loop may end with is one map of groups and no other |
| Drawing.WhatIsDrawnIsStamped | src/cve.rs:1012-1068 | every finding the modelled judgement draws on a port is of the catalogue's stamp, rests on an identifier, names its subject, and cites nothing twice |
| Drawing.ItDrawsItsOwn | src/cve.rs:697-781 | so such a catalogue draws correlations of its own and nothing else |
| Drawing.ModelledCorrelationSettles | src/cve.rs:370-380 | so correlating any host with it is settled the second time |
| Drawing.APortSettlesAtOnceExactlyWhere | src/cve.rs:370-380 | and a port below the ceiling the first time exactly where no observation on it lends anything |
| Drawing.OneIdentifierOneFindingAClaim | src/cve.rs:1288-1312 | two findings one identifier draws never make one claim, since their subjects end in different verdicts |
| Drawing.SubjectsAsWritten | src/cve.rs:1592-1605 | the nine subjects of a release as they are written |
| Reporting.ProbableExactlyWhere | src/cve.rs:1607-1620 | a finding is probable exactly where the claim of every entry it speaks for was established: by the distributor's data where the build is placed, and else by the version the entry asks for, and behind no setting |
| Reporting.AFindingSpeaksForItsGroup | src/cve.rs:1012-1068 | every finding an identifier draws speaks for one group: as bad as its worst entry, as sure as all of them, citing its identifiers and no others, marking exactly the listed ones, and naming a weakness only of a lone entry |
| Reporting.AGroupIsSpokenFor | src/cve.rs:764-781 | and every group with something to report is one some finding speaks for |
| Reporting.WhatIsWithdrawnIsCounted | src/cve.rs:742-754 | what was withdrawn is counted, each entry once and under its own reason |
| Ber.WalkElement | build.rs:1760-1785 | the recursive walk with its inner loop consumes exactly one element where there is one |
| Ber.ConstructedTags | build.rs:1772-1774 | the elements walked into are sequences and what the context-specific and private classes mark constructed |
| Ber.ValidateBer | build.rs:1757-1791 | the validator accepts what the walk consumes whole |
| Ber.AcceptedExactlyTheEncodings | build.rs:1757-1791 | a payload is accepted exactly where it is the short-form encoding of a tag tree, that tree is unique, and every tree's encoding is accepted whole (section 8.1 of ITU-T X.690) |
| AsReq.ElementAt | build.rs:1208-1234 | the length loop reads short and long forms to four octets |
| AsReq.FieldTags | build.rs:1202-1272 | the loop over a sequence's fields collects the tags of elements that tile it |
| AsReq.ValidateAsReq | build.rs:1202-1272 | the validator accepts what the grammar of a request does |
| AsReq.AcceptedExactlyTheRequests | build.rs:1202-1272 | a payload is accepted exactly where it encodes a request with the required fields, uniquely (section 5.4.1 of RFC 4120) |
| L2tp.LeadingAttribute | build.rs:1276-1345 | the loop over attribute lengths reaches the last byte, keeping the first attribute |
| L2tp.ValidateL2tpControl | build.rs:1276-1345 | the validator accepts exactly a header that holds and a chain that proposes a tunnel, indexes past the end exactly where the first attribute is too short, and subtracts below zero exactly where the message ends in its header |
| L2tp.StopsExactlyWhere | build.rs:1313-1336 | it stops, and neither accepts nor refuses, exactly where the header holds and the message is under twelve bytes or its first attribute holds fewer than two |
| L2tp.AFourByteMessageStops | build.rs:1331-1336 | a message of four bytes that says so |
| L2tp.AnEmptyAttributeStops | build.rs:1326-1328 | a message of a header and one empty attribute |
| L2tp.AcceptedExactlyTheProposals | build.rs:1276-1345 | a message is accepted exactly where attributes tile it to the last byte and propose a tunnel (sections 3.1 and 4.1 of RFC 2661) |
| L2tp.OneTiling | build.rs:1313-1330 | no two lists of attributes tile one message |
| Isakmp.ValidateIsakmpRequest | build.rs:1868-1918 | the loop over next-payload fields terminates and accepts chains that end the message |
| Isakmp.AcceptedExactlyTheChains | build.rs:1868-1918 | a request is accepted exactly where one chain of payloads, and one only, fills it (sections 3.1 and 3.2 of RFC 2408) |
| Rpc.ValidateRpcCall | build.rs:1383-1431 | the loop over the two authentication fields ends at the last byte |
| Rpc.AcceptedExactlyTheCalls | build.rs:1383-1431 | a call is accepted exactly where it is a version 2 call and a credential and a verifier, padded, fill the rest (sections 8.2 and 9 of RFC 5531) |
| Rpc.OneCredentialOneVerifier | build.rs:1413-1431 | no other credential and verifier fill it |
| Pace.Config.Apply | src/config.rs:823-846 | a pace writes what it has a view on and nothing else |
| Pace.WhatEachPaceSends | src/config.rs:656-668 | on an untouched configuration the six paces come to one, ten and two hundred probes a second, one, ten and twenty at a host, twice, half again and the usual patience, and past normal to less effort and half the patience |
| Pace.GapsEndAtTheGreatest | src/config.rs:823-868 | over every sequence of paces, both gaps end at the greatest of what was set and every spacing applied |
| Pace.OrderDoesNotMatterToGaps | src/config.rs:823-868 | the gaps depend on which slow paces were applied, not on order, repeats or fast paces between |
| Pace.PatienceEndsAtTheGreatestSince | src/config.rs:823-846 | patience ends at the greatest since the last hurried pace |
| Pace.EffortIsFastOnceAsked | src/config.rs:823-834 | effort is fast exactly where a fast pace was applied, and otherwise untouched |
| Pace.SlowPacesCommute | src/config.rs:823-868 | sequences of slow paces write the same in any order and however often |
| Pace.ReadExactlyFromItsNumberOrName | src/config.rs:77-92 | a pace is read exactly from its number, as an unsigned byte is written, or its name in any case, padded or not |
| Pace.ANumberIsRead | src/config.rs:77-92 | any digits that spell a level, signed or not, are read as it |

## Left out

- Sockets, tasks, descriptor pressure and pacing gates: a dial, a write, a read and a handshake are single operations of an abstract peer.
- Names and virtual hosts in `gather` and in requests: they change what is sent, and the model does not hold what is sent.
- Reading fields out of replies, and which URLs lead back to the port: parameters. So is decoding in `Collect`, and what is proved of every run holds for any; `Slowest`, `SlowStages` and `Attained` need one that reads ASCII as itself, which `Decoding` proves of the engine's.
- Regular expressions, the signature database, analyzers and the resolution of a verdict.
- UDP identification.
- Durations beyond 64 bits saturate in the source; milliseconds here are unbounded.
- Placing a build in its distributor's data, and collecting the releases a host names: `Drawing` takes the placement, the scope and the advice of a build as functions of all the host's services.
- L2tp.ValidateL2tpControl: where arithmetic is not checked the subtraction below zero wraps, and the payload is refused with a wrong count.
- Attained.TheTimeIsExact: of corpora that give every conversation a probe, as `src/fingerprint/db.rs:222-231` builds them, and where the readers of a port's structure find none in the replies its peers give; those readers are a parameter.
- Titles, excerpts and other wording of a finding are parameters; a blank title is modelled where it loses the finding. An excerpt cut at its limit may lose the note's text.
- Whether a replacement reports that it changed anything, and the set of ports a host notes as touched.
- Records.ClaimsAreIndependent: versions, severities, confidences and classes are their places in their orders.
- Retiring superseded correlations, and merging hosts and ports.
- Editions, languages and the attributes packed with them in a platform name: whatever follows the patch level is not read, and stands for any text.
- Reading catalogues and lists from TOML and bincode, and hashing them.
- The validators that compare fixed fields and walk no lengths (STUN, IPMI, XDMCP, game queries, memcached, WS-Discovery, DNS, NTP, NetBIOS, SSDP, SIP), and CoAP's, whose extended option lengths are read as literal ones.
- Messages of the validators' errors: a refusal is a refusal.
