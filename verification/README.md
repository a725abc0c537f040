# A verified model of the rendezvous server

The server keeps five small state machines in memory: progressive bans and rate windows
(`server/internal/ratelimit`), single-use relay tickets (`server/internal/ticket`), the
registry of online agents (`server/internal/registry`), the relay hub that pairs two
connections and copies bytes between them (`server/internal/relay`), and the offer and
acknowledgement exchange that introduces a client to an agent (`server/internal/signal`).
This project states what each of them guarantees over every run, and proves it in Dafny.

Each machine appears twice. A module of values says what one operation does to the state
(`Windows`, `Bans`, `Tickets`, `Registries`, `Hubs`, `Introductions`, `Agents`) and proves
the properties of its runs. Where the program updates objects in place, a class does so too
(`Window`, `Banbook`, `Limiter`, `Manager`, `Registry`, `HubObject`, `Introducer`), with the
loops of the source, and every method is proved to make exactly the step its value module
describes. `BanHistory` and `Leases` are reference definitions without tables, sweeps or
evictions; `Limits` puts several limiters over one ban book; `Sessions` joins tickets, relay
handler and hub.

| file | source |
|---|---|
| `Clock.dfy`, `Options.dfy`, `Octets.dfy` | instants, options, bytes and unpadded base64url (section 5 of RFC 4648) |
| `Addresses.dfy` | `BanKey` in `ratelimit/guard.go` |
| `Windows.dfy` | `ratelimit/window.go` |
| `Bans.dfy`, `BanHistory.dfy`, `Banbook.dfy` | `Banbook` in `ratelimit/guard.go` |
| `Limits.dfy`, `Limiter.dfy` | `Limiter` in `ratelimit/guard.go`, `ratelimit/http.go`, `signal/handler.go`, `server/wire.go` |
| `Tickets.dfy`, `TicketManager.dfy` | `ticket/ticket.go` |
| `Registries.dfy`, `Leases.dfy`, `Registry.dfy` | `registry/registry.go` |
| `Hubs.dfy`, `Relay.dfy` | `relay/relay.go` |
| `Introductions.dfy`, `Introducer.dfy` | the exchange in `signal/client.go` and `signal/agent.go` |
| `Agents.dfy` | the agent handler in `signal/agent.go` |
| `Sessions.dfy` | `signal/client.go`, `ticket/ticket.go`, `server/wire.go`, `relay/relay.go` together |

Conventions and assumptions:

- Time is a whole number of nanoseconds since Go's zero time, and every operation takes its
  clock reading as a parameter. Runs are on a clock that does not go back from one operation
  to the next. `Sweep(now)` reads its clock before it takes its lock
  (`server/internal/server/serve.go:57`); the model orders it by that reading.
- A mutex section is one step. In `Hubs`, `Introductions` and `Agents` all interleavings of
  steps are considered, and timers may fire at any moment. `Limiter.Allow` and `Admit` span
  several sections and are one step each; `Blocked` reads its clock twice and is given one
  reading.
- Ranging over a map visits the keys in any order whatever.
- The text side of package `net` is a value `Net` whose laws are `Addresses.Lawful`; Ed25519
  and the JSON codec are a value `Crypto` of which only `Tickets.Sound` is assumed:
  signatures verify, and decoding inverts encoding.
- That nobody but the manager can sign is an assumption about signatures, stated where it is
  used, in `Sessions.Can`: a text that is accepted reads, as payload and signature, like one
  that was issued. It need not be that very text. Session ids are fresh.

Where the code and its comments differ, the model follows the code:

- A ticket is called single-use (`server/internal/ticket/ticket.go:13`), but what is remembered
  is its text, and the base64 decoder skips line breaks, so one ticket has several texts.
  `SingleUse` holds per text; `SingleUsePerTicketExactly` says when it holds per ticket,
  `CanonicalTextsMakeSingleUse` gives a test that would make it hold, and
  `LineBreakAdmitsTwice` is the run in which it fails. A like run brings two connections of
  one role to the hub (`LineBreakReachesTheDuplicateBranch`); what follows for sessions is
  stated exactly, and for canonical texts outright.
- Strikes and bans are forgotten before their time when a full table evicts the entry
  (`server/internal/ratelimit/guard.go:181-202`). `HistoryDecides` covers all runs;
  `RemembersExactly` says when nothing is lost; `FullTableForgetsABan` and
  `FullTableForgetsAStrike` are runs in which a ban and a rung are.
- A strike of the other kind can replace a longer ban with a shorter one
  (`server/internal/ratelimit/guard.go:228`); `ShortensAcrossKinds` says exactly
  when.
- The second eviction pass is said to take the entry whose ban expires soonest
  (`server/internal/ratelimit/guard.go:160-161`), but an entry that is not banned goes first,
  by its last sighting. `EvictionIsOptimal` states both.
- A flood of bad tickets is said to draw a soft strike (`server/internal/server/wire.go:104`),
  but the strike is on the long ladder.
- One address range is said to be one entry (`server/internal/ratelimit/guard.go:68-69`), and it
  is struck as one, but bad tickets are counted under the raw address
  (`server/internal/server/wire.go:105`), so each address of a range has a budget of its own
  (`BadTicketStrikesExactly`, `OneRangeTwoBudgets`). Faults are counted under the range.
- Registering the same connection again under other keys is called a key refresh
  (`server/internal/registry/registry.go:34`), but it may leave the old slot bound under some
  of its keys only; `UpsertKeepsOwnedExactly` says when, and `SecondRegistrationSplits` is the
  run. The agent handler never does it.
- `Touch` ignores the expiry, so a ping can revive an expired slot that nothing has looked at;
  `LookupMattersToPingExactly` says when that shows, and `LookupThenPingDiffers` is the run.
- A waiter whose timer fires just before its peer arrives is paired and then closes its own,
  paired, connection (`server/internal/relay/relay.go:104-112`); `StaleTimerCutsAPair` is the run,
  and `PairedAreShutByPumpOrTimer` the exact condition.

## Model

| member | source | states |
|---|---|---|
| Clock.Unix | server/internal/ticket/ticket.go:88 | a floored second s is at most e exactly until the instant at which second e+1 begins |
| Octets.OnlySymbols | server/internal/ticket/ticket.go:94 | unpadded base64url text holds no dot and no line break |
| Octets.RoundTrip | server/internal/ticket/ticket.go:104-108 | the tolerant decoder inverts the encoder on all byte strings |
| Addresses.ComputeBanKey | server/internal/ratelimit/guard.go:70-88 | the masking loop yields the key that keeps the high eight bytes and clears the low eight |
| Addresses.KeysMergeOnlyTheSlash64 | server/internal/ratelimit/guard.go:68-88 | two addresses share a key if and only if they are one IPv4 address or lie in one IPv6 /64 |
| Addresses.BanKeyIsIdempotent | server/internal/ratelimit/guard.go:91-95 | mapping an address twice, as Allow and Blocked do together, is mapping it once; only the empty address has the empty key |
| Windows.Compact | server/internal/ratelimit/window.go:40-45 | the filter that writes over the array it reads leaves exactly the timestamps after the cut, in order |
| Windows.Append | server/internal/ratelimit/window.go:54 | appending keeps the contents, in place if and only if there is capacity, else in a new array |
| Windows.Window.constructor | server/internal/ratelimit/window.go:18-27 | an empty window; a length of zero or less becomes a minute |
| Windows.Window.Allow | server/internal/ratelimit/window.go:31-56 | verdict and new table are those of the pure step; no two keys come to share a backing array |
| Windows.Window.Sweep | server/internal/ratelimit/window.go:59-76 | in any map order, every key keeps exactly its recent timestamps, and keys left with none go |
| Windows.TableTracksHistory | server/internal/ratelimit/window.go:31-76 | after any run the table holds, from one window back, exactly the hits ever accepted |
| Windows.WindowRefinesHistory | server/internal/ratelimit/window.go:29-56 | in every run with sweeps a hit is accepted if and only if fewer than limit hits of its key were accepted in (now - window, now] |
| Windows.RateIsBounded | server/internal/ratelimit/window.go:8-14 | every half-open interval of window length, wherever it ends, holds at most limit accepted hits |
| Windows.VerdictIsLocal | server/internal/ratelimit/window.go:29-56 | a verdict is unchanged when all other keys' operations and all sweeps are struck from the run |
| Windows.UnlimitedStoresNothing | server/internal/ratelimit/window.go:29-36 | with a limit of zero or less every hit passes and the table stays empty |
| Windows.SweptTableIsRecent | server/internal/ratelimit/window.go:58-76 | a swept table holds exactly the keys with a hit accepted in the window, and of each exactly those hits |
| Banbooks.Banbook.Blocked | server/internal/ratelimit/guard.go:91-107 | answers the expiry of a running ban and marks the entry as seen; nothing for the empty key |
| Banbooks.Banbook.NoteRejected | server/internal/ratelimit/guard.go:111-125 | counts the rejection, and marks the entry only while its ban runs |
| Banbooks.Banbook.StrikeKey | server/internal/ratelimit/guard.go:127-158 | a strike makes room first when its key is new, and imposes the term its ladder and the decay dictate |
| Banbooks.Banbook.StrikeEntry | server/internal/ratelimit/guard.go:151-233 | the entry after the decay reset and the strike, and the duration imposed |
| Banbooks.Banbook.EnsureCapacity | server/internal/ratelimit/guard.go:162-203 | evicts exactly when the table is full, one entry, and one that either pass may choose |
| Banbooks.Banbook.FirstIdle | server/internal/ratelimit/guard.go:166-177 | finds an idle entry in any map order, or there is none |
| Banbooks.Banbook.Cheapest | server/internal/ratelimit/guard.go:181-194 | finds an entry of least rank in any map order |
| Banbooks.Banbook.Sweep | server/internal/ratelimit/guard.go:237-255 | in any map order exactly the idle entries go, and the gauge becomes the number of running bans |
| Bans.RunKeepsInv | server/internal/ratelimit/guard.go:137-255 | over every run: the table is within its cap, every entry has a strike and was seen since, no empty key, and the gauge covers the running bans |
| Bans.TableIsBounded | server/internal/ratelimit/guard.go:29-30 | the table never outgrows maxKeys, whatever the map range offers for eviction |
| Bans.EvictionIsOptimal | server/internal/ratelimit/guard.go:160-203 | a running ban is evicted only if all entries are running bans, and then one that ends first; otherwise the victim is idle or the unbanned entry seen longest ago |
| Bans.GaugeCoversLiveBans | server/internal/ratelimit/guard.go:162-255 | the gauge is never below the number of running bans, now or later, and is exact right after a sweep |
| Bans.StepKeepsBound | server/internal/ratelimit/guard.go:162-203 | every single step keeps the table within its cap |
| BanHistory.HistoryDecides | server/internal/ratelimit/guard.go:91-255 | in every run every answer of the book is a function of the strikes against that key since its own last eviction: the n-th strike of a kind in a decay period lands on rung min(n, length) of that kind's ladder, and rejections never climb |
| BanHistory.WholeHistoryDecides | server/internal/ratelimit/guard.go:91-255 | all strikes against a key count if its own entry was evicted only when no ban and no undecayed strike was left, whatever befell other keys |
| BanHistory.RoomySpares | server/internal/ratelimit/guard.go:166-177 | evictions of the first pass meet that condition for every key |
| BanHistory.RemembersExactly | server/internal/ratelimit/guard.go:137-203 | throughout a run the book says what all strikes against a key dictate, about its ban and about the next rung of either ladder, if and only if it never evicts the key while its ban runs or its strikes count |
| BanHistory.EvictionForgetsExactly | server/internal/ratelimit/guard.go:162-203 | right after an eviction of the key the book still says so if and only if no ban and no undecayed strike was left |
| BanHistory.WiredRungsDiffer | server/internal/ratelimit/guard.go:10-27 | as wired, no later rung equals the first, which is what the two previous rows need |
| BanHistory.FullTableForgetsABan | server/internal/ratelimit/guard.go:29-30 | the run of the wired book in which 10,000 banned keys fill the table and a strike against one more ends the ban of the first |
| BanHistory.FullTableForgetsAStrike | server/internal/ratelimit/guard.go:181-202 | the same run a minute later: the first key's next ban is one minute again instead of five |
| BanHistory.SweepingIsInvisible | server/internal/ratelimit/guard.go:162-255 | a capped book swept at any times and an uncapped one never swept answer alike after the same calls, for every key not itself evicted while its ban ran or its strikes counted |
| BanHistory.OnlyBlowsMatter | server/internal/ratelimit/guard.go:137-234 | two books that saw the same strikes against a key since its last eviction answer alike for it, whatever else befell them |
| BanHistory.TableByHistory | server/internal/ratelimit/guard.go:91-255 | in every run the book holds exactly the keys struck and since neither evicted nor quiet at a sweep, and remembers for each the instant of the last strike, check, or rejection under a running ban |
| BanHistory.EvictionByHistory | server/internal/ratelimit/guard.go:160-203 | an entry may be evicted if and only if its key is quiet, or none is and its turn comes first, by the end of its ban or else by when it was last seen, all told from the operations alone |
| BanHistory.GaugeByHistory | server/internal/ratelimit/guard.go:195-255 | the gauge is recounted by a sweep, raised by a strike on a key that is not banned and lowered by the eviction of one that is |
| BanHistory.CountersCount | server/internal/ratelimit/guard.go:111-233 | the counters are the numbers of strikes, evictions and noted rejections |
| BanHistory.SoftBansStayShort | server/internal/ratelimit/guard.go:21-27 | a soft strike never bans beyond 15 minutes from itself |
| BanHistory.OneKindNeverShortens | server/internal/ratelimit/guard.go:151-228 | a further strike of the same kind never moves the end of a ban earlier, even after a decay reset |
| BanHistory.ShortensAcrossKinds | server/internal/ratelimit/guard.go:205-234 | in every run a strike cuts a ban short if and only if the last strike was of the other kind and less time has passed since than its rung exceeds the coming one; the rungs and the time can be read off the stored entry before the strike |
| BanHistory.WiredLaddersAreSane | server/internal/ratelimit/guard.go:10-27 | as wired, both ladders climb and hold no rung longer than the decay, which is what the previous row needs |
| BanHistory.SoftStrikeCutsAnHourToAMinute | server/internal/ratelimit/guard.go:228 | the run of five strikes in which a soft one turns an hour's ban into a minute's |
| Limiters.Limiter.CheckBan | server/internal/ratelimit/guard.go:326-336 | the ban answer, with no hit recorded in the window |
| Limiters.Limiter.Allow | server/internal/ratelimit/guard.go:305-323 | book, window and verdict after one Allow; the strike for crossing the limit evicts only as the book may |
| Limiters.Limiter.Count | server/internal/ratelimit/guard.go:316-321 | a hit on a counter, and a strike of the wanted kind against the address if and only if the counter is full |
| Limiters.Limiter.Admit | server/internal/ratelimit/http.go:28-47 | the verdict, and a Retry-After that counts down to the end of the running ban |
| Limiters.RetryAfter | server/internal/ratelimit/http.go:16-19 | whole seconds left, rounded down, and 60 for less than one |
| Limiters.TurnedAwayUntilTheBanEnds | server/internal/ratelimit/http.go:28-47 | whoever is turned away is under a ban and is told the whole seconds left of it, or 60 for less than one |
| Limiters.Limiter.NoteFault | server/internal/signal/handler.go:75-85 | the fault goes to its own counter and strikes the long ladder only when that is full |
| Limiters.Limiter.NoteBadTicket | server/internal/server/wire.go:103-107 | the bad ticket goes to its own counter and strikes the long ladder only when that is full |
| Limits.TurnedAwayMeansBanned | server/internal/ratelimit/http.go:28-47 | the ban pre-check changes no verdict, and the caller is under a running ban afterwards if and only if it was turned away |
| Limits.BudgetsAreSeparate | server/internal/server/wire.go:96-110 | whether a registration, a fault or a bad ticket finds its budget spent depends on earlier uses of that kind and key alone |
| Limits.FaultStrikesExactly | server/internal/signal/handler.go:72-85 | a fault strikes if and only if limit faults of that key, and of nothing else, were recorded in the window before it |
| Limits.StrikeNeedsFaults | server/internal/signal/handler.go:72-85 | a fault strikes only if limit faults of that key were noted in the window before it |
| Limits.BadTicketStrikesExactly | server/internal/server/wire.go:103-107 | a bad ticket strikes if and only if limit bad tickets of that very address, and of nothing else, were recorded in the window before it |
| Limiters.OneRangeTwoBudgets | server/internal/server/wire.go:103-107 | two addresses of one IPv6 /64 have one key in the book and two budgets of bad tickets: the run in which the next bad ticket of the first strikes their key and that of the second does not |
| Limits.SysKeeps | server/internal/ratelimit/guard.go:305-323 | in every run of all limiters over one book, each stored hit of a key is from before the strike of its last ban or after that ban, even when the book has dropped the entry |
| Limits.OnlyFreshHitsCount | server/internal/ratelimit/guard.go:305-323 | no double punishment: once a key's last ban is over, Allow counts only the hits accepted since, and admits if there are none, whether or not the entry is still stored |
| Limits.BookFollows | server/internal/ratelimit/guard.go:305-336 | every run of the limiters is a run of the book they share: rate trips strike softly, full fault counters on the long ladder, and rejections strike nobody |
| Limits.WindowFollows | server/internal/ratelimit/guard.go:305-323 | and of each window: whoever is banned is not counted |
| Limits.AdmittedExactly | server/internal/ratelimit/guard.go:303-323 | in every run of the limiters over one book, a caller is admitted if and only if the strikes against its key dictate no ban and fewer than limit of its hits were accepted in the window |
| Limits.FaultsClimbToADay | server/internal/ratelimit/guard.go:10-19 | a fault that finds its counter full bans for 1, 5, 15, 60 minutes, and from the fifth strike within the decay on for a day |
| Limits.RateTripsClimbToAQuarter | server/internal/ratelimit/guard.go:21-27 | a caller that finds its rate window full is banned for 1, 5 or 15 minutes, by the rate strikes that still count |
| Limits.RateTripsStayShort | server/internal/ratelimit/guard.go:21-27 | a key that is never blamed for a fault is never banned beyond 15 minutes from now |
| Limits.WiredRungsCover | server/internal/server/wire.go:45-53 | as wired, every rung is at least as long as the window, which is what the previous row needs |
| Tickets.FindDot | server/internal/ticket/ticket.go:131-143 | splits at the first dot, or reports that there is none |
| Tickets.TextRoundTrip | server/internal/ticket/ticket.go:82-111 | for all payload and signature bytes, splitting and decoding invert the ticket encoding |
| Tickets.LineBreakReadsAlike | server/internal/ticket/ticket.go:100-111 | a ticket text with a line break appended reads as the same payload and signature |
| Tickets.IssuedReadsBack | server/internal/ticket/ticket.go:82-120 | an issued text says the session, the role and the expiry that were signed |
| Tickets.KeyStillCounts | server/internal/ticket/ticket.go:49-80 | the key that signed still verifies for 31 seconds, whatever sweeps rotate or drop |
| Tickets.ExpiryIsWithinGrace | server/internal/ticket/ticket.go:20-22 | the floored expiry passes within those 31 seconds |
| Tickets.AcceptedExactly | server/internal/ticket/ticket.go:97-129 | in every run a text is accepted if and only if it is well formed, signed by the key in force or by the one it replaced with no sweep 31 s or more after that, not expired, and not admitted before, all told from the operations alone |
| Tickets.RefusedWhy | server/internal/ticket/ticket.go:97-127 | which of the five refusals is given, in the order of the tests |
| Tickets.ForgeriesAreRefused | server/internal/ticket/ticket.go:112-116 | a text that no key of the manager, past or present, verifies is refused |
| Tickets.IssueSignsWithKeyInForce | server/internal/ticket/ticket.go:82-95 | in every run a ticket is signed with the key that the sweeps have put in force |
| Tickets.RotationTakesEffect | server/internal/ticket/ticket.go:68-80 | after a sweep that finds the key an hour old and can make a new one, every ticket issued until the next rotation is signed with the new key |
| Tickets.ReplacedKeysStopCounting | server/internal/ticket/ticket.go:56-59 | once a sweep has come 31 s or more after a rotation, and until the next one, only what the new key verifies is accepted |
| Tickets.TicketsLiveAsLongAsAsked | server/internal/ticket/ticket.go:85-88 | an unpresented ticket is accepted until the lifetime asked for has passed, 30 s at most, and refused a second later |
| Tickets.NoTicketIsLost | server/internal/ticket/ticket.go:49-129 | in every run, an issued and unpresented ticket is accepted at exactly the instants its floored expiry allows |
| Tickets.SingleUse | server/internal/ticket/ticket.go:97-129 | once accepted, a text is refused for ever, although sweeps forget it |
| Tickets.HonouredExactlyOnce | server/internal/ticket/ticket.go:97-129 | a text of an issued ticket is accepted if and only if the ticket has not expired and this very text was not presented before |
| Tickets.TicketAdmitsOncePerText | server/internal/ticket/ticket.go:13-129 | in every run an issued ticket is admitted exactly as often as there are different texts of it presented by its expiry |
| Tickets.SingleUsePerTicketExactly | server/internal/ticket/ticket.go:13-129 | a ticket is used once at most if and only if it is presented by its expiry under one text only |
| Tickets.CanonicalTextsMakeSingleUse | server/internal/ticket/ticket.go:82-129 | if only texts as Issue writes them are presented, every ticket is used once at most |
| Tickets.LineBreakAdmitsTwice | server/internal/ticket/ticket.go:97-129 | the run in which one ticket is admitted twice, the second time with a line break appended |
| Tickets.StaysSpent | server/internal/ticket/ticket.go:49-129 | a spent text is remembered or past its expiry, at every later step of every run |
| Tickets.SweepForgetsExactlyTheExpired | server/internal/ticket/ticket.go:60-65 | after a sweep the used texts are exactly those still unexpired |
| TicketManagers.Manager.constructor | server/internal/ticket/ticket.go:34-45 | a manager with one key, no previous key and nothing used |
| TicketManagers.Manager.Issue | server/internal/ticket/ticket.go:82-95 | the text of the stamped ticket; the lifetime is clamped to 30 seconds |
| TicketManagers.Manager.Verify | server/internal/ticket/ticket.go:97-129 | the verdict with its five refusals in order, and only an accepted text becomes used |
| TicketManagers.Manager.Sweep | server/internal/ticket/ticket.go:49-66 | rotation if due and possible, then the grace test, then the used texts |
| TicketManagers.Manager.MaybeRotate | server/internal/ticket/ticket.go:68-80 | after an hour the old public key becomes the previous one for 31 seconds; a failed key generation changes nothing |
| TicketManagers.Manager.Prune | server/internal/ticket/ticket.go:60-65 | in any map order exactly the expired texts go |
| Registries.ClearSpec | server/internal/registry/registry.go:42-54 | Upsert's first pass unbinds dead slots only, and passes if and only if no wanted key is live for another connection |
| Registries.UpsertKeepsOwnedExactly | server/internal/registry/registry.go:32-60 | a successful Upsert keeps every slot whole if and only if each live slot it overlaps has all its keys among the new ones |
| Registries.SecondRegistrationSplits | server/internal/registry/registry.go:32-60 | the run in which a connection registers again under one of its two keys and its old slot stays bound under the other |
| Registries.RefusalKeepsLive | server/internal/registry/registry.go:32-34 | a refused Upsert removes no live binding and renews none |
| Registries.OwnershipIsAllOrNothing | server/internal/registry/registry.go:35-125 | when each connection registers once, every registered slot is bound under exactly all its keys, and a connection has one slot |
| Registries.SlotsAreDisjoint | server/internal/registry/registry.go:10-19 | distinct registered slots have no key in common |
| Registries.LeavingRemovesEveryKey | server/internal/registry/registry.go:86-106 | removal by the first key leaves no key leading to that connection, even if its slot was replaced before |
| Leases.RegistryMatchesLedger | server/internal/registry/registry.go:35-125 | the registry and a table that is never tidied lead every key to the same running lease, over every run whose pings spare expired slots |
| Leases.InStepExactly | server/internal/registry/registry.go:35-125 | the two stay in step throughout a run if and only if no ping of the run reaches an expired slot |
| Leases.AnswersAreTheLedgers | server/internal/registry/registry.go:35-152 | look-ups, registrations and the count per address answer as that table does, so lazy deletion and sweeps are invisible |
| Leases.LookupMattersToPingExactly | server/internal/registry/registry.go:62-84 | a look-up changes what a following ping achieves if and only if the key's slot had expired |
| Leases.LookupThenPingDiffers | server/internal/registry/registry.go:62-84 | the two runs, with and without a look-up, after which a ping has and has not revived a slot |
| Leases.EveryRunIsWithinTtl | server/internal/registry/registry.go:55-69 | no expiry ever lies further ahead than one ttl |
| Leases.LeaseHolds | server/internal/registry/registry.go:35-125 | a key keeps leading to its connection until its expiry through anything but a Remove for that connection or with nil |
| RegistryObjects.Registry.Upsert | server/internal/registry/registry.go:35-60 | verdict and registry after both passes, including what a refused Upsert has already cleared |
| RegistryObjects.Registry.DeleteSlot | server/internal/registry/registry.go:100-106 | drops exactly the slot's own keys that still lead to it |
| RegistryObjects.Registry.Touch | server/internal/registry/registry.go:62-71 | renews whichever slot holds the key, under all its keys, expired or not |
| RegistryObjects.Registry.Get | server/internal/registry/registry.go:73-84 | the live slot, or none and the dead slot is unbound |
| RegistryObjects.Registry.Remove | server/internal/registry/registry.go:87-98 | unbinds the slot if the connection matches or is nil, else nothing |
| RegistryObjects.Registry.Sweep | server/internal/registry/registry.go:108-125 | in any map order, deleting while ranging, exactly the dead slots go, each counted once |
| RegistryObjects.Registry.Len | server/internal/registry/registry.go:127-135 | the number of distinct slots |
| RegistryObjects.Registry.CountByIP | server/internal/registry/registry.go:138-152 | the number of distinct live connections of an address |
| Hubs.RunKeepsInv | server/internal/relay/relay.go:53-135 | what every interleaving of the hub keeps: table, pairs, channels and closed connections agree |
| Hubs.ChannelsCloseOnce | server/internal/relay/relay.go:71-74 | whoever is about to close a paired channel finds it open, in every interleaving |
| Hubs.PumpingReleasesTheWaiter | server/internal/relay/relay.go:74-103 | once the pump of a pair runs, the waiter's channel has been closed once, and a waiter still in its select can leave it |
| Hubs.UnpairedAreClosed | server/internal/relay/relay.go:53-113 | whoever returns without a partner has had its connection closed |
| Hubs.PumpsAreDisjointPairs | server/internal/relay/relay.go:63-81 | a pump joins one sid and opposite roles, and no two running pumps share a connection |
| Hubs.PairsAreForGood | server/internal/relay/relay.go:63-81 | a paired connection keeps its partner through every continuation of the run, so it is in one pair at most |
| Hubs.TableIsThePendingCalls | server/internal/relay/relay.go:84-113 | no slot stays in the table after its Arrive returned, and a pending call is in the table if and only if it has no partner |
| Hubs.TimeoutSparesOthers | server/internal/relay/relay.go:104-109 | a timeout, however stale, removes its own entry only |
| Hubs.PairedAreShutByPumpOrTimer | server/internal/relay/relay.go:99-135 | a paired connection is closed if and only if a pump of its pair has ended, or its own timer had fired and its Arrive has returned |
| Hubs.StaleTimerCutsAPair | server/internal/relay/relay.go:104-112 | the run in which a fired timer closes a paired connection before any pump ends |
| Relays.HubObject.Join | server/internal/relay/relay.go:53-90 | Arrive up to its unlock is the Enter step: bad role, duplicate, paired with an open channel, or parked |
| Relays.HubObject.ClosePaired | server/internal/relay/relay.go:74 | closes a channel that is open |
| Relays.HubObject.ExpireSlot | server/internal/relay/relay.go:104-109 | the timer's lock section removes the entry if and only if it is the caller's own |
| Relays.Pump | server/internal/relay/relay.go:137-167 | forwards unmodified and in order the longest prefix of the frames that fit, stay within the cap and can be written; meters those and at most the next |
| Relays.PumpStaysWithinCap | server/internal/relay/relay.go:149-161 | forwarded bytes stay within a positive cap, metered bytes exceed them by one message at most, and the int64 counter does not overflow under any cap up to 2^63 - 1 - 2^20 |
| Relays.EverythingGoesThrough | server/internal/relay/relay.go:137-167 | frames of 1 MiB at most that together stay within the cap, or without a cap, all go through if the writes succeed |
| Introductions.RunKeepsInv | server/internal/signal/client.go:63-115 | what every interleaving of look-ups and agent loops keeps |
| Introductions.PendingIsInFlight | server/internal/signal/client.go:75-85 | the pending table holds exactly the look-ups in flight |
| Introductions.AnswersFindTheirLookup | server/internal/signal/client.go:75-89 | an acknowledgement of an offered sid finds that look-up's channel unless the look-up has ended |
| Introductions.AckFindsItsLookup | server/internal/signal/agent.go:148-156 | an acknowledgement finds exactly the look-up in flight under its sid, and is ignored when there is none |
| Introductions.PeersWereOffered | server/internal/signal/client.go:87-103 | no client is given a peer before the offer has gone out |
| Introductions.FirstTwoAcksAreKept | server/internal/signal/agent.go:143-156 | the send ends at once, and drops nothing until two acknowledgements were accepted on that channel |
| Introductions.ClientSeesOneConversation | server/internal/signal/client.go:48-115 | a client sees only error, absent, a peer, or a peer without direct and then one direct, taken from the first two acknowledgements in order |
| Introducers.Introducer.Register | server/internal/signal/client.go:75-80 | a new channel is in the table under the sid |
| Introducers.Introducer.Deregister | server/internal/signal/client.go:81-85 | the sid leaves the table |
| Introducers.Introducer.Receive | server/internal/signal/client.go:94-96 | takes the oldest acknowledgement from the channel |
| Introducers.Introducer.Find | server/internal/signal/agent.go:148-150 | the channel of the sid, if it is pending |
| Introducers.Introducer.TrySend | server/internal/signal/agent.go:151-156 | adds the acknowledgement if there is room for it, else drops it, and never waits |
| Agents.CollectRIDs | server/internal/signal/agent.go:161-180 | the loop yields the handles in order of first mention |
| Agents.HandlesAreDistinct | server/internal/signal/agent.go:161-180 | no handle twice, none blank, none missing |
| Agents.CheckProof | server/internal/signal/agent.go:71-107 | passes if and only if the identity is shown and a due mac is well formed; is a fault if and only if a well-formed proof does not show the identity |
| Agents.HandlersRegisterOnce | server/internal/signal/agent.go:113-124 | in every interleaving each connection registers at most once, which is what the registry's ownership results ask for |
| Agents.RegisteredHaveProved | server/internal/signal/agent.go:44-124 | whatever a key leads to is the slot of a handler at work, under exactly its keys, whose identity was shown on a challenge given to no other handler |
| Agents.NoSlotOutlivesItsHandler | server/internal/signal/agent.go:119-133 | once a handler has returned, no key ever leads to its connection |
| Agents.FaultsAreCountedOnce | server/internal/signal/agent.go:35-96 | in every interleaving the faults noted against a key in any interval are exactly as many as the handlers of that key that ended by a fault in it |
| Agents.StrikesNeedManyOffenders | server/internal/signal/agent.go:35-96 | when the fault a handler notes strikes its key, limit other handlers of that key have ended, within the window, without a hello or an identity or with a proof that does not show it |
| Agents.WhoIsBlamed | server/internal/signal/agent.go:35-96 | of the handlers that have ended, exactly those noted a fault that sent no hello, named no identity, or gave a proof that does not show it |
| Agents.NamedByHello | server/internal/signal/agent.go:35-51 | each handler goes by the normalised identity and handles of its hello, and ends for want of a hello or an identity exactly if it must |
| Agents.ChallengedWereScreened | server/internal/signal/agent.go:52-65 | where agents per address are capped, nobody is challenged who was not screened first |
| Agents.ScreenSparesExactly | server/internal/signal/agent.go:53 | a handler is spared the count if and only if its identity already leads to a reachable handler of its own address |
| Agents.CountRefusesExactly | server/internal/signal/agent.go:54-57 | a handler that is counted is turned away if and only if as many handlers of its address as are allowed can be reached |
| Agents.PingRenews | server/internal/signal/agent.go:140-142 | a ping by a handler whose identity leads to its slot makes it reachable under all its keys for one ttl |
| Agents.WhoPingsStaysReachable | server/internal/signal/agent.go:119-142 | from its registration on, a handler that pings at least once per ttl and does not hang up is reachable under all its keys, whatever others do |
| Sessions.RunKeepsInv | server/internal/server/wire.go:96-119 | what every interleaving of issuing, sweeping, dialling and pairing keeps |
| Sessions.SpentIsDialledInTime | server/internal/ticket/ticket.go:97-129 | in every run the texts of a ticket that admit a connection are exactly those dialled once it is issued and by its expiry: the first dial of each is admitted, and no other |
| Sessions.OnePerRoleExactly | server/internal/server/wire.go:96-119 | in every run, one connection at most is admitted for each session and role if and only if no ticket is dialled in time under two texts |
| Sessions.OnePerRole | server/internal/ticket/ticket.go:97-129 | if all texts dialled are canonical, one connection at most is admitted for each session and role |
| Sessions.ArrivalIsRefusedExactly | server/internal/server/wire.go:96-119 | through the relay handler the hub refuses an arrival if and only if another connection waits there that was admitted with a text of the same ticket |
| Sessions.ArrivalsAreNeverRefused | server/internal/relay/relay.go:53-91 | if all texts dialled are canonical, the hub never meets a bad role or a duplicate role |
| Sessions.LineBreakReachesTheDuplicateBranch | server/internal/relay/relay.go:63-70 | the run in which one agent ticket, dialled twice under two texts, brings a second agent to the hub |
| Sessions.PairsJoinTheTwoTickets | server/internal/signal/client.go:63-73 | in every run, whatever its texts, the hub pairs only connections that spent the two tickets of one session, one each |
| Sessions.PairedAgainExactly | server/internal/relay/relay.go:63-81 | in every run a paired connection is of a pair's session but not of the pair if and only if it spent another text of one of that pair's two tickets |
| Sessions.SessionsPairOnce | server/internal/signal/client.go:63-73 | if all texts dialled are canonical, a session is paired at most once, and joins the connection that spent its agent ticket with the one that spent its client ticket |

## Left out

- TLS, ACME, HTTP routing, WebSocket upgrade and deadlines, UDP reflection, notices, configuration, logging and metrics output: plumbing around the five machines.
- The control-message decoder and the JSON codec: messages are typed values, and a ticket's encoding is any one that decodes back, so sids that are not valid UTF-8 are outside `Tickets.Sound`.
- Ed25519, SHA-256 and random bytes: abstract functions and fresh values.
- IP text parsing and printing: the value `Net` with its laws; only the /64 masking is modelled byte by byte.
- Strings are sequences of characters, not of UTF-8 bytes, and `strings.ToLower` and `TrimSpace` are one abstract function.
- `NewWire` and `SweepOnce` as compositions: their limiters, windows and sweep order enter as `Limits.Sys` and its steps, the copied gauges do not.
- The relay gate, which has a book and no window, and the UDP reflector, which has a window and no book, are not classes of their own; a missing receiver, book or window (`nil`) is not modelled.
- The wrap-around of the int64 counters of the ban book, and the saturation of time differences beyond 292 years.
- Liveness: that timers fire, pumps end and goroutines run. Timers are steps that may be taken at any time, so no property depends on the two minutes, two seconds or 50 milliseconds they are set to.
- `maxLife` of a pair: the end of a pump and the lifetime timer are one step, after which both connections are closed.
- A cap on live agents per address: the check and the registration are separate steps around a handshake, so the code does not promise it; `CountRefusesExactly` and `ScreenSparesExactly` say what the check promises.
- The count of rejections in a ban entry is kept as in the code, which never reads it; no law mentions it.
- The `Pub` and `WriteMu` fields of a slot: one is only stored, the other only orders writes on one socket.
- Leases.RegistryMatchesLedger: excludes a ping to a slot that has expired and not been swept, because `Touch` revives it; `InStepExactly` is the exact condition.
- BanHistory.SweepingIsInvisible: excludes keys evicted while their ban ran or their strikes counted, because the second eviction pass does forget those; `RemembersExactly` is the exact condition.
- Sessions.SessionsPairOnce: asks for canonical texts, because the code admits a ticket again under another text; `OnePerRoleExactly`, `ArrivalIsRefusedExactly` and `PairedAgainExactly` are the exact conditions.
