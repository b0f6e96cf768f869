# AnyStudio: the ffmpeg gate, host routing, page rendering and the balance protocol

A Dafny 4.11 model of the parts of the repository where ordering, parsing or arithmetic
can go wrong, with proofs over every input, every run and every interleaving. Verify it
with `dafny verify dfyconfig.toml`.

| file | models |
|---|---|
| `FfmpegGate.dfy` | the counting semaphore every ffmpeg child passes: a first-come wait list, direct hand-off, cancellation by shared abort signals |
| `HostRouting.dfy` | the redirect decisions of the web middleware and the derivation of sibling hosts, as a transition system on (host, path, query) |
| `Escaping.dfy`, `Prose.dfy` | the renderer of the marketing pages: five chained replacements, and a compiler from plain text to HTML |
| `AppContext.dfy` | the balance in the top bar, answers from the ledger in any order, and the active workspace |
| `WorkerPool.dfy` | the vendor check's cooperative workers over one cursor and one result list, and its retry loop |
| `WebhookVerify.dfy` | the receiver customers copy to check a signature header |
| `Downscale.dfy` | the decision sequence and the rounding of the photo downscaler |
| `AuthCode.dfy` | the cleaning of a typed authentication code |
| `Text.dfy` | trimming, splitting and joining as JavaScript does them |

How the parts are built. What the source does step by step on fields is a class or a method
with a loop, proved equal to a step function on values (`FfmpegGate.Gate`,
`AppContext.AppProvider`, `WorkerPool.RunPool`, `Downscale.DownscaleImage`); the theorems are
about runs of the step function. What the source writes as expressions is a function. Each
main result has an independent partner: the gate's counter is compared with a count over the
fate of every call, the balance counter with a reading of the event log that uses no counter,
the renderer with a lexer and a stack machine, the escaping with two decoders, the header
parser with an existential over its parts and with a printer.

Beside the theorems over runs, each operation has a lemma that says what it does without naming
its parts (`AbortEffect`, `BootEffect`, `ShrinksExactly`, `ShownExactly` and the like): by the
members of lists, by characters and by the numbers themselves.

Assumptions the models rest on:

- Gate: each JavaScript callback is one step. A call whose promise is resolved but whose
  caller has not resumed is a phase of its own (`Granted`); its abort listener is already gone.
  A running process exits at an arbitrary step, and never successfully when its signal had
  fired before it was started.
- Routing: a redirect to a URL built from host, path and query is followed to exactly those
  three strings, and a redirect relative to the request stays on the request's host. Only paths
  the middleware is configured for (`Matched`) are routed; API paths are proxied before any
  host rule, so they are outside the claims about where a path settles.
- Balance: a workspace switch is one step together with the React commit and the effect cleanup
  it causes. Every refresh goes through some render's closure, which names a workspace; it is
  stale when that is not the active one. The requests of boot, switches and repairs are proved to
  name the active workspace (`StepGrows`), so a figure from the ledger is the active workspace's
  exactly when no stale refresh asked for it (`BalanceIsTheLastFigure`); `StaleClosureShowsAnother`
  is a run in which one did. Credits are integers and workspace ids are not empty.
- Membership: a switch goes through some render too, perhaps an old one, whose membership list and
  active workspace it uses. A type in a membership list is true and not empty. A switch can strand
  the page in two ways: its caller makes up a type (`MadeUpTypeStrands`), or it is given none and
  its render is from before the workspace was joined (`OldListStrands`). `SwitchPlacesExactly` and
  `PlacedThroughoutExactly` give the exact condition, for one switch and for a whole run.
- Rendering: two texts joined by a blank line do not always render to the two results on
  separate lines; `RenderFuses` gives the exact condition.
- Downscaling: sizes are exact rationals; an image more than 4096 times as long as it is wide
  loses its short side, and `ScaledKeepsShape` says so.

## Model

| member | source | states |
|---|---|---|
| FfmpegGate.ParseConcurrency | apps/api/config/ffmpeg.ts:38-47 | the limit is at least 1 and a safe integer; blank means 1; it is refused exactly when Number() gives no integer in that range |
| FfmpegGate.ConcurrencyIsExactly | apps/api/config/ffmpeg.ts:38-47 | nothing but white space means 1; otherwise n is the limit exactly when Number() gives n and 1 <= n <= 2^53 - 1 |
| FfmpegGate.ArriveEffect | apps/api/config/ffmpeg.ts:58-75 | a new call is refused on a fired signal, takes a free slot, or joins the end of the queue with its listener |
| FfmpegGate.AbortEffect | apps/api/config/ffmpeg.ts:66-73 | a signal that fires is remembered and rejects exactly the calls waiting on it, out of the queue and the listeners; every other call, slot and grant stays |
| FfmpegGate.ResumeEffect | apps/api/config/ffmpeg.ts:104-112 | a resumed caller starts its process, doomed exactly when its signal has fired |
| FfmpegGate.ExitEffect | apps/api/config/ffmpeg.ts:77-116 | a process ends as it ended; its slot goes to the longest waiting call or is free |
| FfmpegGate.AbortsAreFinal | apps/api/config/ffmpeg.ts:58-86 | after an abort, over any events, a call on that signal without a slot is rejected and never served, whether it waited or comes later; one still to start starts doomed |
| FfmpegGate.NeverOverCommitted | apps/api/config/ffmpeg.ts:58-86 | in every reachable state `active` is the number of calls holding a slot, at most the limit, and equal to it while anyone waits |
| FfmpegGate.ServedInArrivalOrder | apps/api/config/ffmpeg.ts:64-86 | a call is served after every earlier call that was not rejected |
| FfmpegGate.SettledOnce | apps/api/config/ffmpeg.ts:58-86 | each call is settled once, on leaving the wait list; its listener is registered exactly while it waits; a finished call has released once, a rejected one never |
| FfmpegGate.FiredSignalsAreHonoured | apps/api/config/ffmpeg.ts:59-72 | nobody waits on a fired signal and no event gives a slot to a call whose signal has fired |
| FfmpegGate.DrainedGateIsIdle | apps/api/config/ffmpeg.ts:77-86 | when every call is over no slot is counted, no one waits, no listener is left |
| FfmpegGate.QueueAdvances | apps/api/config/ffmpeg.ts:64-86 | over any events, a waiter at position k is served or has moved up by the number of releases, exactly so when nobody aborts |
| FfmpegGate.GrantedWithinBound | apps/api/config/ffmpeg.ts:77-86 | a waiter at position k that is not aborted is granted by the (k+1)th release; without any abort, exactly then |
| FfmpegGate.NeverStuck | apps/api/config/ffmpeg.ts:77-86 | while anyone waits some call holds a slot whose exit serves the head of the queue |
| FfmpegGate.LateAbortLeavesThroughExec | apps/api/config/ffmpeg.ts:102-117 | a call once granted is never rejected, whenever its signal fires, and has released its slot once exactly when finished; if the signal fired before the spawn it cannot finish well |
| FfmpegGate.RunKeeps | apps/api/config/ffmpeg.ts:49-86 | every sequence of events keeps the whole invariant |
| FfmpegGate.WithoutMembers | apps/api/config/ffmpeg.ts:67-68 | removing aborted waiters keeps the others, in arrival order |
| FfmpegGate.SpliceIsWithout | apps/api/config/ffmpeg.ts:67-68 | splicing a waiter out at its index is removing it by identity |
| FfmpegGate.Gate.Acquire | apps/api/config/ffmpeg.ts:58-75 | performs an arrival: refused, admitted or queued, and the whole new state |
| FfmpegGate.Gate.OnAbort | apps/api/config/ffmpeg.ts:66-71 | one listener removes its waiter, unregisters and rejects |
| FfmpegGate.Gate.Dispatch | apps/api/config/ffmpeg.ts:66-73 | the listeners of one signal, run one after another in any order, remove exactly their waiters |
| FfmpegGate.Gate.Fire | apps/api/config/ffmpeg.ts:64-75 | a signal shared by several waiters, called in any order, rejects exactly those |
| FfmpegGate.Gate.Begin | apps/api/config/ffmpeg.ts:104-112 | the caller resumes into exec, doomed when its signal had fired |
| FfmpegGate.Gate.Release | apps/api/config/ffmpeg.ts:77-86 | hands the slot to the head of the queue or counts it free |
| FfmpegGate.Gate.Finish | apps/api/config/ffmpeg.ts:106-116 | every way out of exec releases the slot |
| HostRouting.RedirectsEnd | apps/web/middleware.ts:101-146 | from any host, path and query redirects end, after at most a quarter of the host's length plus one |
| HostRouting.RankDecreases | apps/web/middleware.ts:101-146 | the measure behind it: a hop shortens the host by four characters or is the last; only `www.` is permanent |
| HostRouting.FewHops | apps/web/middleware.ts:101-146 | from any host of an environment at most one redirect, from `www.` at most two |
| HostRouting.ClaimsAreDisjoint | apps/web/middleware.ts:32-61 | no path is claimed by two of the app, marketing and console rules |
| HostRouting.AppPathsBySegment | apps/web/middleware.ts:42-61 | the portal's paths are those whose first segment is one of eighteen |
| HostRouting.MarketingPathsByName | apps/web/middleware.ts:32-39 | the marketing host's paths are thirteen pages and what lies below `/careers/` |
| HostRouting.MatchedExactly | apps/web/middleware.ts:175-179 | Next internals and paths with a dot are not routed at all |
| HostRouting.RedirectsKeepThePage | apps/web/middleware.ts:104-143 | on every host a redirect keeps path and query, except at a landing and on the console |
| HostRouting.OneHomePerClaimedPath | apps/web/middleware.ts:104-146 | base, `www.` and `app.` settle a path on the same host, path and query intact, exactly when some rule claims it |
| HostRouting.OrgKeepsItsOwn | apps/web/middleware.ts:121-137 | `org.` keeps portal and unclaimed paths and hands over the marketing and console ones, and only those |
| HostRouting.ConsoleAnswersOnlyItsOwn | apps/web/middleware.ts:112-120 | the console's hostname answers only the console and its sign-in pages, leaves those alone, and sends a bare sign-in to the console's and all else to the console |
| HostRouting.Landings | apps/web/middleware.ts:104-129 | `/` is the base's, query intact; portals and the console go to their first screen and the query is dropped |
| HostRouting.OneApi | apps/web/middleware.ts:81-98 | every host of an environment proxies API paths to the same API host |
| HostRouting.LocalHostsServeEverything | apps/web/middleware.ts:74-102 | on `localhost`, `127.0.0.1` and `[::1]` with or without a port nothing is redirected, and API paths go to port 3001 |
| HostRouting.LocalMeansThisMachine | apps/web/lib/hosts.ts:21 | the local hosts are those names with or without a port, and no others |
| HostRouting.LocalSiblings | apps/web/lib/hosts.ts:19-33 | local siblings differ by port: 3000, 3001, 3002, 3003 |
| HostRouting.BaseIsExactly | apps/web/lib/hosts.ts:24-27 | a host that is not local is a base exactly when it starts with none of five prefixes |
| HostRouting.SiblingsByName | apps/web/lib/hosts.ts:30-36 | the sibling origins of a base, spelt out |
| HostRouting.NextIsRead | apps/web/middleware.ts:116 | of a query a form wrote, `next` is missing exactly when the first parameter of that name has no value; decoding undoes encoding |
| HostRouting.SiblingsAgree | apps/web/lib/hosts.ts:24-44 | every host of an environment derives the same siblings; only `org.` is the organization portal |
| Escaping.EscIsOnePass | apps/web/lib/marketing-page.ts:19-26 | the five chained replacements are one substitution per character |
| Escaping.EscConcat | apps/web/lib/marketing-page.ts:19-26 | escaping distributes over concatenation |
| Escaping.EscLeavesNothingRaw | apps/web/lib/marketing-page.ts:19-26 | no raw angle bracket or quote survives |
| Escaping.DecodeUndoesEsc | apps/web/lib/marketing-page.ts:19-26 | one left-to-right entity decoder undoes it |
| Escaping.UnescUndoesEsc | apps/web/lib/marketing-page.ts:19-26 | so do the five reverse replacements in reverse order |
| Prose.RenderIsFaithful | apps/web/lib/marketing-page.ts:58-74 | every output is properly nested and shows exactly the non-blank lines in order, minus markers, outer white space and final colon of headings |
| Prose.ShownExactly | apps/web/lib/marketing-page.ts:63-74 | every text, cut at its gaps, is shown block by block: as items when every line is one, else as a heading when it is one line of fewer than 80 UTF-16 units ending in a colon, else line by line; all told by characters |
| Prose.CutsAtGaps | apps/web/lib/marketing-page.ts:64 | every text is cut in just one way into blocks with all newlines of runs of two or more between them |
| Prose.KindByCharacters | apps/web/lib/marketing-page.ts:67-71 | the kind of one block and the texts shown |
| Prose.OnlyBlankLinesDrop | apps/web/lib/marketing-page.ts:67 | a line is dropped exactly when it is all white space |
| Prose.RenderFuses | apps/web/lib/marketing-page.ts:63-74 | rendering two texts joined by a blank line is the two results on separate lines, exactly when neither side's newlines touch the gap |
| Prose.LineEndingsDoNotMatter | apps/web/lib/marketing-page.ts:64 | CRLF and LF versions render alike |
| Prose.BlocksKeepLines | apps/web/lib/marketing-page.ts:64-67 | splitting into blocks loses and reorders no line |
| Prose.OutputLines | apps/web/lib/marketing-page.ts:65-73 | each block renders to one line of the output |
| Prose.LexSpelling | apps/web/lib/marketing-page.ts:69-71 | the reader's lexer recovers any spelt tokens |
| AppContext.BalanceIsTheLastFigure | apps/web/lib/app-context.tsx:154-187 | over any run a shown balance is the last figure put up since the page moved, less spends plus refunds, whatever order answers come in; a ledger figure is the active workspace's exactly when no stale refresh asked for it |
| AppContext.ShownIsTheActiveWorkspaces | apps/web/lib/app-context.tsx:154-187 | in a run whose refreshes all go through current closures, a ledger figure is that of the workspace active now, across switches and late answers |
| AppContext.StepGrows | apps/web/lib/app-context.tsx:106-187 | boot, switches and repairs ask only for the workspace active at the time; only a stale refresh asks for another |
| AppContext.RunGrows | apps/web/lib/app-context.tsx:106-187 | over any run a request is for the workspace active when it was sent exactly when it is none of the stale refreshes' |
| AppContext.RunKeeps | apps/web/lib/app-context.tsx:154-258 | over every run the counter accepts exactly the answers the log says count |
| AppContext.ShownIsAnchored | apps/web/lib/app-context.tsx:154-167 | the figure, and the drift since, behind any balance read off a log |
| AppContext.AwaitedSince | apps/web/lib/app-context.tsx:154-167 | the request whose answer counts was issued with no move since |
| AppContext.StaleClosureShowsAnother | apps/web/lib/app-context.tsx:154-167 | a refresh through an old closure can show another workspace's credits |
| AppContext.NobodyIsStranded | apps/web/lib/app-context.tsx:106-180 | when each switch is given a true type, or finds one in its render's list, or names no member, the active workspace is always a member and belongs here, or the page was sent on |
| AppContext.PlacedThroughoutExactly | apps/web/lib/app-context.tsx:106-252 | that holds all through a run exactly when no switch, as it is made, goes unrefused to a member's workspace of the other host |
| AppContext.SwitchPlacesExactly | apps/web/lib/app-context.tsx:235-252 | a switch keeps it exactly when its render showed that workspace, or refused it by the type it knew, or the workspace is no member, or belongs here |
| AppContext.MadeUpTypeStrands | apps/web/lib/app-context.tsx:235-252 | a made-up type leaves a workspace active that belongs on the other host |
| AppContext.OldListStrands | apps/web/lib/app-context.tsx:235-238 | so does an untyped switch through a render from before the workspace was joined |
| AppContext.LandPlaces | apps/web/lib/app-context.tsx:171-187 | the repair effect moves off a workspace that is no member |
| AppContext.AppProvider.Start | apps/web/lib/app-context.tsx:101-152 | boot: the preferred or first workspace here, or the hand-off, or the welcome page |
| AppContext.BootEffect | apps/web/lib/app-context.tsx:106-143 | the preferred workspace is opened if it suits this host, else the first that does, else the page goes to the preferred one's host, the first one's, or the welcome page |
| AppContext.ReadMembersEffect | apps/web/lib/app-context.tsx:171-180 | a list with the active workspace changes nothing; else the first that suits is opened, or the page is sent on |
| AppContext.SwitchEffect | apps/web/lib/app-context.tsx:235-252 | what each kind of switch leaves: nothing, a hand-off asked for, a forgotten balance, or a workspace opened and awaited |
| AppContext.RefreshEffect | apps/web/lib/app-context.tsx:154-158 | one request with a fresh ticket, which is then the one awaited |
| AppContext.DeliverEffect | apps/web/lib/app-context.tsx:159-166 | the latest ticket's answer shows its balance, or the room left on a postpaid line; any other changes nothing on screen |
| AppContext.MoneyEffect | apps/web/lib/app-context.tsx:256-258 | spends, refunds and explicit figures move the balance by what they say |
| AppContext.AppProvider.RefreshMe | apps/web/lib/app-context.tsx:169-205 | a membership re-read and its repair |
| AppContext.AppProvider.SwitchWorkspace | apps/web/lib/app-context.tsx:235-252 | a switch through any render, its hand-off, and the effects it sets off, none if the workspace is active already |
| AppContext.AppProvider.RefreshBalance | apps/web/lib/app-context.tsx:154-158 | a request takes the next ticket |
| AppContext.AppProvider.Receives | apps/web/lib/app-context.tsx:159-166 | an answer is shown only when its ticket is the latest |
| AppContext.AppProvider.Spends | apps/web/lib/app-context.tsx:256 | an optimistic spend |
| AppContext.AppProvider.Refunds | apps/web/lib/app-context.tsx:257 | an optimistic refund |
| AppContext.AppProvider.PutBalance | apps/web/lib/app-context.tsx:258 | an explicit figure |
| WorkerPool.EveryRunEnds | apps/api/scripts/verify-photoroom.ts:73-105 | every interleaving ends after one turn per photo and per worker, and can go on until then |
| WorkerPool.NothingIsLost | apps/api/scripts/verify-photoroom.ts:73-105 | when all workers are done every photo is recorded exactly once, if there was a worker; else none is |
| WorkerPool.NoneTwice | apps/api/scripts/verify-photoroom.ts:73-105 | at any time no photo is recorded or in progress twice, and no more are in progress than the limit |
| WorkerPool.LimitIsReached | apps/api/scripts/verify-photoroom.ts:105 | as many photos as limit and batch allow can be in progress at once, and never more |
| WorkerPool.KindsByMessage | apps/api/scripts/verify-photoroom.ts:106-107 | a failure is a rate limit exactly when it says 429, or rate in any case |
| WorkerPool.RunPool | apps/api/scripts/verify-photoroom.ts:73-105 | the pool under any scheduling records every photo once, with the vendor's answer |
| WorkerPool.Batch | apps/api/scripts/verify-photoroom.ts:106-117 | good, rate-limited and other failures partition the photos; the exit code is 0 exactly when all came back |
| WorkerPool.Attempt | apps/api/scripts/verify-photoroom.ts:229-262 | at most three tries, all but the deciding one vendor errors |
| WorkerPool.VendorErrorsByMessage | apps/api/scripts/verify-photoroom.ts:247 | a vendor error is a message with HTTP and a three-digit code starting with 5 in it |
| WorkerPool.RejectionsByMessage | apps/api/scripts/verify-photoroom.ts:255 | a rejected key is one of two phrases, in any case |
| WorkerPool.VerifyModes | apps/api/scripts/verify-photoroom.ts:179-266 | exit code 2 exactly when a key was rejected, 0 exactly when every mode gave a picture |
| WebhookVerify.AcceptsExactly | apps/web/lib/developer-docs.ts:2-13 | accepted exactly when the first `t=` part is a timely safe integer and some `v1=` part writes the expected digest |
| WebhookVerify.VerdictDependsOn | apps/web/lib/developer-docs.ts:4-6 | order, repetition and padding of `v1=` parts do not matter |
| WebhookVerify.SignaturesMayMove | apps/web/lib/developer-docs.ts:4-6 | two headers with the same other parts and the same set of signatures are judged alike, in whatever order, number and padding |
| WebhookVerify.UnknownPartsAreIgnored | apps/web/lib/developer-docs.ts:4-6 | other parts can be added anywhere |
| WebhookVerify.PrintVerifies | apps/web/lib/developer-docs.ts:2-13 | a printed header is accepted exactly when its time is timely and the expected digest is among those printed |
| WebhookVerify.FromHex | apps/web/lib/developer-docs.ts:11-12 | 64 hex digits decode to 32 bytes, so the comparison sees equal lengths |
| WebhookVerify.MatchesInEitherCase | apps/web/lib/developer-docs.ts:11-12 | a signature matches a digest exactly when it is its 64 hex digits, in either case |
| WebhookVerify.LeadingZeros | apps/web/lib/developer-docs.ts:7-8 | leading zeros do not change a timestamp |
| Downscale.ScaledKeepsShape | apps/web/lib/downscale.ts:60-65 | the longest edge becomes exactly 2048, the aspect drifts by at most one rounding, sides keep their order, and a side vanishes only past 4096 to 1 |
| Downscale.NeverWorse | apps/web/lib/downscale.ts:49-94 | the original itself, or a file smaller than three quarters of it whose type and extension tell the format it came in |
| Downscale.ShrinksExactly | apps/web/lib/downscale.ts:49-90 | a file is replaced by what was encoded exactly when it is a jpeg or webp by type, over 614,400 bytes, longer than 2048, drawn, and at least a quarter smaller; else it is handed back |
| Downscale.RenamesExtension | apps/web/lib/downscale.ts:97-101 | renaming replaces the extension and nothing else |
| Downscale.RenamesPlain | apps/web/lib/downscale.ts:97-101 | a name without an extension gets one |
| Downscale.ShrinkingTwiceIsOnce | apps/web/lib/downscale.ts:49-94 | an accepted result is returned untouched |
| Downscale.RedrawnAtMostOnce | apps/web/lib/downscale.ts:49-94 | however often a photo is sent on, it is the original or the first accepted result |
| Downscale.RenamingTwiceIsOnce | apps/web/lib/downscale.ts:96-101 | renaming is idempotent |
| Downscale.Redraw | apps/web/lib/downscale.ts:57-90 | the guarded block with each of its exits, by result or by exception |
| Downscale.DownscaleImage | apps/web/lib/downscale.ts:49-94 | after any of them a decoded bitmap is closed, and an exception means the original |
| AuthCode.CleanAbsorbs | apps/web/lib/auth-code.ts:41-45 | cleaning a cleaned text followed by more is cleaning the whole |
| AuthCode.TypingIsPasting | apps/web/lib/auth-code.ts:30-45 | typing key by key ends at the code one paste gives, within alphabet and length |
| AuthCode.CodesAreKept | apps/web/lib/auth-code.ts:30-45 | a clean code is cut to six or eight characters and otherwise kept |
| AuthCode.OthersAreDropped | apps/web/lib/auth-code.ts:30-45 | any other character can be left out anywhere |
| AuthCode.CaseIsIgnored | apps/web/lib/auth-code.ts:44 | in a recovery code a small letter counts as its capital |

## Left out

- Spawning ffmpeg and ffprobe, deadlines, output caps and log lines: foreign processes.
- FfmpegGate.ParseConcurrency: takes what JavaScript's Number() makes of the text as a parameter.
- The API proxy's header copying and fetch, and redirects passed through by hand: network effects.
- URL normalisation of a redirect target, and a request URL whose host differs from the Host header.
- `esc` of null or undefined, which is `esc` of the empty string.
- Lone surrogates: text is a sequence of Unicode scalar values; lengths compared with 80 count UTF-16 units.
- The page chrome around rendered prose.
- Failed hand-off requests, sign-out, broadcast channels and local storage: browser and network effects.
- Fractional or missing numbers of photos and workers in the vendor check, timings, and what it prints.
- HMAC-SHA256 itself, and header values that are not strings.
- Canvas decoding and encoding, floating-point rounding, and a decoded size that differs from the drawn one.
- Edits in the middle of a typed code.
- API client, connectors, billing, content and infrastructure: shallow branching, I/O or configuration.
