# WindowUtils — a verified model of MSAL's window orchestration

This project models `WindowUtils`, the part of the MSAL browser library
(`msal-core`) that supervises the hidden iframes and popup windows of a
sign-in flow:

- the **embedding classifier** (`isInIframe`, `isWindowOnTop`, `isInPopup`)
  and the **navigation dispatcher** (`navigateWindow`, `navigateHelper`),
  which either replaces a window's location or delegates the redirect to
  the top frame by message (`navigation.dfy`, module `Navigation`, pure);
- the **hash monitor** (`monitorWindowForHash`): the 50 ms interval callback
  that watches a window until its URL carries an authorization response,
  the window closes, or the same-origin tick budget runs out
  (`hash_monitor.dfy`, module `HashMonitor`: a `Step` specification and
  the `PollSession` class whose `Tick` method is proved against it);
- the **frame provisioner** (`addHiddenIFrame`, `loadFrame`) and the frame
  lookup `getIframeWithHash` (`frames.dfy`, module `Frames`: pure
  `Provision`/`Load` specifications and the `Document` class whose
  methods are proved against them);
- the **popup registry** (`getPopups`, `trackPopup`, `getPopUpWithHash`,
  `closePopups`) over the page-wide list `window.openedWindows`
  (`popups.dfy`, module `Popups`: `Window` objects and the
  `PopupRegistry` class);
- shared vocabulary (`basics.dfy`, module `Basics`): `Option`, `Result`,
  the outcome of reading a location's fragment (`CrossOrigin` or
  `SameOrigin(hash)`), and the first-match search `Find` that both
  `Array.prototype.find` and `document.getElementById` perform.

The browser is replaced by explicit inputs. A poll tick receives an
`Observation`: whether the window is closed, and what reading
`location.href` gave (it threw, or it gave the URL, the window's
`location.hash` and the verdict of `UrlUtils.urlContainsHash`). A popup
or an iframe's content window carries the result of reading its
`location.hash`. The embedding of the current page is the page's own
window, the chain of frames containing it, and its opener. Navigating,
delegating by message and throwing become values of `Navigation.Action`.
The promise of a poll session is an `Outcome` field that only the first
`resolve`/`reject` sets, and `clearInterval` is a `scheduled` flag that
turns later ticks into no-ops.

Points where the code's behaviour is easy to misread; the model follows
the code:

- The timeout test is `ticks > timeout / 50` with a fractional quotient,
  which the model writes `ticks * 50 > timeout`. A stalled same-origin
  window is therefore rejected on tick `⌊timeout/50⌋ + 1` (`TimeoutTick`),
  never earlier. For a timeout of 500 ms that is tick 11, not tick 10.
- The closed branch of the tick has no `return`. In the same tick the
  callback still reads the URL, may increment `ticks`, and may call
  `resolve` or `reject` again. Those later calls have no effect on an
  already settled promise, so the model keeps them, and the outcome
  stays "closed".
- `navigateWindow` rejects only an empty URL (`StringUtils.isEmpty`); a
  URL of spaces is navigated to. `navigateHelper` delegates without
  checking the URL at all.
- `addHiddenIFrame` rejects only an undefined id. An empty `id` attribute
  gives an element no ID, so `getElementById("")` never finds a frame and
  every call with `""` appends a new one.
- `loadFrame` tests the `src` property, which reflects the attribute as a
  URL resolved against the page's address. An absent attribute reads as
  `""`, but an attribute set to `""` reads as the page's own URL. A frame
  once navigated to the empty URL is therefore never navigated again
  (`LoadEmptyUrlIsFinal`), so the model keeps the attribute
  (`None` while absent) and `BlankSrc` tests it the way the property reads.
- The doc comment of `isWindowOnTop` repeats the iframe wording; the model
  follows its code (`window.top === window`) and proves that, in a
  well-formed embedding, it is exactly the negation of `isInIframe`.

## Model

| member | source | states |
|---|---|---|
| `Basics.Find` | lib/msal-core/src/utils/WindowUtils.ts:189-197 | the index of the first element satisfying the predicate, with no earlier element satisfying it; none exactly when no element satisfies it (the predicates of both lookups are `HashMatches`, a read that throws counting as no match, lines 163-167 and 191-195) |
| `Navigation.IsInIframe` | lib/msal-core/src/utils/WindowUtils.ts:22-24 | in a well-formed embedding, the page is in an iframe exactly when some frame contains it |
| `Navigation.IsWindowOnTop` | lib/msal-core/src/utils/WindowUtils.ts:31-33 | in a well-formed embedding, the page is on top exactly when no frame contains it |
| `Navigation.OnTopIffNotInIframe` | lib/msal-core/src/utils/WindowUtils.ts:22-33 | the two comparisons are complements in a well-formed embedding |
| `Navigation.IsInPopup` | lib/msal-core/src/utils/WindowUtils.ts:40-42 | false without an opener and when the opener is the page itself; true for any other opener |
| `Navigation.NavigateWindow` | lib/msal-core/src/utils/WindowUtils.ts:222-234 | an empty URL throws the empty-URL error and navigates nothing; otherwise the popup, if given, else the current window, is navigated to the URL; never delegates |
| `Navigation.NavigateHelper` | lib/msal-core/src/utils/WindowUtils.ts:244-253 | delegates by message (with the URL and top-frame origin) exactly when in an iframe and no popup is given; otherwise behaves as `navigateWindow` with the popup |
| `Navigation.NavigateHelperOutcomes` | lib/msal-core/src/utils/WindowUtils.ts:244-253 | in terms of the embedding: delegation iff nested and no popup; a given popup is the window navigated; a top-level page navigates itself; the empty-URL error arises only on the direct path |
| `HashMonitor.TimeoutTick` | lib/msal-core/src/utils/WindowUtils.ts:51 | the first tick count past the deadline: it passes `ticks > timeout/50` and no smaller count does |
| `HashMonitor.Step` | lib/msal-core/src/utils/WindowUtils.ts:54-85 | one run of the interval callback: a cancelled session ignores it, the counter advances by at most one, a set outcome is kept, and any tick that changes the outcome cancels polling (`Settle` is `clearInterval` with a first-wins `resolve`/`reject`) |
| `HashMonitor.StartInv` | lib/msal-core/src/utils/WindowUtils.ts:51-54 | a fresh session satisfies the session invariant |
| `HashMonitor.StepInv` | lib/msal-core/src/utils/WindowUtils.ts:54-85 | every tick keeps the invariant: scheduled iff pending, pending only within the deadline, the counter never past the first tick beyond the deadline, a timed-out session stopped exactly on that tick |
| `HashMonitor.UnobservableTick` | lib/msal-core/src/utils/WindowUtils.ts:60-73 | a tick whose read throws or is blank keeps the counter, cannot resolve with a hash or time out, and with the window open changes nothing |
| `HashMonitor.ReadableTick` | lib/msal-core/src/utils/WindowUtils.ts:75-80 | a readable, non-blank tick of a scheduled session increments the counter by one; with a hash it resolves with `location.hash` and cancels polling |
| `HashMonitor.TimeoutTickExactly` | lib/msal-core/src/utils/WindowUtils.ts:81-83 | a pending session is rejected for timeout exactly on an open, readable, hash-less tick whose incremented counter passes the deadline, and polling is then cancelled |
| `HashMonitor.ClosedWins` | lib/msal-core/src/utils/WindowUtils.ts:55-58 | a closed window settles a pending session with no value and cancels polling, whatever else the same tick reads |
| `HashMonitor.CancelledIsFinal` | lib/msal-core/src/utils/WindowUtils.ts:54-85 | after `clearInterval` no further tick has any effect |
| `HashMonitor.SettledIsFinal` | lib/msal-core/src/utils/WindowUtils.ts:55-84 | a settled session keeps its single outcome through any further ticks |
| `HashMonitor.NeverObservableNeverTimesOut` | lib/msal-core/src/utils/WindowUtils.ts:60-76 | a window never readable keeps the counter, never resolves with a hash and never times out; while it stays open nothing changes |
| `HashMonitor.StalledWithinDeadline` | lib/msal-core/src/utils/WindowUtils.ts:75-84 | open, readable, hash-less ticks keep a session pending with the counter advanced by their number, while within the deadline |
| `HashMonitor.TimesOutOnDeadlineTick` | lib/msal-core/src/utils/WindowUtils.ts:51-84 | a fresh session on a stalled window is pending after fewer than `⌊timeout/50⌋ + 1` ticks and rejected for timeout, cancelled, on exactly that tick |
| `HashMonitor.PollSession.constructor` | lib/msal-core/src/utils/WindowUtils.ts:49-54 | a new session has no ticks, is scheduled and pending |
| `HashMonitor.PollSession.SettlePromise` | lib/msal-core/src/utils/WindowUtils.ts:57 | only the first `resolve`/`reject` sets the outcome |
| `HashMonitor.PollSession.Tick` | lib/msal-core/src/utils/WindowUtils.ts:54-85 | one interval callback: the new state is `Step` of the old state and the observation, and the session invariant is kept |
| `Frames.ElementById` | lib/msal-core/src/utils/WindowUtils.ts:131 | the first frame with that id; none exactly when the id is empty or no frame has it |
| `Frames.Provision` | lib/msal-core/src/utils/WindowUtils.ts:125-153 | an undefined id gives no handle and no change; otherwise the handle is a frame with that id, existing frames are kept as they were, and at most one hidden frame with that id is appended |
| `Frames.ProvisionReusesOrAppends` | lib/msal-core/src/utils/WindowUtils.ts:131-151 | a non-empty id already present yields the first such frame and adds nothing; the empty id or a new id appends a hidden, `allow-same-origin` frame with no `src` (`HiddenFrame`, lines 136-142) and yields it |
| `Frames.ProvisionIdempotent` | lib/msal-core/src/utils/WindowUtils.ts:125-153 | a second call with the same non-empty (or undefined) id yields the same handle and changes nothing |
| `Frames.ProvisionEmptyIdAppends` | lib/msal-core/src/utils/WindowUtils.ts:126-143 | the empty id is never found: two calls with it append two hidden frames and yield two distinct handles |
| `Frames.ProvisionKeepsIdsUnique` | lib/msal-core/src/utils/WindowUtils.ts:131-143 | a document with at most one frame per non-empty id keeps that property |
| `Frames.Load` | lib/msal-core/src/utils/WindowUtils.ts:102-116 | rejects, naming the frame and changing nothing, exactly when the frame name is undefined; otherwise resolves with a frame having that id |
| `Frames.LoadNavigatesOnlyBlank` | lib/msal-core/src/utils/WindowUtils.ts:110-115 | resolves with the provisioned handle; sets its `src` to the URL exactly when it reads as `""` or `about:blank` (`BlankSrc`, line 110: attribute absent or `about:blank`), and changes nothing else |
| `Frames.LoadNeverOverwrites` | lib/msal-core/src/utils/WindowUtils.ts:110-113 | a frame whose `src` is already non-blank is left untouched |
| `Frames.LoadNewFrame` | lib/msal-core/src/utils/WindowUtils.ts:103-115 | loading under a new or empty id appends one hidden frame already navigated to the URL and resolves with it |
| `Frames.LoadEmptyUrlIsFinal` | lib/msal-core/src/utils/WindowUtils.ts:110-115 | after a new frame is loaded with the empty URL, its `src` no longer reads as blank: a later load under the same name resolves with that frame and changes nothing |
| `Frames.Document.AddHiddenIFrame` | lib/msal-core/src/utils/WindowUtils.ts:125-154 | the document and the handle after the call are those of `Provision` |
| `Frames.Document.LoadFrame` | lib/msal-core/src/utils/WindowUtils.ts:94-118 | the document and the settled result are those of `Load` |
| `Frames.Document.IframeWithHash` | lib/msal-core/src/utils/WindowUtils.ts:161-169 | the first iframe in document order whose readable content fragment equals the hash; unreadable ones are skipped; none exactly when no iframe matches |
| `Popups.Window.Close` | lib/msal-core/src/utils/WindowUtils.ts:214 | the window is closed and its location is untouched |
| `Popups.FirstWithHash` | lib/msal-core/src/utils/WindowUtils.ts:190-196 | the first window whose readable fragment equals the hash, cross-origin windows counting as no match; none exactly when none matches |
| `Popups.PopupRegistry.GetPopups` | lib/msal-core/src/utils/WindowUtils.ts:176-182 | creates the list when it is missing and returns the tracked popups unchanged |
| `Popups.PopupRegistry.TrackPopup` | lib/msal-core/src/utils/WindowUtils.ts:204-206 | the list grows by exactly the given popup at the end, earlier entries unchanged |
| `Popups.PopupRegistry.PopUpWithHash` | lib/msal-core/src/utils/WindowUtils.ts:189-197 | some popup exactly when a tracked popup shows the fragment; then the first such tracked popup |
| `Popups.PopupRegistry.ClosePopups` | lib/msal-core/src/utils/WindowUtils.ts:213-215 | every tracked popup is closed, none is removed, and their locations are untouched |
| `Popups.TrackedLookup` | lib/msal-core/src/utils/WindowUtils.ts:189-206 | tracking a popup never changes an earlier match; it adds a match only when none existed and the new popup shows the fragment |

## Left out

- Timers and promises: `setInterval`, `setTimeout` and the delay of
  `loadFrame` are not modelled; a poll session advances by explicit
  `Tick` calls and `loadFrame` is modelled from the moment its timer fires.
- `HashMonitor.Step`: `timeout` is a natural number of milliseconds;
  negative or fractional timeouts are not modelled.
- `UrlUtils.urlContainsHash` and `StringUtils.isEmpty` are not part of
  this model: the first is an observed verdict carried by each read, the
  second is taken as "the URL has length 0".
- The resolved value of a successful poll is the `location.hash` seen in
  the same tick; a second read of the location that could throw is not
  modelled.
- Frame styling (hidden, absolute, zero size, no border), the MSIE 5.0
  user-agent test, the `insertAdjacentHTML` markup fallback and the
  re-lookup through `window.frames` (lines 133-150) are not modelled: a new
  frame is always created programmatically, and a defined id therefore
  always yields a frame.
- Frames.ProvisionIdempotent: promised only for a non-empty or undefined
  id, because the source appends a new frame on every call with the empty
  id (stated by `Frames.ProvisionEmptyIdAppends`).
- Frames.BlankSrc: the page's own address is assumed not to be
  `about:blank`, so an explicitly set `src` attribute never reads as blank
  unless it is `about:blank` itself; relative URLs are otherwise not
  resolved.
- The document holds only iframe elements: an element of another kind
  that carries the requested id is not modelled.
- `Popups.PopupRegistry.PopUpWithHash`: the lazy creation of the list by
  `getPopups` inside the lookup is not modelled, since it does not change
  which popups are tracked.
- `Popups.PopupRegistry.GetPopups`: returns the list as a value. The source
  returns the shared array itself, so a caller that keeps it sees popups
  that `trackPopup` pushes later; in the model the caller's copy does not
  change, and only `openedWindows` does.
- Logging (`info`, `infoPii`), the construction of error objects and their
  messages, and `MessageHelper.redirectDelegationRequest` are not modelled;
  errors are datatype tags and delegation is the `Delegate` action.
- How the browser changes a window's location or closed flag between
  calls is not modelled; it enters as the observations given to each call.
