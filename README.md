# Y-traction, modelled in Dafny

Y-traction is a Chrome extension made of four scripts, modelled here:

- The **background worker** owns a browsing timer. The timer lives in two
  storage keys, `timerEndTime` and `timerRunning`. A `checkTimer` interval
  polls it once a second; when the timer has run out the worker raises a
  notification, stops polling and purges the keys. The worker also answers
  the runtime messages `startTimer`, `clearTimer` and `updateSwitch`, and it
  purges the stored timer on install, and resumes or purges it on startup.
- The **popup** has:
  - a dark-mode button;
  - the YouTube switches, whose stored defaults it initialises;
  - an hours/minutes countdown that is started, reset, redrawn as
    `HH:MM:SS` once per tick, and reconciled with the stored end time
    whenever the popup reopens.
- The **YouTube content script** hides or shows page elements, one
  selector group per setting. It keeps `settingsCache`, answers
  `updateSwitch` and `applySettings`, and re-applies the settings after DOM
  mutations and after in-page navigation.
- The **website blocker** normalises the host name. It then decides,
  against the stored block list, whether the page is blocked.

Modules:

- `Storage`: the extension store (`chrome.storage.local`) as a map from
  keys to values, JavaScript truthiness and numeric coercion, and runtime
  messages.
- `Strings`: `includes`, `indexOf` and `replace` with a string pattern.
- `Background`: the class `Worker`, whose fields are the store, the live
  check intervals, `timerCheckInterval` and an effect log.
- `Countdown`: the popup's pure arithmetic and formatting.
- `Popup`: the class `PopupPage`.
- `Content`: the class `ContentScript`. Its page is an `array` of abstract
  elements, updated in place. The load-time `initializeSettings`
  (content.js:196-208) is one call of `ApplyAllSettings`.
- `Blocker`: the pure block decision.

Platform conventions:

- Calls into the browser are modelled as follows: notifications, script
  injection and tab messages are appended to effect logs; time is an `int`
  parameter `now`, in milliseconds; each interval tick is an explicit
  method call.
- Each message the popup sends, to the worker (`ToRuntime`) or to a tab
  (`ToTab`), carries a snapshot of the store at send time. This records
  that the popup writes the store before it sends.

## Model

| member | source | states |
|---|---|---|
| Storage.StoreTimer | background.js:96-99 | the store gains `timerRunning = true` and, when an end time is given, `timerEndTime = endTime` (an undefined end time leaves the key as it was); every other key is unchanged |
| Background.Forwarded | background.js:110-118 | one forward of the unchanged message per YouTube tab, in query order |
| Background.Worker.constructor | background.js:1-2 | a fresh worker has no live interval and no effects, and keeps the persisted store |
| Background.Worker.ClearCheckInterval | background.js:70 | removes the interval `timerCheckInterval` names from the live set; a no-op when it names none; `timerCheckInterval` itself is kept |
| Background.Worker.StartCheckInterval | background.js:95 | a fresh id becomes live and `timerCheckInterval` names it; every other live interval stays live |
| Background.Worker.CheckTimer | background.js:50-74 | from any live interval, fires iff the timer is running, the end time is truthy and `now >= end`; firing notifies, injects the alert only for an active YouTube tab, removes both keys and clears the interval `timerCheckInterval` names (so with a single live interval, polling stops); otherwise nothing changes; a single live interval stays single |
| Background.Worker.OnMessage | background.js:91-126 | exactly one response per message: `startTimer` clears the interval `timerCheckInterval` names, starts a new one (the only live one when any live interval was the one `timerCheckInterval` names) and stores the end time and `timerRunning = true`; `clearTimer` clears that interval (stopping polling when any live interval was that one) and removes both keys; `updateSwitch` forwards the message to every YouTube tab; any other type gets the error "Unknown message type" and changes nothing |
| Background.Worker.OnInstalled | background.js:149-151 | both timer keys are removed and nothing else changes |
| Background.Worker.OnStartup | background.js:153-161 | resumes polling iff the timer is running, the end time is truthy and `now < end`; otherwise purges both keys; a new interval is started without clearing the old one, so a single live interval is guaranteed only if none was live before; the worker stays well formed either way |
| Background.FiredCheckIsFinal | background.js:52-71 | once a check has removed both keys, no later check from any interval still live fires and no later startup resumes, so a second notification is never raised |
| Background.ClearIdempotent | background.js:103-107 | clearing the timer twice leaves the same store as clearing once; both keys are gone and every other key is kept |
| Background.StartupDropsOnlyExpired | background.js:153-160 | for a running timer with a numeric end time, startup resumes exactly when the check would not fire, so the timers it drops are the expired ones |
| Background.ExpiredAtEndTime | background.js:52 | characterises `Background.Expired`: a running timer with a numeric end time fires iff the end time is non-zero and `now >= end` |
| Background.ResumesBeforeEndTime | background.js:155 | characterises `Background.Resumes`: a running timer with a numeric end time is resumed iff the end time is non-zero and `now < end` |
| Background.AlertOnlyForYoutube | background.js:61-68 | characterises `Background.AlertFor`: at most one injection, into the active tab, and one exactly when that tab has a URL containing "youtube.com" |
| Background.AlertOnWatchPage | background.js:61-68 | an active tab on `https://www.youtube.com/watch` gets the alert |
| Background.StartedTimerLifecycle | background.js:93-99 | after `startTimer` with a non-zero end time, a restart resumes iff it is before the end, and a check fires iff it is at or after the end |
| Countdown.Remaining | popup/popup.js:149 | `max(0, floor((end - now)/1000))` is zero iff less than one second is left; otherwise `r*1000 <= end - now < r*1000 + 1000` |
| Countdown.StartGate | popup/popup.js:78-82 | characterises `Countdown.TotalSeconds`: a missing input counts as 0, and for non-negative inputs the timer starts iff one of them is positive |
| Countdown.RemainingAtStart | popup/popup.js:80-83 | characterises `Countdown.EndTime`: reading the remaining time against `now + total*1000` at the moment of start gives back the total seconds |
| Countdown.RemainingAfterWholeSeconds | popup/popup.js:83 | `k` whole seconds after the start, `total - k` seconds remain, and zero once `k >= total` |
| Countdown.RemainingWithinOneSecond | popup/popup.js:149 | partway through a second, the remaining time lies between the whole seconds that bound it |
| Countdown.DecimalStringShape | popup/popup.js:131 | `String(n)` is a non-empty string of digits, with at most two digits below 100 |
| Countdown.DecimalRoundTrip | popup/popup.js:131 | reading `String(n)` back as a decimal gives `n` |
| Countdown.PadStart2Shape | popup/popup.js:131 | `padStart(2, '0')` gives at least two characters, keeps the string as its suffix, adds only zeros in front, and keeps the decimal value |
| Countdown.FieldShape | popup/popup.js:131 | each clock field has at least 2 characters, exactly 2 below 100, and reads back as its number |
| Countdown.SplitSeconds | popup/popup.js:124-126 | `h*3600 + m*60 + s == t`, with `m < 60` and `s < 60` |
| Countdown.ClockPartsOf | popup/popup.js:130-131 | three fields joined by colons split back into the same three fields |
| Countdown.ClockRoundTrip | popup/popup.js:124-131 | characterises `Countdown.Clock`: for every `t >= 0` the displayed text splits into fields of widths at least 2, exactly 2 and exactly 2, whose values satisfy `h*3600 + m*60 + s == t`, `m < 60` and `s < 60` |
| Countdown.ZeroClock | popup/popup.js:112 | zero seconds display as "00:00:00" |
| Countdown.StartDisplaysInputs | popup/popup.js:78-80 | starting from `h` hours and `m < 60` minutes, the first display shows `h`, `m` and `00` |
| Countdown.CountdownShape | popup/popup.js:121-142 | the tick sequence from `t` has `t + 1` entries, and entry `i` is `t - i` |
| Popup.ToggleTwiceRestores | popup/popup.js:19-22 | two clicks restore the stored flag iff it was "active" or absent |
| Popup.SwitchBroadcast | popup/popup.js:55-67 | one `updateSwitch` message with the switch's name and state per YouTube tab, in query order, each sent over the given store |
| Popup.ResumeFrom | popup/popup.js:147-152 | the reopened popup resumes iff the timer is running, the end time is truthy and numeric, and at least one whole second is left; it then resumes from exactly `Countdown.Remaining(end, now)`, which is positive |
| Popup.ReopenAfterStart | popup/popup.js:83-91 | reopening `k` whole seconds after starting a `total`-second timer resumes from `total - k`, or not at all once `k >= total` |
| Popup.InitEffect | popup/popup.js:38-49 | for distinct keys, each present key with no stored value is stored as `false`; every stored value is kept; present stored values are copied to their checkboxes; nothing else changes |
| Popup.SwitchKeysDistinct | popup/popup.js:26-35 | the popup's switch keys are pairwise distinct |
| Popup.PopupPage.constructor | popup/popup.js:1-16 | the body gets the dark class iff the saved flag is "active" |
| Popup.PopupPage.ToggleDarkMode | popup/popup.js:18-23 | the flag becomes "active" unless it was "active", in which case it is removed; the body class follows the flag |
| Popup.PopupPage.InitSwitches | popup/popup.js:38-49 | the store and the checkboxes after initialisation equal the fold that `Popup.InitEffect` characterises |
| Popup.PopupPage.OnSwitchChange | popup/popup.js:52-69 | the new switch state is stored and checked, then sent to every YouTube tab, each message carrying the store that already holds the new state |
| Popup.PopupPage.Tick | popup/popup.js:123-138 | draws `HH:MM:SS` of the current count, stops the interval once it has drawn 0, then decrements |
| Popup.PopupPage.StartTimerDisplay | popup/popup.js:120-143 | stops any running display, draws `t` at once and leaves the count ticking from `t - 1` |
| Popup.PopupPage.RunDown | popup/popup.js:123-142 | ticking to the end draws every count down to 0, in order, then stops, with "00:00:00" shown |
| Popup.PopupPage.ShowCountdown | popup/popup.js:120-143 | starting at `t > 0` shows t, t-1, …, 0 in order and stops right after 0 |
| Popup.PopupPage.OnStartClick | popup/popup.js:77-99 | nothing happens unless `hours*3600 + minutes*60 > 0` (a missing input counts 0); otherwise the end time `now + total*1000` and `timerRunning = true` are stored before the `startTimer` message carrying the same end time is sent; the display starts only on the reply "Timer started" |
| Popup.PopupPage.OnResetClick | popup/popup.js:104-117 | the countdown stops, both inputs are cleared, "00:00:00" is shown, and both keys are removed before `clearTimer` is sent |
| Popup.PopupPage.OnLoad | popup/popup.js:146-155 | the display restarts exactly as `Popup.ResumeFrom` says, and otherwise nothing changes |
| Content.InheritedNameEntersCache | content.js:98-103 | as written, `updateSwitch` for "toString" puts a key that is not a setting into `settingsCache` |
| Content.AsWrittenAdmitsInherited | content.js:98-103 | characterises `Content.CacheAfterUpdateAsWritten`: every inherited name and every table key is cached with the given value; any other key leaves the cache unchanged |
| Content.CacheAfterUpdate | content.js:98-103 | only a key of the selector table changes the cache, and to the given value; no other key can enter |
| Content.ToggledEffect | content.js:59-70 | characterises `Content.Toggled`: every element some selector matches shows `d`; every other element is unchanged; the page keeps its length |
| Content.ToggledIdempotent | content.js:59-70 | hiding or showing twice leaves the page as doing it once |
| Content.CacheAfterEntriesEffect | content.js:86-91 | for distinct keys, the table keys the entries hold take the entry values, no other key enters, and absent keys keep their cached value |
| Content.ApplyStoreEffect | content.js:83-91 | applying a whole store gives the old cache overridden by the store restricted to the table's keys |
| Content.Route | content.js:107-134 | `updateSwitch` with a non-empty `switchName` and a defined `value` updates the setting and answers "success", even for an unknown key; without those fields it answers nothing and does nothing; `applySettings` answers "settings_applied"; any other type answers "unknown_message_type" |
| Content.ContentScript.constructor | content.js:53-54 | `settingsCache` starts empty; `lastUrl` starts as the page URL, as at content.js:211 |
| Content.ContentScript.ToggleElements | content.js:59-70 | the page array takes `Toggled` of its old contents, in place |
| Content.ContentScript.UpdateSetting | content.js:98-103 | with the corrected own-key guard (see Findings): cache and page change only for a table key, the cache to the value and the page by that key's toggle; the cache never holds a key outside the table |
| Content.ContentScript.ApplyAllSettings | content.js:75-93 | with the corrected own-key guard: the cache becomes the old cache overridden by the known stored keys; the page takes each known entry's toggle in order |
| Content.ContentScript.OnMessage | content.js:107-134 | answers with `Content.Route`'s response and performs its action: `updateSwitch` updates cache and page as `UpdateSetting` does, `applySettings` as `ApplyAllSettings` does, and the other messages change nothing |
| Content.ContentScript.ShouldReapply | content.js:155-170 | answers true iff the cache is non-empty and some mutation added nodes or changed the `style` or `class` attribute |
| Content.ContentScript.OnMutations | content.js:155-170 | a re-apply is scheduled iff the check above holds (or one was already scheduled) |
| Content.ContentScript.RunPendingReapply | content.js:140-152 | one pending re-apply runs `applyAllSettings` once: the cache takes the known stored keys, the page takes each known entry's toggle in order, and the schedule is cleared |
| Content.ContentScript.OnTitleMutation | content.js:211-227 | a re-apply is scheduled only when `href != lastUrl`; afterwards `lastUrl == href` |
| Content.ContentScript.RunNavigationApply | content.js:217-221 | a scheduled navigation re-apply applies the store: the cache takes the known stored keys and the page takes each known entry's toggle in order |
| Strings.IncludesIff | blocker.js:26 | `includes` holds iff the pattern occurs at some index |
| Strings.IncludesSelfAndEmpty | blocker.js:26 | every string includes itself and the empty string |
| Strings.IndexOf | blocker.js:9 | the result is the first occurrence of the pattern, and None exactly when there is none |
| Strings.IndexOfFindsIncludes | blocker.js:9 | `indexOf` finds the pattern iff `includes` holds |
| Strings.IncludesInMiddle | blocker.js:26 | a string includes every string it is built around |
| Strings.ReplaceFirstAt | blocker.js:9 | characterises `Strings.ReplaceFirst`: only the first occurrence of the pattern is replaced, wherever it is, and the rest is kept |
| Strings.ReplaceFirstAbsent | blocker.js:9 | a string without the pattern is left as it is |
| Blocker.DomainDropsFirstWww | blocker.js:9 | characterises `Blocker.Domain`: normalisation removes the first "www.", wherever it is in the host, and nothing else |
| Blocker.DomainWithoutWww | blocker.js:9 | a host without "www." is left as it is |
| Blocker.DomainOfDoubleWww | blocker.js:9 | only one "www." is removed: "www.www.example.com" becomes "www.example.com" |
| Blocker.BlockedWebsites | blocker.js:14 | the `[]` default: a missing or falsy value is the empty list, a stored list is used as it is, and any other truthy value is malformed (`.some` would throw, and the caught error blocks nothing) |
| Blocker.MatchesSymmetric | blocker.js:25-27 | the `some` check against a one-entry list gives the same answer with domain and entry swapped |
| Blocker.AnyMatchesIff | blocker.js:25-27 | `some` holds iff some entry matches |
| Blocker.ShouldBlockIff | blocker.js:14-31 | characterises `Blocker.ShouldBlock`: a page is blocked iff blocking is enabled (a missing flag means false), the list is non-empty and some entry matches the normalised domain |
| Blocker.GateBlocksNothing | blocker.js:20-22 | when blocking is disabled or the list is empty, nothing is blocked |
| Blocker.ListedDomainBlocked | blocker.js:25-31 | a domain that is itself an entry is blocked whenever blocking is enabled |
| Blocker.BlockingMonotone | blocker.js:25-29 | storing a list that contains every old entry never unblocks a domain |
| Blocker.EmptyEntryBlocksEverything | blocker.js:26 | an empty-string entry blocks every page, because every domain includes "" |

## Left out

- Block page: the block page's HTML, CSS and in-page script (blocker.js:39-231) are presentation, not logic.
- Timer overlay: the overlay and its sound (background.js:4-47) are DOM and UI.
- Asynchrony: `chrome.storage` asynchrony and callbacks are not modelled. Each handler runs as if its callbacks completed at once, in program order.
- Tab and navigation events: `applySettingsToTab` and the tab/navigation listeners (background.js:76-88, 128-147) only re-send stored settings to a tab. The content script's `applySettings` answer is modelled instead.
- Timing: real delays are not modelled. This covers `setInterval`/`setTimeout` and the 250 ms `debounce` (content.js:140-152). A debounce is a pending flag, so however many triggers arrive, one re-apply runs.
- Observer wiring: the MutationObserver wiring and the wait-for-body observer (content.js:172-194) are left out. Only the callbacks are modelled.
- Races: the popup and the worker both write the timer keys, and races between them are concurrency.
- Worker suspension: MV3 service-worker suspension, which drops the interval, is not modelled.
- Number parsing: `Number()` parsing of the inputs (popup/popup.js:78-79) is left out. The inputs are optional integers, and a missing one counts as 0. Fractional inputs are not modelled. All arithmetic is on unbounded integers: JavaScript numbers are doubles, so `now + total*1000` is exact only below 2^53 and `String(n)` switches to exponent form from 1e21, and `Countdown.ClockRoundTrip` holds of the source only for inputs below those bounds.
- Selectors: the selector strings are opaque. Each element records which selectors match it.
- Invalid selectors: an invalid selector makes `querySelectorAll` throw inside `toggleElements`, which stops toggling at that selector. This is not modelled.
- Content.ContentScript.UpdateSetting: follows the corrected own-key guard, and so does the class invariant `Valid()`. The source's guard at content.js:99 also admits inherited names such as "toString". That as-written guard is modelled only by `Content.CacheAfterUpdateAsWritten`; see Findings.
- Content.ContentScript.ApplyAllSettings: follows the same own-key guard. The source's guard at content.js:85 would also admit a stored key named like an inherited member; that case is modelled only by `Content.CacheAfterUpdateAsWritten`.
- Content.ContentScript.OnMessage: its `updateSwitch` case goes through `UpdateSetting`, so it follows the own-key guard too; as written, an inherited `switchName` is cached (`Content.InheritedNameEntersCache`).
- Background.Worker.OnStartup: on a worker that is already polling, a second interval stays live beside the new one. A check then clears only the newer one, because `checkTimer` and `startTimer` only ever clear the interval `timerCheckInterval` names (background.js:70, :94). The older one is never cleared. It does not fire again for the purged timer (`Background.FiredCheckIsFinal`), but it stays live for good and also polls any timer a later `startTimer` stores, so it may be the interval that fires that timer.
- Storage.NumberOf: JavaScript would coerce a stored numeric string to a number. Here a stored string or list compares like NaN, so the comparison fails.
- Background.Worker.OnMessage: booleans, numbers, strings and lists are the only values modelled. A `startTimer` without `endTime` leaves the stored end time untouched; this matches `storage.set` dropping undefined values.
- Popup.PopupPage.StartTimerDisplay: requires `t > 0`. Its callers only pass a positive count, and with `startTimerDisplay(0)` the closure's count would go negative.
- Popup.PopupPage.Tick: assumes the `timeLeft` element exists. Without it nothing is drawn, and the model does not cover that case.
- `content-test.js`: left out. It only checks the environment and logs.
- Content error answers: the listener's `{error: …}` answers (content.js:120-123, 129-132) are not modelled, because no modelled step throws: `toggleElements` catches its own errors, and so does `applyAllSettings`.
- Focus/rest cycle: the extension's description speaks of alternating focus and rest phases. The code implements a single countdown, and the model follows the code.

## Findings

| source | as written | input that shows it | evidently intended | confidence | as-written member | corrected member |
|---|---|---|---|---|---|---|
| content.js:98-103 | `if (YOUTUBE_SELECTORS[settingName])` is truthy for names every object inherits, such as "toString"; `toggleElements` then throws inside its own `try` and the name is cached | the message `{type: "updateSwitch", switchName: "toString", value: true}` puts "toString" into `settingsCache`, and the cache is then non-empty, so page mutations start scheduling re-applies | only the selector table's own keys are settings, and only they may enter the cache | medium, not executed | Content.InheritedNameEntersCache | Content.CacheAfterUpdate |
