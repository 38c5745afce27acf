/**
 * The background service worker: the timer watchdog (`checkTimer` polled by
 * `timerCheckInterval`), the runtime message dispatcher and the install and
 * startup handlers. Platform calls become recorded effects; each tick of a
 * live interval is one call of `CheckTimer`.
 */
module Background {
  import opened Wrappers
  import opened Storage
  import opened Strings

  /** The active tab as `chrome.tabs.query` reports it; its `url` may be missing. */
  datatype Tab = Tab(id: int, url: Option<string>)

  /** What the worker asks the browser to do besides storage writes. */
  datatype Effect =
    | TimeUpNotification                       // notifications.create "Time's Up!"
    | InjectTimerAlert(tabId: int)             // scripting.executeScript(showTimerAlert)
    | ForwardToTab(tabId: int, message: Message)

  const YoutubeHost := "youtube.com"

  /** `checkTimer`'s condition: running, an end time that is truthy, and `now >= end`. */
  predicate Expired(s: Store, now: int)
  {
    Truthy(Get(s, TimerRunning)) && Truthy(Get(s, TimerEndTime)) &&
    NumberOf(s[TimerEndTime]).Some? && now >= NumberOf(s[TimerEndTime]).value
  }

  /** `onStartup`'s condition: running, an end time that is truthy, and `now < end`. */
  predicate Resumes(s: Store, now: int)
  {
    Truthy(Get(s, TimerRunning)) && Truthy(Get(s, TimerEndTime)) &&
    NumberOf(s[TimerEndTime]).Some? && now < NumberOf(s[TimerEndTime]).value
  }

  /** The alert injection `checkTimer` requests: only for an active YouTube tab. */
  function AlertFor(active: Option<Tab>): seq<Effect>
  {
    if active.Some? && active.value.url.Some? && Includes(active.value.url.value, YoutubeHost)
    then [InjectTimerAlert(active.value.id)]
    else []
  }

  /** The `updateSwitch` broadcast: the message is forwarded once to each YouTube tab, in order. */
  function Forwarded(tabIds: seq<int>, m: Message): (r: seq<Effect>)
    ensures |r| == |tabIds|
    ensures forall i :: 0 <= i < |tabIds| ==> r[i] == ForwardToTab(tabIds[i], m)
  {
    if tabIds == [] then [] else [ForwardToTab(tabIds[0], m)] + Forwarded(tabIds[1..], m)
  }

  function IdOf(o: Option<nat>): set<nat>
  {
    if o.Some? then {o.value} else {}
  }

  class Worker {
    /** chrome.storage.local as this worker sees it. */
    var store: Store
    /** Ids of the `setInterval(checkTimer, 1000)` intervals still scheduled. */
    var running: set<nat>
    /** The module variable `timerCheckInterval`; never reset to null after clearing. */
    var checkInterval: Option<nat>
    var nextId: nat
    var effects: seq<Effect>

    /** Every interval id handed out so far is below `nextId`. */
    ghost predicate Valid()
      reads this
    {
      (forall id :: id in running ==> id < nextId) &&
      (checkInterval.Some? ==> checkInterval.value < nextId)
    }

    /** At most one check interval is live, and it is the one `timerCheckInterval` names. */
    ghost predicate SinglePolling()
      reads this
    {
      running <= IdOf(checkInterval)
    }

    /** A freshly loaded worker over the persisted store. */
    constructor (persisted: Store)
      ensures Valid() && SinglePolling()
      ensures store == persisted && running == {} && checkInterval == None && effects == []
    {
      store := persisted;
      running := {};
      checkInterval := None;
      nextId := 1;
      effects := [];
    }

    /** `clearInterval(timerCheckInterval)`, a no-op when it names no live interval. */
    method ClearCheckInterval()
      modifies this`running
      ensures running == old(running) - IdOf(checkInterval)
    {
      if checkInterval.Some? {
        running := running - {checkInterval.value};
      }
    }

    /** `timerCheckInterval = setInterval(checkTimer, 1000)`. */
    method StartCheckInterval()
      modifies this`running, this`checkInterval, this`nextId
      ensures checkInterval == Some(old(nextId)) && nextId == old(nextId) + 1
      ensures running == old(running) + {old(nextId)}
    {
      checkInterval := Some(nextId);
      running := running + {nextId};
      nextId := nextId + 1;
    }

    /**
     * One run of `checkTimer` at time `now`, from any live interval. Firing
     * clears only the interval `timerCheckInterval` names.
     */
    method CheckTimer(now: int, active: Option<Tab>)
      requires Valid()
      modifies this
      ensures Valid()
      ensures checkInterval == old(checkInterval) && nextId == old(nextId)
      ensures Expired(old(store), now) ==>
                store == old(store) - TimerKeys && running == old(running) - IdOf(checkInterval) &&
                effects == old(effects) + [TimeUpNotification] + AlertFor(active)
      ensures Expired(old(store), now) && old(SinglePolling()) ==> running == {}
      ensures old(SinglePolling()) ==> SinglePolling()
      ensures !Expired(old(store), now) ==>
                store == old(store) && running == old(running) && effects == old(effects)
    {
      if Expired(store, now) {
        effects := effects + [TimeUpNotification] + AlertFor(active);
        ClearCheckInterval();
        store := store - TimerKeys;
      }
    }

    /** The `runtime.onMessage` listener: one response for every message. */
    method OnMessage(m: Message, youtubeTabs: seq<int>) returns (r: Response)
      requires Valid()
      modifies this
      ensures Valid()
      ensures m.kind == "startTimer" ==>
                r == Status("Timer started") &&
                checkInterval == Some(old(nextId)) && nextId == old(nextId) + 1 &&
                running == old(running) - IdOf(old(checkInterval)) + {old(nextId)} &&
                store == StoreTimer(old(store), m.endTime) && effects == old(effects)
      ensures m.kind == "startTimer" && old(SinglePolling()) ==> running == {old(nextId)}
      ensures m.kind == "clearTimer" ==>
                r == Status("Timer cleared") &&
                running == old(running) - IdOf(checkInterval) &&
                checkInterval == old(checkInterval) && nextId == old(nextId) &&
                store == old(store) - TimerKeys && effects == old(effects)
      ensures m.kind == "clearTimer" && old(SinglePolling()) ==> running == {}
      ensures old(SinglePolling()) ==> SinglePolling()
      ensures m.kind == "updateSwitch" ==>
                r == Status("Settings broadcast initiated") &&
                running == old(running) && checkInterval == old(checkInterval) && nextId == old(nextId) &&
                store == old(store) && effects == old(effects) + Forwarded(youtubeTabs, m)
      ensures m.kind !in {"startTimer", "clearTimer", "updateSwitch"} ==>
                r == Failure("Unknown message type") &&
                running == old(running) && checkInterval == old(checkInterval) && nextId == old(nextId) &&
                store == old(store) && effects == old(effects)
    {
      match m.kind {
        case "startTimer" =>
          ClearCheckInterval();
          StartCheckInterval();
          store := StoreTimer(store, m.endTime);
          r := Status("Timer started");
        case "clearTimer" =>
          ClearCheckInterval();
          store := store - TimerKeys;
          r := Status("Timer cleared");
        case "updateSwitch" =>
          effects := effects + Forwarded(youtubeTabs, m);
          r := Status("Settings broadcast initiated");
        case _ =>
          r := Failure("Unknown message type");
      }
    }

    /** `runtime.onInstalled`: purge the stored timer. */
    method OnInstalled()
      modifies this`store
      ensures store == old(store) - TimerKeys
    {
      store := store - TimerKeys;
    }

    /**
     * `runtime.onStartup`: resume polling for a timer still in the future,
     * otherwise purge the stored timer. The new interval is started without
     * clearing a previous one.
     */
    method OnStartup(now: int)
      requires Valid()
      modifies this
      ensures effects == old(effects)
      ensures Resumes(old(store), now) ==>
                store == old(store) && running == old(running) + {old(nextId)} &&
                old(nextId) !in old(running) &&
                checkInterval == Some(old(nextId)) && nextId == old(nextId) + 1
      ensures !Resumes(old(store), now) ==>
                store == old(store) - TimerKeys && running == old(running) &&
                checkInterval == old(checkInterval) && nextId == old(nextId)
      ensures Valid()
      ensures old(running) == {} ==> SinglePolling()
    {
      if Resumes(store, now) {
        StartCheckInterval();
      } else {
        store := store - TimerKeys;
      }
    }
  }

  /**
   * Once a check has fired and removed the timer keys, no later check from
   * any interval still live fires again, and no restart resumes.
   */
  lemma FiredCheckIsFinal(s: Store, later: int)
    ensures !Expired(s - TimerKeys, later)
    ensures !Resumes(s - TimerKeys, later)
  {
  }

  /** Clearing the stored timer twice is clearing it once; other keys stay as they were. */
  lemma ClearIdempotent(s: Store)
    ensures (s - TimerKeys) - TimerKeys == s - TimerKeys
    ensures forall k :: k in s && k !in TimerKeys ==> k in s - TimerKeys && (s - TimerKeys)[k] == s[k]
    ensures TimerEndTime !in s - TimerKeys && TimerRunning !in s - TimerKeys
  {
  }

  /** A stored timer that startup purges while it was running had already expired. */
  lemma StartupDropsOnlyExpired(s: Store, now: int)
    requires Truthy(Get(s, TimerRunning)) && Truthy(Get(s, TimerEndTime))
    requires NumberOf(s[TimerEndTime]).Some?
    ensures Resumes(s, now) <==> !Expired(s, now)
  {
  }

  /** A running timer with a numeric end time fires exactly when it is due. */
  lemma ExpiredAtEndTime(s: Store, endTime: int, now: int)
    requires TimerRunning in s && s[TimerRunning] == Bool(true)
    requires TimerEndTime in s && s[TimerEndTime] == Num(endTime)
    ensures Expired(s, now) <==> endTime != 0 && now >= endTime
  {
  }

  /** A running timer with a numeric end time is resumed on startup exactly while it is ahead. */
  lemma ResumesBeforeEndTime(s: Store, endTime: int, now: int)
    requires TimerRunning in s && s[TimerRunning] == Bool(true)
    requires TimerEndTime in s && s[TimerEndTime] == Num(endTime)
    ensures Resumes(s, now) <==> endTime != 0 && now < endTime
  {
  }

  /**
   * The time-up alert is injected at most once, into the active tab, and
   * exactly when that tab's URL contains "youtube.com"; a tab without a URL
   * gets none.
   */
  lemma AlertOnlyForYoutube(active: Option<Tab>)
    ensures |AlertFor(active)| <= 1
    ensures AlertFor(active) != [] <==>
              active.Some? && active.value.url.Some? && Includes(active.value.url.value, YoutubeHost)
    ensures forall e :: e in AlertFor(active) ==> e == InjectTimerAlert(active.value.id)
  {
  }

  /** A YouTube watch page in the active tab gets the alert. */
  lemma AlertOnWatchPage(id: int)
    ensures AlertFor(Some(Tab(id, Some("https://www.youtube.com/watch")))) == [InjectTimerAlert(id)]
  {
    IncludesInMiddle("https://www.", YoutubeHost, "/watch");
    assert "https://www." + YoutubeHost + "/watch" == "https://www.youtube.com/watch";
  }

  /** A started timer whose end time is still ahead survives a restart; once due it fires. */
  lemma StartedTimerLifecycle(s: Store, endTime: int, now: int)
    requires endTime != 0
    ensures Resumes(StoreTimer(s, Some(Num(endTime))), now) <==> now < endTime
    ensures Expired(StoreTimer(s, Some(Num(endTime))), now) <==> now >= endTime
  {
  }
}
