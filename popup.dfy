/**
 * The extension popup: the dark-mode button, the YouTube switches, and the
 * countdown started from the hours and minutes inputs, reset, redrawn once
 * per tick and reconciled with the stored end time when the popup opens.
 */
module Popup {
  import opened Wrappers
  import opened Storage
  import opened Countdown

  const Active := "active"

  /** The keys of the popup's `switches` table, in declaration order. */
  const SwitchKeys: seq<string> := [
    "youtubMain", "youtubAdSwitch", "youtubProposition", "youtubPlaylistes",
    "youtubSideBar", "youtubComments", "youtubShorts", "HideAds"]

  /** The `darkMode` entry of localStorage after one click on the mode button. */
  function ToggledFlag(flag: Option<string>): Option<string>
  {
    if flag != Some(Active) then Some(Active) else None
  }

  /** Two clicks restore the stored flag exactly when it was "active" or absent. */
  lemma ToggleTwiceRestores(flag: Option<string>)
    ensures ToggledFlag(ToggledFlag(flag)) == flag <==> flag == None || flag == Some(Active)
  {
  }

  /** A message the popup sends, to the background or to one tab, with the store as it was at sending. */
  datatype Outgoing =
    | ToRuntime(message: Message, storeAtSend: Store)
    | ToTab(tabId: int, message: Message, storeAtSend: Store)

  /**
   * One `updateSwitch` message for each YouTube tab, in the order the query
   * returns them, each sent over the store `s`.
   */
  function SwitchBroadcast(tabIds: seq<int>, key: string, isActive: bool, s: Store): (r: seq<Outgoing>)
    ensures |r| == |tabIds|
    ensures forall i :: 0 <= i < |tabIds| ==> r[i] == ToTab(tabIds[i], UpdateSwitchMessage(key, isActive), s)
  {
    if tabIds == [] then []
    else [ToTab(tabIds[0], UpdateSwitchMessage(key, isActive), s)] + SwitchBroadcast(tabIds[1..], key, isActive, s)
  }

  /** The seconds the reopened popup resumes counting from, if any. */
  function ResumeFrom(s: Store, now: int): (r: Option<nat>)
    ensures r.Some? <==>
              Truthy(Get(s, TimerRunning)) && Truthy(Get(s, TimerEndTime)) &&
              NumberOf(s[TimerEndTime]).Some? && Remaining(NumberOf(s[TimerEndTime]).value, now) > 0
    ensures r.Some? ==> r.value > 0 && r.value == Remaining(NumberOf(s[TimerEndTime]).value, now)
  {
    if Truthy(Get(s, TimerRunning)) && Truthy(Get(s, TimerEndTime)) then
      match NumberOf(s[TimerEndTime])
      case None => None
      case Some(e) => if Remaining(e, now) > 0 then Some(Remaining(e, now)) else None
    else
      None
  }

  /**
   * Reopening `k` whole seconds after a start of `total` seconds resumes
   * from `total - k`, and resumes nothing once the time is up.
   */
  lemma ReopenAfterStart(s: Store, now: int, total: nat, k: nat)
    requires now >= 0 && total > 0
    ensures ResumeFrom(StoreTimer(s, Some(Num(EndTime(now, total)))), now + k * 1000) ==
            if k < total then Some(total - k) else None
  {
    RemainingAfterWholeSeconds(now, total, k);
  }

  /** The store after initialising the switches `keys`, first to last: a missing value becomes `false`. */
  function InitStore(s: Store, keys: seq<string>, present: set<string>): Store
  {
    if keys == [] then s
    else
      var before := InitStore(s, keys[..|keys| - 1], present);
      var key := keys[|keys| - 1];
      if key in present && key !in before then before[key := Bool(false)] else before
  }

  /** The checkboxes after initialising the switches `keys`: a stored value is copied. */
  function InitChecked(checked: map<string, bool>, s: Store, keys: seq<string>, present: set<string>): map<string, bool>
  {
    if keys == [] then checked
    else
      var prefix := keys[..|keys| - 1];
      var before := InitChecked(checked, s, prefix, present);
      var stored := InitStore(s, prefix, present);
      var key := keys[|keys| - 1];
      if key in present && key in stored then before[key := Truthy(Some(stored[key]))] else before
  }

  predicate Distinct(keys: seq<string>)
  {
    forall i, j :: 0 <= i < j < |keys| ==> keys[i] != keys[j]
  }

  /**
   * For distinct keys, initialisation stores `false` exactly for the present
   * keys the store lacks, leaves every stored value as it was, and copies
   * the stored value of each present key to its checkbox.
   */
  lemma {:induction false} InitEffect(checked: map<string, bool>, s: Store, keys: seq<string>, present: set<string>)
    requires Distinct(keys)
    ensures forall k :: k in InitStore(s, keys, present) <==> k in s || (k in keys && k in present)
    ensures forall k :: k in s ==> InitStore(s, keys, present)[k] == s[k]
    ensures forall k :: k in keys && k in present && k !in s ==> InitStore(s, keys, present)[k] == Bool(false)
    ensures forall k :: k in InitChecked(checked, s, keys, present) <==>
                        k in checked || (k in keys && k in present && k in s)
    ensures forall k :: k in keys && k in present && k in s ==>
                        InitChecked(checked, s, keys, present)[k] == Truthy(Some(s[k]))
    ensures forall k :: k in checked && !(k in keys && k in present && k in s) ==>
                        InitChecked(checked, s, keys, present)[k] == checked[k]
  {
    if keys != [] {
      var prefix := keys[..|keys| - 1];
      var key := keys[|keys| - 1];
      assert Distinct(prefix);
      InitEffect(checked, s, prefix, present);
      assert key !in prefix;
      assert forall k :: k in keys <==> k in prefix || k == key;
    }
  }

  lemma SwitchKeysDistinct()
    ensures Distinct(SwitchKeys)
  {
  }

  class PopupPage {
    /** localStorage's `darkMode` entry. */
    var darkFlag: Option<string>
    /** Whether the body carries the `darkMode` class. */
    var darkClass: bool
    /** chrome.storage.local as the popup sees it. */
    var store: Store
    /** The `checked` state of each switch's checkbox that has been set. */
    var checked: map<string, bool>
    var hours: Option<int>
    var minutes: Option<int>
    /** The text of the `timeLeft` element. */
    var display: string
    /** The seconds values `updateDisplay` has drawn, in order. */
    var shown: seq<int>
    /** The countdown closure's `timeLeft`. */
    var timeLeft: int
    /** Whether `timerInterval` is live. */
    var ticking: bool
    var outbox: seq<Outgoing>

    /** A live countdown never has a negative count. */
    ghost predicate Valid()
      reads this
    {
      ticking ==> timeLeft >= 0
    }

    /** The popup script loading: dark mode is applied when the saved flag is "active". */
    constructor (persisted: Store, flag: Option<string>)
      ensures Valid()
      ensures darkFlag == flag && darkClass == (flag == Some(Active))
      ensures store == persisted && checked == map[] && hours == None && minutes == None
      ensures shown == [] && !ticking && outbox == []
    {
      darkFlag := flag;
      darkClass := flag == Some(Active);
      store := persisted;
      checked := map[];
      hours, minutes := None, None;
      display := "";
      shown := [];
      timeLeft := 0;
      ticking := false;
      outbox := [];
    }

    /** A click on the mode button. */
    method ToggleDarkMode()
      modifies this`darkFlag, this`darkClass
      ensures darkFlag == ToggledFlag(old(darkFlag))
      ensures darkClass == (darkFlag == Some(Active))
    {
      if darkFlag != Some(Active) {
        darkClass := true;
        darkFlag := Some(Active);
      } else {
        darkClass := false;
        darkFlag := None;
      }
    }

    /**
     * Switch initialisation for the switches whose element is on the page:
     * a stored value is copied to the checkbox, a missing one is stored as
     * `false`.
     */
    method InitSwitches(present: set<string>)
      modifies this`store, this`checked
      ensures store == InitStore(old(store), SwitchKeys, present)
      ensures checked == InitChecked(old(checked), old(store), SwitchKeys, present)
    {
      var i := 0;
      while i < |SwitchKeys|
        invariant 0 <= i <= |SwitchKeys|
        invariant store == InitStore(old(store), SwitchKeys[..i], present)
        invariant checked == InitChecked(old(checked), old(store), SwitchKeys[..i], present)
      {
        var key := SwitchKeys[i];
        assert SwitchKeys[..i + 1][..i] == SwitchKeys[..i];
        if key in present {
          if key in store {
            checked := checked[key := Truthy(Some(store[key]))];
          } else {
            store := store[key := Bool(false)];
          }
        }
        i := i + 1;
      }
      assert SwitchKeys[..i] == SwitchKeys;
    }

    /** The user flips a switch: store the new state, then tell every YouTube tab. */
    method OnSwitchChange(key: string, isActive: bool, youtubeTabs: seq<int>)
      requires key in SwitchKeys
      modifies this`store, this`checked, this`outbox
      ensures store == old(store)[key := Bool(isActive)]
      ensures checked == old(checked)[key := isActive]
      ensures outbox == old(outbox) + SwitchBroadcast(youtubeTabs, key, isActive, store)
    {
      checked := checked[key := isActive];
      store := store[key := Bool(isActive)];
      outbox := outbox + SwitchBroadcast(youtubeTabs, key, isActive, store);
    }

    /** One run of `updateDisplay`. */
    method Tick()
      requires Valid() && ticking
      modifies this`display, this`shown, this`ticking, this`timeLeft
      ensures Valid()
      ensures display == Clock(old(timeLeft)) && shown == old(shown) + [old(timeLeft)]
      ensures timeLeft == old(timeLeft) - 1 && ticking == (old(timeLeft) > 0)
    {
      display := Clock(timeLeft);
      shown := shown + [timeLeft];
      if timeLeft <= 0 {
        ticking := false;
      }
      timeLeft := timeLeft - 1;
    }

    /** `startTimerDisplay(t)`: stop the old interval, draw `t` at once, then tick each second. */
    method StartTimerDisplay(t: nat)
      requires t > 0
      modifies this`display, this`shown, this`ticking, this`timeLeft
      ensures Valid() && ticking && timeLeft == t - 1
      ensures display == Clock(t) && shown == old(shown) + [t]
    {
      timeLeft := t;
      ticking := false;
      display := Clock(timeLeft);
      shown := shown + [timeLeft];
      timeLeft := timeLeft - 1;
      ticking := true;
    }

    /** Drive the live countdown until it stops itself. */
    method RunDown()
      requires Valid() && ticking
      modifies this`display, this`shown, this`ticking, this`timeLeft
      ensures !ticking && timeLeft == -1 && display == "00:00:00"
      ensures shown == old(shown) + TicksFrom(old(timeLeft))
    {
      ghost var start: nat := timeLeft;
      while ticking
        invariant Valid()
        invariant ticking ==> shown + TicksFrom(timeLeft) == old(shown) + TicksFrom(start)
        invariant !ticking ==> shown == old(shown) + TicksFrom(start) && timeLeft == -1 &&
                               display == Clock(0)
        decreases timeLeft
      {
        ghost var before := shown;
        ghost var n: nat := timeLeft;
        Tick();
        TicksStep(before, n);
      }
      ZeroClock();
    }

    /** Starting the display at `t` shows `t`, `t - 1`, …, `0` and then stops ticking. */
    method ShowCountdown(t: nat)
      requires t > 0
      modifies this`display, this`shown, this`ticking, this`timeLeft
      ensures !ticking && display == "00:00:00"
      ensures shown == old(shown) + TicksFrom(t)
    {
      ghost var before := shown;
      StartTimerDisplay(t);
      RunDown();
      TicksStep(before, t);
    }

    /**
     * A click on the start button at time `now`; `response` is what the
     * background answered to `startTimer`, if anything.
     */
    method OnStartClick(now: int, response: Option<Response>)
      requires Valid()
      modifies this
      ensures Valid()
      ensures darkFlag == old(darkFlag) && darkClass == old(darkClass) && checked == old(checked)
      ensures hours == old(hours) && minutes == old(minutes)
      ensures TotalSeconds(hours, minutes) <= 0 ==>
                store == old(store) && outbox == old(outbox) && display == old(display) &&
                shown == old(shown) && ticking == old(ticking) && timeLeft == old(timeLeft)
      ensures TotalSeconds(hours, minutes) > 0 ==>
                var total := TotalSeconds(hours, minutes);
                var endTime := EndTime(now, total);
                store == StoreTimer(old(store), Some(Num(endTime))) &&
                outbox == old(outbox) + [ToRuntime(StartTimerMessage(endTime), store)] &&
                if response == Some(Status("Timer started")) then
                  ticking && timeLeft == total - 1 && display == Clock(total) && shown == old(shown) + [total]
                else
                  display == old(display) && shown == old(shown) && ticking == old(ticking) && timeLeft == old(timeLeft)
    {
      var total := TotalSeconds(hours, minutes);
      if total > 0 {
        var endTime := EndTime(now, total);
        store := StoreTimer(store, Some(Num(endTime)));
        outbox := outbox + [ToRuntime(StartTimerMessage(endTime), store)];
        if response == Some(Status("Timer started")) {
          StartTimerDisplay(total);
        }
      }
    }

    /** A click on the reset button. */
    method OnResetClick()
      modifies this
      ensures Valid() && !ticking
      ensures hours == None && minutes == None && display == "00:00:00"
      ensures store == old(store) - TimerKeys
      ensures outbox == old(outbox) + [ToRuntime(ClearTimerMessage(), store)]
      ensures darkFlag == old(darkFlag) && darkClass == old(darkClass) && checked == old(checked)
      ensures shown == old(shown) && timeLeft == old(timeLeft)
    {
      ticking := false;
      hours, minutes := None, None;
      ZeroClock();
      display := Clock(0);
      store := store - TimerKeys;
      outbox := outbox + [ToRuntime(ClearTimerMessage(), store)];
    }

    /** The window `load` handler at time `now`: resume a countdown that still has time left. */
    method OnLoad(now: int)
      requires Valid()
      modifies this`display, this`shown, this`ticking, this`timeLeft
      ensures Valid()
      ensures ResumeFrom(store, now).Some? ==>
                var t := ResumeFrom(store, now).value;
                ticking && timeLeft == t - 1 && display == Clock(t) && shown == old(shown) + [t]
      ensures ResumeFrom(store, now).None? ==>
                display == old(display) && shown == old(shown) && ticking == old(ticking) && timeLeft == old(timeLeft)
    {
      var resume := ResumeFrom(store, now);
      if resume.Some? {
        StartTimerDisplay(resume.value);
      }
    }
  }
}
