/**
 * The two surfaces every part of the extension talks through: the persistent
 * key-value store (chrome.storage.local) and the runtime message channel.
 * The store is a finite map; reads of an absent key give JavaScript's
 * `undefined`, written here as `None`.
 */
module Storage {
  import opened Wrappers

  /** A value as the extension writes it into the store. */
  datatype Value =
    | Bool(b: bool)
    | Num(n: int)
    | Str(s: string)
    | List(items: seq<string>)

  type Store = map<string, Value>

  const TimerEndTime := "timerEndTime"
  const TimerRunning := "timerRunning"
  /** The two keys that hold the persisted countdown. */
  const TimerKeys: set<string> := {TimerEndTime, TimerRunning}

  /** `result[key]` after `chrome.storage.local.get`. */
  function Get(s: Store, key: string): (r: Option<Value>)
    ensures r.Some? <==> key in s
    ensures r.Some? ==> r.value == s[key]
  {
    if key in s then Some(s[key]) else None
  }

  /** JavaScript truthiness of a value read from the store. */
  predicate Truthy(v: Option<Value>)
  {
    match v
    case None => false
    case Some(Bool(b)) => b
    case Some(Num(n)) => n != 0
    case Some(Str(s)) => s != ""
    case Some(List(_)) => true
  }

  /**
   * The number a stored value converts to when it is compared with or
   * subtracted from a time; `None` stands for NaN, which makes every
   * comparison false.
   */
  function NumberOf(v: Value): Option<int>
  {
    match v
    case Num(n) => Some(n)
    case Bool(b) => Some(if b then 1 else 0)
    case Str(_) => None
    case List(_) => None
  }

  /** The store after `storage.set({timerEndTime: endTime, timerRunning: true})`. */
  function StoreTimer(s: Store, endTime: Option<Value>): (r: Store)
    ensures r.Keys == s.Keys + {TimerRunning} + (if endTime.Some? then {TimerEndTime} else {})
    ensures r[TimerRunning] == Bool(true)
    ensures endTime.Some? ==> r[TimerEndTime] == endTime.value
    ensures endTime.None? && TimerEndTime in s ==> r[TimerEndTime] == s[TimerEndTime]
    ensures forall k :: k in s && k !in TimerKeys ==> r[k] == s[k]
  {
    var withEnd := if endTime.Some? then s[TimerEndTime := endTime.value] else s;
    withEnd[TimerRunning := Bool(true)]
  }

  /**
   * A runtime message as a plain object: its `type` and the optional fields
   * the handlers read (`endTime`, `switchName`, `value`).
   */
  datatype Message = Message(
    kind: string,
    endTime: Option<Value>,
    switchName: Option<string>,
    value: Option<Value>)

  function StartTimerMessage(endTime: int): Message
  {
    Message("startTimer", Some(Num(endTime)), None, None)
  }

  function ClearTimerMessage(): Message
  {
    Message("clearTimer", None, None, None)
  }

  function UpdateSwitchMessage(key: string, isActive: bool): Message
  {
    Message("updateSwitch", None, Some(key), Some(Bool(isActive)))
  }

  /** The object passed to `sendResponse`: `{status: …}` or `{error: …}`. */
  datatype Response = Status(status: string) | Failure(error: string)
}
