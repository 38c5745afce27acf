/**
 * The YouTube content script: the table of setting keys and their element
 * selectors, `settingsCache`, hiding and showing the matched elements, the
 * message listener, the mutation check that schedules a re-apply, and the
 * single-slot `lastUrl` check for in-page navigation. Elements are
 * abstract: each knows which selectors match it and carries its
 * `style.display`.
 */
module Content {
  import opened Wrappers
  import opened Storage

  /** An opaque CSS selector: the `index`-th entry of a group of `YOUTUBE_SELECTORS`. */
  datatype Selector = Selector(group: string, index: nat)

  /** The keys of `YOUTUBE_SELECTORS` and the number of selectors under each. */
  const Groups: map<string, nat> := map[
    "youtubAdSwitch" := 10, "youtubProposition" := 3, "youtubPlaylistes" := 2,
    "youtubSideBar" := 5, "youtubMain" := 1, "youtubShorts" := 9, "youtubComments" := 2]

  function SelectorsOf(key: string): seq<Selector>
    requires key in Groups
  {
    seq(Groups[key], i requires 0 <= i < Groups[key] => Selector(key, i))
  }

  /** A key that names a setting of the table. */
  predicate IsSetting(key: string)
  {
    key in Groups
  }

  /** The property names every plain object inherits from `Object.prototype`. */
  const PrototypeNames: set<string> := {
    "constructor", "hasOwnProperty", "isPrototypeOf", "propertyIsEnumerable",
    "toLocaleString", "toString", "valueOf", "__proto__",
    "__defineGetter__", "__defineSetter__", "__lookupGetter__", "__lookupSetter__"}

  /** `if (YOUTUBE_SELECTORS[key])` as written: inherited members are truthy too. */
  predicate LooksUpAsWritten(key: string)
  {
    key in Groups || key in PrototypeNames
  }

  /**
   * The cache after `updateSetting` as written. For an inherited name,
   * `toggleElements` throws inside its own `try` and changes nothing, and
   * the key is cached.
   */
  function CacheAfterUpdateAsWritten(cache: map<string, Value>, key: string, value: Value): map<string, Value>
  {
    if LooksUpAsWritten(key) then cache[key := value] else cache
  }

  /** As written, an `updateSwitch` for "toString" puts a key outside the table into the cache. */
  lemma InheritedNameEntersCache()
    ensures !IsSetting("toString")
    ensures "toString" in CacheAfterUpdateAsWritten(map[], "toString", Bool(true))
  {
  }

  /**
   * As written, an inherited name enters the cache and a table key behaves
   * as intended; only those may enter.
   */
  lemma AsWrittenAdmitsInherited(cache: map<string, Value>, key: string, value: Value)
    ensures key in PrototypeNames ==> CacheAfterUpdateAsWritten(cache, key, value) == cache[key := value]
    ensures IsSetting(key) ==> CacheAfterUpdateAsWritten(cache, key, value) == cache[key := value]
    ensures !LooksUpAsWritten(key) ==> CacheAfterUpdateAsWritten(cache, key, value) == cache
  {
  }

  /** The cache after `updateSetting` whose guard tests the table's own keys. */
  function CacheAfterUpdate(cache: map<string, Value>, key: string, value: Value): (r: map<string, Value>)
    ensures IsSetting(key) ==> r == cache[key := value]
    ensures !IsSetting(key) ==> r == cache
    ensures forall k :: k in r ==> k in cache || IsSetting(k)
  {
    if IsSetting(key) then cache[key := value] else cache
  }

  /** An element of the page: the selectors that match it and its `style.display`. */
  datatype Element = Element(matches: set<Selector>, display: string)

  function DisplayFor(shouldHide: bool): string
  {
    if shouldHide then "none" else ""
  }

  /** `querySelectorAll(sel).forEach(e => e.style.display = d)`. */
  function ApplySelector(es: seq<Element>, sel: Selector, d: string): seq<Element>
  {
    seq(|es|, i requires 0 <= i < |es| => if sel in es[i].matches then es[i].(display := d) else es[i])
  }

  /** `toggleElements`: the selectors applied one after another. */
  function Toggled(es: seq<Element>, sels: seq<Selector>, d: string): seq<Element>
  {
    if sels == [] then es
    else ApplySelector(Toggled(es, sels[..|sels| - 1], d), sels[|sels| - 1], d)
  }

  predicate MatchedBy(e: Element, sels: seq<Selector>)
  {
    exists s :: s in sels && s in e.matches
  }

  /** Every element some selector matches gets display `d`; every other element is unchanged. */
  lemma {:induction false} ToggledEffect(es: seq<Element>, sels: seq<Selector>, d: string)
    ensures |Toggled(es, sels, d)| == |es|
    ensures forall i :: 0 <= i < |es| ==>
              Toggled(es, sels, d)[i] == if MatchedBy(es[i], sels) then es[i].(display := d) else es[i]
  {
    if sels != [] {
      var prefix := sels[..|sels| - 1];
      var last := sels[|sels| - 1];
      ToggledEffect(es, prefix, d);
      forall i | 0 <= i < |es|
        ensures Toggled(es, sels, d)[i] == if MatchedBy(es[i], sels) then es[i].(display := d) else es[i]
      {
        assert MatchedBy(es[i], sels) <==> MatchedBy(es[i], prefix) || last in es[i].matches;
      }
    }
  }

  /** Hiding or showing twice is doing it once. */
  lemma ToggledIdempotent(es: seq<Element>, sels: seq<Selector>, d: string)
    ensures Toggled(Toggled(es, sels, d), sels, d) == Toggled(es, sels, d)
  {
    var once := Toggled(es, sels, d);
    ToggledEffect(es, sels, d);
    ToggledEffect(once, sels, d);
    forall i | 0 <= i < |es| ensures Toggled(once, sels, d)[i] == once[i] {
      assert once[i].matches == es[i].matches;
    }
  }

  /** The page after the known entries of `Object.entries(settings)` are applied in order. */
  function PageAfterEntries(es: seq<Element>, entries: seq<(string, Value)>): seq<Element>
  {
    if entries == [] then es
    else
      var before := PageAfterEntries(es, entries[..|entries| - 1]);
      var (key, value) := entries[|entries| - 1];
      if IsSetting(key) then Toggled(before, SelectorsOf(key), DisplayFor(Truthy(Some(value)))) else before
  }

  /** The cache after the same entries. */
  function CacheAfterEntries(cache: map<string, Value>, entries: seq<(string, Value)>): map<string, Value>
  {
    if entries == [] then cache
    else CacheAfterUpdate(CacheAfterEntries(cache, entries[..|entries| - 1]), entries[|entries| - 1].0, entries[|entries| - 1].1)
  }

  /** `entries` lists every key of `stored` once, with its value. */
  predicate Enumerates(entries: seq<(string, Value)>, stored: Store)
  {
    (forall i, j :: 0 <= i < j < |entries| ==> entries[i].0 != entries[j].0) &&
    (forall i :: 0 <= i < |entries| ==> entries[i].0 in stored && stored[entries[i].0] == entries[i].1) &&
    (forall k :: k in stored ==> exists i :: 0 <= i < |entries| && entries[i].0 == k)
  }

  /** Keys of `entries`, as a set. */
  function KeysOf(entries: seq<(string, Value)>): set<string>
  {
    set i | 0 <= i < |entries| :: entries[i].0
  }

  lemma {:induction false} CacheAfterEntriesEffect(cache: map<string, Value>, entries: seq<(string, Value)>)
    requires forall i, j :: 0 <= i < j < |entries| ==> entries[i].0 != entries[j].0
    ensures forall k :: k in CacheAfterEntries(cache, entries) <==> k in cache || (k in KeysOf(entries) && IsSetting(k))
    ensures forall i :: 0 <= i < |entries| && IsSetting(entries[i].0) ==>
              entries[i].0 in CacheAfterEntries(cache, entries) &&
              CacheAfterEntries(cache, entries)[entries[i].0] == entries[i].1
    ensures forall k :: k in cache && !(k in KeysOf(entries) && IsSetting(k)) ==>
              CacheAfterEntries(cache, entries)[k] == cache[k]
  {
    if entries != [] {
      var prefix := entries[..|entries| - 1];
      var last := entries[|entries| - 1];
      CacheAfterEntriesEffect(cache, prefix);
      assert KeysOf(entries) == KeysOf(prefix) + {last.0} by {
        forall k | k in KeysOf(entries) ensures k in KeysOf(prefix) + {last.0} {
          var i :| 0 <= i < |entries| && entries[i].0 == k;
          if i < |entries| - 1 {
            assert prefix[i].0 == k;
          }
        }
        forall k | k in KeysOf(prefix) ensures k in KeysOf(entries) {
          var i :| 0 <= i < |prefix| && prefix[i].0 == k;
          assert entries[i].0 == k;
        }
      }
      assert last.0 !in KeysOf(prefix) by {
        forall i | 0 <= i < |prefix| ensures prefix[i].0 != last.0 {
          assert entries[i].0 != entries[|entries| - 1].0;
        }
      }
      forall i | 0 <= i < |entries| - 1 && IsSetting(entries[i].0)
        ensures entries[i].0 in CacheAfterEntries(cache, entries)
        ensures CacheAfterEntries(cache, entries)[entries[i].0] == entries[i].1
      {
        assert prefix[i] == entries[i];
      }
    }
  }

  /** The stored settings restricted to the keys of the selector table. */
  function KnownSettings(stored: Store): map<string, Value>
  {
    map k | k in stored && IsSetting(k) :: stored[k]
  }

  lemma EnumeratedKeys(entries: seq<(string, Value)>, stored: Store)
    requires Enumerates(entries, stored)
    ensures forall k :: k in KeysOf(entries) <==> k in stored
  {
    forall k | k in stored ensures k in KeysOf(entries) {
      var i :| 0 <= i < |entries| && entries[i].0 == k;
    }
  }

  /** A map that agrees with `cache` overridden by the known stored settings, key by key, is that map. */
  lemma OverriddenByKnown(cache: map<string, Value>, r: map<string, Value>, stored: Store)
    requires forall k :: k in r <==> k in cache || (k in stored && IsSetting(k))
    requires forall k :: k in stored && IsSetting(k) ==> r[k] == stored[k]
    requires forall k :: k in cache && !(k in stored && IsSetting(k)) ==> r[k] == cache[k]
    ensures r == cache + KnownSettings(stored)
  {
  }

  /**
   * Applying a whole store sets the cache of every known key it holds to the
   * stored value; unknown keys never enter, and known keys it lacks keep
   * their cached value.
   */
  lemma ApplyStoreEffect(cache: map<string, Value>, entries: seq<(string, Value)>, stored: Store)
    requires Enumerates(entries, stored)
    ensures CacheAfterEntries(cache, entries) == cache + KnownSettings(stored)
  {
    var r := CacheAfterEntries(cache, entries);
    CacheAfterEntriesEffect(cache, entries);
    EnumeratedKeys(entries, stored);
    forall k | k in stored && IsSetting(k) ensures r[k] == stored[k] {
      var i :| 0 <= i < |entries| && entries[i].0 == k;
    }
    OverriddenByKnown(cache, r, stored);
  }

  /** A `MutationRecord`: its type, how many nodes it added, and the changed attribute. */
  datatype Mutation = Mutation(kind: string, addedNodes: nat, attributeName: Option<string>)

  /** A mutation that calls for re-applying the settings. */
  predicate Triggers(m: Mutation)
  {
    m.addedNodes > 0 ||
    (m.kind == "attributes" && (m.attributeName == Some("style") || m.attributeName == Some("class")))
  }

  /** What the message listener does with a message before it answers. */
  datatype Action = UpdateSettingAction(name: string, value: Value) | ApplyAllAction | NoAction

  /** The listener's work and its answer; `None` when it never calls `sendResponse`. */
  datatype Dispatch = Dispatch(action: Action, response: Option<Response>)

  predicate HasSwitchFields(m: Message)
  {
    m.switchName.Some? && m.switchName.value != "" && m.value.Some?
  }

  /** The `switch (message.type)` of the content script's listener. */
  function Route(m: Message): (d: Dispatch)
    ensures d.response.None? <==> m.kind == "updateSwitch" && !HasSwitchFields(m)
    ensures d.response.None? ==> d.action == NoAction
    ensures m.kind == "updateSwitch" && HasSwitchFields(m) ==>
              d == Dispatch(UpdateSettingAction(m.switchName.value, m.value.value), Some(Status("success")))
    ensures m.kind == "applySettings" ==> d == Dispatch(ApplyAllAction, Some(Status("settings_applied")))
    ensures m.kind !in {"updateSwitch", "applySettings"} ==>
              d == Dispatch(NoAction, Some(Status("unknown_message_type")))
  {
    match m.kind
    case "updateSwitch" =>
      if HasSwitchFields(m) then
        Dispatch(UpdateSettingAction(m.switchName.value, m.value.value), Some(Status("success")))
      else
        Dispatch(NoAction, None)
    case "applySettings" => Dispatch(ApplyAllAction, Some(Status("settings_applied")))
    case _ => Dispatch(NoAction, Some(Status("unknown_message_type")))
  }

  class ContentScript {
    /** The elements of the YouTube page. */
    const page: array<Element>
    /** `settingsCache`. */
    var cache: map<string, Value>
    var lastUrl: string
    /** A debounced `applyAllSettings` is waiting to run. */
    var reapplyPending: bool
    /** The post-navigation `applyAllSettings` calls waiting on their 500 ms timeout. */
    var navApplies: nat

    /** Only keys of the selector table are cached. */
    ghost predicate Valid()
      reads this
    {
      forall k :: k in cache ==> IsSetting(k)
    }

    constructor (page: array<Element>, href: string)
      ensures Valid() && this.page == page
      ensures cache == map[] && lastUrl == href && !reapplyPending && navApplies == 0
    {
      this.page := page;
      cache := map[];
      lastUrl := href;
      reapplyPending := false;
      navApplies := 0;
    }

    /** `toggleElements(selectors, shouldHide)`. */
    method ToggleElements(selectors: seq<Selector>, shouldHide: bool)
      modifies page
      ensures page[..] == Toggled(old(page[..]), selectors, DisplayFor(shouldHide))
    {
      var d := DisplayFor(shouldHide);
      for j := 0 to |selectors|
        invariant page[..] == Toggled(old(page[..]), selectors[..j], d)
      {
        ghost var before := page[..];
        var sel := selectors[j];
        for i := 0 to page.Length
          invariant forall k :: 0 <= k < i ==> page[k] == ApplySelector(before, sel, d)[k]
          invariant forall k :: i <= k < page.Length ==> page[k] == before[k]
        {
          if sel in page[i].matches {
            page[i] := page[i].(display := d);
          }
        }
        assert page[..] == ApplySelector(before, sel, d);
        assert selectors[..j + 1][..j] == selectors[..j];
      }
      assert selectors[..|selectors|] == selectors;
    }

    /** `updateSetting(settingName, value)`. */
    method UpdateSetting(settingName: string, value: Value)
      requires Valid()
      modifies this`cache, page
      ensures Valid()
      ensures cache == CacheAfterUpdate(old(cache), settingName, value)
      ensures page[..] == if IsSetting(settingName)
                          then Toggled(old(page[..]), SelectorsOf(settingName), DisplayFor(Truthy(Some(value))))
                          else old(page[..])
    {
      if IsSetting(settingName) {
        ToggleElements(SelectorsOf(settingName), Truthy(Some(value)));
        cache := cache[settingName := value];
      }
    }

    /** `applyAllSettings`, over `Object.entries` of the stored settings. */
    method ApplyAllSettings(stored: Store, entries: seq<(string, Value)>)
      requires Valid() && Enumerates(entries, stored)
      modifies this`cache, page
      ensures Valid()
      ensures cache == old(cache) + KnownSettings(stored)
      ensures page[..] == PageAfterEntries(old(page[..]), entries)
    {
      for i := 0 to |entries|
        invariant cache == CacheAfterEntries(old(cache), entries[..i])
        invariant page[..] == PageAfterEntries(old(page[..]), entries[..i])
        invariant Valid()
      {
        var (key, value) := entries[i];
        assert entries[..i + 1][..i] == entries[..i];
        UpdateSetting(key, value);
      }
      assert entries[..|entries|] == entries;
      ApplyStoreEffect(old(cache), entries, stored);
    }

    /** The content script's `runtime.onMessage` listener. */
    method OnMessage(m: Message, stored: Store, entries: seq<(string, Value)>) returns (r: Option<Response>)
      requires Valid() && Enumerates(entries, stored)
      modifies this`cache, page
      ensures Valid()
      ensures r == Route(m).response
      ensures Route(m).action.UpdateSettingAction? ==>
                var (name, value) := (Route(m).action.name, Route(m).action.value);
                cache == CacheAfterUpdate(old(cache), name, value) &&
                page[..] == if IsSetting(name)
                            then Toggled(old(page[..]), SelectorsOf(name), DisplayFor(Truthy(Some(value))))
                            else old(page[..])
      ensures Route(m).action.ApplyAllAction? ==>
                cache == old(cache) + KnownSettings(stored) &&
                page[..] == PageAfterEntries(old(page[..]), entries)
      ensures Route(m).action.NoAction? ==> cache == old(cache) && page[..] == old(page[..])
    {
      var d := Route(m);
      match d.action {
        case UpdateSettingAction(name, value) => UpdateSetting(name, value);
        case ApplyAllAction => ApplyAllSettings(stored, entries);
        case NoAction =>
      }
      r := d.response;
    }

    /** The `MutationObserver` callback's check: is a re-apply due? */
    method ShouldReapply(mutations: seq<Mutation>) returns (r: bool)
      ensures r <==> |cache| > 0 && exists i :: 0 <= i < |mutations| && Triggers(mutations[i])
    {
      r := false;
      if |cache| > 0 {
        var i := 0;
        while i < |mutations|
          invariant 0 <= i <= |mutations|
          invariant forall j :: 0 <= j < i ==> !Triggers(mutations[j])
        {
          if Triggers(mutations[i]) {
            r := true;
            break;
          }
          i := i + 1;
        }
      }
    }

    /** The observer's callback: schedule one debounced re-apply when due. */
    method OnMutations(mutations: seq<Mutation>)
      modifies this`reapplyPending
      ensures reapplyPending == (old(reapplyPending) ||
                                 (|cache| > 0 && exists i :: 0 <= i < |mutations| && Triggers(mutations[i])))
    {
      var due := ShouldReapply(mutations);
      if due {
        reapplyPending := true;
      }
    }

    /** The debounce timer running out: however many triggers came, one re-apply. */
    method RunPendingReapply(stored: Store, entries: seq<(string, Value)>)
      requires Valid() && Enumerates(entries, stored)
      modifies this`cache, this`reapplyPending, page
      ensures Valid() && !reapplyPending
      ensures old(reapplyPending) ==> cache == old(cache) + KnownSettings(stored)
      ensures old(reapplyPending) ==> page[..] == PageAfterEntries(old(page[..]), entries)
      ensures !old(reapplyPending) ==> cache == old(cache) && page[..] == old(page[..])
    {
      if reapplyPending {
        ApplyAllSettings(stored, entries);
        reapplyPending := false;
      }
    }

    /** The title observer: a new `location.href` is remembered and schedules a re-apply. */
    method OnTitleMutation(href: string)
      modifies this`lastUrl, this`navApplies
      ensures lastUrl == href
      ensures navApplies == old(navApplies) + (if href != old(lastUrl) then 1 else 0)
    {
      if href != lastUrl {
        lastUrl := href;
        navApplies := navApplies + 1;
      }
    }

    /** One post-navigation timeout firing. */
    method RunNavigationApply(stored: Store, entries: seq<(string, Value)>)
      requires Valid() && Enumerates(entries, stored) && navApplies > 0
      modifies this`cache, this`navApplies, page
      ensures Valid() && navApplies == old(navApplies) - 1
      ensures cache == old(cache) + KnownSettings(stored)
      ensures page[..] == PageAfterEntries(old(page[..]), entries)
    {
      ApplyAllSettings(stored, entries);
      navApplies := navApplies - 1;
    }
  }
}
