/** The first-launch gate: two in-memory flags over one entry of a persistent
    key-value store. A read that fails counts as "not first launch" (fail
    open); a write or remove that fails changes nothing. */
module OnboardingStatus {
  import opened Wrappers

  /** The store entry that records a completed onboarding. */
  const OnboardingKey: string := "yonima_has_seen_onboarding"
  /** The value written on completion. */
  const CompletedValue: string := "true"

  /** What a store read gives back. */
  datatype ReadOutcome = ReadFailed | Read(value: Option<string>)

  /** The asynchronous key-value store; `fails` stands for the outcome of the
      underlying platform call, which this model cannot see. */
  class KeyValueStore {
    var entries: map<string, string>

    constructor (entries: map<string, string>)
      ensures this.entries == entries
    {
      this.entries := entries;
    }

    method GetItem(key: string, fails: bool) returns (r: ReadOutcome)
      ensures r == if fails then ReadFailed else Read(if key in entries then Some(entries[key]) else None)
    {
      if fails {
        r := ReadFailed;
      } else if key in entries {
        r := Read(Some(entries[key]));
      } else {
        r := Read(None);
      }
    }

    method SetItem(key: string, value: string, fails: bool) returns (ok: bool)
      modifies this
      ensures ok == !fails
      ensures entries == if ok then old(entries)[key := value] else old(entries)
    {
      ok := !fails;
      if ok {
        entries := entries[key := value];
      }
    }

    method RemoveItem(key: string, fails: bool) returns (ok: bool)
      modifies this
      ensures ok == !fails
      ensures entries == if ok then old(entries) - {key} else old(entries)
    {
      ok := !fails;
      if ok {
        entries := entries - {key};
      }
    }
  }

  /** The flag a status check settles on, given the store's entries and
      whether the read failed. */
  function FirstLaunchAfterCheck(entries: map<string, string>, readFails: bool): bool {
    !readFails && OnboardingKey !in entries
  }

  /** The entries after a successful completion. */
  function Completed(entries: map<string, string>): (after: map<string, string>)
    ensures OnboardingKey in after && after[OnboardingKey] == CompletedValue
    ensures forall k :: k != OnboardingKey ==> (k in after <==> k in entries)
    ensures forall k :: k in entries && k != OnboardingKey ==> after[k] == entries[k]
  {
    entries[OnboardingKey := CompletedValue]
  }

  /** The entries after a successful reset. */
  function Reset(entries: map<string, string>): (after: map<string, string>)
    ensures OnboardingKey !in after
    ensures forall k :: k != OnboardingKey ==> (k in after <==> k in entries)
    ensures forall k :: k in after ==> after[k] == entries[k]
  {
    entries - {OnboardingKey}
  }

  /** After a successful completion, every later check says "not first launch". */
  lemma CompletedThenCheck(entries: map<string, string>, readFails: bool)
    ensures !FirstLaunchAfterCheck(Completed(entries), readFails)
  {
  }

  /** After a successful reset, a later successful check says "first launch". */
  lemma ResetThenCheck(entries: map<string, string>)
    ensures FirstLaunchAfterCheck(Reset(entries), false)
  {
  }

  /** `useOnboardingStatus`: the flags of one hook instance, over a store that
      all instances share. */
  class OnboardingStatusHook {
    var isFirstLaunch: bool
    var isLoading: bool
    const store: KeyValueStore

    /** A fresh instance: not first launch, still loading. */
    constructor (store: KeyValueStore)
      ensures this.store == store
      ensures !isFirstLaunch && isLoading
    {
      this.store := store;
      isFirstLaunch := false;
      isLoading := true;
    }

    /** `checkOnboardingStatus`, run once when the hook mounts. */
    method CheckOnboardingStatus(readFails: bool)
      modifies this`isFirstLaunch, this`isLoading
      ensures isFirstLaunch == FirstLaunchAfterCheck(store.entries, readFails)
      ensures isFirstLaunch <==> !readFails && OnboardingKey !in store.entries
      ensures !isLoading
    {
      var value := store.GetItem(OnboardingKey, readFails);
      match value {
        case ReadFailed =>
          isFirstLaunch := false;
        case Read(v) =>
          isFirstLaunch := v == None;
      }
      isLoading := false;
    }

    /** `setOnboardingCompleted`: on success the entry is written and the flag
        cleared; on failure nothing changes. */
    method SetOnboardingCompleted(writeFails: bool)
      modifies this`isFirstLaunch, store
      ensures store.entries == if writeFails then old(store.entries) else Completed(old(store.entries))
      ensures isFirstLaunch == if writeFails then old(isFirstLaunch) else false
    {
      var ok := store.SetItem(OnboardingKey, CompletedValue, writeFails);
      if ok {
        isFirstLaunch := false;
      }
    }

    /** `resetOnboarding`: on success the entry is removed and the flag set;
        on failure nothing changes. */
    method ResetOnboarding(removeFails: bool)
      modifies this`isFirstLaunch, store
      ensures store.entries == if removeFails then old(store.entries) else Reset(old(store.entries))
      ensures isFirstLaunch == if removeFails then old(isFirstLaunch) else true
    {
      var ok := store.RemoveItem(OnboardingKey, removeFails);
      if ok {
        isFirstLaunch := true;
      }
    }
  }

  /** A later launch: a new hook instance over the same store, with its mount
      check run. */
  method Relaunch(store: KeyValueStore, readFails: bool) returns (hook: OnboardingStatusHook)
    ensures hook.store == store && fresh(hook)
    ensures hook.isFirstLaunch == FirstLaunchAfterCheck(store.entries, readFails) && !hook.isLoading
  {
    hook := new OnboardingStatusHook(store);
    hook.CheckOnboardingStatus(readFails);
  }

  /** Completing onboarding and launching again: the new instance does not
      send the user back to onboarding, whether or not its read fails. */
  method CompleteThenRelaunch(hook: OnboardingStatusHook, readFails: bool) returns (next: OnboardingStatusHook)
    modifies hook, hook.store
    ensures next.store == hook.store && !next.isFirstLaunch && !next.isLoading
  {
    hook.SetOnboardingCompleted(false);
    next := Relaunch(hook.store, readFails);
    CompletedThenCheck(old(hook.store.entries), readFails);
  }
}
