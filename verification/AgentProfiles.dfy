/** The active agent-profile pointer: a store of profile files, the persisted settings, and the
    operations that keep the pointer on a stored profile.

    A stored id is compared as text, but loading a profile parses it and prints it in canonical
    form, and mints a new one when the file has none. */
module AgentProfiles {
  import opened Wrappers

  const SEED_PROFILE_NAME: string := "default"
  const MAX_AGENT_PROFILES: nat := 50

  /** The `id` of a profile file: none, a UUID written as `text` whose canonical form is `canon`,
      or something that does not parse as a UUID, prints as `text` and is true or false in Python. */
  datatype StoredId = Missing | Uuid(canon: string, text: string) | Other(text: string, truth: bool)

  /** A profile file: not JSON, JSON but not an object, or an object with an id; `valid` says
      whether the rest of the object passes validation. */
  datatype ProfileFile = NotJson | NotObject | Doc(id: StoredId, valid: bool)

  type Store = map<string, ProfileFile>

  datatype Settings = Settings(active: Option<string>, agentKind: string, mcpConfig: string)

  datatype State = State(store: Store, settings: Settings)

  function RemoveJson(name: string): string {
    if |name| >= 5 && name[|name| - 5..] == ".json" then name[..|name| - 5] else name
  }

  /** `str(summary.get("id"))`. */
  function IdText(id: StoredId): string {
    match id
    case Missing => "None"
    case Uuid(_, text) => text
    case Other(text, _) => text
  }

  predicate Loads(f: ProfileFile) {
    f.Doc? && f.valid && !f.id.Other?
  }

  /** A summary whose id is truthy. */
  predicate HasId(f: ProfileFile) {
    f.Doc? && ((f.id.Uuid? && f.id.text != "") || (f.id.Other? && f.id.truth))
  }

  predicate HasIdText(f: ProfileFile, id: string) {
    f.Doc? && !f.id.Missing? && f.id.text == id
  }

  /** `name_for_id` finds a profile. */
  ghost predicate Known(store: Store, id: string) {
    exists n :: n in store && store[n].Doc? && IdText(store[n].id) == id
  }

  ghost predicate PointerValid(s: State) {
    s.settings.active.Some? && Known(s.store, s.settings.active.value)
  }

  /** A newly minted UUID is not the text of any stored id. */
  predicate NewUuid(store: Store, u: string) {
    u != "" && u != "None" && forall n :: n in store && store[n].Doc? ==> IdText(store[n].id) != u
  }

  predicate Fallback(store: Store, n: string) {
    n in store && n != SEED_PROFILE_NAME && HasId(store[n])
  }

  // ---------------------------------------------------------------------------------------
  // The operations
  // ---------------------------------------------------------------------------------------

  class AgentProfileService {
    var store: Store
    var settings: Settings

    ghost function View(): State
      reads this
    {
      State(store, settings)
    }

    constructor (store: Store, settings: Settings)
      ensures View() == State(store, settings)
    {
      this.store, this.settings := store, settings;
    }

    /** `names` are the stored names in the order of the listing. */
    method NameForId(id: string, names: seq<string>) returns (found: bool)
      requires forall n :: n in names <==> n in store
      ensures found <==>
              exists n :: n in store && store[n].Doc?
                          && if store[n].id.Missing? then id == "None" else store[n].id.text == id
      ensures found <==> Known(store, id)
    {
      for i := 0 to |names|
        invariant forall k :: 0 <= k < i ==> !(store[names[k]].Doc? && IdText(store[names[k]].id) == id)
      {
        assert names[i] in names;
        if store[names[i]].Doc? && IdText(store[names[i]].id) == id {
          return true;
        }
      }
      return false;
    }

    /** `_profile_to_activate`: load `default`, seed it when it is absent and there is room, else
        take the first other profile with an id. `minted` is the id a load or a seed may mint. */
    method ProfileToActivate(minted: string, names: seq<string>) returns (target: Option<string>)
      requires forall n :: n in names <==> n in store
      modifies this`store
      ensures Activates(old(store), minted, target, store)
      ensures target.Some? && !("default" in old(store) && Loads(old(store)["default"]))
              && !("default" !in old(store) && |old(store)| < 50) ==>
                exists i :: 0 <= i < |names| && Fallback(old(store), names[i])
                            && target.value == old(store)[names[i]].id.text
                            && forall k :: 0 <= k < i ==> !Fallback(old(store), names[k])
    {
      if SEED_PROFILE_NAME in store {
        var f := store[SEED_PROFILE_NAME];
        if Loads(f) {
          return Some(if f.id.Missing? then minted else f.id.canon);
        }
      } else if |store| < MAX_AGENT_PROFILES {
        store := store[SEED_PROFILE_NAME := Doc(Uuid(minted, minted), true)];
        return Some(minted);
      }
      for i := 0 to |names|
        invariant store == old(store)
        invariant forall k :: 0 <= k < i ==> !Fallback(store, names[k])
      {
        assert names[i] in names;
        if Fallback(store, names[i]) {
          return Some(store[names[i]].id.text);
        }
      }
      return None;
    }

    /** `_ensure_active_profile`. */
    method EnsureActiveProfile(minted: string, names: seq<string>)
      requires forall n :: n in names <==> n in store
      modifies this
      ensures Ensures(old(View()), minted, View())
    {
      if settings.active.Some? {
        var known := NameForId(settings.active.value, names);
        if known {
          return;
        }
      }
      var target := ProfileToActivate(minted, names);
      if target.None? {
        return;
      }
      settings := settings.(active := target);
    }

    /** `save_agent_profile`: the identity is looked up under the name with one `.json` removed, the
        file is written under the name with two removed. */
    method Save(name: string, minted: string) returns (ok: bool)
      modifies this`store
      ensures SavesTo(old(View()), name, minted, ok, View())
      ensures |store| <= if |old(store)| > MAX_AGENT_PROFILES then |old(store)| else MAX_AGENT_PROFILES
      ensures PointerValid(old(View())) ==>
                (PointerValid(View()) <==> !(ok && SaveLosesPointer(old(View()), name, minted)))
    {
      var key := RemoveJson(name);
      var path := RemoveJson(key);
      var id := if key in store && store[key].Doc? && store[key].id.Uuid? then store[key].id.canon else minted;
      if path !in store && |store| >= MAX_AGENT_PROFILES {
        return false;
      }
      store := store[path := Doc(Uuid(id, id), true)];
      SaveMeans(old(View()), name, minted, true, View());
      return true;
    }

    method Rename(name: string, newName: string) returns (ok: bool)
      modifies this`store
      ensures var source, target := RemoveJson(name), RemoveJson(newName);
              && (ok <==> source in old(store)
                          && (source == target || (target !in old(store) && !old(store)[source].NotJson?)))
              && (ok && source != target ==>
                    && source !in store && target in store && store[target] == old(store)[source]
                    && (forall n :: n != source && n != target ==> (n in store <==> n in old(store)))
                    && (forall n :: n != source && n != target && n in store ==> store[n] == old(store)[n]))
              && (!ok || source == target ==> store == old(store))
      ensures RenamesTo(old(View()), name, newName, ok, View())
    {
      var source, target := RemoveJson(name), RemoveJson(newName);
      if source !in store {
        return false;
      }
      if source == target {
        return true;
      }
      if target in store || store[source].NotJson? {
        return false;
      }
      store := store[target := store[source]] - {source};
      return true;
    }

    method Activate(id: string, names: seq<string>) returns (ok: bool)
      requires forall n :: n in names <==> n in store
      modifies this`settings
      ensures ok <==> exists n :: n in store && store[n].Doc? && !store[n].id.Missing? && store[n].id.text == id
      ensures settings == if ok then old(settings).(active := Some(id)) else old(settings)
      ensures ActivatesTo(old(View()), id, ok, View())
    {
      for i := 0 to |names|
        invariant settings == old(settings)
        invariant forall k :: 0 <= k < i ==> !HasIdText(store[names[k]], id)
      {
        assert names[i] in names;
        if HasIdText(store[names[i]], id) {
          settings := settings.(active := Some(id));
          assert names[i] in store && store[names[i]].Doc? && store[names[i]].id.text == id;
          return true;
        }
      }
      return false;
    }

    method Delete(name: string, minted: string, names: seq<string>)
      requires forall n :: n in names <==> n in store && n != RemoveJson(name)
      modifies this
      ensures forall n :: n in old(store) && n != RemoveJson(name) ==> n in store && store[n] == old(store)[n]
      ensures RemoveJson(name) in store ==>
                RemoveJson(name) == "default" && store["default"] == Doc(Uuid(minted, minted), true)
      ensures settings.mcpConfig == old(settings).mcpConfig
      ensures DeletesTo(old(View()), name, minted, View())
    {
      var key := RemoveJson(name);
      var deleted := None;
      if key in store && store[key].Doc? && !store[key].id.Missing? {
        deleted := Some(store[key].id.text);
      }
      store := store - {key};
      if deleted.Some? && settings.active == deleted {
        settings := settings.(active := None, agentKind := "openhands");
        EnsureActiveProfile(minted, names);
      }
      DeleteMeans(old(View()), name, minted, View());
    }
  }

  // ---------------------------------------------------------------------------------------
  // What each operation does to the state
  // ---------------------------------------------------------------------------------------

  ghost predicate Activates(store: Store, minted: string, target: Option<string>, store': Store) {
    if SEED_PROFILE_NAME in store && Loads(store[SEED_PROFILE_NAME]) then
      var id := store[SEED_PROFILE_NAME].id;
      store' == store && target == Some(if id.Missing? then minted else id.canon)
    else if SEED_PROFILE_NAME !in store && |store| < MAX_AGENT_PROFILES then
      store' == store[SEED_PROFILE_NAME := Doc(Uuid(minted, minted), true)] && target == Some(minted)
    else
      && store' == store
      && (target.None? ==> forall n :: !Fallback(store, n))
      && (target.Some? ==> exists n :: Fallback(store, n) && target.value == store[n].id.text)
  }

  ghost predicate Ensures(s: State, minted: string, t: State) {
    if PointerValid(s) then t == s
    else exists target :: Activates(s.store, minted, target, t.store)
                          && t.settings == if target.Some? then s.settings.(active := target) else s.settings
  }

  /** All names but one keep their files. */
  ghost predicate OnlyChanges(store: Store, path: string, store': Store) {
    && (forall n :: n != path ==> (n in store' <==> n in store))
    && (forall n :: n != path && n in store && n in store' ==> store'[n] == store[n])
  }

  /** A save is refused exactly when it would create a file in a full store, and then changes nothing.
      Else one file is written and no other touched; it loads, and carries the identity of the profile
      looked up, if that has one, else the new one. */
  ghost predicate SavesTo(s: State, name: string, minted: string, ok: bool, t: State) {
    var path := RemoveJson(RemoveJson(name));
    && t.settings == s.settings
    && (!ok <==> Refused(s.store, name))
    && (!ok ==> t.store == s.store)
    && (ok ==>
          && OnlyChanges(s.store, path, t.store)
          && path in t.store && Loads(t.store[path])
          && t.store[path].id == Uuid(SavedId(s.store, name, minted), SavedId(s.store, name, minted)))
  }

  lemma OnlyChangesIsUpdate(store: Store, path: string, store': Store)
    requires OnlyChanges(store, path, store') && path in store'
    ensures store' == store[path := store'[path]]
  {
  }

  predicate Refused(store: Store, name: string) {
    RemoveJson(RemoveJson(name)) !in store && |store| >= MAX_AGENT_PROFILES
  }

  ghost predicate RenamesTo(s: State, name: string, newName: string, ok: bool, t: State) {
    var source, target := RemoveJson(name), RemoveJson(newName);
    if source in s.store && source != target && target !in s.store && !s.store[source].NotJson? then
      ok && t == s.(store := s.store[target := s.store[source]] - {source})
    else
      (ok <==> source in s.store && source == target) && t == s
  }

  ghost predicate ActivatesTo(s: State, id: string, ok: bool, t: State) {
    && (ok <==> exists n :: n in s.store && HasIdText(s.store[n], id))
    && t == if ok then s.(settings := s.settings.(active := Some(id))) else s
  }

  ghost predicate DeletesTo(s: State, name: string, minted: string, t: State) {
    var key := RemoveJson(name);
    if IsActive(s, key) then
      Ensures(Cleared(s, key), minted, t)
    else
      t == s.(store := s.store - {key})
  }

  // ---------------------------------------------------------------------------------------
  // The same in so many words
  // ---------------------------------------------------------------------------------------

  lemma RemoveJsonMeans(name: string, stem: string)
    ensures RemoveJson(stem + ".json") == stem
    ensures (forall s: string :: name != s + ".json") ==> RemoveJson(name) == name
  {
    var n := stem + ".json";
    assert n[|n| - 5..] == ".json" && n[..|n| - 5] == stem;
    if |name| >= 5 && name[|name| - 5..] == ".json" {
      assert name == name[..|name| - 5] + ".json";
    }
  }

  /** Ensuring changes nothing when some file prints the active id. Otherwise it goes to `default` if that
      loads, under its canonical id or a new one; else to a new `default` if there is none and room for it;
      else to another file whose id is true in Python; else it changes nothing. */
  lemma EnsureMeans(s: State, minted: string, t: State)
    requires Ensures(s, minted, t)
    ensures t.settings.agentKind == s.settings.agentKind && t.settings.mcpConfig == s.settings.mcpConfig
    ensures if s.settings.active.Some?
               && exists n :: n in s.store && s.store[n].Doc? && s.settings.active.value ==
                                if s.store[n].id.Missing? then "None" else s.store[n].id.text
            then t == s
            else if "default" in s.store && s.store["default"].Doc? && s.store["default"].valid
                    && !s.store["default"].id.Other?
            then && t.store == s.store
                 && t.settings.active ==
                    Some(if s.store["default"].id.Missing? then minted else s.store["default"].id.canon)
            else if "default" !in s.store && |s.store| < 50
            then t.store == s.store["default" := Doc(Uuid(minted, minted), true)] && t.settings.active == Some(minted)
            else && t.store == s.store
                 && (if exists n :: Alternative(s.store, n)
                     then exists n :: Alternative(s.store, n) && t.settings.active == Some(s.store[n].id.text)
                     else t.settings == s.settings)
  {
    assert forall n :: Alternative(s.store, n) <==> Fallback(s.store, n);
    assert s.settings.active.Some? ==>
        (Known(s.store, s.settings.active.value) <==>
         exists n :: n in s.store && s.store[n].Doc?
                     && s.settings.active.value == if s.store[n].id.Missing? then "None" else s.store[n].id.text);
  }

  predicate Alternative(store: Store, n: string) {
    && n in store && n != "default" && store[n].Doc?
    && ((store[n].id.Uuid? && store[n].id.text != "") || (store[n].id.Other? && store[n].id.truth))
  }

  /** Deleting removes the file and no other. If it was the active one, the agent settings are reset to the
      kind `openhands`, with the server-wide `mcp_config` kept, and the pointer is ensured; else the settings
      stay as they are. */
  lemma DeleteMeans(s: State, name: string, minted: string, t: State)
    requires DeletesTo(s, name, minted, t)
    ensures forall n :: n in s.store && n != RemoveJson(name) ==> n in t.store && t.store[n] == s.store[n]
    ensures forall n :: n in t.store && (n !in s.store || n == RemoveJson(name)) ==>
                          n == "default" && t.store[n] == Doc(Uuid(minted, minted), true)
    ensures t.settings.mcpConfig == s.settings.mcpConfig
    ensures var key := RemoveJson(name);
            if key in s.store && s.store[key].Doc? && !s.store[key].id.Missing?
               && s.settings.active == Some(s.store[key].id.text)
            then t.settings.agentKind == "openhands" && Ensures(Cleared(s, key), minted, t)
            else t.settings == s.settings && t.store == s.store - {key}
  {
    var key := RemoveJson(name);
    if IsActive(s, key) {
      EnsureMeans(Cleared(s, key), minted, t);
    }
  }

  /** At 50 profiles a new one is refused and an existing one can still be overwritten. */
  lemma SaveLimit(s: State, name: string, minted: string, ok: bool, t: State)
    requires SavesTo(s, name, minted, ok, t)
    ensures ok <==> |s.store| < 50 || RemoveJson(RemoveJson(name)) in s.store
  {
  }

  // ---------------------------------------------------------------------------------------
  // Healing
  // ---------------------------------------------------------------------------------------

  /** `default` cannot be used: it is there but does not load, or it is absent and the store is full. */
  predicate SeedUnusable(store: Store) {
    if SEED_PROFILE_NAME in store then !Loads(store[SEED_PROFILE_NAME]) else |store| >= MAX_AGENT_PROFILES
  }

  /** When ensuring leaves a valid pointer. The second case is the one the code misses: a `default`
      that loads is activated under its canonical id, which nobody looks up unless it is stored in
      that very form. */
  ghost predicate CanHeal(s: State) {
    || PointerValid(s)
    || (SEED_PROFILE_NAME in s.store && Loads(s.store[SEED_PROFILE_NAME])
        && !s.store[SEED_PROFILE_NAME].id.Missing? && Known(s.store, s.store[SEED_PROFILE_NAME].id.canon))
    || (SEED_PROFILE_NAME !in s.store && |s.store| < MAX_AGENT_PROFILES)
    || (SeedUnusable(s.store) && exists n :: Fallback(s.store, n))
  }

  /** Ensuring heals the pointer exactly in these cases. */
  lemma EnsureHeals(s: State, minted: string, t: State)
    requires NewUuid(s.store, minted) && Ensures(s, minted, t)
    ensures PointerValid(t) <==> CanHeal(s)
  {
    if !PointerValid(s) {
      var target :| Activates(s.store, minted, target, t.store)
                    && t.settings == if target.Some? then s.settings.(active := target) else s.settings;
      if SEED_PROFILE_NAME in s.store && Loads(s.store[SEED_PROFILE_NAME]) {
        assert !Known(s.store, minted);
      } else if SEED_PROFILE_NAME !in s.store && |s.store| < MAX_AGENT_PROFILES {
        assert t.store[SEED_PROFILE_NAME].Doc? && IdText(t.store[SEED_PROFILE_NAME].id) == minted;
      } else if target.Some? {
        var n :| Fallback(s.store, n) && target.value == s.store[n].id.text;
        assert IdText(t.store[n].id) == target.value;
      }
    }
  }

  /** A `default` whose id is not in canonical form is activated and still not found. */
  lemma EnsureCanMiss(minted: string, t: State)
    requires NewUuid(map["default" := Doc(Uuid("ab", "AB"), true)], minted)
    requires Ensures(State(map["default" := Doc(Uuid("ab", "AB"), true)], Settings(None, "openhands", "")), minted, t)
    ensures t.settings.active == Some("ab") && !PointerValid(t)
  {
    var s := State(map["default" := Doc(Uuid("ab", "AB"), true)], Settings(None, "openhands", ""));
    assert Loads(s.store[SEED_PROFILE_NAME]);
    assert !PointerValid(s);
  }

  /** A `default` without an id is activated under an id that is stored nowhere, and under another one
      by the next call. */
  lemma MissingIdNeverSettles(u1: string, t1: State, u2: string, t2: State)
    requires NewUuid(map["default" := Doc(Missing, true)], u1)
    requires NewUuid(map["default" := Doc(Missing, true)], u2) && u1 != u2
    requires Ensures(State(map["default" := Doc(Missing, true)], Settings(None, "openhands", "")), u1, t1)
    requires Ensures(t1, u2, t2)
    ensures t1.settings.active == Some(u1) && !PointerValid(t1)
    ensures t2.settings.active == Some(u2) && !PointerValid(t2) && t2 != t1
  {
    var s := State(map["default" := Doc(Missing, true)], Settings(None, "openhands", ""));
    assert Loads(s.store[SEED_PROFILE_NAME]) && !PointerValid(s);
    assert t1.store == s.store;
    assert forall id :: Known(s.store, id) ==> id == "None";
  }

  /** Seeding never overwrites a stored profile and never exceeds the limit. */
  lemma SeedingIsSafe(s: State, minted: string, t: State)
    requires Ensures(s, minted, t)
    ensures forall n :: n in s.store ==> n in t.store && t.store[n] == s.store[n]
    ensures forall n :: n in t.store ==> n in s.store || n == SEED_PROFILE_NAME
    ensures t.store != s.store ==> |t.store| == |s.store| + 1 <= MAX_AGENT_PROFILES
  {
  }

  /** Ensuring twice equals ensuring once, unless the pointer is invalid and `default` loads but
      has no id: then every call moves the pointer to another id that is stored nowhere. */
  lemma EnsureTwice(s: State, u1: string, t1: State, u2: string, t2: State)
    requires NewUuid(s.store, u1) && NewUuid(s.store, u2) && u1 != u2
    requires Ensures(s, u1, t1) && Ensures(t1, u2, t2)
    ensures t2 == t1 <==>
            || PointerValid(s)
            || SEED_PROFILE_NAME !in s.store
            || !Loads(s.store[SEED_PROFILE_NAME]) || !s.store[SEED_PROFILE_NAME].id.Missing?
  {
    EnsureHeals(s, u1, t1);
    if !PointerValid(s) {
      var target :| Activates(s.store, u1, target, t1.store)
                    && t1.settings == if target.Some? then s.settings.(active := target) else s.settings;
      if !PointerValid(t1) {
        var again :| Activates(t1.store, u2, again, t2.store)
                     && t2.settings == if again.Some? then t1.settings.(active := again) else t1.settings;
        assert t1.store == s.store;
      }
    }
  }

  // ---------------------------------------------------------------------------------------
  // Saving
  // ---------------------------------------------------------------------------------------

  /** The id a save writes. */
  function SavedId(store: Store, name: string, minted: string): string {
    var key := RemoveJson(name);
    if key in store && store[key].Doc? && store[key].id.Uuid? then store[key].id.canon else minted
  }

  predicate HoldsActive(s: State, n: string) {
    s.settings.active.Some? && n in s.store && s.store[n].Doc? && IdText(s.store[n].id) == s.settings.active.value
  }

  /** Only the file `path` has the active id. */
  ghost predicate OnlyHolder(s: State, path: string) {
    HoldsActive(s, path) && forall n :: HoldsActive(s, n) ==> n == path
  }

  /** The file about to be written is the only one with the active id, and the id about to be written
      is another one. */
  ghost predicate SaveLosesPointer(s: State, name: string, minted: string) {
    OnlyHolder(s, RemoveJson(RemoveJson(name))) && SavedId(s.store, name, minted) != s.settings.active.value
  }

  lemma SaveKeepsPointer(s: State, name: string, minted: string, t: State)
    requires PointerValid(s) && SavesTo(s, name, minted, true, t)
    ensures PointerValid(t) <==> !SaveLosesPointer(s, name, minted)
  {
    var p := s.settings.active.value;
    var path := RemoveJson(RemoveJson(name));
    assert t.store[path].Doc? && IdText(t.store[path].id) == SavedId(s.store, name, minted);
    if n :| HoldsActive(s, n) && n != path {
      assert n in t.store && t.store[n].Doc? && IdText(t.store[n].id) == p;
    }
    if m :| m in t.store && m != path && t.store[m].Doc? && IdText(t.store[m].id) == p {
      assert HoldsActive(s, m);
    }
    var n :| n in s.store && s.store[n].Doc? && IdText(s.store[n].id) == p;
    assert HoldsActive(s, n);
  }

  /** What a save means for the limit and for a valid pointer. */
  lemma SaveMeans(s: State, name: string, minted: string, ok: bool, t: State)
    requires SavesTo(s, name, minted, ok, t)
    ensures |t.store| <= if |s.store| > MAX_AGENT_PROFILES then |s.store| else MAX_AGENT_PROFILES
    ensures PointerValid(s) ==> (PointerValid(t) <==> !(ok && SaveLosesPointer(s, name, minted)))
  {
    if ok {
      var path := RemoveJson(RemoveJson(name));
      OnlyChangesIsUpdate(s.store, path, t.store);
      StoreSizes(s.store, path, t.store[path]);
      if PointerValid(s) {
        SaveKeepsPointer(s, name, minted, t);
      }
    }
  }

  /** Saving under `x.json.json` looks up the identity of `x.json` but overwrites `x`, so the active
      profile `x` loses its id. */
  lemma DoubleSuffixLosesPointer(minted: string, t: State)
    requires minted != "u"
    requires SavesTo(State(map["x" := Doc(Uuid("u", "u"), true)], Settings(Some("u"), "openhands", "")),
                     "x.json.json", minted, true, t)
    ensures PointerValid(State(map["x" := Doc(Uuid("u", "u"), true)], Settings(Some("u"), "openhands", "")))
    ensures !PointerValid(t)
  {
    var s := State(map["x" := Doc(Uuid("u", "u"), true)], Settings(Some("u"), "openhands", ""));
    var name := "x.json.json";
    assert name[|name| - 5..] == ".json" && name[..|name| - 5] == "x.json";
    var key := "x.json";
    assert key[|key| - 5..] == ".json" && key[..|key| - 5] == "x";
    assert s.store["x"].Doc? && IdText(s.store["x"].id) == "u";
    SaveKeepsPointer(s, name, minted, t);
  }

  // ---------------------------------------------------------------------------------------
  // All operations
  // ---------------------------------------------------------------------------------------

  datatype Op =
    | List
    | Save(name: string)
    | Rename(name: string, newName: string)
    | Activate(id: string)
    | Delete(name: string)

  ghost predicate OpStep(s: State, op: Op, minted: string, t: State) {
    NewUuid(s.store, minted) &&
    match op
    case List => Ensures(s, minted, t)
    case Save(name) => exists ok :: SavesTo(s, name, minted, ok, t)
    case Rename(name, newName) => exists ok :: RenamesTo(s, name, newName, ok, t)
    case Activate(id) => exists ok :: ActivatesTo(s, id, ok, t)
    case Delete(name) => DeletesTo(s, name, minted, t)
  }

  predicate Canonical(id: StoredId) {
    id.Uuid? && id.canon == id.text && id.text != "" && id.text != "None"
  }

  /** Ids as the server itself writes them: canonical text. */
  predicate WellKept(store: Store) {
    forall n :: n in store && store[n].Doc? ==> Canonical(store[n].id)
  }

  predicate Good(s: State) {
    WellKept(s.store) && |s.store| <= MAX_AGENT_PROFILES
  }

  predicate SingleSuffix(op: Op) {
    op.Save? ==> RemoveJson(RemoveJson(op.name)) == RemoveJson(op.name)
  }

  /** Nothing can be activated: `default` is unusable and no other profile has an id. */
  ghost predicate NothingToActivate(store: Store) {
    SeedUnusable(store) && forall n :: !Fallback(store, n)
  }

  lemma StoreSizes(store: Store, n: string, f: ProfileFile)
    ensures |store[n := f]| == if n in store then |store| else |store| + 1
    ensures |store - {n}| == if n in store then |store| - 1 else |store|
  {
    assert store[n := f].Keys == store.Keys + {n};
    assert (store - {n}).Keys == store.Keys - {n};
  }

  lemma EnsureKeepsGood(s: State, minted: string, t: State)
    requires Good(s) && NewUuid(s.store, minted) && Ensures(s, minted, t)
    ensures Good(t)
  {
    SeedingIsSafe(s, minted, t);
    if SEED_PROFILE_NAME !in s.store && SEED_PROFILE_NAME in t.store {
      assert t.store[SEED_PROFILE_NAME] == Doc(Uuid(minted, minted), true);
    }
  }

  lemma SaveKeepsGood(s: State, name: string, minted: string, ok: bool, t: State)
    requires Good(s) && NewUuid(s.store, minted) && SavesTo(s, name, minted, ok, t)
    ensures Good(t)
  {
    var path := RemoveJson(RemoveJson(name));
    if ok {
      OnlyChangesIsUpdate(s.store, path, t.store);
      StoreSizes(s.store, path, t.store[path]);
      forall n | n in t.store && t.store[n].Doc? && n != path ensures n in s.store && t.store[n] == s.store[n] {
      }
    }
  }

  lemma RenameKeepsGood(s: State, name: string, newName: string, ok: bool, t: State)
    requires Good(s) && RenamesTo(s, name, newName, ok, t)
    ensures Good(t)
  {
    var source, target := RemoveJson(name), RemoveJson(newName);
    if source in s.store {
      StoreSizes(s.store, target, s.store[source]);
      StoreSizes(s.store[target := s.store[source]], source, NotJson);
    }
  }

  lemma DeleteKeepsGood(s: State, name: string, minted: string, t: State)
    requires Good(s) && NewUuid(s.store, minted) && DeletesTo(s, name, minted, t)
    ensures Good(t)
  {
    var key := RemoveJson(name);
    StoreSizes(s.store, key, NotJson);
    var mid := State(s.store - {key}, s.settings.(active := None, agentKind := "openhands"));
    assert Good(mid) && NewUuid(mid.store, minted);
    if key in s.store && s.store[key].Doc? && s.settings.active == Some(s.store[key].id.text) {
      EnsureKeepsGood(mid, minted, t);
    }
  }

  lemma OpKeepsGood(s: State, op: Op, minted: string, t: State)
    requires Good(s) && OpStep(s, op, minted, t)
    ensures Good(t)
  {
    match op
    case List => EnsureKeepsGood(s, minted, t);
    case Save(name) =>
      var ok :| SavesTo(s, name, minted, ok, t);
      SaveKeepsGood(s, name, minted, ok, t);
    case Rename(name, newName) =>
      var ok :| RenamesTo(s, name, newName, ok, t);
      RenameKeepsGood(s, name, newName, ok, t);
    case Activate(_) =>
    case Delete(name) => DeleteKeepsGood(s, name, minted, t);
  }

  /** With ids as the server writes them, the pointer heals unless there is nothing to activate. */
  lemma GoodHeals(s: State, minted: string, t: State)
    requires Good(s) && NewUuid(s.store, minted) && Ensures(s, minted, t)
    ensures PointerValid(t) || (NothingToActivate(s.store) && t.store == s.store)
  {
    EnsureHeals(s, minted, t);
    if !PointerValid(s) && SEED_PROFILE_NAME in s.store && Loads(s.store[SEED_PROFILE_NAME]) {
      assert IdText(s.store[SEED_PROFILE_NAME].id) == s.store[SEED_PROFILE_NAME].id.canon;
    }
  }

  // ---------------------------------------------------------------------------------------
  // When an operation loses the pointer
  // ---------------------------------------------------------------------------------------

  predicate IsActive(s: State, key: string) {
    key in s.store && s.store[key].Doc? && !s.store[key].id.Missing? && s.settings.active == Some(s.store[key].id.text)
  }

  /** The state in which deleting the active profile `key` ensures the pointer. */
  function Cleared(s: State, key: string): State {
    State(s.store - {key}, s.settings.(active := None, agentKind := "openhands"))
  }

  /** A delete loses the pointer if it deletes the active profile and what is left cannot be healed. Any
      other file is the only one with the active id just when it has no id, no other file lacks one, and
      the pointer is the text `None`. */
  ghost predicate DeleteLosesPointer(s: State, name: string) {
    var key := RemoveJson(name);
    if IsActive(s, key) then !CanHeal(Cleared(s, key))
    else OnlyHolder(s, key)
  }

  /** What can be told before the operation: a save or a delete that loses the pointer. */
  ghost predicate OpLoses(s: State, op: Op, minted: string) {
    match op
    case Save(name) => !Refused(s.store, name) && SaveLosesPointer(s, name, minted)
    case Delete(name) => DeleteLosesPointer(s, name)
    case _ => false
  }

  lemma KnownHas(store: Store, n: string, id: string)
    requires n in store && store[n].Doc? && IdText(store[n].id) == id
    ensures Known(store, id)
  {
  }

  lemma RenameKeepsPointer(s: State, name: string, newName: string, ok: bool, t: State)
    requires PointerValid(s) && RenamesTo(s, name, newName, ok, t)
    ensures PointerValid(t)
  {
    var n :| n in s.store && s.store[n].Doc? && IdText(s.store[n].id) == s.settings.active.value;
    var source, target := RemoveJson(name), RemoveJson(newName);
    KnownHas(t.store, if n == source && n !in t.store then target else n, s.settings.active.value);
  }

  lemma ActivateKeepsPointer(s: State, id: string, ok: bool, t: State)
    requires PointerValid(s) && ActivatesTo(s, id, ok, t)
    ensures PointerValid(t)
  {
    if ok {
      var m :| m in s.store && HasIdText(s.store[m], id);
      KnownHas(t.store, m, id);
    }
  }

  lemma DeleteKeepsPointer(s: State, name: string, minted: string, t: State)
    requires PointerValid(s) && NewUuid(s.store, minted) && DeletesTo(s, name, minted, t)
    ensures PointerValid(t) <==> !DeleteLosesPointer(s, name)
  {
    var key := RemoveJson(name);
    if IsActive(s, key) {
      assert NewUuid(Cleared(s, key).store, minted);
      EnsureHeals(Cleared(s, key), minted, t);
    } else {
      var n :| n in s.store && s.store[n].Doc? && IdText(s.store[n].id) == s.settings.active.value;
      assert HoldsActive(s, n);
      if m :| HoldsActive(s, m) && m != key {
        KnownHas(t.store, m, s.settings.active.value);
      }
      if m :| m in t.store && t.store[m].Doc? && IdText(t.store[m].id) == s.settings.active.value {
        assert HoldsActive(s, m) && m != key;
      }
    }
  }

  /** Every operation, from every state: a valid pointer stays valid exactly if the operation is not a
      losing one. */
  lemma OpKeepsPointerExactly(s: State, op: Op, minted: string, t: State)
    requires PointerValid(s) && OpStep(s, op, minted, t)
    ensures PointerValid(t) <==> !OpLoses(s, op, minted)
  {
    match op
    case List =>
    case Save(name) =>
      var ok :| SavesTo(s, name, minted, ok, t);
      if ok {
        SaveKeepsPointer(s, name, minted, t);
      }
    case Rename(name, newName) =>
      var ok :| RenamesTo(s, name, newName, ok, t);
      RenameKeepsPointer(s, name, newName, ok, t);
    case Activate(id) =>
      var ok :| ActivatesTo(s, id, ok, t);
      ActivateKeepsPointer(s, id, ok, t);
    case Delete(name) => DeleteKeepsPointer(s, name, minted, t);
  }

  /** Deleting the active profile `x` beside a `default` whose id is not in canonical form: `default`
      loads and is activated, and the pointer dangles. */
  lemma DeleteCanLosePointer(minted: string, t: State)
    requires NewUuid(map["default" := Doc(Uuid("ab", "AB"), true), "x" := Doc(Uuid("u", "u"), true)], minted)
    requires DeletesTo(State(map["default" := Doc(Uuid("ab", "AB"), true), "x" := Doc(Uuid("u", "u"), true)],
                             Settings(Some("u"), "openhands", "")), "x", minted, t)
    ensures PointerValid(State(map["default" := Doc(Uuid("ab", "AB"), true), "x" := Doc(Uuid("u", "u"), true)],
                               Settings(Some("u"), "openhands", "")))
    ensures t.settings.active == Some("ab") && Loads(t.store["default"]) && !PointerValid(t)
  {
    var s := State(map["default" := Doc(Uuid("ab", "AB"), true), "x" := Doc(Uuid("u", "u"), true)],
                   Settings(Some("u"), "openhands", ""));
    KnownHas(s.store, "x", "u");
    assert RemoveJson("x") == "x" && IsActive(s, "x");
    var mid := Cleared(s, "x");
    assert mid.store == map["default" := Doc(Uuid("ab", "AB"), true)];
    assert Loads(mid.store[SEED_PROFILE_NAME]) && !PointerValid(mid);
  }

  /** With ids as the server writes them, a save loses the pointer exactly if its name has the suffix
      twice and the file it overwrites is the only one with the active id. */
  lemma GoodSaveLoses(s: State, name: string, minted: string)
    requires Good(s) && PointerValid(s) && NewUuid(s.store, minted)
    ensures !Refused(s.store, name) && SaveLosesPointer(s, name, minted) <==>
            && RemoveJson(RemoveJson(name)) != RemoveJson(name)
            && OnlyHolder(s, RemoveJson(RemoveJson(name)))
  {
    var p, key, path := s.settings.active.value, RemoveJson(name), RemoveJson(RemoveJson(name));
    var n :| n in s.store && s.store[n].Doc? && IdText(s.store[n].id) == p;
    assert minted != p && HoldsActive(s, n);
    assert key != path && HoldsActive(s, key) ==> !OnlyHolder(s, path);
    if key in s.store && s.store[key].Doc? {
      assert IdText(s.store[key].id) == s.store[key].id.canon;
    }
  }

  /** With ids as the server writes them, a delete loses the pointer exactly if it deletes the active
      profile and leaves nothing to activate. */
  lemma GoodDeleteLoses(s: State, name: string)
    requires Good(s) && PointerValid(s)
    ensures DeleteLosesPointer(s, name) <==>
            IsActive(s, RemoveJson(name)) && NothingToActivate(s.store - {RemoveJson(name)})
  {
    var key := RemoveJson(name);
    var p := s.settings.active.value;
    var n :| n in s.store && s.store[n].Doc? && IdText(s.store[n].id) == p;
    StoreSizes(s.store, key, NotJson);
    var rest := s.store - {key};
    if IsActive(s, key) {
      if SEED_PROFILE_NAME in rest && Loads(rest[SEED_PROFILE_NAME]) {
        KnownHas(rest, SEED_PROFILE_NAME, rest[SEED_PROFILE_NAME].id.canon);
      }
    } else {
      assert n != key && HoldsActive(s, n);
    }
  }

  /** With ids as the server writes them and no doubled suffix, a valid pointer stays valid, except that
      deleting the active profile may leave nothing to activate. */
  lemma OpKeepsPointer(s: State, op: Op, minted: string, t: State)
    requires Good(s) && PointerValid(s) && OpStep(s, op, minted, t) && SingleSuffix(op)
    ensures PointerValid(t) || (op.Delete? && NothingToActivate(t.store))
  {
    OpKeepsPointerExactly(s, op, minted, t);
    match op
    case Save(name) => GoodSaveLoses(s, name, minted);
    case Delete(name) =>
      GoodDeleteLoses(s, name);
      if IsActive(s, RemoveJson(name)) {
        assert NewUuid(Cleared(s, RemoveJson(name)).store, minted);
        StoreSizes(s.store, RemoveJson(name), NotJson);
        GoodHeals(Cleared(s, RemoveJson(name)), minted, t);
      }
    case _ =>
  }

  // ---------------------------------------------------------------------------------------
  // Any sequence of operations
  // ---------------------------------------------------------------------------------------

  datatype History = History(states: seq<State>, ops: seq<Op>, minted: seq<string>)

  ghost predicate IsHistory(h: History) {
    && |h.states| == |h.ops| + 1 && |h.minted| == |h.ops|
    && forall i :: 0 <= i < |h.ops| ==> HistoryStep(h, i)
  }

  ghost predicate HistoryStep(h: History, i: nat)
    requires |h.states| == |h.ops| + 1 && |h.minted| == |h.ops| && i < |h.ops|
  {
    OpStep(h.states[i], h.ops[i], h.minted[i], h.states[i + 1])
  }

  ghost predicate ValidFrom(h: History, i: nat, j: nat)
    requires j < |h.states|
  {
    forall k :: i <= k <= j ==> PointerValid(h.states[k])
  }

  ghost predicate NoneLoses(h: History, i: nat, j: nat)
    requires IsHistory(h) && j < |h.states|
  {
    forall k :: i <= k < j ==> !OpLoses(h.states[k], h.ops[k], h.minted[k])
  }

  lemma StretchSplits(h: History, i: nat, j: nat)
    requires IsHistory(h) && i < j < |h.states|
    ensures ValidFrom(h, i, j) <==> ValidFrom(h, i, j - 1) && PointerValid(h.states[j])
    ensures NoneLoses(h, i, j) <==>
            NoneLoses(h, i, j - 1) && !OpLoses(h.states[j - 1], h.ops[j - 1], h.minted[j - 1])
  {
  }

  lemma HistoryStepExactly(h: History, k: nat)
    requires IsHistory(h) && k < |h.ops| && PointerValid(h.states[k])
    ensures PointerValid(h.states[k + 1]) <==> !OpLoses(h.states[k], h.ops[k], h.minted[k])
  {
    assert HistoryStep(h, k);
    OpKeepsPointerExactly(h.states[k], h.ops[k], h.minted[k], h.states[k + 1]);
  }

  /** Over every sequence of operations, from every state with a valid pointer: the pointer is valid
      after each of them exactly if none is a losing one. */
  lemma {:induction false} PointerStaysValidExactly(h: History, i: nat, j: nat)
    requires IsHistory(h) && i <= j < |h.states| && PointerValid(h.states[i])
    ensures ValidFrom(h, i, j) <==> NoneLoses(h, i, j)
  {
    if i < j {
      PointerStaysValidExactly(h, i, j - 1);
      StretchSplits(h, i, j);
      if ValidFrom(h, i, j - 1) {
        HistoryStepExactly(h, j - 1);
      }
    }
  }

  /** No save under a doubled suffix, and always something to activate. */
  ghost predicate Ordinary(h: History, i: nat, j: nat)
    requires IsHistory(h) && j < |h.states|
  {
    forall k :: i <= k < j ==> SingleSuffix(h.ops[k]) && !NothingToActivate(h.states[k + 1].store)
  }

  lemma OrdinaryPrefix(h: History, i: nat, j: nat)
    requires IsHistory(h) && i < j < |h.states| && Ordinary(h, i, j)
    ensures Ordinary(h, i, j - 1) && SingleSuffix(h.ops[j - 1]) && !NothingToActivate(h.states[j].store)
  {
    assert j - 1 + 1 == j;
  }

  lemma HistoryStepKeepsPointer(h: History, k: nat)
    requires IsHistory(h) && k < |h.ops| && Good(h.states[k]) && PointerValid(h.states[k])
    requires SingleSuffix(h.ops[k]) && !NothingToActivate(h.states[k + 1].store)
    ensures PointerValid(h.states[k + 1])
  {
    assert HistoryStep(h, k);
    OpKeepsPointer(h.states[k], h.ops[k], h.minted[k], h.states[k + 1]);
  }

  /** With ids as the server writes them and no save under a doubled suffix, a pointer that is valid at
      some point is valid from then on, as long as no state is reached with nothing to activate. */
  lemma {:induction false} PointerStaysValid(h: History, i: nat, j: nat)
    requires IsHistory(h) && i <= j < |h.states| && Good(h.states[0]) && PointerValid(h.states[i])
    requires Ordinary(h, i, j)
    ensures PointerValid(h.states[j])
  {
    if i < j {
      OrdinaryPrefix(h, i, j);
      PointerStaysValid(h, i, j - 1);
      HistoryKeepsGood(h, j - 1);
      HistoryStepKeepsPointer(h, j - 1);
    }
  }

  lemma {:induction false} HistoryKeepsGood(h: History, i: nat)
    requires IsHistory(h) && i < |h.states| && Good(h.states[0])
    ensures Good(h.states[i])
  {
    if i > 0 {
      HistoryKeepsGood(h, i - 1);
      assert HistoryStep(h, i - 1);
      OpKeepsGood(h.states[i - 1], h.ops[i - 1], h.minted[i - 1], h.states[i]);
    }
  }
}
