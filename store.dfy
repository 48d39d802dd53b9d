/**
 * The topic store: a remote table when a client could be created, with the
 * browser's local storage as the fallback copy. The remote service is not
 * modelled; each remote call's outcome arrives as a parameter. Every local
 * branch reads the stored list, transforms it, and writes it back.
 */
module TopicStore {
  import opened Wrappers
  import opened Text
  import opened Seqs
  import opened Types

  const UrlKey := "moneymuse_sb_url"
  const KeyKey := "moneymuse_sb_key"
  const LocalDataKey := "moneymuse_local_topics"

  const DefaultUrl := "https://sfmsbwpskrvtktoywrag.supabase.co"
  const DefaultKey := ""

  /** The two settings keys are different entries. */
  lemma SettingsKeysDiffer()
    ensures UrlKey != KeyKey
  {
    assert UrlKey[13] != KeyKey[13];
  }

  // ---------------------------------------------------------------------------
  // Credentials

  /** The build-time environment: `VITE_SUPABASE_URL` and `VITE_SUPABASE_ANON_KEY`, either possibly unset. */
  datatype Env = Env(url: Option<string>, anonKey: Option<string>)

  datatype Credentials = Credentials(url: string, key: string)

  /** `a || b` on strings: `a` unless it is missing or empty. */
  function OrElse(a: Option<string>, b: string): (r: string)
    ensures a.Some? && a.value != [] ==> r == a.value
    ensures a.None? || a.value == [] ==> r == b
  {
    if a.Some? && a.value != [] then a.value else b
  }

  /** The value stored under `key`, `null` when there is none. */
  function GetItem(settings: map<string, string>, key: string): Option<string> {
    if key in settings then Some(settings[key]) else None
  }

  /**
   * One credential: `(stored || ENV || DEFAULT).trim()`, where `ENV` is the
   * environment variable or `''` when unset.
   */
  function Resolve(stored: Option<string>, fromEnv: Option<string>, default: string): (r: string)
    ensures Trimmed(r)
    ensures stored.Some? && stored.value != [] ==> r == Trim(stored.value)
    ensures (stored.None? || stored.value == []) && fromEnv.Some? && fromEnv.value != [] ==> r == Trim(fromEnv.value)
    ensures (stored.None? || stored.value == []) && (fromEnv.None? || fromEnv.value == []) ==> r == Trim(default)
  {
    var env := OrElse(fromEnv, "");
    Trim(OrElse(stored, OrElse(Some(env), default)))
  }

  /** `getStoredCredentials`: URL and key resolved separately from storage, environment and defaults. */
  function GetStoredCredentials(settings: map<string, string>, env: Env): (r: Credentials)
    ensures r.url == Resolve(GetItem(settings, UrlKey), env.url, DefaultUrl)
    ensures r.key == Resolve(GetItem(settings, KeyKey), env.anonKey, DefaultKey)
  {
    Credentials(
      Resolve(GetItem(settings, UrlKey), env.url, DefaultUrl),
      Resolve(GetItem(settings, KeyKey), env.anonKey, DefaultKey))
  }

  /** With nothing stored and nothing in the environment, the defaults are used. */
  lemma DefaultsWhenUnset(settings: map<string, string>)
    requires UrlKey !in settings && KeyKey !in settings
    ensures GetStoredCredentials(settings, Env(None, None)) == Credentials(DefaultUrl, DefaultKey)
  {
    assert GetItem(settings, UrlKey) == None && GetItem(settings, KeyKey) == None;
    DefaultsTrimmed();
  }

  lemma DefaultsTrimmed()
    ensures Trim(DefaultUrl) == DefaultUrl && Trim(DefaultKey) == DefaultKey
  {
    assert DefaultUrl[0] == 'h' && DefaultUrl[|DefaultUrl| - 1] == 'o';
    TrimmedIsFixpoint(DefaultUrl);
    assert AllSpace(DefaultKey);
  }

  /** `saveCredentials`: stores both values trimmed (the page then reloads). */
  function SaveCredentials(settings: map<string, string>, url: string, key: string): (r: map<string, string>)
    ensures UrlKey in r && KeyKey in r && r[UrlKey] == Trim(url) && r[KeyKey] == Trim(key)
    ensures forall k :: k in settings && k != UrlKey && k != KeyKey ==> k in r && r[k] == settings[k]
  {
    SettingsKeysDiffer();
    var r := settings[UrlKey := Trim(url)][KeyKey := Trim(key)];
    assert r[UrlKey] == Trim(url);
    r
  }

  /**
   * After saving, the next load reads back what was saved, unless a saved
   * value is blank: then the environment or the default takes its place.
   */
  lemma SavedCredentialsReadBack(settings: map<string, string>, env: Env, url: string, key: string)
    ensures Trim(url) != [] ==> GetStoredCredentials(SaveCredentials(settings, url, key), env).url == Trim(url)
    ensures Trim(key) != [] ==> GetStoredCredentials(SaveCredentials(settings, url, key), env).key == Trim(key)
    ensures Trim(url) == [] ==>
              GetStoredCredentials(SaveCredentials(settings, url, key), env).url == Resolve(None, env.url, DefaultUrl)
  {
    SettingsKeysDiffer();
    ReadBackOne(Trim(url), env.url, DefaultUrl);
    ReadBackOne(Trim(key), env.anonKey, DefaultKey);
  }

  /** A stored trimmed value resolves to itself, or, when blank, as though nothing were stored. */
  lemma ReadBackOne(v: string, fromEnv: Option<string>, default: string)
    requires Trimmed(v)
    ensures v != [] ==> Resolve(Some(v), fromEnv, default) == v
    ensures v == [] ==> Resolve(Some(v), fromEnv, default) == Resolve(None, fromEnv, default)
  {
    if v != [] {
      TrimmedIsFixpoint(v);
    }
  }

  /** `isKeyValid`: longer than 20 characters and containing a '.'. */
  predicate IsKeyValid(key: string) {
    |key| > 20 && '.' in key
  }

  /** The client is created only for a non-empty URL and a valid key. */
  predicate ClientConfigured(c: Credentials) {
    c.url != [] && IsKeyValid(c.key)
  }

  /** The empty default key is never valid, so without a key from anywhere no client is created. */
  lemma NoKeyNoClient(settings: map<string, string>, env: Env)
    requires KeyKey !in settings || settings[KeyKey] == []
    requires env.anonKey.None? || env.anonKey.value == []
    ensures !ClientConfigured(GetStoredCredentials(settings, env))
  {
    assert AllSpace(DefaultKey);
  }

  /** Whether module load ends with a client: usable credentials, and `createClient` did not throw. */
  predicate ClientCreated(settings: map<string, string>, env: Env, created: bool) {
    ClientConfigured(GetStoredCredentials(settings, env)) && created
  }

  // ---------------------------------------------------------------------------
  // The local list transformations

  /** The outcome of a remote `select`: an error (or exception), no data, or the rows. */
  datatype RemoteRead = ReadFailed | ReadEmpty | ReadRows(rows: seq<Topic>)

  /** How many records carry `id`. */
  function CountId(ts: seq<Topic>, id: string): nat {
    |Filter(ts, (t: Topic) => t.id == id)|
  }

  predicate HasId(ts: seq<Topic>, id: string) {
    exists i :: 0 <= i < |ts| && ts[i].id == id
  }

  function WithoutId(ts: seq<Topic>, id: string): (r: seq<Topic>)
    ensures |r| <= |ts|
  {
    Filter(ts, (t: Topic) => t.id != id)
  }

  /** `saveLocally`: the topic first, then the old list without any record of the same id. */
  function SaveLocally(current: seq<Topic>, topic: Topic): (r: seq<Topic>)
    ensures |r| > 0 && r[0] == topic
    ensures |r| <= |current| + 1
  {
    [topic] + WithoutId(current, topic.id)
  }

  /** `WithoutId` keeps exactly the records of other ids, in their original order. */
  lemma WithoutIdSpec(ts: seq<Topic>, id: string)
    ensures !HasId(WithoutId(ts, id), id)
    ensures forall t :: t in WithoutId(ts, id) <==> t in ts && t.id != id
    ensures IsSubsequence(WithoutId(ts, id), ts)
  {
    var p := (t: Topic) => t.id != id;
    forall t ensures t in WithoutId(ts, id) <==> t in ts && t.id != id {
      FilterMembership(ts, p, t);
    }
    FilterIsSubsequence(ts, p);
  }

  /**
   * `WithoutId` drops every record of the id and nothing else: each other
   * record keeps its multiplicity, and the lengths add up.
   */
  lemma WithoutIdCounts(ts: seq<Topic>, id: string)
    ensures forall t: Topic :: t.id != id ==> multiset(WithoutId(ts, id))[t] == multiset(ts)[t]
    ensures |WithoutId(ts, id)| + CountId(ts, id) == |ts|
  {
    var p := (t: Topic) => t.id != id;
    forall t: Topic | t.id != id ensures multiset(WithoutId(ts, id))[t] == multiset(ts)[t] {
      FilterMultiplicity(ts, p, t);
    }
    FilterSplitLength(ts, p, (t: Topic) => t.id == id);
  }

  /**
   * `saveLocally` removes exactly the records of the saved id and adds the one
   * topic: every other record keeps its multiplicity.
   */
  lemma SaveLocallyCounts(current: seq<Topic>, topic: Topic)
    ensures |SaveLocally(current, topic)| == |current| - CountId(current, topic.id) + 1
    ensures forall t: Topic :: t.id != topic.id ==> multiset(SaveLocally(current, topic))[t] == multiset(current)[t]
  {
    WithoutIdCounts(current, topic.id);
    assert multiset(SaveLocally(current, topic)) == multiset{topic} + multiset(WithoutId(current, topic.id));
  }

  /**
   * After `saveLocally` the id occurs exactly once, at the head; every other
   * record survives in order; saving the same topic again changes nothing.
   */
  lemma {:induction false} SaveLocallySpec(current: seq<Topic>, topic: Topic)
    ensures CountId(SaveLocally(current, topic), topic.id) == 1
    ensures forall t: Topic :: t.id != topic.id ==> (t in SaveLocally(current, topic) <==> t in current)
    ensures IsSubsequence(SaveLocally(current, topic)[1..], current)
    ensures SaveLocally(SaveLocally(current, topic), topic) == SaveLocally(current, topic)
  {
    var rest := WithoutId(current, topic.id);
    var same := (t: Topic) => t.id == topic.id;
    var other := (t: Topic) => t.id != topic.id;
    WithoutIdSpec(current, topic.id);
    assert SaveLocally(current, topic)[1..] == rest;
    FilterDropsAll(rest, same);
    FilterAppend([topic], rest, same);
    assert Filter([topic], same) == [topic];
    forall t: Topic | t.id != topic.id ensures t in SaveLocally(current, topic) <==> t in current {
      assert t in SaveLocally(current, topic) <==> t in rest;
    }
    FilterAppend([topic], rest, other);
    assert Filter([topic], other) == [];
    FilterKeepsAll(rest, other);
  }

  /** The local branch of `updateTopicStatus`: matching records get the status and the time stamp. */
  function PatchStatus(ts: seq<Topic>, id: string, status: Status, now: string): (r: seq<Topic>)
    ensures |r| == |ts|
  {
    seq(|ts|, i requires 0 <= i < |ts| =>
      if ts[i].id == id then ts[i].(status := status, updatedAt := now) else ts[i])
  }

  /**
   * Only records with the id change, and in them only status and stamp; the
   * list keeps its length and its ids; applying it twice is applying it once
   * with the later stamp.
   */
  lemma PatchStatusSpec(ts: seq<Topic>, id: string, status: Status, now: string, later: string)
    ensures forall i :: 0 <= i < |ts| ==> PatchStatus(ts, id, status, now)[i].id == ts[i].id
    ensures forall i :: 0 <= i < |ts| && ts[i].id != id ==> PatchStatus(ts, id, status, now)[i] == ts[i]
    ensures forall i :: 0 <= i < |ts| && ts[i].id == id ==>
              && PatchStatus(ts, id, status, now)[i].status == status
              && PatchStatus(ts, id, status, now)[i].updatedAt == now
              && PatchStatus(ts, id, status, now)[i].(status := ts[i].status, updatedAt := ts[i].updatedAt) == ts[i]
    ensures PatchStatus(PatchStatus(ts, id, status, now), id, status, later) == PatchStatus(ts, id, status, later)
    ensures !HasId(ts, id) ==> PatchStatus(ts, id, status, now) == ts
  {
  }

  /** The local branch of `updateTopicDetails`: matching records get `{ ...t, ...updates, updated_at }`. */
  function PatchDetails(ts: seq<Topic>, id: string, updates: TopicPatch, now: string): (r: seq<Topic>)
    ensures |r| == |ts|
  {
    seq(|ts|, i requires 0 <= i < |ts| =>
      if ts[i].id == id then Overlay(ts[i], updates).(updatedAt := now) else ts[i])
  }

  /**
   * Records of other ids are untouched; when no record has the id, the list is
   * rewritten unchanged; a whole topic given as the update replaces every
   * record of its id, stamped with the new time.
   */
  lemma PatchDetailsSpec(ts: seq<Topic>, id: string, updates: TopicPatch, now: string, u: Topic)
    ensures forall i :: 0 <= i < |ts| && ts[i].id != id ==> PatchDetails(ts, id, updates, now)[i] == ts[i]
    ensures forall i :: 0 <= i < |ts| && ts[i].id == id ==> PatchDetails(ts, id, updates, now)[i].updatedAt == now
    ensures !HasId(ts, id) ==> PatchDetails(ts, id, updates, now) == ts
    ensures forall i :: 0 <= i < |ts| && ts[i].id == u.id ==>
              PatchDetails(ts, u.id, PatchOf(u), now)[i] == u.(updatedAt := now)
  {
    forall i | 0 <= i < |ts| && ts[i].id == u.id
      ensures PatchDetails(ts, u.id, PatchOf(u), now)[i] == u.(updatedAt := now)
    {
      OverlayWhole(ts[i], u);
    }
  }

  // ---------------------------------------------------------------------------
  // The store

  /**
   * The module state of `lib/supabase.ts`: local storage (the list entry) and
   * whether the module-level client was created when the module loaded.
   */
  class LocalFallbackStore {
    /** Local storage entries holding topic lists; the store uses `LocalDataKey`. */
    var storage: map<string, seq<Topic>>
    /** `supabase !== null`. */
    const client: bool

    /**
     * Module load: resolves the credentials and creates the client when they
     * are usable; `created` is whether `createClient` did not throw.
     */
    constructor(settings: map<string, string>, env: Env, created: bool, storage0: map<string, seq<Topic>>)
      ensures client == ClientCreated(settings, env, created)
      ensures storage == storage0
    {
      client := ClientCreated(settings, env, created);
      storage := storage0;
    }

    /** The stored list, or `[]` when nothing is stored. */
    function LocalTopics(): seq<Topic>
      reads this
    {
      if LocalDataKey in storage then storage[LocalDataKey] else []
    }

    /** `isCloudEnabled`. */
    predicate IsCloudEnabled()
      reads this
    {
      client
    }

    /** `getTopics`: the remote rows when there is a client and the read returned data, else the local list. */
    function GetTopics(remote: RemoteRead): (r: seq<Topic>)
      reads this
      ensures client && remote.ReadRows? ==> r == remote.rows
      ensures !client || !remote.ReadRows? ==> r == LocalTopics()
    {
      if client && remote.ReadRows? then remote.rows else LocalTopics()
    }

    /** Writes the list entry; every other entry stays as it was. */
    method WriteLocal(ts: seq<Topic>)
      modifies this
      ensures storage == old(storage)[LocalDataKey := ts]
      ensures LocalTopics() == ts
    {
      storage := storage[LocalDataKey := ts];
    }

    /** `addTopic`: local storage is written exactly when the remote insert did not succeed. */
    method AddTopic(topic: Topic, insertSucceeds: bool)
      modifies this
      ensures client && insertSucceeds ==> storage == old(storage)
      ensures !(client && insertSucceeds) ==> storage == old(storage)[LocalDataKey := SaveLocally(old(LocalTopics()), topic)]
    {
      var savedToCloud := false;
      if client {
        if insertSucceeds {
          savedToCloud := true;
        }
      }
      if !savedToCloud {
        WriteLocal(SaveLocally(LocalTopics(), topic));
      }
    }

    /**
     * `updateTopicStatus`. When the remote update did not succeed, the list is
     * re-read through `getTopics` (which may still return remote rows) and
     * written back with the matching records patched.
     */
    method UpdateTopicStatus(id: string, status: Status, now: string, updateSucceeds: bool, reread: RemoteRead)
      modifies this
      ensures client && updateSucceeds ==> storage == old(storage)
      ensures !(client && updateSucceeds) ==>
                storage == old(storage)[LocalDataKey := PatchStatus(old(GetTopics(reread)), id, status, now)]
    {
      var updatedInCloud := false;
      if client {
        if updateSucceeds {
          updatedInCloud := true;
        }
      }
      if !updatedInCloud {
        var current := GetTopics(reread);
        WriteLocal(PatchStatus(current, id, status, now));
      }
    }

    /** `updateTopicDetails`: as `updateTopicStatus`, overlaying `updates` on the matching records. */
    method UpdateTopicDetails(id: string, updates: TopicPatch, now: string, updateSucceeds: bool, reread: RemoteRead)
      modifies this
      ensures client && updateSucceeds ==> storage == old(storage)
      ensures !(client && updateSucceeds) ==>
                storage == old(storage)[LocalDataKey := PatchDetails(old(GetTopics(reread)), id, updates, now)]
    {
      var updatedInCloud := false;
      if client {
        if updateSucceeds {
          updatedInCloud := true;
        }
      }
      if !updatedInCloud {
        var current := GetTopics(reread);
        WriteLocal(PatchDetails(current, id, updates, now));
      }
    }

    /**
     * `deleteTopic`: whatever the remote delete did, the list read back through
     * `getTopics` is written without the id.
     */
    method DeleteTopic(id: string, reread: RemoteRead)
      modifies this
      ensures storage == old(storage)[LocalDataKey := WithoutId(old(GetTopics(reread)), id)]
      ensures !HasId(LocalTopics(), id)
    {
      var current := GetTopics(reread);
      WithoutIdSpec(current, id);
      WriteLocal(WithoutId(current, id));
    }
  }
}
