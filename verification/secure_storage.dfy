/**
  The platform's secure key/value store, as the pages use it: `GetAsync`
  returns the stored string or null, `SetAsync` stores or replaces one. The
  credentials live under three fixed keys.
*/
module CredentialStore {
  import opened Wrappers

  const PasswordKey: string := "password"
  const SaltKey: string := "salt"
  const IterationsKey: string := "iterations"

  /** What `GetAsync(key)` returns over the given entries; `None` stands for null. */
  function Lookup(entries: map<string, string>, key: string): Option<string>
  {
    if key in entries then Some(entries[key]) else None
  }

  /** All three credentials are stored and none is empty. */
  predicate HasCredentials(entries: map<string, string>)
  {
    && !IsNullOrEmpty(Lookup(entries, PasswordKey))
    && !IsNullOrEmpty(Lookup(entries, SaltKey))
    && !IsNullOrEmpty(Lookup(entries, IterationsKey))
  }

  class SecureStorage {
    var entries: map<string, string>

    constructor (entries: map<string, string>)
      ensures this.entries == entries
    {
      this.entries := entries;
    }

    /** `GetAsync`. */
    function Get(key: string): (r: Option<string>)
      reads this
      ensures r.Some? <==> key in entries
      ensures r.Some? ==> r.value == entries[key]
    {
      Lookup(entries, key)
    }

    /** `SetAsync`: the key now maps to the value; every other entry is as before. */
    method SetAsync(key: string, value: string)
      modifies this
      ensures entries == old(entries)[key := value]
    {
      entries := entries[key := value];
    }
  }
}
