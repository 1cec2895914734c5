/** The credential store: the operating system's secret store, of which the
    dashboard uses the entries under one service name, keyed by account.
    Saving an empty or absent secret deletes the entry. */
module Keychain {
  import opened Wrappers

  /** `SERVICE_NAME`: every entry the dashboard touches is under it. */
  const SERVICE_NAME: string := "ai-builder-dashboard"

  /** The secret store: a password per (service, account). */
  type Store = map<(string, string), string>

  /** `!secret` for a secret that may be absent. */
  predicate Falsy(secret: Option<string>) {
    secret.None? || secret.value == ""
  }

  /** `keytar.getPassword(SERVICE_NAME, account)`: the secret, or null. */
  function Lookup(store: Store, account: string): (r: Option<string>)
    ensures r.Some? <==> (SERVICE_NAME, account) in store
    ensures r.Some? ==> r.value == store[(SERVICE_NAME, account)]
  {
    if (SERVICE_NAME, account) in store then Some(store[(SERVICE_NAME, account)]) else None
  }

  /** The store after `keytar.deletePassword(SERVICE_NAME, account)`. */
  function Erased(store: Store, account: string): (r: Store)
    ensures (SERVICE_NAME, account) !in r
    ensures forall k :: k != (SERVICE_NAME, account) ==> (k in r <==> k in store)
    ensures forall k :: k in r ==> r[k] == store[k]
  {
    map k | k in store && k != (SERVICE_NAME, account) :: store[k]
  }

  /** The store after `saveCredential(account, secret)`. */
  function Saved(store: Store, account: string, secret: Option<string>): (r: Store)
    ensures Falsy(secret) ==> r == Erased(store, account)
    ensures !Falsy(secret) ==> (SERVICE_NAME, account) in r && r[(SERVICE_NAME, account)] == secret.value
    ensures forall k :: k != (SERVICE_NAME, account) ==> (k in r <==> k in store)
    ensures forall k :: k in r && k != (SERVICE_NAME, account) ==> r[k] == store[k]
  {
    if Falsy(secret) then Erased(store, account) else store[(SERVICE_NAME, account) := secret.value]
  }

  /** A saved secret reads back; a falsy one leaves the account without a secret. */
  lemma SaveThenGet(store: Store, account: string, secret: Option<string>)
    ensures Lookup(Saved(store, account, secret), account) == if Falsy(secret) then None else secret
  {
  }

  /** After a delete the account has no secret. */
  lemma DeleteThenGet(store: Store, account: string)
    ensures Lookup(Erased(store, account), account).None?
  {
  }

  /** Saving or deleting for one account leaves every other account, and
      every other service, as it was. */
  lemma OthersUntouched(store: Store, account: string, secret: Option<string>, other: string, k: (string, string))
    requires other != account && k.0 != SERVICE_NAME
    ensures Lookup(Saved(store, account, secret), other) == Lookup(store, other)
    ensures Lookup(Erased(store, account), other) == Lookup(store, other)
    ensures k in Saved(store, account, secret) <==> k in store
    ensures k in Erased(store, account) <==> k in store
  {
  }

  /** Deleting twice is deleting once, and a save replaces what an earlier
      save of the same account stored. */
  lemma LatestSaveWins(store: Store, account: string, s1: Option<string>, s2: Option<string>)
    ensures Erased(Erased(store, account), account) == Erased(store, account)
    ensures Saved(Saved(store, account, s1), account, s2) == Saved(store, account, s2)
  {
    var a := Saved(Saved(store, account, s1), account, s2);
    var b := Saved(store, account, s2);
    assert a.Keys == b.Keys;
    assert Erased(Erased(store, account), account).Keys == Erased(store, account).Keys;
  }

  /** The secret store the dashboard talks to through keytar. */
  class Vault {
    var store: Store

    constructor (store: Store)
      ensures this.store == store
    {
      this.store := store;
    }

    /** `deleteCredential(account)`: resolves `true`. */
    method DeleteCredential(account: string) returns (ok: bool)
      modifies this
      ensures store == Erased(old(store), account)
      ensures ok
    {
      store := Erased(store, account);
      ok := true;
    }

    /** `saveCredential(account, secret)`: a falsy secret is a delete; any
        other is stored. Resolves `true` either way. */
    method SaveCredential(account: string, secret: Option<string>) returns (ok: bool)
      modifies this
      ensures store == Saved(old(store), account, secret)
      ensures ok
    {
      if Falsy(secret) {
        ok := DeleteCredential(account);
        return;
      }
      store := store[(SERVICE_NAME, account) := secret.value];
      ok := true;
    }

    /** `getCredential(account)`. */
    method GetCredential(account: string) returns (secret: Option<string>)
      ensures secret == Lookup(store, account)
    {
      if (SERVICE_NAME, account) in store {
        secret := Some(store[(SERVICE_NAME, account)]);
      } else {
        secret := None;
      }
    }
  }
}
