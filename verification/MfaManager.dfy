/** The manager as an object over its tables; each operation does the step of the same name in module Mfa. */
module MfaManagers {
  import opened Common
  import opened Credentials
  import opened Hotp
  import opened Naming
  import opened Mfa

  lemma NameTakenIsMember<D>(rows: seq<Row<D>>, did: string, name: string)
    ensures NameTaken(rows, did, name) <==> exists i :: 0 <= i < |rows| && rows[i].did == did && rows[i].name == name
  {
  }

  lemma RegisteredIsMember(rows: seq<Row<Key>>, credentialId: string)
    ensures Registered(rows, credentialId) <==> exists row :: row in rows && row.detail.credentialId == credentialId
  {
    if Registered(rows, credentialId) {
      var i :| 0 <= i < |rows| && rows[i].detail.credentialId == credentialId;
      assert rows[i] in rows;
    }
  }

  class MfaManager {
    var accounts: map<string, Option<PreferredMfa>>
    var totp: Table<Authenticator>
    var keys: Table<Key>

    function Abs(): (r: State)
      reads this
    {
      State(accounts, totp, keys)
    }

    constructor ()
      ensures Abs() == Start()
    {
      accounts, totp, keys := map[], Table([], 1), Table([], 1);
    }

    /** The search for the next free number. */
    method NextName(base: string, existingNames: set<string>) returns (r: string)
      ensures r == Numbered(base, FirstFree(existingNames, base, 2))
      ensures r !in existingNames
    {
      FirstFreeIsFree(existingNames, base, 2);
      var num := 2;
      while Numbered(base, num) in existingNames
        invariant FirstFree(existingNames, base, 2) == FirstFree(existingNames, base, num)
        decreases |TakenFrom(existingNames, base, num)|
      {
        FewerTaken(existingNames, base, num);
        num := num + 1;
      }
      r := Numbered(base, num);
    }

    method GenerateTotpName(did: string) returns (r: string)
      ensures r == TotpName(totp.rows, did)
      ensures !NameTaken(totp.rows, did, r)
    {
      TotpNameIsFree(totp.rows, did);
      var existing := OfDid(totp.rows, did);
      if |existing| == 0 {
        return BASE_NAME;
      }
      r := NextName(BASE_NAME, Names(existing));
    }

    method GenerateWebAuthnName(did: string, kind: KeyType) returns (r: string)
      ensures r == KeyName(keys.rows, did, kind)
    {
      var existing := OfKind(OfDid(keys.rows, did), kind);
      var baseName := if kind == SecurityKey then "Security Key" else "Passkey";
      if |existing| == 0 {
        return baseName;
      }
      r := NextName(baseName, Names(existing));
    }

    method SyncPreferredMfa(did: string)
      modifies this`accounts
      ensures Abs() == Sync(old(Abs()), did)
    {
      if did !in accounts {
        return;
      }
      var hasTotp := |OfDid(totp.rows, did)| > 0;
      var hasWebAuthn := |OfDid(keys.rows, did)| > 0;
      if accounts[did] == Some(Totp) && hasTotp {
        assert accounts == accounts[did := accounts[did]];
        return;
      }
      if accounts[did] == Some(WebAuthn) && hasWebAuthn {
        assert accounts == accounts[did := accounts[did]];
        return;
      }
      var newPreferred: Option<PreferredMfa> := None;
      if hasTotp {
        newPreferred := Some(Totp);
      } else if hasWebAuthn {
        newPreferred := Some(WebAuthn);
      }
      if newPreferred != accounts[did] {
        accounts := accounts[did := newPreferred];
      } else {
        assert accounts == accounts[did := newPreferred];
      }
    }

    /** Either a refusal and nothing changed, or the new row is in the table and the preference synced. */
    method CreateTotpCredential(did: string, name: string, secret: seq<nat>, counter: int)
      returns (r: Result<Row<Authenticator>, Refusal>)
      modifies this
      ensures Abs() == AddTotpStep(old(Abs()), did, name, secret, counter)
      ensures r.Err? ==> Abs() == old(Abs()) && TotpRefusal(old(Abs()), did, name) == Some(r.error)
      // The same in terms of the request and the table.
      ensures r.Ok? <==>
              && |OfDid(old(totp.rows), did)| < 5
              && forall row :: row in old(totp.rows) && row.did == did ==> Trim(name) == "" || row.name != Trim(name)
      ensures r.Err? ==> r.error == if |OfDid(old(totp.rows), did)| >= 5 then TooManyTotpCredentials else DuplicateTotpName
      ensures r.Ok? ==>
                && totp == Table(old(totp.rows) + [r.value], old(totp.next) + 1)
                && r.value == Row(old(totp.next), did, r.value.name, Authenticator(secret, counter))
                && (Trim(name) != "" ==> r.value.name == Trim(name))
                && forall row :: row in old(totp.rows) && row.did == did ==> row.name != r.value.name
    {
      TotpNameIsFree(totp.rows, did);
      NameTakenIsMember(totp.rows, did, ChosenTotpName(Abs(), did, name));
      if |OfDid(totp.rows, did)| >= MAX_TOTP_CREDENTIALS {
        return Err(TooManyTotpCredentials);
      }
      var chosen := Trim(name);
      if chosen == "" {
        chosen := GenerateTotpName(did);
      }
      if NameTaken(totp.rows, did, chosen) {
        return Err(DuplicateTotpName);
      }
      var inserted := Row(totp.next, did, chosen, Authenticator(secret, counter));
      totp := Table(totp.rows + [inserted], totp.next + 1);
      SyncPreferredMfa(did);
      r := Ok(inserted);
    }

    method DeleteTotpCredential(did: string, id: nat)
      modifies this
      ensures Abs() == Sync(old(Abs()).(totp := Delete(old(totp), did, id)), did)
      ensures forall r :: r in totp.rows <==> r in old(totp.rows) && !(r.did == did && r.id == id)
    {
      forall r
        ensures r in Without(totp.rows, did, id) <==> r in totp.rows && !(r.did == did && r.id == id)
      {
        WithoutMember(totp.rows, did, id, r);
      }
      totp := Delete(totp, did, id);
      SyncPreferredMfa(did);
    }

    method CreateWebAuthnCredential(did: string, kind: KeyType, name: string, credentialId: string)
      returns (r: Result<Row<Key>, Refusal>)
      modifies this
      ensures Abs() == AddKeyStep(old(Abs()), did, kind, name, credentialId)
      ensures r.Err? ==> Abs() == old(Abs()) && KeyRefusal(old(Abs()), did, kind, name, credentialId) == Some(r.error)
      // The same in terms of the request and the table.
      ensures r.Ok? <==>
              && |OfDid(old(keys.rows), did)| < 10
              && (forall row :: row in old(keys.rows) && row.did == did ==>
                    row.name != if Trim(name) != "" then Trim(name) else KeyName(old(keys.rows), did, kind))
              && forall row :: row in old(keys.rows) ==> row.detail.credentialId != credentialId
      ensures r.Ok? ==>
                && keys == Table(old(keys.rows) + [r.value], old(keys.next) + 1)
                && r.value == Row(old(keys.next), did, r.value.name, Key(kind, credentialId))
                && (Trim(name) != "" ==> r.value.name == Trim(name))
    {
      NameTakenIsMember(keys.rows, did, ChosenKeyName(Abs(), did, kind, name));
      RegisteredIsMember(keys.rows, credentialId);
      if |OfDid(keys.rows, did)| >= MAX_WEBAUTHN_CREDENTIALS {
        return Err(TooManyWebAuthnCredentials);
      }
      var chosen := Trim(name);
      if chosen == "" {
        chosen := GenerateWebAuthnName(did, kind);
      }
      if NameTaken(keys.rows, did, chosen) {
        return Err(DuplicateWebAuthnName);
      }
      if Registered(keys.rows, credentialId) {
        return Err(DuplicateCredentialId);
      }
      var inserted := Row(keys.next, did, chosen, Key(kind, credentialId));
      keys := Table(keys.rows + [inserted], keys.next + 1);
      if kind == SecurityKey {
        SyncPreferredMfa(did);
      }
      r := Ok(inserted);
    }

    method DeleteWebAuthnCredential(did: string, id: nat)
      modifies this
      ensures Abs() == Sync(old(Abs()).(keys := Delete(old(keys), did, id)), did)
      ensures forall r :: r in keys.rows <==> r in old(keys.rows) && !(r.did == did && r.id == id)
    {
      forall r
        ensures r in Without(keys.rows, did, id) <==> r in keys.rows && !(r.did == did && r.id == id)
      {
        WithoutMember(keys.rows, did, id, r);
      }
      keys := Delete(keys, did, id);
      SyncPreferredMfa(did);
    }

    /** Tries the account's credentials in order and records the counter of the first that matches. */
    method VerifyAccountTotpCode(
      hmac: (seq<nat>, seq<nat>) -> seq<nat>, did: string, code: string, nowMs: int) returns (ok: bool)
      requires IsHmac(hmac)
      modifies this`totp
      ensures Abs() == CheckStep(hmac, old(Abs()), did, code, nowMs)
      ensures ok <==> AcceptedBy(hmac, OfDid(old(totp).rows, did), code, nowMs).Some?
    {
      hide OfDid, Verify, MarkUsed;
      var credentials := OfDid(totp.rows, did);
      assert credentials[0..] == credentials;
      for i := 0 to |credentials|
        invariant totp == old(totp)
        invariant AcceptedBy(hmac, credentials, code, nowMs) == AcceptedBy(hmac, credentials[i..], code, nowMs)
      {
        var credential := credentials[i];
        assert credentials[i..][1..] == credentials[i + 1..];
        var counter := VerifyTotpCode(hmac, credential.detail.secret, code, Some(credential.detail.lastUsed), nowMs);
        if counter.Some? {
          totp := totp.(rows := MarkUsed(totp.rows, credential.id, counter.value));
          return true;
        }
      }
      ok := false;
    }
  }
}
