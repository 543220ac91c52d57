/** What every step on the credential tables keeps. */
module MfaProof {
  import opened Common
  import opened Credentials
  import opened Hotp
  import opened Mfa

  /** The clauses for one account. */
  predicate PreferenceOk(s: State, did: string) {
    did in s.accounts ==>
      && (s.accounts[did].Some? ==> Holds(s, did, s.accounts[did].value))
      && (Holds(s, did, Totp) || HasSecurityKey(s, did) ==> s.accounts[did].Some?)
  }

  ghost predicate CredentialIdsDiffer(rows: seq<Row<Key>>) {
    forall i, j :: 0 <= i < j < |rows| ==> rows[i].detail.credentialId != rows[j].detail.credentialId
  }

  ghost predicate Sound(s: State) {
    && IdsRise(s.totp) && NamesDiffer(s.totp) && Capped(s.totp, MAX_TOTP_CREDENTIALS)
    && IdsRise(s.keys) && NamesDiffer(s.keys) && Capped(s.keys, MAX_WEBAUTHN_CREDENTIALS)
    && CredentialIdsDiffer(s.keys.rows)
    && forall did :: PreferenceOk(s, did)
  }

  /** Whatever the preference was, it is sound after a sync. */
  lemma SyncIsSound(s: State, did: string)
    ensures PreferenceOk(Sync(s, did), did)
  {
    if HasSecurityKey(s, did) {
      assert Holds(s, did, WebAuthn);
    }
  }

  /** What an account sees of the state. */
  predicate SameView(s: State, s': State, did: string) {
    && (did in s.accounts <==> did in s'.accounts)
    && (did in s.accounts ==> s.accounts[did] == s'.accounts[did])
    && (OfDid(s.totp.rows, did) == [] <==> OfDid(s'.totp.rows, did) == [])
    && OfDid(s.keys.rows, did) == OfDid(s'.keys.rows, did)
  }

  lemma SameViewSound(s: State, s': State, did: string)
    requires PreferenceOk(s, did) && SameView(s, s', did)
    ensures PreferenceOk(s', did)
  {
  }

  lemma {:induction false} MarkedKeepsView(rows: seq<Row<Authenticator>>, id: nat, counter: int, did: string)
    ensures |OfDid(MarkUsed(rows, id, counter), did)| == |OfDid(rows, did)|
    decreases |rows|
  {
    if rows != [] {
      MarkedKeepsView(rows[1..], id, counter, did);
      assert MarkUsed(rows, id, counter)[1..] == MarkUsed(rows[1..], id, counter);
    }
  }

  lemma MarkKeepsTable(t: Table<Authenticator>, id: nat, counter: int)
    requires IdsRise(t) && NamesDiffer(t) && Capped(t, MAX_TOTP_CREDENTIALS)
    ensures IdsRise(t.(rows := MarkUsed(t.rows, id, counter)))
    ensures NamesDiffer(t.(rows := MarkUsed(t.rows, id, counter)))
    ensures Capped(t.(rows := MarkUsed(t.rows, id, counter)), MAX_TOTP_CREDENTIALS)
  {
    hide OfDid, MarkUsed;
    var rows := MarkUsed(t.rows, id, counter);
    forall did
      ensures |OfDid(rows, did)| <= MAX_TOTP_CREDENTIALS
    {
      MarkedKeepsView(t.rows, id, counter, did);
    }
  }

  /** A change seen by one account only, then synced, keeps every preference sound. */
  lemma SyncElsewhere(s: State, s1: State, did: string)
    requires forall d :: PreferenceOk(s, d)
    requires forall d :: d != did ==> SameView(s, s1, d)
    ensures forall d :: PreferenceOk(Sync(s1, did), d)
  {
    SyncIsSound(s1, did);
    forall d | d != did
      ensures PreferenceOk(Sync(s1, did), d)
    {
      SameViewSound(s, s1, d);
      SameViewSound(s1, Sync(s1, did), d);
    }
  }

  lemma AddTotpKeeps(s: State, did: string, name: string, secret: seq<nat>, counter: int)
    requires Sound(s)
    ensures Sound(AddTotpStep(s, did, name, secret, counter))
  {
    hide ChosenTotpName, PreferenceOk, IdsRise, NamesDiffer, Capped, NameTaken, Insert;
    if TotpRefusal(s, did, name).None? {
      var chosen, detail := ChosenTotpName(s, did, name), Authenticator(secret, counter);
      InsertKeeps(s.totp, did, chosen, detail, MAX_TOTP_CREDENTIALS);
      var s1 := s.(totp := Insert(s.totp, did, chosen, detail));
      forall d | d != did
        ensures SameView(s, s1, d)
      {
        OfDidInserted(s.totp, did, chosen, detail, d);
      }
      SyncElsewhere(s, s1, did);
    }
  }

  lemma DropTotpKeeps(s: State, did: string, id: nat)
    requires Sound(s)
    ensures Sound(Sync(s.(totp := Delete(s.totp, did, id)), did))
  {
    hide PreferenceOk, IdsRise, NamesDiffer, Capped;
    DeleteKeeps(s.totp, did, id, MAX_TOTP_CREDENTIALS);
    var s1 := s.(totp := Delete(s.totp, did, id));
    forall d | d != did
      ensures SameView(s, s1, d)
    {
      OfDidDeleted(s.totp.rows, did, id, d);
    }
    SyncElsewhere(s, s1, did);
  }

  lemma {:induction false} WithoutKeepsCredentialIds(rows: seq<Row<Key>>, did: string, id: nat)
    requires CredentialIdsDiffer(rows)
    ensures CredentialIdsDiffer(Without(rows, did, id))
    decreases |rows|
  {
    if rows != [] {
      var rest := Without(rows[1..], did, id);
      WithoutKeepsCredentialIds(rows[1..], did, id);
      forall j | 0 <= j < |rest|
        ensures rows[0].detail.credentialId != rest[j].detail.credentialId
      {
        WithoutMember(rows[1..], did, id, rest[j]);
        var k :| 0 <= k < |rows[1..]| && rows[1..][k] == rest[j];
        assert rows[k + 1] == rest[j];
      }
    }
  }

  lemma DropKeyKeeps(s: State, did: string, id: nat)
    requires Sound(s)
    ensures Sound(Sync(s.(keys := Delete(s.keys, did, id)), did))
  {
    hide PreferenceOk, IdsRise, NamesDiffer, Capped, CredentialIdsDiffer;
    DeleteKeeps(s.keys, did, id, MAX_WEBAUTHN_CREDENTIALS);
    WithoutKeepsCredentialIds(s.keys.rows, did, id);
    var s1 := s.(keys := Delete(s.keys, did, id));
    forall d | d != did
      ensures SameView(s, s1, d)
    {
      OfDidDeleted(s.keys.rows, did, id, d);
    }
    SyncElsewhere(s, s1, did);
  }

  /** A passkey alone neither makes the preference necessary nor takes its ground away. */
  lemma PasskeyKeepsPreference(s: State, did: string, name: string, credentialId: string)
    requires PreferenceOk(s, did)
    ensures PreferenceOk(s.(keys := Insert(s.keys, did, name, Key(Passkey, credentialId))), did)
  {
    var s1 := s.(keys := Insert(s.keys, did, name, Key(Passkey, credentialId)));
    OfDidInserted(s.keys, did, name, Key(Passkey, credentialId), did);
    var before, after := OfDid(s.keys.rows, did), OfDid(s1.keys.rows, did);
    if HasSecurityKey(s1, did) {
      var i :| 0 <= i < |after| && after[i].detail.kind.SecurityKey?;
      assert i < |before| && before[i] == after[i];
      assert HasSecurityKey(s, did);
    }
  }

  lemma AddKeyKeeps(s: State, did: string, kind: KeyType, name: string, credentialId: string)
    requires Sound(s)
    ensures Sound(AddKeyStep(s, did, kind, name, credentialId))
  {
    hide ChosenKeyName, PreferenceOk, IdsRise, NamesDiffer, Capped, NameTaken, Sync;
    if KeyRefusal(s, did, kind, name, credentialId).None? {
      var chosen, detail := ChosenKeyName(s, did, kind, name), Key(kind, credentialId);
      InsertKeeps(s.keys, did, chosen, detail, MAX_WEBAUTHN_CREDENTIALS);
      var s1 := s.(keys := Insert(s.keys, did, chosen, detail));
      assert CredentialIdsDiffer(s1.keys.rows);
      forall d | d != did
        ensures SameView(s, s1, d)
      {
        OfDidInserted(s.keys, did, chosen, detail, d);
      }
      hide Insert, CredentialIdsDiffer, Registered;
      if kind.SecurityKey? {
        SyncElsewhere(s, s1, did);
        SyncTables(s1, did);
      } else {
        PasskeyKeepsPreference(s, did, chosen, credentialId);
        forall d | d != did
          ensures PreferenceOk(s1, d)
        {
          SameViewSound(s, s1, d);
        }
      }
    }
  }

  lemma SyncTables(s: State, did: string)
    ensures Sync(s, did).totp == s.totp && Sync(s, did).keys == s.keys
  {
  }

  lemma CheckKeeps(hmac: (seq<nat>, seq<nat>) -> seq<nat>, s: State, did: string, code: string, nowMs: int)
    requires IsHmac(hmac) && Sound(s)
    ensures Sound(CheckStep(hmac, s, did, code, nowMs))
  {
    hide AcceptedBy, PreferenceOk, IdsRise, NamesDiffer, Capped, CredentialIdsDiffer, MarkUsed;
    var accepted := AcceptedBy(hmac, OfDid(s.totp.rows, did), code, nowMs);
    if accepted.Some? {
      var id, counter := accepted.value.id, accepted.value.counter;
      MarkKeepsTable(s.totp, id, counter);
      var s1 := CheckStep(hmac, s, did, code, nowMs);
      forall d
        ensures PreferenceOk(s1, d)
      {
        MarkedKeepsView(s.totp.rows, id, counter, d);
        SameViewSound(s, s1, d);
      }
    }
  }

  lemma OpenKeeps(hmac: (seq<nat>, seq<nat>) -> seq<nat>, s: State, did: string)
    requires IsHmac(hmac) && Sound(s) && Enabled(s, OpenAccount(did))
    ensures Sound(Step(hmac, s, OpenAccount(did)))
  {
    hide IdsRise, NamesDiffer, Capped, CredentialIdsDiffer;
    var s1 := Step(hmac, s, OpenAccount(did));
    forall d
      ensures PreferenceOk(s1, d)
    {
      if d != did {
        SameViewSound(s, s1, d);
      }
    }
  }

  lemma StepKeeps(hmac: (seq<nat>, seq<nat>) -> seq<nat>, s: State, a: Action)
    requires IsHmac(hmac) && Sound(s) && Enabled(s, a)
    ensures Sound(Step(hmac, s, a))
  {
    hide Sound, AddTotpStep, AddKeyStep, CheckStep, Sync, Enabled;
    match a
    case OpenAccount(did) => OpenKeeps(hmac, s, did);
    case AddTotp(did, name, secret, counter) => AddTotpKeeps(s, did, name, secret, counter);
    case DropTotp(did, id) => DropTotpKeeps(s, did, id);
    case AddKey(did, kind, name, credentialId) => AddKeyKeeps(s, did, kind, name, credentialId);
    case DropKey(did, id) => DropKeyKeeps(s, did, id);
    case Check(did, code, nowMs) => CheckKeeps(hmac, s, did, code, nowMs);
  }

  lemma {:induction false} SoundnessKept(hmac: (seq<nat>, seq<nat>) -> seq<nat>, s: State, actions: seq<Action>)
    requires IsHmac(hmac) && Sound(s) && Possible(hmac, s, actions)
    ensures Sound(Run(hmac, s, actions))
    decreases |actions|
  {
    hide Sound, Step, Enabled;
    if actions != [] {
      StepKeeps(hmac, s, actions[0]);
      SoundnessKept(hmac, Step(hmac, s, actions[0]), actions[1..]);
    }
  }

  lemma StartIsSound()
    ensures Sound(Start())
  {
    var s := Start();
    forall did
      ensures |OfDid(s.totp.rows, did)| == 0 && |OfDid(s.keys.rows, did)| == 0
    {
    }
  }

  /**
   * In every run from empty tables a set preference names a kind the account holds, it is set
   * whenever the account holds an authenticator or a security key, the caps hold, and names and ids
   * never clash.
   */
  lemma RunIsSound(hmac: (seq<nat>, seq<nat>) -> seq<nat>, actions: seq<Action>)
    requires IsHmac(hmac) && Possible(hmac, Start(), actions)
    ensures var s := Run(hmac, Start(), actions);
            && (forall did :: did in s.accounts && s.accounts[did].Some? ==> Holds(s, did, s.accounts[did].value))
            && (forall did :: did in s.accounts && (Holds(s, did, Totp) || HasSecurityKey(s, did)) ==> s.accounts[did].Some?)
            && (forall did :: |OfDid(s.totp.rows, did)| <= MAX_TOTP_CREDENTIALS)
            && (forall did :: |OfDid(s.keys.rows, did)| <= MAX_WEBAUTHN_CREDENTIALS)
            && NamesDiffer(s.totp) && NamesDiffer(s.keys) && CredentialIdsDiffer(s.keys.rows)
    ensures Sound(Run(hmac, Start(), actions))
  {
    hide Sound, Start, Run, Possible;
    StartIsSound();
    SoundnessKept(hmac, Start(), actions);
    SoundSays(Run(hmac, Start(), actions));
  }

  lemma SoundSays(s: State)
    requires Sound(s)
    ensures forall did :: did in s.accounts && s.accounts[did].Some? ==> Holds(s, did, s.accounts[did].value)
    ensures forall did :: did in s.accounts && (Holds(s, did, Totp) || HasSecurityKey(s, did)) ==> s.accounts[did].Some?
    ensures forall did :: |OfDid(s.totp.rows, did)| <= MAX_TOTP_CREDENTIALS
    ensures forall did :: |OfDid(s.keys.rows, did)| <= MAX_WEBAUTHN_CREDENTIALS
    ensures NamesDiffer(s.totp) && NamesDiffer(s.keys) && CredentialIdsDiffer(s.keys.rows)
  {
    hide Holds, HasSecurityKey, OfDid, NamesDiffer, CredentialIdsDiffer, IdsRise;
    forall did | did in s.accounts
      ensures s.accounts[did].Some? ==> Holds(s, did, s.accounts[did].value)
      ensures Holds(s, did, Totp) || HasSecurityKey(s, did) ==> s.accounts[did].Some?
    {
      assert PreferenceOk(s, did);
    }
  }
}
