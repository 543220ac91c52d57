/**
 * Second factors (accounts/mfa.ts): the credential tables, the preferred method kept beside them,
 * and the one-time codes they accept, as a state machine.
 */
module Mfa {
  import opened Common
  import opened Credentials
  import opened Hotp
  import opened Naming

  const MAX_TOTP_CREDENTIALS: nat := 5
  const MAX_WEBAUTHN_CREDENTIALS: nat := 10

  datatype PreferredMfa = Totp | WebAuthn
  datatype KeyType = SecurityKey | Passkey
  datatype Authenticator = Authenticator(secret: seq<nat>, lastUsed: int)
  datatype Key = Key(kind: KeyType, credentialId: string)

  datatype State = State(accounts: map<string, Option<PreferredMfa>>, totp: Table<Authenticator>, keys: Table<Key>)

  datatype Refusal = TooManyTotpCredentials | DuplicateTotpName |
                     TooManyWebAuthnCredentials | DuplicateWebAuthnName | DuplicateCredentialId

  // ---------------------------------------------------------------------------------
  // Names

  function Names<D(==)>(rows: seq<Row<D>>): (r: set<string>) {
    set row | row in rows :: row.name
  }

  const BASE_NAME: string := "Authenticator"

  function TotpName(rows: seq<Row<Authenticator>>, did: string): (r: string) {
    var existing := OfDid(rows, did);
    if existing == [] then BASE_NAME else Numbered(BASE_NAME, FirstFree(Names(existing), BASE_NAME, 2))
  }

  /**
   * A generated name is not in use by the account: the plain name if it has no credential, else the
   * one with the least free number from 2 on.
   */
  lemma TotpNameIsFree(rows: seq<Row<Authenticator>>, did: string)
    ensures !NameTaken(rows, did, TotpName(rows, did))
    ensures (forall i :: 0 <= i < |rows| ==> rows[i].did != did) ==> TotpName(rows, did) == "Authenticator"
    ensures (exists i :: 0 <= i < |rows| && rows[i].did == did) ==>
              exists k: nat :: k >= 2 && TotpName(rows, did) == Numbered("Authenticator", k)
                               && forall j: nat :: 2 <= j < k ==> NameTaken(rows, did, Numbered("Authenticator", j))
  {
    OfDidMembers(rows, did);
    var existing := OfDid(rows, did);
    FirstFreeIsFree(Names(existing), BASE_NAME, 2);
    forall i | 0 <= i < |rows| && rows[i].did == did
      ensures rows[i].name != TotpName(rows, did)
    {
      assert rows[i] in rows;
      assert rows[i] in existing;
      assert rows[i].name in Names(existing);
    }
    assert existing != [] ==> existing[0] in existing && existing[0] in rows;
    if i :| 0 <= i < |rows| && rows[i].did == did {
      assert rows[i] in rows && rows[i] in existing;
      var k := FirstFree(Names(existing), BASE_NAME, 2);
      forall j: nat | 2 <= j < k
        ensures NameTaken(rows, did, Numbered(BASE_NAME, j))
      {
        assert Numbered(BASE_NAME, j) in Names(existing);
        var row :| row in existing && row.name == Numbered(BASE_NAME, j);
        assert row in rows && row.did == did;
      }
    }
  }

  // ---------------------------------------------------------------------------------
  // The preferred method

  predicate Holds(s: State, did: string, kind: PreferredMfa) {
    match kind
    case Totp => OfDid(s.totp.rows, did) != []
    case WebAuthn => OfDid(s.keys.rows, did) != []
  }

  predicate HasSecurityKey(s: State, did: string) {
    exists i :: 0 <= i < |OfDid(s.keys.rows, did)| && OfDid(s.keys.rows, did)[i].detail.kind.SecurityKey?
  }

  /** A preference still backed by a credential stays; otherwise the first kind held, TOTP first. */
  function Preferred(current: Option<PreferredMfa>, hasTotp: bool, hasWebAuthn: bool): (r: Option<PreferredMfa>) {
    if (current == Some(Totp) && hasTotp) || (current == Some(WebAuthn) && hasWebAuthn) then current
    else if hasTotp then Some(Totp)
    else if hasWebAuthn then Some(WebAuthn)
    else None
  }

  function Sync(s: State, did: string): (r: State) {
    if did !in s.accounts then s
    else s.(accounts := s.accounts[did := Preferred(s.accounts[did], Holds(s, did, Totp), Holds(s, did, WebAuthn))])
  }

  // ---------------------------------------------------------------------------------
  // Codes

  datatype Acceptance = Acceptance(id: nat, counter: int)

  /** The first of the credentials, in order, that accepts the code, with the counter it matched. */
  function AcceptedBy(
    hmac: (seq<nat>, seq<nat>) -> seq<nat>, rows: seq<Row<Authenticator>>, code: string, nowMs: int)
    : (r: Option<Acceptance>)
    requires IsHmac(hmac)
  {
    if rows == [] then None
    else
      match Verify(hmac, rows[0].detail.secret, code, Some(rows[0].detail.lastUsed), nowMs)
      case Some(counter) => Some(Acceptance(rows[0].id, counter))
      case None => AcceptedBy(hmac, rows[1..], code, nowMs)
  }

  /** UPDATE SET last_used_counter WHERE id = ?. */
  function MarkUsed(rows: seq<Row<Authenticator>>, id: nat, counter: int): (r: seq<Row<Authenticator>>)
    ensures |r| == |rows|
    ensures forall i :: 0 <= i < |rows| ==>
                          r[i] == if rows[i].id != id then rows[i]
                                  else rows[i].(detail := rows[i].detail.(lastUsed := counter))
  {
    if rows == [] then []
    else [if rows[0].id == id then rows[0].(detail := rows[0].detail.(lastUsed := counter)) else rows[0]]
         + MarkUsed(rows[1..], id, counter)
  }

  // ---------------------------------------------------------------------------------
  // Steps

  datatype Action =
    | OpenAccount(did: string)
    | AddTotp(did: string, name: string, secret: seq<nat>, counter: int)
    | DropTotp(did: string, id: nat)
    | AddKey(did: string, kind: KeyType, name: string, credentialId: string)
    | DropKey(did: string, id: nat)
    | Check(did: string, code: string, nowMs: int)

  /** An account starts with no preference and, being new, no credentials. */
  predicate Enabled(s: State, a: Action) {
    a.OpenAccount? ==> a.did !in s.accounts && OfDid(s.totp.rows, a.did) == [] && OfDid(s.keys.rows, a.did) == []
  }

  /** The name an authenticator gets: the trimmed one given, or a generated one. */
  function ChosenTotpName(s: State, did: string, name: string): (r: string) {
    if Trim(name) != "" then Trim(name) else TotpName(s.totp.rows, did)
  }

  function TotpRefusal(s: State, did: string, name: string): (r: Option<Refusal>) {
    if |OfDid(s.totp.rows, did)| >= MAX_TOTP_CREDENTIALS then Some(TooManyTotpCredentials)
    else if NameTaken(s.totp.rows, did, ChosenTotpName(s, did, name)) then Some(DuplicateTotpName)
    else None
  }

  predicate Registered(rows: seq<Row<Key>>, credentialId: string) {
    exists i :: 0 <= i < |rows| && rows[i].detail.credentialId == credentialId
  }

  function OfKind(rows: seq<Row<Key>>, kind: KeyType): (r: seq<Row<Key>>) {
    if rows == [] then []
    else (if rows[0].detail.kind == kind then [rows[0]] else []) + OfKind(rows[1..], kind)
  }

  /** Names are generated from those of one kind only, so a generated one can still be taken. */
  function KeyName(rows: seq<Row<Key>>, did: string, kind: KeyType): (r: string) {
    var existing := OfKind(OfDid(rows, did), kind);
    var base := if kind.SecurityKey? then "Security Key" else "Passkey";
    if existing == [] then base else Numbered(base, FirstFree(Names(existing), base, 2))
  }

  lemma {:induction false} OfKindMembers(rows: seq<Row<Key>>, kind: KeyType, r: Row<Key>)
    ensures r in OfKind(rows, kind) <==> r in rows && r.detail.kind == kind
    decreases |rows|
  {
    if rows != [] {
      OfKindMembers(rows[1..], kind, r);
      assert rows == [rows[0]] + rows[1..];
    }
  }

  /** A generated name is not that of another key of the same kind; the plain one is for the first of its kind. */
  lemma KeyNameIsFreeInKind(rows: seq<Row<Key>>, did: string, kind: KeyType)
    ensures forall r :: r in rows && r.did == did && r.detail.kind == kind ==> r.name != KeyName(rows, did, kind)
    ensures (forall r :: r in rows && r.did == did ==> r.detail.kind != kind) ==>
              KeyName(rows, did, kind) == if kind.SecurityKey? then "Security Key" else "Passkey"
  {
    OfDidMembers(rows, did);
    var mine := OfDid(rows, did);
    var existing := OfKind(mine, kind);
    var base := if kind.SecurityKey? then "Security Key" else "Passkey";
    FirstFreeIsFree(Names(existing), base, 2);
    if existing != [] {
      OfKindMembers(mine, kind, existing[0]);
      assert existing[0] in existing;
    }
    forall r | r in rows && r.did == did && r.detail.kind == kind
      ensures r.name != KeyName(rows, did, kind)
    {
      OfKindMembers(mine, kind, r);
      assert r.name in Names(existing);
    }
  }

  function ChosenKeyName(s: State, did: string, kind: KeyType, name: string): (r: string) {
    if Trim(name) != "" then Trim(name) else KeyName(s.keys.rows, did, kind)
  }

  function KeyRefusal(s: State, did: string, kind: KeyType, name: string, credentialId: string): (r: Option<Refusal>) {
    if |OfDid(s.keys.rows, did)| >= MAX_WEBAUTHN_CREDENTIALS then Some(TooManyWebAuthnCredentials)
    else if NameTaken(s.keys.rows, did, ChosenKeyName(s, did, kind, name)) then Some(DuplicateWebAuthnName)
    else if Registered(s.keys.rows, credentialId) then Some(DuplicateCredentialId)
    else None
  }

  function AddTotpStep(s: State, did: string, name: string, secret: seq<nat>, counter: int): (r: State) {
    if TotpRefusal(s, did, name).Some? then s
    else Sync(s.(totp := Insert(s.totp, did, ChosenTotpName(s, did, name), Authenticator(secret, counter))), did)
  }

  /** Only a security key makes WebAuthn eligible; a passkey leaves the preference alone. */
  function AddKeyStep(s: State, did: string, kind: KeyType, name: string, credentialId: string): (r: State) {
    if KeyRefusal(s, did, kind, name, credentialId).Some? then s
    else
      var s1 := s.(keys := Insert(s.keys, did, ChosenKeyName(s, did, kind, name), Key(kind, credentialId)));
      if kind.SecurityKey? then Sync(s1, did) else s1
  }

  function CheckStep(hmac: (seq<nat>, seq<nat>) -> seq<nat>, s: State, did: string, code: string, nowMs: int): (r: State)
    requires IsHmac(hmac)
  {
    match AcceptedBy(hmac, OfDid(s.totp.rows, did), code, nowMs)
    case Some(a) => s.(totp := s.totp.(rows := MarkUsed(s.totp.rows, a.id, a.counter)))
    case None => s
  }

  function Step(hmac: (seq<nat>, seq<nat>) -> seq<nat>, s: State, a: Action): (r: State)
    requires IsHmac(hmac)
  {
    match a
    case OpenAccount(did) => s.(accounts := s.accounts[did := None])
    case AddTotp(did, name, secret, counter) => AddTotpStep(s, did, name, secret, counter)
    case DropTotp(did, id) => Sync(s.(totp := Delete(s.totp, did, id)), did)
    case AddKey(did, kind, name, credentialId) => AddKeyStep(s, did, kind, name, credentialId)
    case DropKey(did, id) => Sync(s.(keys := Delete(s.keys, did, id)), did)
    case Check(did, code, nowMs) => CheckStep(hmac, s, did, code, nowMs)
  }

  function Start(): (r: State) {
    State(map[], Table([], 1), Table([], 1))
  }

  ghost predicate Possible(hmac: (seq<nat>, seq<nat>) -> seq<nat>, s: State, actions: seq<Action>)
    requires IsHmac(hmac)
    decreases |actions|
  {
    actions == [] || (Enabled(s, actions[0]) && Possible(hmac, Step(hmac, s, actions[0]), actions[1..]))
  }

  function Run(hmac: (seq<nat>, seq<nat>) -> seq<nat>, s: State, actions: seq<Action>): (r: State)
    requires IsHmac(hmac)
    decreases |actions|
  {
    if actions == [] then s else Run(hmac, Step(hmac, s, actions[0]), actions[1..])
  }
}
