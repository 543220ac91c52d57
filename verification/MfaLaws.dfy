/** What runs of the second-factor machine guarantee: a stable preference and codes that work once. */
module MfaLaws {
  import opened Common
  import opened Credentials
  import opened Hotp
  import opened Naming
  import opened Mfa
  import opened MfaProof

  // ---------------------------------------------------------------------------------
  // Preference and names

  /** A step of another account, or one without a sync, leaves a preference as it is. */
  lemma PreferenceAfterStep(hmac: (seq<nat>, seq<nat>) -> seq<nat>, s: State, a: Action, did: string)
    requires IsHmac(hmac) && Sound(s) && Enabled(s, a) && did in s.accounts
    ensures var s' := Step(hmac, s, a);
            && did in s'.accounts
            && (s'.accounts[did] == s.accounts[did] ||
                s'.accounts[did] == Preferred(s.accounts[did], Holds(s', did, Totp), Holds(s', did, WebAuthn)))
  {
    hide Sound, AcceptedBy, OfDid, TotpRefusal, KeyRefusal, ChosenTotpName, ChosenKeyName;
    hide Insert, Delete, MarkUsed, Preferred;
  }

  /**
   * A set preference stays as long as the account holds that kind; when the last credential of the
   * kind goes, the other kind takes over if it is held, and otherwise the preference is cleared.
   */
  lemma PreferenceIsStable(hmac: (seq<nat>, seq<nat>) -> seq<nat>, s: State, a: Action, did: string)
    requires IsHmac(hmac) && Sound(s) && Enabled(s, a) && did in s.accounts && s.accounts[did].Some?
    ensures did in Step(hmac, s, a).accounts
    ensures var s', p := Step(hmac, s, a), s.accounts[did].value;
            var other := if p.Totp? then WebAuthn else Totp;
            s'.accounts[did] == if Holds(s', did, p) then Some(p) else if Holds(s', did, other) then Some(other) else None
  {
    hide Step, Enabled, Holds, IdsRise, NamesDiffer, Capped, CredentialIdsDiffer;
    StepKeeps(hmac, s, a);
    PreferenceAfterStep(hmac, s, a, did);
    assert PreferenceOk(Step(hmac, s, a), did);
    assert s.accounts[did].value == Totp || s.accounts[did].value == WebAuthn;
  }

  /** Without a preference the kind just added becomes it, whatever passkeys the account holds. */
  lemma FirstCredentialDecides(s: State, did: string, name: string, secret: seq<nat>, counter: int, credentialId: string)
    requires Sound(s) && did in s.accounts && s.accounts[did].None?
    ensures TotpRefusal(s, did, name).None? ==> AddTotpStep(s, did, name, secret, counter).accounts[did] == Some(Totp)
    ensures KeyRefusal(s, did, SecurityKey, name, credentialId).None? ==>
              AddKeyStep(s, did, SecurityKey, name, credentialId).accounts[did] == Some(WebAuthn)
  {
    hide TotpRefusal, KeyRefusal, ChosenTotpName, ChosenKeyName, OfDid;
    hide IdsRise, NamesDiffer, Capped, CredentialIdsDiffer, HasSecurityKey;
    assert PreferenceOk(s, did);
    OfDidInserted(s.totp, did, ChosenTotpName(s, did, name), Authenticator(secret, counter), did);
    OfDidInserted(s.keys, did, ChosenKeyName(s, did, SecurityKey, name), Key(SecurityKey, credentialId), did);
  }

  /** With nothing but a passkey the account has a credential and still no preference. */
  lemma PasskeyAloneIsIgnored(s: State, did: string, name: string, credentialId: string)
    requires Sound(s) && did in s.accounts && OfDid(s.totp.rows, did) == [] && OfDid(s.keys.rows, did) == []
    requires KeyRefusal(s, did, Passkey, name, credentialId).None?
    ensures var s' := AddKeyStep(s, did, Passkey, name, credentialId);
            Holds(s', did, WebAuthn) && s'.accounts[did] == None
  {
    assert PreferenceOk(s, did);
    OfDidInserted(s.keys, did, ChosenKeyName(s, did, Passkey, name), Key(Passkey, credentialId), did);
  }

  /** Leaving the name out never leads to a clash: only the cap can refuse. */
  lemma GeneratedNamesAreAccepted(s: State, did: string, name: string)
    requires Trim(name) == ""
    ensures TotpRefusal(s, did, name).Some? <==> |OfDid(s.totp.rows, did)| >= MAX_TOTP_CREDENTIALS
  {
    TotpNameIsFree(s.totp.rows, did);
  }

  // ---------------------------------------------------------------------------------
  // One-time codes

  /** An unused counter whose 30-second step, or one next to it, is the present one, and whose code is the one given. */
  ghost predicate Accepts(
    hmac: (seq<nat>, seq<nat>) -> seq<nat>, row: Row<Authenticator>, code: string, nowMs: int, counter: int)
    requires IsHmac(hmac)
  {
    && (counter - 1) * 30_000 <= nowMs < (counter + 2) * 30_000
    && counter > row.detail.lastUsed
    && HotpCode(hmac, row.detail.secret, counter) == code
  }

  /** Every code made is six digits, so the format test turns nothing genuine away. */
  lemma CodesAreWellformed(hmac: (seq<nat>, seq<nat>) -> seq<nat>, secret: seq<nat>, counter: int)
    requires IsHmac(hmac)
    ensures IsTotpCode(HotpCode(hmac, secret, counter))
  {
  }

  /** One step either way of the present one, in time. */
  lemma WindowIsTime(nowMs: int, counter: int)
    ensures CurrentCounter(nowMs) - TIME_WINDOW <= counter <= CurrentCounter(nowMs) + TIME_WINDOW <==>
            (counter - 1) * 30_000 <= nowMs < (counter + 2) * 30_000
  {
    var c := CurrentCounter(nowMs);
    assert c * 30_000 <= nowMs < (c + 1) * 30_000;
  }

  lemma VerifyIsExact(hmac: (seq<nat>, seq<nat>) -> seq<nat>, row: Row<Authenticator>, code: string, nowMs: int)
    requires IsHmac(hmac)
    ensures var r := Verify(hmac, row.detail.secret, code, Some(row.detail.lastUsed), nowMs);
            && (r.Some? ==> Accepts(hmac, row, code, nowMs, r.value))
            && (r.None? ==> forall counter :: !Accepts(hmac, row, code, nowMs, counter))
  {
    hide HotpCode, CurrentCounter, FirstMatch, IsTotpCode;
    var current := CurrentCounter(nowMs);
    FirstMatchIsFirst(hmac, row.detail.secret, code, Some(row.detail.lastUsed), current - TIME_WINDOW, current + TIME_WINDOW);
    var r := Verify(hmac, row.detail.secret, code, Some(row.detail.lastUsed), nowMs);
    if r.Some? {
      WindowIsTime(nowMs, r.value);
    }
    forall counter | Accepts(hmac, row, code, nowMs, counter)
      ensures Verify(hmac, row.detail.secret, code, Some(row.detail.lastUsed), nowMs).Some?
    {
      CodesAreWellformed(hmac, row.detail.secret, counter);
      WindowIsTime(nowMs, counter);
      assert Unused(counter, Some(row.detail.lastUsed));
    }
  }

  /** A code is accepted exactly when some credential of the account has it at an unused counter in the window. */
  lemma {:induction false} AcceptanceIsExact(
    hmac: (seq<nat>, seq<nat>) -> seq<nat>, rows: seq<Row<Authenticator>>, code: string, nowMs: int)
    requires IsHmac(hmac)
    ensures var r := AcceptedBy(hmac, rows, code, nowMs);
            && (r.Some? ==> exists i :: 0 <= i < |rows| && rows[i].id == r.value.id
                                        && Accepts(hmac, rows[i], code, nowMs, r.value.counter))
            && (r.None? ==> forall i, counter :: 0 <= i < |rows| ==> !Accepts(hmac, rows[i], code, nowMs, counter))
    decreases |rows|
  {
    hide Verify, Accepts;
    if rows != [] {
      VerifyIsExact(hmac, rows[0], code, nowMs);
      AcceptanceIsExact(hmac, rows[1..], code, nowMs);
      forall i | 0 < i < |rows|
        ensures rows[i] == rows[1..][i - 1]
      {
      }
    }
  }

  /** What a run accepts, in order. */
  function Acceptances(hmac: (seq<nat>, seq<nat>) -> seq<nat>, s: State, actions: seq<Action>): (r: seq<Acceptance>)
    requires IsHmac(hmac)
    decreases |actions|
  {
    if actions == [] then []
    else AcceptedNow(hmac, s, actions[0]) + Acceptances(hmac, Step(hmac, s, actions[0]), actions[1..])
  }

  function AcceptedNow(hmac: (seq<nat>, seq<nat>) -> seq<nat>, s: State, a: Action): (r: seq<Acceptance>)
    requires IsHmac(hmac)
  {
    if !a.Check? then []
    else
      match AcceptedBy(hmac, OfDid(s.totp.rows, a.did), a.code, a.nowMs)
      case Some(acceptance) => [acceptance]
      case None => []
  }

  ghost predicate HasId(rows: seq<Row<Authenticator>>, id: nat) {
    exists i :: 0 <= i < |rows| && rows[i].id == id
  }

  /** The counter is above the stored one, and the id is not that of a deleted credential. */
  ghost predicate Ahead(t: Table<Authenticator>, a: Acceptance) {
    && (forall i :: 0 <= i < |t.rows| && t.rows[i].id == a.id ==> a.counter > t.rows[i].detail.lastUsed)
    && (a.id < t.next ==> HasId(t.rows, a.id))
  }

  /** Stored counters only rise, and deleted ids stay deleted. */
  ghost predicate Grows(t: Table<Authenticator>, t': Table<Authenticator>) {
    && t.next <= t'.next
    && (forall id: nat :: id < t.next && HasId(t'.rows, id) ==> HasId(t.rows, id))
    && forall i, j :: 0 <= i < |t.rows| && 0 <= j < |t'.rows| && t.rows[i].id == t'.rows[j].id ==>
                        t.rows[i].detail.lastUsed <= t'.rows[j].detail.lastUsed
  }

  lemma AheadOfEarlier(t: Table<Authenticator>, t': Table<Authenticator>, a: Acceptance)
    requires IdsRise(t) && Grows(t, t') && Ahead(t', a)
    ensures Ahead(t, a)
  {
    forall i | 0 <= i < |t.rows| && t.rows[i].id == a.id
      ensures a.counter > t.rows[i].detail.lastUsed
    {
      var j :| 0 <= j < |t'.rows| && t'.rows[j].id == a.id;
    }
  }

  lemma SubsetGrows(t: Table<Authenticator>, t': Table<Authenticator>)
    requires IdsRise(t) && t.next <= t'.next
    requires forall r :: r in t'.rows ==> r in t.rows || r.id >= t.next
    ensures Grows(t, t')
  {
    forall j | 0 <= j < |t'.rows| && t'.rows[j].id < t.next
      ensures exists i :: 0 <= i < |t.rows| && t.rows[i] == t'.rows[j]
    {
      assert t'.rows[j] in t'.rows;
    }
    forall id: nat | id < t.next && HasId(t'.rows, id)
      ensures HasId(t.rows, id)
    {
      var j :| 0 <= j < |t'.rows| && t'.rows[j].id == id;
      var i :| 0 <= i < |t.rows| && t.rows[i] == t'.rows[j];
    }
  }

  lemma DeleteGrows(t: Table<Authenticator>, did: string, id: nat)
    requires IdsRise(t)
    ensures Grows(t, Delete(t, did, id))
  {
    forall r | r in Without(t.rows, did, id)
      ensures r in t.rows
    {
      WithoutMember(t.rows, did, id, r);
    }
    SubsetGrows(t, Delete(t, did, id));
  }

  /** The credential that accepted now carries the counter, and no other row changed. */
  lemma CheckGrows(hmac: (seq<nat>, seq<nat>) -> seq<nat>, s: State, did: string, code: string, nowMs: int)
    requires IsHmac(hmac) && IdsRise(s.totp)
    ensures Grows(s.totp, CheckStep(hmac, s, did, code, nowMs).totp)
    ensures forall a :: AcceptedBy(hmac, OfDid(s.totp.rows, did), code, nowMs) == Some(a) ==>
                          && Ahead(s.totp, a)
                          && exists j :: 0 <= j < |CheckStep(hmac, s, did, code, nowMs).totp.rows|
                                         && CheckStep(hmac, s, did, code, nowMs).totp.rows[j].id == a.id
                                         && CheckStep(hmac, s, did, code, nowMs).totp.rows[j].detail.lastUsed == a.counter
  {
    hide AcceptedBy, HotpCode, CurrentCounter;
    var mine := OfDid(s.totp.rows, did);
    var accepted := AcceptedBy(hmac, mine, code, nowMs);
    AcceptanceIsExact(hmac, mine, code, nowMs);
    if accepted.Some? {
      var a := accepted.value;
      var i :| 0 <= i < |mine| && mine[i].id == a.id && Accepts(hmac, mine[i], code, nowMs, a.counter);
      OfDidMembers(s.totp.rows, did);
      assert mine[i] in mine;
      var k :| 0 <= k < |s.totp.rows| && s.totp.rows[k] == mine[i];
      MarkGrows(s.totp, k, a);
    }
  }

  lemma MarkGrows(t: Table<Authenticator>, k: nat, a: Acceptance)
    requires IdsRise(t) && k < |t.rows| && t.rows[k].id == a.id && a.counter > t.rows[k].detail.lastUsed
    ensures var t' := t.(rows := MarkUsed(t.rows, a.id, a.counter));
            && Grows(t, t') && Ahead(t, a)
            && t'.rows[k].id == a.id && t'.rows[k].detail.lastUsed == a.counter
  {
    var t' := t.(rows := MarkUsed(t.rows, a.id, a.counter));
    forall id | HasId(t'.rows, id)
      ensures HasId(t.rows, id)
    {
      var j :| 0 <= j < |t'.rows| && t'.rows[j].id == id;
      assert t.rows[j].id == id;
    }
  }

  lemma StepGrows(hmac: (seq<nat>, seq<nat>) -> seq<nat>, s: State, a: Action)
    requires IsHmac(hmac) && IdsRise(s.totp)
    ensures Grows(s.totp, Step(hmac, s, a).totp)
  {
    hide CheckStep, Grows, IdsRise, KeyRefusal, TotpRefusal, ChosenTotpName, ChosenKeyName, OfDid;
    match a
    case DropTotp(did, id) => DeleteGrows(s.totp, did, id);
    case Check(did, code, nowMs) => CheckGrows(hmac, s, did, code, nowMs);
    case _ => SubsetGrows(s.totp, Step(hmac, s, a).totp);
  }

  /** Every counter a run accepts for a credential is above the one stored for it when the run starts. */
  lemma {:induction false} AcceptedAreAhead(hmac: (seq<nat>, seq<nat>) -> seq<nat>, s: State, actions: seq<Action>)
    requires IsHmac(hmac) && Sound(s) && Possible(hmac, s, actions)
    ensures forall k :: 0 <= k < |Acceptances(hmac, s, actions)| ==> Ahead(s.totp, Acceptances(hmac, s, actions)[k])
    decreases |actions|
  {
    hide Step, Enabled, AcceptedBy, Ahead, Grows;
    if actions != [] {
      var a, s1 := actions[0], Step(hmac, s, actions[0]);
      var now, later := AcceptedNow(hmac, s, a), Acceptances(hmac, s1, actions[1..]);
      StepKeeps(hmac, s, a);
      AcceptedAreAhead(hmac, s1, actions[1..]);
      StepGrows(hmac, s, a);
      if a.Check? {
        CheckGrows(hmac, s, a.did, a.code, a.nowMs);
      }
      forall k | 0 <= k < |later|
        ensures Ahead(s.totp, later[k])
      {
        AheadOfEarlier(s.totp, s1.totp, later[k]);
      }
    }
  }

  /** Whatever is ahead of the state after an acceptance is ahead of that acceptance. */
  lemma AheadOfAccepted(hmac: (seq<nat>, seq<nat>) -> seq<nat>, s: State, a: Action, b: Acceptance)
    requires IsHmac(hmac) && IdsRise(s.totp)
    ensures AcceptedNow(hmac, s, a) != [] && Ahead(Step(hmac, s, a).totp, b) && b.id == AcceptedNow(hmac, s, a)[0].id ==>
              AcceptedNow(hmac, s, a)[0].counter < b.counter
  {
    hide AcceptedBy, Grows, MarkUsed;
    var now := AcceptedNow(hmac, s, a);
    if now != [] && Ahead(Step(hmac, s, a).totp, b) && b.id == now[0].id {
      CheckGrows(hmac, s, a.did, a.code, a.nowMs);
      hide CheckStep;
      var rows := Step(hmac, s, a).totp.rows;
      var j :| 0 <= j < |rows| && rows[j].id == b.id && rows[j].detail.lastUsed == now[0].counter;
    }
  }

  lemma SoundIdsRise(s: State)
    requires Sound(s)
    ensures IdsRise(s.totp)
  {
  }

  predicate Rising(log: seq<Acceptance>) {
    forall i, j :: 0 <= i < j < |log| && log[i].id == log[j].id ==> log[i].counter < log[j].counter
  }

  /** One-time use: over any sequential run the counters accepted for a credential strictly increase. */
  lemma {:induction false} CountersRise(hmac: (seq<nat>, seq<nat>) -> seq<nat>, s: State, actions: seq<Action>)
    requires IsHmac(hmac) && Sound(s) && Possible(hmac, s, actions)
    ensures Rising(Acceptances(hmac, s, actions))
    decreases |actions|
  {
    hide Enabled, Step, AcceptedBy, Ahead, Sound;
    if actions != [] {
      var a, s1 := actions[0], Step(hmac, s, actions[0]);
      var now, later := AcceptedNow(hmac, s, a), Acceptances(hmac, s1, actions[1..]);
      StepKeeps(hmac, s, a);
      CountersRise(hmac, s1, actions[1..]);
      AcceptedAreAhead(hmac, s1, actions[1..]);
      SoundIdsRise(s);
      forall k | 0 <= k < |later| && now != [] && later[k].id == now[0].id
        ensures now[0].counter < later[k].counter
      {
        AheadOfAccepted(hmac, s, a, later[k]);
      }
    }
  }

  /** The same from empty tables, for every run of the account database. */
  lemma CodesWorkOnce(hmac: (seq<nat>, seq<nat>) -> seq<nat>, actions: seq<Action>)
    requires IsHmac(hmac) && Possible(hmac, Start(), actions)
    ensures Rising(Acceptances(hmac, Start(), actions))
  {
    hide Sound, Acceptances, Rising;
    StartIsSound();
    CountersRise(hmac, Start(), actions);
  }

  /** The code a credential was enrolled with, and any older one, is never accepted for it. */
  lemma EnrolmentCodeIsSpent(
    hmac: (seq<nat>, seq<nat>) -> seq<nat>, s: State, did: string, name: string, secret: seq<nat>, counter: int,
    actions: seq<Action>, k: nat)
    requires IsHmac(hmac) && Sound(s) && TotpRefusal(s, did, name).None?
    requires var s1 := AddTotpStep(s, did, name, secret, counter);
             Possible(hmac, s1, actions) && k < |Acceptances(hmac, s1, actions)|
    ensures var a := Acceptances(hmac, AddTotpStep(s, did, name, secret, counter), actions)[k];
            a.id == s.totp.next ==> a.counter > counter
  {
    hide Acceptances, TotpRefusal, ChosenTotpName, Possible, IsHmac;
    var s1 := AddTotpStep(s, did, name, secret, counter);
    AddTotpKeeps(s, did, name, secret, counter);
    AcceptedAreAhead(hmac, s1, actions);
    var rows := s1.totp.rows;
    assert rows[|rows| - 1].id == s.totp.next && rows[|rows| - 1].detail.lastUsed == counter;
    assert Ahead(s1.totp, Acceptances(hmac, s1, actions)[k]);
  }
}
