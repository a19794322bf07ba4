/**
  The login handlers that finish a pending login, one request at a time: what each leaves in the tables.

  `LoginSessions` lets their statements interleave; here a handler runs to its end.
*/
module LoginHandlers {
  import opened LoginSessions
  import opened MfaFactors
  import opened Option
  import opened RecoveryCodes

  /** A recorded failure: one more attempt, and at the fifth the row goes. */
  function AfterFailure(rows: map<Token, Row>, token: Token): map<Token, Row>
    requires token in rows && rows[token].Pending?
  {
    var attempts := rows[token].attempts + 1;
    if attempts >= MAX_ATTEMPTS then rows - {token} else rows[token := rows[token].(attempts := attempts)]
  }

  class Store {
    var rows: map<Token, Row>
    var hashes: map<AdminId, seq<Hash>>
    var next: Token
    var requests: nat

    constructor ()
      ensures Valid() && rows == map[] && hashes == map[]
    {
      rows, hashes, next, requests := map[], map[], 0, 0;
    }

    /** No pending row has five recorded failures, and new tokens are new. */
    ghost predicate Valid()
      reads this
    {
      && (forall t | t in rows :: t < next)
      && (forall t | t in rows && rows[t].Pending? :: rows[t].attempts < MAX_ATTEMPTS)
    }

    predicate Resolves(token: Token, kind: Kind, now: Time)
      reads this
    {
      token in rows && rows[token].Pending? && rows[token].kind == kind && now < rows[token].expires
    }

    function Hashes(admin: AdminId): seq<Hash>
      reads this
    {
      if admin in hashes then hashes[admin] else []
    }

    method ConsumeRecoveryCode(admin: AdminId, code: string) returns (ok: bool)
      modifies this`hashes
      ensures ok == RecoveryCodes.Accepts(old(Hashes(admin)), admin, code)
      ensures Hashes(admin) == AfterUse(old(Hashes(admin)), admin, code)
      ensures forall other | other != admin :: Hashes(other) == old(Hashes(other))
    {
      var normalized := NormalizeRecoveryCode(code);
      if normalized == "" {
        return false;
      }
      var stored := Hashes(admin);
      var found: Option<Hash> := None;
      var k := 0;
      while k < |stored| && found.None?
        invariant k <= |stored|
        invariant found.None? ==> FirstMatch(stored, admin, normalized) == FirstMatch(stored[k..], admin, normalized)
        invariant found.Some? ==> FirstMatch(stored, admin, normalized) == found
        decreases |stored| - k, found.None?
      {
        if stored[k] == Salted(admin, normalized) || stored[k] == Legacy(normalized) {
          found := Some(stored[k]);
        } else {
          assert stored[k..][1..] == stored[k + 1..];
          k := k + 1;
        }
      }
      if found.None? {
        return false;
      }
      hashes := hashes[admin := RecoveryCodes.Removed(stored, found.value)];
      return true;
    }

    method RecordMFAFailure(token: Token) returns (attempts: Option<nat>)
      requires Valid()
      modifies this`rows
      ensures Valid()
      ensures attempts.Some? <==> token in old(rows) && old(rows)[token].Pending?
      ensures attempts.None? ==> rows == old(rows)
      ensures attempts.Some? ==>
                && attempts.value == old(rows)[token].attempts + 1
                && rows == AfterFailure(old(rows), token)
    {
      if token !in rows || !rows[token].Pending? {
        return None;
      }
      rows := rows[token := rows[token].(attempts := rows[token].attempts + 1)];
      attempts := Some(rows[token].attempts);
      if attempts.value >= MAX_ATTEMPTS {
        rows := rows - {token};
      }
    }

    method FinishMFALogin(admin: AdminId, token: Token, now: Time) returns (session: Option<Token>)
      requires Valid()
      modifies this
      ensures Valid() && hashes == old(hashes)
      ensures session.Some? <==> token in old(rows) && old(rows)[token].Pending?
      ensures session.None? ==> rows == old(rows)
      ensures session.Some? ==>
                && session.value !in old(rows)
                && rows == (old(rows) - {token})[session.value := Session(admin, now + SESSION_LIFE, old(requests), now)]
    {
      if token !in rows || !rows[token].Pending? {
        return None;
      }
      rows := rows - {token};
      session := Some(next);
      rows := rows[next := Session(admin, now + SESSION_LIFE, requests, now)];
      next, requests := next + 1, requests + 1;
    }

    /**
      A recovery code finishes exactly a live pending login of its own admin: the row and the code are used up and a
      session appears. A wrong code uses up nothing but one of the row's attempts.
    */
    method MFARecoveryCodeVerify(token: Token, code: string, now: Time) returns (session: Option<Token>)
      requires Valid()
      modifies this
      ensures Valid()
      ensures session.Some? <==>
                old(Resolves(token, Verify, now)) && RecoveryCodes.Accepts(old(Hashes(rows[token].admin)), old(rows[token].admin), code)
      ensures session.Some? ==>
                && session.value !in old(rows)
                && rows == (old(rows) - {token})
                     [session.value := Session(old(rows)[token].admin, now + SESSION_LIFE, old(requests), now)]
                && Hashes(old(rows)[token].admin) == AfterUse(old(Hashes(rows[token].admin)), old(rows[token].admin), code)
                && (forall admin | admin != old(rows)[token].admin :: Hashes(admin) == old(Hashes(admin)))
      ensures session.None? ==>
                && (forall admin :: Hashes(admin) == old(Hashes(admin)))
                && rows == if old(Resolves(token, Verify, now)) then AfterFailure(old(rows), token) else old(rows)
    {
      if !Resolves(token, Verify, now) {
        return None;
      }
      var admin := rows[token].admin;
      var ok := ConsumeRecoveryCode(admin, code);
      if !ok {
        var attempts := RecordMFAFailure(token);
        return None;
      }
      session := FinishMFALogin(admin, token, now);
    }

    /** The same for a factor whose verdict comes from outside: an authenticator code or a passkey assertion. */
    method MFAFactorVerify(token: Token, verdict: bool, now: Time) returns (session: Option<Token>)
      requires Valid()
      modifies this
      ensures Valid() && hashes == old(hashes)
      ensures session.Some? <==> old(Resolves(token, Verify, now)) && verdict
      ensures session.Some? ==>
                && session.value !in old(rows)
                && rows == (old(rows) - {token})
                     [session.value := Session(old(rows)[token].admin, now + SESSION_LIFE, old(requests), now)]
      ensures session.None? ==>
                rows == if old(Resolves(token, Verify, now)) then AfterFailure(old(rows), token) else old(rows)
    {
      if !Resolves(token, Verify, now) {
        return None;
      }
      var admin := rows[token].admin;
      if !verdict {
        var attempts := RecordMFAFailure(token);
        return None;
      }
      session := FinishMFALogin(admin, token, now);
    }
  }
}
