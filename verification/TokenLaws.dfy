/** What each token operation does to the tokens there are: which are accepted afterwards, and how long. */
module TokenLaws {

  import opened Tokens

  // ---- What every run keeps ---------------------------------------------------------------------

  /** Nonces and secrets still to come are unused, and no two payloads share a nonce. */
  ghost predicate Sane(s: State) {
    && s.secret < s.secrets
    && (forall i :: i in s.issued ==> i.payload.nonce < s.nonces && i.payload.secret < s.secrets)
    && (forall i, j :: i in s.issued && j in s.issued && i.payload.nonce == j.payload.nonce ==> i == j)
    && (forall n :: n in s.revoked ==> n < s.nonces)
  }

  lemma GenerateSane(s: State, kind: Kind, expirySecs: int, deviceID: string)
    requires Sane(s)
    ensures Sane(Generate(s, kind, expirySecs, deviceID))
  {
  }

  lemma PairSane(s: State, deviceID: string)
    requires Sane(s)
    ensures Sane(GeneratePair(s, deviceID))
  {
    GenerateSane(s, Access, ACCESS_EXPIRY, deviceID);
    GenerateSane(Generate(s, Access, ACCESS_EXPIRY, deviceID), Refresh, REFRESH_EXPIRY, deviceID);
  }

  lemma ApplySane(s: State, op: Op)
    requires Sane(s)
    ensures Sane(Apply(s, op))
  {
    match op
    case Issuing(kind, expirySecs, deviceID) => GenerateSane(s, kind, expirySecs, deviceID);
    case Refreshing(t) => PairSane(s, t.payload.deviceID);
    case Exchanging(t, deviceID) => PairSane(s, deviceID);
    case _ =>
  }

  /** Over every run. */
  lemma {:induction false} RunSane(serverID: string, ops: seq<Op>)
    ensures Sane(Run(serverID, ops))
  {
    if ops != [] {
      RunSane(serverID, ops[..|ops| - 1]);
      ApplySane(Run(serverID, ops[..|ops| - 1]), ops[|ops| - 1]);
    }
  }

  /** Which verdict a token gets, in every run: only what was issued under the secret in use can pass; then
      the prefix, the revocation list and the clock decide, in this order. */
  lemma {:induction false} VerdictMeans(serverID: string, ops: seq<Op>, t: Token)
    ensures var s, p := Run(serverID, ops), t.payload;
            var genuine := Issued(s, p) && p.secret == s.secret;
            var wellFormed := genuine && RightPrefix(t.prefix, p.kind);
            && (Validate(s, t) == InvalidToken <==> !genuine)
            && (Validate(s, t) == InvalidFormat <==> genuine && !wellFormed)
            && (Validate(s, t) == Revoked <==> wellFormed && p.nonce in s.revoked)
            && (Validate(s, t) == Expired
                <==> wellFormed && p.nonce !in s.revoked && s.now / 1_000_000_000 > p.expiresAt)
            && (Validate(s, t) == Valid
                <==> wellFormed && p.nonce !in s.revoked && s.now / 1_000_000_000 <= p.expiresAt)
  {
    var s, p := Run(serverID, ops), t.payload;
    if Issued(s, p) {
      IssuedHere(serverID, ops);
      var at :| Issue(p, at) in s.issued;
      assert Issue(p, at).payload.serverID == serverID;
    }
  }

  // ---- Issuing ------------------------------------------------------------------------------------

  /** One more payload is signed, with all it should say: its lifetime in whole seconds from now, and a
      nonce that no other has and that is not revoked. */
  lemma IssuingMeans(s: State, kind: Kind, expirySecs: int, deviceID: string)
    requires Sane(s)
    ensures var p := NewToken(s, kind, expirySecs, deviceID).payload;
            && RightPrefix(NewToken(s, kind, expirySecs, deviceID).prefix, kind)
            && p.kind == kind && p.serverID == s.serverID && p.deviceID == deviceID && p.secret == s.secret
            && p.expiresAt == s.now / 1_000_000_000 + expirySecs
            && p.nonce !in s.revoked && (forall i :: i in s.issued ==> i.payload.nonce != p.nonce)
            && Apply(s, Issuing(kind, expirySecs, deviceID)).issued == s.issued + {Issue(p, s.now)}
  {
    SecondsAdd(s.now, expirySecs);
  }

  /** The two tokens of a pair: the access token is accepted for 15 minutes, the refresh token for 7 days,
      both to the end of that second. */
  lemma PairLives(s: State, deviceID: string, elapsed: nat)
    requires Sane(s)
    ensures var u := GeneratePair(s, deviceID).(now := s.now + elapsed);
            var start, end := s.now / 1_000_000_000, (s.now + elapsed) / 1_000_000_000;
            && (Accepted(u, Token(SessionPrefix, Payload(Access, s.serverID, start + 15 * 60, s.nonces, deviceID, s.secret)))
                <==> end <= start + 15 * 60)
            && (Accepted(u, Token(RefreshPrefix,
                                  Payload(Refresh, s.serverID, start + 7 * 24 * 3600, s.nonces + 1, deviceID, s.secret)))
                <==> end <= start + 7 * 24 * 3600)
  {
    var s1 := Generate(s, Access, ACCESS_EXPIRY, deviceID);
    SecondsAdd(s.now, ACCESS_EXPIRY);
    SecondsAdd(s.now, REFRESH_EXPIRY);
    var access, refresh := NewPayload(s, Access, ACCESS_EXPIRY, deviceID), NewPayload(s1, Refresh, REFRESH_EXPIRY, deviceID);
    var u := GeneratePair(s, deviceID).(now := s.now + elapsed);
    assert Issue(access, s.now) in u.issued && Issue(refresh, s.now) in u.issued;
  }

  // ---- Revoking -------------------------------------------------------------------------------------

  ghost predicate JudgedAlike(s: State, u: State, t: Token) {
    Issued(u, t.payload) && Validate(u, t) == Validate(s, t)
  }

  /** The tokens with this nonce are refused, and no other token is judged differently. */
  ghost predicate Ends(s: State, u: State, nonce: nat) {
    && (forall t: Token :: t.payload.nonce == nonce ==> !Accepted(u, t))
    && (forall t: Token :: Issued(s, t.payload) && t.payload.nonce != nonce ==> JudgedAlike(s, u, t))
  }

  lemma RevokeEnds(s: State, nonce: nat)
    ensures Ends(s, Revoke(s, nonce), nonce)
  {
    var u := Revoke(s, nonce);
    forall t: Token | Issued(s, t.payload) && t.payload.nonce != nonce ensures JudgedAlike(s, u, t) {
      var at :| Issue(t.payload, at) in s.issued;
      assert Issue(t.payload, at) in u.issued;
    }
  }

  /** Revoking a nonce ends what carries it, now and for good by the finality of refusals; an empty one
      changes nothing. */
  lemma RevokingNonceMeans(s: State, nonce: nat)
    ensures Ends(s, Apply(s, RevokingNonce(GivenNonce(nonce))), nonce)
    ensures Apply(s, RevokingNonce(EmptyNonce)) == s
  {
    RevokeEnds(s, nonce);
  }

  /** Revoking a token works on any genuine one, expired or already revoked, and on nothing else. */
  lemma RevokingMeans(s: State, t: Token)
    ensures Issued(s, t.payload) && t.payload.secret == s.secret && t.payload.serverID == s.serverID
            && RightPrefix(t.prefix, t.payload.kind)
            ==> Ends(s, Apply(s, Revoking(t)), t.payload.nonce)
    ensures !(Issued(s, t.payload) && t.payload.secret == s.secret && t.payload.serverID == s.serverID
              && RightPrefix(t.prefix, t.payload.kind))
            ==> Apply(s, Revoking(t)) == s
  {
    RevokeEnds(s, t.payload.nonce);
  }

  /** Revoking all ends every token issued so far, under any prefix, once the new secret is saved; when it
      cannot be saved nothing changes. */
  lemma RevokingAllMeans(s: State, t: Token)
    requires Sane(s)
    ensures Issued(s, t.payload) ==> var u := Apply(s, RevokingAll(true)); Issued(u, t.payload) && !Accepted(u, t)
    ensures Apply(s, RevokingAll(false)) == s
  {
    var u := Apply(s, RevokingAll(true));
    if Issued(s, t.payload) {
      var at :| Issue(t.payload, at) in s.issued;
      assert Issue(t.payload, at) in u.issued;
      assert Issue(t.payload, at).payload.secret < s.secrets;
    }
  }

  /** And for good: in every run, nothing issued before a saved revoke-all is accepted at any time after it. */
  lemma NothingSurvivesRevokeAll(serverID: string, longest: int, before: seq<Op>, after: seq<Op>, t: Token)
    requires longest >= 7 * 24 * 3600
    requires forall op :: op in before + after ==> Cautious(op, longest)
    requires Issued(Run(serverID, before), t.payload)
    ensures !Accepted(Exec(Run(serverID, before + [RevokingAll(true)]), after), t)
  {
    RunSane(serverID, before);
    RevokingAllMeans(Run(serverID, before), t);
    var to := before + [RevokingAll(true)];
    assert to[..|before|] == before;
    forall op | op in to + after ensures Cautious(op, longest) {
      assert op in before + after || op == RevokingAll(true);
    }
    RefusalIsFinal(serverID, longest, to, after, t);
  }

  /** A cleanup keeps exactly the revocations that are not older than the given age. */
  lemma CleaningUpMeans(s: State, maxAge: int, n: nat)
    ensures var u := Apply(s, CleaningUp(maxAge));
            && (n in u.revoked <==> n in s.revoked && s.now - s.revoked[n] <= maxAge)
            && (n in u.revoked ==> u.revoked[n] == s.revoked[n])
            && u == s.(revoked := u.revoked)
  {
  }

  // ---- Buying a pair ----------------------------------------------------------------------------------

  /** A new pair for this device is accepted, the token that bought it is not, and no other changes. */
  ghost predicate Buys(s: State, u: State, t: Token, deviceID: string) {
    && Ends(s, u, t.payload.nonce)
    && u.now == s.now && u.secret == s.secret
    && Accepted(u, Token(SessionPrefix, Payload(Access, s.serverID, s.now / 1_000_000_000 + 15 * 60, s.nonces, deviceID, s.secret)))
    && Accepted(u, Token(RefreshPrefix,
                         Payload(Refresh, s.serverID, s.now / 1_000_000_000 + 7 * 24 * 3600, s.nonces + 1, deviceID, s.secret)))
  }

  lemma PairAdds(s: State, deviceID: string, t: Token)
    requires Issued(s, t.payload)
    ensures var u := GeneratePair(s, deviceID); Issued(u, t.payload) && Validate(u, t) == Validate(s, t)
  {
    var at :| Issue(t.payload, at) in s.issued;
    assert Issue(t.payload, at) in GeneratePair(s, deviceID).issued;
  }

  lemma Recorded(u: State, exchanged: seq<Payload>, t: Token)
    ensures Validate(u.(exchanged := exchanged), t) == Validate(u, t)
    ensures Issued(u.(exchanged := exchanged), t.payload) == Issued(u, t.payload)
  {
    var v := u.(exchanged := exchanged);
    assert forall at :: Issue(t.payload, at) in v.issued <==> Issue(t.payload, at) in u.issued;
  }

  lemma BuyingEnds(s: State, t: Token, deviceID: string, exchanged: seq<Payload>)
    ensures Ends(s, Revoke(GeneratePair(s, deviceID), t.payload.nonce).(exchanged := exchanged), t.payload.nonce)
  {
    var paired := GeneratePair(s, deviceID);
    var u := Revoke(paired, t.payload.nonce);
    RevokeEnds(paired, t.payload.nonce);
    forall v: Token ensures Validate(u.(exchanged := exchanged), v) == Validate(u, v)
                     && Issued(u.(exchanged := exchanged), v.payload) == Issued(u, v.payload) {
      Recorded(u, exchanged, v);
    }
    forall v: Token | Issued(s, v.payload) && v.payload.nonce != t.payload.nonce ensures JudgedAlike(s, u, v) {
      PairAdds(s, deviceID, v);
    }
  }

  lemma BuyingMeans(s: State, t: Token, deviceID: string, exchanged: seq<Payload>)
    requires Sane(s) && Issued(s, t.payload)
    ensures Buys(s, Revoke(GeneratePair(s, deviceID), t.payload.nonce).(exchanged := exchanged), t, deviceID)
  {
    var paired := GeneratePair(s, deviceID);
    var at :| Issue(t.payload, at) in s.issued;
    assert Issue(t.payload, at).payload.nonce < s.nonces;
    BuyingEnds(s, t, deviceID, exchanged);
    PairLives(s, deviceID, 0);
    assert paired.(now := s.now + 0) == paired;
    var access := Token(SessionPrefix, Payload(Access, s.serverID, s.now / 1_000_000_000 + 15 * 60, s.nonces, deviceID, s.secret));
    var refresh := Token(RefreshPrefix,
                         Payload(Refresh, s.serverID, s.now / 1_000_000_000 + 7 * 24 * 3600, s.nonces + 1, deviceID, s.secret));
    StillAccepted(paired, t.payload.nonce, access, exchanged);
    StillAccepted(paired, t.payload.nonce, refresh, exchanged);
  }

  lemma StillAccepted(s: State, nonce: nat, t: Token, exchanged: seq<Payload>)
    requires Accepted(s, t) && t.payload.nonce != nonce
    ensures Accepted(Revoke(s, nonce).(exchanged := exchanged), t)
  {
    RevokeEnds(s, nonce);
    Recorded(Revoke(s, nonce), exchanged, t);
  }

  /** An accepted refresh token with a device buys a pair for that device; nothing else buys anything. */
  lemma RefreshingMeans(s: State, t: Token)
    requires Sane(s)
    ensures Accepted(s, t) && t.payload.kind == Refresh && t.payload.deviceID != ""
            ==> Buys(s, Apply(s, Refreshing(t)), t, t.payload.deviceID)
    ensures !(Accepted(s, t) && t.payload.kind == Refresh && t.payload.deviceID != "") ==> Apply(s, Refreshing(t)) == s
  {
    if Accepted(s, t) {
      BuyingMeans(s, t, t.payload.deviceID, s.exchanged + [t.payload]);
    }
  }

  /** An accepted pairing token buys a pair for the device just named; nothing else does. */
  lemma ExchangingMeans(s: State, t: Token, deviceID: string)
    requires Sane(s)
    ensures Accepted(s, t) && t.payload.kind == Pairing && deviceID != ""
            ==> Buys(s, Apply(s, Exchanging(t, deviceID)), t, deviceID)
    ensures !(Accepted(s, t) && t.payload.kind == Pairing && deviceID != "") ==> Apply(s, Exchanging(t, deviceID)) == s
  {
    if Accepted(s, t) {
      BuyingMeans(s, t, deviceID, s.exchanged + [t.payload]);
    }
  }
}
