/** The token manager: one object whose secret and revocation list are replaced by its methods.

    `now`, `nonces` and `secrets` stand for the clock and the random source; `issued` stands for what
    a signature can prove, and `exchanged` records which tokens bought a pair. */
module TokenManagement {

  import opened Tokens

  datatype Bought =
    | Refusal
    | Pair(access: Token, refresh: Token)

  class TokenManager {
    const serverID: string
    var serverSecret: nat
    var revokedNonces: map<nat, int>

    var now: int
    var nonces: nat
    var secrets: nat
    var issued: set<Issue>
    ghost var exchanged: seq<Payload>

    ghost function Model(): State
      reads this
    {
      State(serverID, serverSecret, revokedNonces, now, nonces, secrets, issued, exchanged)
    }

    ghost predicate Valid()
      reads this
    {
      NoncesAhead(Model())
    }

    constructor (serverID: string)
      ensures Valid() && Model() == Fresh(serverID)
    {
      this.serverID, serverSecret, revokedNonces := serverID, 0, map[];
      now, nonces, secrets, issued, exchanged := 0, 0, 1, {}, [];
    }

    method Tick(elapsed: nat)
      requires Valid()
      modifies this
      ensures Valid() && Model() == Apply(old(Model()), Op.Tick(elapsed))
    {
      now := now + elapsed;
    }

    method SignatureMatches(t: Token) returns (genuine: bool)
      ensures genuine == Signed(Model(), t)
    {
      genuine := t.payload.secret == serverSecret && exists i :: i in issued && i.payload == t.payload;
      if genuine {
        ghost var i :| i in issued && i.payload == t.payload;
        assert Issue(t.payload, i.at) in Model().issued;
      }
      assert forall at :: Issue(t.payload, at) in issued ==> Issue(t.payload, at).payload == t.payload;
    }

    method ParseTokenPayload(t: Token) returns (v: Verdict)
      ensures v == Parse(Model(), t)
    {
      var genuine := SignatureMatches(t);
      if !genuine {
        return InvalidToken;
      }
      if t.payload.serverID != serverID {
        return InvalidToken;
      }
      var validType := match t.prefix
        case PairingPrefix => t.payload.kind == Pairing
        case SessionPrefix => t.payload.kind == Session || t.payload.kind == Access
        case RefreshPrefix => t.payload.kind == Refresh;
      if !validType {
        return InvalidFormat;
      }
      return Verdict.Valid;
    }

    method ValidateToken(t: Token) returns (v: Verdict)
      ensures v == Validate(Model(), t)
    {
      v := ParseTokenPayload(t);
      if v != Verdict.Valid {
        return;
      }
      if t.payload.nonce in revokedNonces {
        return Revoked;
      }
      if Seconds(now) > t.payload.expiresAt {
        return Expired;
      }
    }

    method GenerateToken(kind: Kind, expirySecs: int, deviceID: string) returns (t: Token)
      requires Valid()
      modifies this
      ensures Valid() && Model() == Generate(old(Model()), kind, expirySecs, deviceID)
      ensures t == NewToken(old(Model()), kind, expirySecs, deviceID)
    {
      var nonce := nonces;
      nonces := nonces + 1;
      var expiresAt := Seconds(now + expirySecs * SECOND);
      var payload := Payload(kind, serverID, expiresAt, nonce, deviceID, serverSecret);
      issued := issued + {Issue(payload, now)};
      t := Token(PrefixOf(kind), payload);
    }

    /** Both tokens are validated before they are handed out, and that never fails. */
    method GenerateTokenPairWithDeviceID(deviceID: string) returns (pair: Bought)
      requires Valid()
      modifies this
      ensures Valid()
      ensures deviceID == "" ==> pair == Refusal && Model() == old(Model())
      ensures deviceID != "" ==> Model() == GeneratePair(old(Model()), deviceID)
      ensures deviceID != "" ==> pair.Pair? && pair.access.payload.kind == Access && pair.refresh.payload.kind == Refresh
      ensures pair.Pair? ==> pair.access.payload.deviceID == deviceID && pair.refresh.payload.deviceID == deviceID
      ensures pair.Pair? ==> Accepted(Model(), pair.access) && Accepted(Model(), pair.refresh)
    {
      if deviceID == "" {
        return Refusal;
      }
      NewPairAccepted(Model(), deviceID);
      var access := GenerateToken(Access, ACCESS_EXPIRY, deviceID);
      var refresh := GenerateToken(Refresh, REFRESH_EXPIRY, deviceID);
      var accessVerdict := ValidateToken(access);
      if accessVerdict != Verdict.Valid {
        return Refusal;
      }
      var refreshVerdict := ValidateToken(refresh);
      if refreshVerdict != Verdict.Valid {
        return Refusal;
      }
      return Pair(access, refresh);
    }

    method RefreshTokenPair(t: Token) returns (pair: Bought)
      requires Valid()
      modifies this
      ensures Valid() && Model() == DoRefresh(old(Model()), t)
      ensures pair.Pair? <==> Accepted(old(Model()), t) && t.payload.kind == Refresh && t.payload.deviceID != ""
      ensures pair.Pair? ==> pair.access.payload.deviceID == pair.refresh.payload.deviceID == t.payload.deviceID
    {
      var verdict := ValidateToken(t);
      if verdict != Verdict.Valid || t.payload.kind != Refresh || t.payload.deviceID == "" {
        return Refusal;
      }
      pair := GenerateTokenPairWithDeviceID(t.payload.deviceID);
      MarkRevoked(t.payload.nonce);
      exchanged := exchanged + [t.payload];
    }

    /** `deviceID` is the device ID drawn for the new pair. */
    method ExchangePairingToken(t: Token, deviceID: string) returns (pair: Bought)
      requires Valid()
      modifies this
      ensures Valid() && Model() == DoExchange(old(Model()), t, deviceID)
      ensures pair.Pair? <==> Accepted(old(Model()), t) && t.payload.kind == Pairing && deviceID != ""
      ensures pair.Pair? ==> pair.access.payload.deviceID == deviceID && pair.refresh.payload.deviceID == deviceID
    {
      var verdict := ValidateToken(t);
      if verdict != Verdict.Valid || t.payload.kind != Pairing {
        return Refusal;
      }
      pair := GenerateTokenPairWithDeviceID(deviceID);
      if pair == Refusal {
        return;
      }
      MarkRevoked(t.payload.nonce);
      exchanged := exchanged + [t.payload];
    }

    method RevokeToken(t: Token) returns (v: Verdict)
      requires Valid()
      modifies this
      ensures Valid() && Model() == DoRevoke(old(Model()), t)
      ensures v == Parse(old(Model()), t)
    {
      v := ParseTokenPayload(t);
      if v == Verdict.Valid {
        MarkRevoked(t.payload.nonce);
      }
    }

    method RevokeTokenByNonce(nonce: GivenNonce)
      requires Valid()
      modifies this
      ensures Valid() && Model() == DoRevokeNonce(old(Model()), nonce)
    {
      if nonce == EmptyNonce {
        return;
      }
      MarkRevoked(nonce.number);
    }

    method MarkRevoked(nonce: nat)
      requires Valid()
      modifies this
      ensures Valid() && Model() == Revoke(old(Model()), nonce)
    {
      revokedNonces := revokedNonces[nonce := now];
      if nonce >= nonces {
        nonces := nonce + 1;
      }
    }

    /** `persisted` says whether the new secret could be saved. */
    method RevokeAllTokens(persisted: bool)
      requires Valid()
      modifies this
      ensures Valid() && Model() == DoRevokeAll(old(Model()), persisted)
    {
      if !persisted {
        return;
      }
      serverSecret := secrets;
      secrets := secrets + 1;
      revokedNonces := map[];
    }

    method CleanupExpiredRevocations(maxAge: int)
      requires Valid()
      modifies this
      ensures Valid() && Model() == DoCleanUp(old(Model()), maxAge)
    {
      var cutoff := now - maxAge;
      revokedNonces := DropOlder(revokedNonces, cutoff);
    }

    /** The loop over all revocations, in whatever order the map yields them. */
    static method DropOlder(revoked: map<nat, int>, cutoff: int) returns (kept: map<nat, int>)
      ensures kept == Kept(revoked, cutoff)
    {
      kept := revoked;
      var rest := revoked.Keys;
      while rest != {}
        invariant rest <= revoked.Keys
        invariant kept == map n | n in revoked && (n in rest || revoked[n] >= cutoff) :: revoked[n]
        decreases |rest|
      {
        var nonce :| nonce in rest;
        if revoked[nonce] < cutoff {
          kept := kept - {nonce};
        }
        rest := rest - {nonce};
      }
    }
  }
}
