/** Tokens, their revocation, and the clock.

    A signature is ideal: it verifies exactly when the manager itself issued that payload under the
    secret now in use.  It covers the payload only, so the prefix of a token is anyone's to choose.  Nonces
    and secrets are numbered, so a new one is always fresh.  The clock counts nanoseconds and never
    goes back; expiry is compared in whole seconds. */
module Tokens {

  const SECOND: int := 1_000_000_000
  const ACCESS_EXPIRY: int := 15 * 60
  const REFRESH_EXPIRY: int := 7 * 24 * 3600

  datatype Kind = Pairing | Session | Refresh | Access

  datatype Prefix = PairingPrefix | SessionPrefix | RefreshPrefix

  /** `secret` is the one it is signed with. */
  datatype Payload = Payload(kind: Kind, serverID: string, expiresAt: int, nonce: nat, deviceID: string, secret: nat)

  datatype Token = Token(prefix: Prefix, payload: Payload)

  datatype Issue = Issue(payload: Payload, at: int)

  /** `issued` and `exchanged` are history: what was signed and when, and the payloads of the tokens
      that bought a pair. */
  datatype State = State(serverID: string, secret: nat, revoked: map<nat, int>, now: int,
                         nonces: nat, secrets: nat, issued: set<Issue>, exchanged: seq<Payload>)

  datatype Verdict = InvalidFormat | InvalidToken | Revoked | Expired | Valid

  function Seconds(t: int): int {
    t / SECOND
  }

  function PrefixOf(kind: Kind): Prefix {
    match kind
    case Pairing => PairingPrefix
    case Session => SessionPrefix
    case Access => SessionPrefix
    case Refresh => RefreshPrefix
  }

  ghost predicate Issued(s: State, p: Payload) {
    exists at :: Issue(p, at) in s.issued
  }

  ghost predicate Signed(s: State, t: Token) {
    t.payload.secret == s.secret && Issued(s, t.payload)
  }

  /** The checks that need neither the revocation list nor the clock. */
  ghost function Parse(s: State, t: Token): Verdict {
    if !Signed(s, t) then InvalidToken
    else if t.payload.serverID != s.serverID then InvalidToken
    else if PrefixOf(t.payload.kind) != t.prefix then InvalidFormat
    else Valid
  }

  ghost function Validate(s: State, t: Token): Verdict {
    if Parse(s, t) != Valid then Parse(s, t)
    else if t.payload.nonce in s.revoked then Revoked
    else if Seconds(s.now) > t.payload.expiresAt then Expired
    else Valid
  }

  ghost predicate Accepted(s: State, t: Token) {
    Validate(s, t) == Valid
  }

  function NewPayload(s: State, kind: Kind, expirySecs: int, deviceID: string): Payload {
    Payload(kind, s.serverID, Seconds(s.now + expirySecs * SECOND), s.nonces, deviceID, s.secret)
  }

  function NewToken(s: State, kind: Kind, expirySecs: int, deviceID: string): Token {
    Token(PrefixOf(kind), NewPayload(s, kind, expirySecs, deviceID))
  }

  function Generate(s: State, kind: Kind, expirySecs: int, deviceID: string): State {
    s.(nonces := s.nonces + 1, issued := s.issued + {Issue(NewPayload(s, kind, expirySecs, deviceID), s.now)})
  }

  function GeneratePair(s: State, deviceID: string): State {
    Generate(Generate(s, Access, ACCESS_EXPIRY, deviceID), Refresh, REFRESH_EXPIRY, deviceID)
  }

  /** A nonce handed in from outside may be empty. */
  datatype GivenNonce = EmptyNonce | GivenNonce(number: nat)

  function Revoke(s: State, nonce: nat): State {
    s.(revoked := s.revoked[nonce := s.now], nonces := if nonce >= s.nonces then nonce + 1 else s.nonces)
  }

  datatype Op =
    | Tick(elapsed: nat)
    | Issuing(kind: Kind, expirySecs: int, deviceID: string)
    | Refreshing(token: Token)
    | Exchanging(token: Token, deviceID: string)
    | Revoking(token: Token)
    | RevokingNonce(nonce: GivenNonce)
    | RevokingAll(persisted: bool)
    | CleaningUp(maxAge: int)

  ghost function DoRefresh(s: State, t: Token): State {
    if !Accepted(s, t) || t.payload.kind != Refresh || t.payload.deviceID == "" then s
    else Revoke(GeneratePair(s, t.payload.deviceID), t.payload.nonce).(exchanged := s.exchanged + [t.payload])
  }

  ghost function DoExchange(s: State, t: Token, deviceID: string): State {
    if !Accepted(s, t) || t.payload.kind != Pairing || deviceID == "" then s
    else Revoke(GeneratePair(s, deviceID), t.payload.nonce).(exchanged := s.exchanged + [t.payload])
  }

  ghost function DoRevoke(s: State, t: Token): State {
    if Parse(s, t) != Valid then s else Revoke(s, t.payload.nonce)
  }

  function DoRevokeNonce(s: State, nonce: GivenNonce): State {
    match nonce
    case EmptyNonce => s
    case GivenNonce(number) => Revoke(s, number)
  }

  function DoRevokeAll(s: State, persisted: bool): State {
    if persisted then s.(secret := s.secrets, secrets := s.secrets + 1, revoked := map[]) else s
  }

  function Kept(revoked: map<nat, int>, cutoff: int): map<nat, int> {
    map n | n in revoked && revoked[n] >= cutoff :: revoked[n]
  }

  function DoCleanUp(s: State, maxAge: int): State {
    s.(revoked := Kept(s.revoked, s.now - maxAge))
  }

  ghost function Apply(s: State, op: Op): State {
    match op
    case Tick(elapsed) => s.(now := s.now + elapsed)
    case Issuing(kind, expirySecs, deviceID) => Generate(s, kind, expirySecs, deviceID)
    case Refreshing(t) => DoRefresh(s, t)
    case Exchanging(t, deviceID) => DoExchange(s, t, deviceID)
    case Revoking(t) => DoRevoke(s, t)
    case RevokingNonce(nonce) => DoRevokeNonce(s, nonce)
    case RevokingAll(persisted) => DoRevokeAll(s, persisted)
    case CleaningUp(maxAge) => DoCleanUp(s, maxAge)
  }

  function Fresh(serverID: string): State {
    State(serverID, 0, map[], 0, 0, 1, {}, [])
  }

  ghost function Exec(s: State, ops: seq<Op>): State
    decreases |ops|
  {
    if ops == [] then s else Apply(Exec(s, ops[..|ops| - 1]), ops[|ops| - 1])
  }

  ghost function Run(serverID: string, ops: seq<Op>): State {
    Exec(Fresh(serverID), ops)
  }

  // ---- Once refused, always refused -------------------------------------------------------

  /** The shortest age at which a revocation may be forgotten, for lifetimes up to `longest`
      seconds: a token issued just after a whole second lives almost one second longer. */
  function SafeAge(longest: int): int {
    (longest + 1) * SECOND - 1
  }

  predicate Cautious(op: Op, longest: int) {
    && (op.CleaningUp? ==> op.maxAge >= SafeAge(longest))
    && (op.Issuing? ==> op.expirySecs <= longest)
  }

  ghost predicate Consistent(s: State, longest: int) {
    && s.secret < s.secrets
    && (forall i :: i in s.issued ==>
          && i.at <= s.now && i.payload.nonce < s.nonces && i.payload.secret < s.secrets
          && i.payload.expiresAt <= Seconds(i.at) + longest
          && (i.payload.nonce in s.revoked ==> s.revoked[i.payload.nonce] >= i.at))
    && (forall n :: n in s.revoked ==> n < s.nonces && s.revoked[n] <= s.now)
  }

  lemma SecondsAdd(t: int, secs: int)
    ensures Seconds(t + secs * SECOND) == Seconds(t) + secs
  {
  }

  lemma GenerateConsistent(s: State, longest: int, kind: Kind, expirySecs: int, deviceID: string)
    requires Consistent(s, longest) && expirySecs <= longest
    ensures Consistent(Generate(s, kind, expirySecs, deviceID), longest)
  {
    SecondsAdd(s.now, expirySecs);
  }

  lemma RevokeConsistent(s: State, longest: int, nonce: nat)
    requires Consistent(s, longest)
    ensures Consistent(Revoke(s, nonce), longest)
  {
  }

  lemma PairConsistent(s: State, longest: int, deviceID: string)
    requires Consistent(s, longest) && longest >= REFRESH_EXPIRY
    ensures Consistent(GeneratePair(s, deviceID), longest)
  {
    GenerateConsistent(s, longest, Access, ACCESS_EXPIRY, deviceID);
    GenerateConsistent(Generate(s, Access, ACCESS_EXPIRY, deviceID), longest, Refresh, REFRESH_EXPIRY, deviceID);
  }

  lemma ApplyConsistent(s: State, longest: int, op: Op)
    requires Consistent(s, longest) && Cautious(op, longest) && longest >= REFRESH_EXPIRY
    ensures Consistent(Apply(s, op), longest)
  {
    match op
    case Issuing(kind, expirySecs, deviceID) => GenerateConsistent(s, longest, kind, expirySecs, deviceID);
    case Refreshing(t) =>
      PairConsistent(s, longest, t.payload.deviceID);
      RevokeConsistent(GeneratePair(s, t.payload.deviceID), longest, t.payload.nonce);
    case Exchanging(t, deviceID) =>
      PairConsistent(s, longest, deviceID);
      RevokeConsistent(GeneratePair(s, deviceID), longest, t.payload.nonce);
    case Revoking(t) => RevokeConsistent(s, longest, t.payload.nonce);
    case RevokingNonce(nonce) => if nonce.GivenNonce? { RevokeConsistent(s, longest, nonce.number); }
    case _ =>
  }

  /** Issued, and refused for good: replaced secret, wrong form, expired, or revoked. */
  ghost predicate Refused(s: State, t: Token) {
    Issued(s, t.payload) && !Accepted(s, t)
  }

  /** Forgetting an old enough revocation cannot revive the token: it has expired. */
  lemma ForgottenIsExpired(s: State, longest: int, maxAge: int, i: Issue)
    requires Consistent(s, longest) && maxAge >= SafeAge(longest)
    requires i in s.issued && i.payload.nonce in s.revoked
    requires s.revoked[i.payload.nonce] < s.now - maxAge
    ensures Seconds(s.now) > i.payload.expiresAt
  {
    assert s.now >= i.at + (longest + 1) * SECOND;
    SecondsAdd(i.at, longest + 1);
  }

  lemma GenerateRefuses(s: State, longest: int, kind: Kind, expirySecs: int, deviceID: string, t: Token)
    requires Consistent(s, longest) && Refused(s, t)
    ensures Refused(Generate(s, kind, expirySecs, deviceID), t)
  {
    var at :| Issue(t.payload, at) in s.issued;
    assert Issue(t.payload, at) in Generate(s, kind, expirySecs, deviceID).issued;
  }

  lemma RevokeRefuses(s: State, nonce: nat, t: Token)
    requires Refused(s, t)
    ensures Refused(Revoke(s, nonce), t)
  {
    var at :| Issue(t.payload, at) in s.issued;
  }

  lemma PairRefuses(s: State, longest: int, deviceID: string, t: Token)
    requires Consistent(s, longest) && longest >= REFRESH_EXPIRY && Refused(s, t)
    ensures Refused(GeneratePair(s, deviceID), t)
  {
    GenerateRefuses(s, longest, Access, ACCESS_EXPIRY, deviceID, t);
    GenerateConsistent(s, longest, Access, ACCESS_EXPIRY, deviceID);
    GenerateRefuses(Generate(s, Access, ACCESS_EXPIRY, deviceID), longest, Refresh, REFRESH_EXPIRY, deviceID, t);
  }

  lemma BuyingRefuses(s: State, longest: int, deviceID: string, nonce: nat, exchanged: seq<Payload>, t: Token)
    requires Consistent(s, longest) && longest >= REFRESH_EXPIRY && Refused(s, t)
    ensures Refused(Revoke(GeneratePair(s, deviceID), nonce).(exchanged := exchanged), t)
  {
    PairRefuses(s, longest, deviceID, t);
    RevokeRefuses(GeneratePair(s, deviceID), nonce, t);
    var at :| Issue(t.payload, at) in Revoke(GeneratePair(s, deviceID), nonce).issued;
    assert Issue(t.payload, at) in Revoke(GeneratePair(s, deviceID), nonce).(exchanged := exchanged).issued;
  }

  lemma TickRefuses(s: State, elapsed: nat, t: Token)
    requires Refused(s, t)
    ensures Refused(s.(now := s.now + elapsed), t)
  {
    var at :| Issue(t.payload, at) in s.issued;
    assert Seconds(s.now + elapsed) >= Seconds(s.now);
  }

  lemma CleanUpRefuses(s: State, longest: int, maxAge: int, t: Token)
    requires Consistent(s, longest) && maxAge >= SafeAge(longest) && Refused(s, t)
    ensures Refused(DoCleanUp(s, maxAge), t)
  {
    var at :| Issue(t.payload, at) in s.issued;
    if t.payload.nonce in s.revoked && s.revoked[t.payload.nonce] < s.now - maxAge {
      ForgottenIsExpired(s, longest, maxAge, Issue(t.payload, at));
    }
  }

  lemma RevokeAllRefuses(s: State, longest: int, persisted: bool, t: Token)
    requires Consistent(s, longest) && Refused(s, t)
    ensures Refused(DoRevokeAll(s, persisted), t)
  {
    var at :| Issue(t.payload, at) in s.issued;
    assert Issue(t.payload, at).payload.secret < s.secrets;
  }

  lemma ApplyRefuses(s: State, longest: int, op: Op, t: Token)
    requires Consistent(s, longest) && Cautious(op, longest) && longest >= REFRESH_EXPIRY && Refused(s, t)
    ensures Refused(Apply(s, op), t)
  {
    match op
    case Tick(elapsed) => TickRefuses(s, elapsed, t);
    case Issuing(kind, expirySecs, deviceID) => GenerateRefuses(s, longest, kind, expirySecs, deviceID, t);
    case Refreshing(u) =>
      BuyingRefuses(s, longest, u.payload.deviceID, u.payload.nonce, s.exchanged + [u.payload], t);
    case Exchanging(u, deviceID) =>
      BuyingRefuses(s, longest, deviceID, u.payload.nonce, s.exchanged + [u.payload], t);
    case Revoking(u) => RevokeRefuses(s, u.payload.nonce, t);
    case RevokingNonce(nonce) => if nonce.GivenNonce? { RevokeRefuses(s, nonce.number, t); }
    case RevokingAll(persisted) => RevokeAllRefuses(s, longest, persisted, t);
    case CleaningUp(maxAge) => CleanUpRefuses(s, longest, maxAge, t);
  }

  lemma {:induction false} ExecRefuses(s: State, longest: int, ops: seq<Op>)
    requires Consistent(s, longest) && longest >= REFRESH_EXPIRY
    requires forall op :: op in ops ==> Cautious(op, longest)
    ensures Consistent(Exec(s, ops), longest)
    ensures forall t :: Refused(s, t) ==> Refused(Exec(s, ops), t)
  {
    if ops != [] {
      var front, last := ops[..|ops| - 1], ops[|ops| - 1];
      forall op | op in front ensures Cautious(op, longest) { assert op in ops; }
      ExecRefuses(s, longest, front);
      assert last in ops;
      ApplyConsistent(Exec(s, front), longest, last);
      forall t | Refused(s, t) ensures Refused(Exec(s, ops), t) {
        ApplyRefuses(Exec(s, front), longest, last, t);
      }
    }
  }

  lemma FreshConsistent(serverID: string, longest: int)
    ensures Consistent(Fresh(serverID), longest)
  {
  }

  /** No issued token that was once refused is ever accepted again, in any run whose cleanups keep
      revocations for at least the longest issued lifetime plus one second, less a nanosecond. */
  lemma RefusalIsFinal(serverID: string, longest: int, before: seq<Op>, after: seq<Op>, t: Token)
    requires longest >= REFRESH_EXPIRY
    requires forall op :: op in before + after ==> Cautious(op, longest)
    requires Refused(Run(serverID, before), t)
    ensures !Accepted(Exec(Run(serverID, before), after), t)
  {
    FreshConsistent(serverID, longest);
    forall op | op in before ensures Cautious(op, longest) { assert op in before + after; }
    forall op | op in after ensures Cautious(op, longest) { assert op in before + after; }
    ExecRefuses(Fresh(serverID), longest, before);
    ExecRefuses(Run(serverID, before), longest, after);
  }

  lemma ExecOne(s: State, op: Op)
    ensures Exec(s, [op]) == Apply(s, op)
  {
    assert [op][..0] == [];
    assert Exec(s, []) == s;
  }

  lemma ExecTwo(s: State, a: Op, b: Op)
    ensures Exec(s, [a, b]) == Apply(Apply(s, a), b)
  {
    assert [a, b][..1] == [a];
    ExecOne(s, a);
  }

  /** That age is exact: with any shorter one, a token of the longest lifetime that was revoked when
      it was issued is accepted again in the last nanosecond before it expires. */
  lemma ShorterAgeRevives(serverID: string, longest: nat, maxAge: int)
    requires maxAge < SafeAge(longest)
    ensures var t := NewToken(Fresh(serverID), Session, longest, "d");
            var before := [Issuing(Session, longest, "d"), Revoking(t)];
            && Refused(Run(serverID, before), t)
            && Accepted(Exec(Run(serverID, before), [Tick(SafeAge(longest)), CleaningUp(maxAge)]), t)
  {
    var s0 := Fresh(serverID);
    var t := NewToken(s0, Session, longest, "d");
    var s1 := Generate(s0, Session, longest, "d");
    assert Issue(t.payload, 0) in s1.issued;
    SecondsAdd(0, longest);
    ExecTwo(s0, Issuing(Session, longest, "d"), Revoking(t));
    var s2 := Revoke(s1, t.payload.nonce);
    assert Parse(s1, t) == Valid && s2 == DoRevoke(s1, t);
    assert Issue(t.payload, 0) in s2.issued;
    ExecTwo(s2, Tick(SafeAge(longest)), CleaningUp(maxAge));
    var s4 := DoCleanUp(s2.(now := SafeAge(longest)), maxAge);
    assert Issue(t.payload, 0) in s4.issued;
    SecondsAdd(SECOND - 1, longest);
    assert SafeAge(longest) == SECOND - 1 + longest * SECOND;
  }

  // ---- One pair per token -----------------------------------------------------------------

  /** Whatever bought a pair is refused under every prefix. */
  ghost predicate Spent(s: State, p: Payload) {
    forall prefix :: Refused(s, Token(prefix, p))
  }

  ghost predicate BoughtOnce(s: State) {
    && (forall p :: p in s.exchanged ==> Spent(s, p))
    && (forall i, j :: 0 <= i < j < |s.exchanged| ==> s.exchanged[i] != s.exchanged[j])
  }

  lemma BuyingSpends(s: State, t: Token, deviceID: string)
    requires Accepted(s, t)
    ensures Spent(Revoke(GeneratePair(s, deviceID), t.payload.nonce).(exchanged := s.exchanged + [t.payload]), t.payload)
  {
    var u := Revoke(GeneratePair(s, deviceID), t.payload.nonce).(exchanged := s.exchanged + [t.payload]);
    var at :| Issue(t.payload, at) in s.issued;
    assert Issue(t.payload, at) in u.issued;
  }

  lemma BuyingOnce(s: State, longest: int, t: Token, deviceID: string)
    requires Consistent(s, longest) && longest >= REFRESH_EXPIRY && BoughtOnce(s) && Accepted(s, t)
    ensures BoughtOnce(Revoke(GeneratePair(s, deviceID), t.payload.nonce).(exchanged := s.exchanged + [t.payload]))
  {
    var u := Revoke(GeneratePair(s, deviceID), t.payload.nonce).(exchanged := s.exchanged + [t.payload]);
    BuyingSpends(s, t, deviceID);
    forall p | p in s.exchanged ensures Spent(u, p) {
      forall prefix ensures Refused(u, Token(prefix, p)) {
        BuyingRefuses(s, longest, deviceID, t.payload.nonce, s.exchanged + [t.payload], Token(prefix, p));
      }
    }
    assert t.payload !in s.exchanged by {
      assert Accepted(s, Token(t.prefix, t.payload));
    }
  }

  lemma StaySpent(s: State, longest: int, op: Op, p: Payload)
    requires Consistent(s, longest) && Cautious(op, longest) && longest >= REFRESH_EXPIRY && Spent(s, p)
    ensures Spent(Apply(s, op), p)
  {
    forall prefix ensures Refused(Apply(s, op), Token(prefix, p)) {
      ApplyRefuses(s, longest, op, Token(prefix, p));
    }
  }

  lemma {:induction false} RunBuysOnce(serverID: string, longest: int, ops: seq<Op>)
    requires longest >= REFRESH_EXPIRY && forall op :: op in ops ==> Cautious(op, longest)
    ensures BoughtOnce(Run(serverID, ops))
  {
    if ops != [] {
      var front, last := ops[..|ops| - 1], ops[|ops| - 1];
      forall op | op in front ensures Cautious(op, longest) { assert op in ops; }
      assert last in ops;
      RunBuysOnce(serverID, longest, front);
      FreshConsistent(serverID, longest);
      ExecRefuses(Fresh(serverID), longest, front);
      var s, u := Run(serverID, front), Run(serverID, ops);
      forall p | p in s.exchanged ensures Spent(u, p) {
        StaySpent(s, longest, last, p);
      }
      if last.Refreshing? && Accepted(s, last.token) {
        BuyingOnce(s, longest, last.token, last.token.payload.deviceID);
      } else if last.Exchanging? && Accepted(s, last.token) {
        BuyingOnce(s, longest, last.token, last.deviceID);
      }
    }
  }

  /** In every sequential run, each pairing or refresh token buys at most one pair, whatever prefix it
      is presented under. */
  lemma OnePairPerToken(serverID: string, longest: int, ops: seq<Op>, i: nat, j: nat)
    requires longest >= REFRESH_EXPIRY && forall op :: op in ops ==> Cautious(op, longest)
    requires i < j < |Run(serverID, ops).exchanged|
    ensures Run(serverID, ops).exchanged[i] != Run(serverID, ops).exchanged[j]
  {
    RunBuysOnce(serverID, longest, ops);
  }

  lemma {:induction false} IssuedHere(serverID: string, ops: seq<Op>)
    ensures Run(serverID, ops).serverID == serverID
    ensures forall i :: i in Run(serverID, ops).issued ==> i.payload.serverID == serverID
    decreases |ops|
  {
    if ops != [] {
      IssuedHere(serverID, ops[..|ops| - 1]);
    }
  }

  /** Pairing and refresh tokens have a prefix each; session and access tokens share one. */
  predicate RightPrefix(prefix: Prefix, kind: Kind) {
    || (prefix == PairingPrefix && kind == Pairing)
    || (prefix == SessionPrefix && (kind == Session || kind == Access))
    || (prefix == RefreshPrefix && kind == Refresh)
  }

  /** In every run, a payload that was issued parses exactly when it is signed with the secret in use and
      comes under the prefix of its kind; under another prefix it is malformed.  So no kind is accepted
      as another. */
  lemma {:induction false} PrefixBindsKind(serverID: string, ops: seq<Op>, prefix: Prefix, p: Payload)
    requires Issued(Run(serverID, ops), p)
    ensures var s, t := Run(serverID, ops), Token(prefix, p);
            && (Parse(s, t) == Valid <==> p.secret == s.secret && RightPrefix(prefix, p.kind))
            && (Parse(s, t) == InvalidFormat <==> p.secret == s.secret && !RightPrefix(prefix, p.kind))
            && (Accepted(s, t) ==> RightPrefix(prefix, p.kind))
  {
    IssuedHere(serverID, ops);
    var at :| Issue(p, at) in Run(serverID, ops).issued;
    assert Issue(p, at).payload.serverID == serverID;
  }

  /** No nonce still to be drawn is on the revocation list. */
  ghost predicate NoncesAhead(s: State) {
    forall n :: n in s.revoked ==> n < s.nonces
  }

  /** A new pair is good at once: both tokens are accepted in the state that issued them, so the
      check that follows generation never fails. */
  lemma NewPairAccepted(s: State, deviceID: string)
    requires NoncesAhead(s)
    ensures var u := GeneratePair(s, deviceID);
            && Accepted(u, NewToken(s, Access, ACCESS_EXPIRY, deviceID))
            && Accepted(u, NewToken(Generate(s, Access, ACCESS_EXPIRY, deviceID), Refresh, REFRESH_EXPIRY, deviceID))
  {
    var access := NewPayload(s, Access, ACCESS_EXPIRY, deviceID);
    var s1 := Generate(s, Access, ACCESS_EXPIRY, deviceID);
    var refresh := NewPayload(s1, Refresh, REFRESH_EXPIRY, deviceID);
    var u := GeneratePair(s, deviceID);
    assert Issue(access, s.now) in u.issued && Issue(refresh, s.now) in u.issued;
    SecondsAdd(s.now, ACCESS_EXPIRY);
    SecondsAdd(s.now, REFRESH_EXPIRY);
  }
}
