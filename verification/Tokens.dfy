/** Courier credentials: one-time login claims, refresh-token families and access sessions. Every
    operation holds the courier's root lock, so it is one function of the tables. */
module Tokens {
  import opened Common

  /** A raw credential is known by its digest; digests of different credentials differ. */
  type Digest = nat

  datatype Claim = Claim(courier: nat, digest: Digest, expiresAt: int, consumedAt: Option<int>, revokedAt: Option<int>)

  datatype Token = Token(
    courier: nat, session: Option<nat>, digest: Digest, family: nat, expiresAt: int,
    usedAt: Option<int>, revokedAt: Option<int>, replacedBy: Option<nat>)
  {
    predicate Live() {
      usedAt.None? && revokedAt.None?
    }
  }

  datatype Session = Session(courier: nat, expiresAt: int)

  /** Token and claim rows are only ever appended; session keys and family ids are never reused. */
  datatype Tables = Tables(
    couriers: map<nat, bool>, claims: seq<Claim>, tokens: seq<Token>, sessions: map<nat, Session>,
    nextSession: nat, nextFamily: nat)

  /** What a client receives. */
  datatype Issued = Issued(token: nat, session: nat)

  datatype Outcome<T> = Outcome(tables: Tables, result: Option<T>)

  predicate Active(t: Tables, courier: nat) {
    courier in t.couriers && t.couriers[courier]
  }

  function FindToken(tokens: seq<Token>, d: Digest): (found: Option<nat>)
    ensures found.Some? ==> found.value < |tokens| && tokens[found.value].digest == d
    ensures found.None? ==> forall i | 0 <= i < |tokens| :: tokens[i].digest != d
  {
    if tokens == [] then None
    else
      var before := FindToken(tokens[..|tokens| - 1], d);
      if before.Some? then before else if tokens[|tokens| - 1].digest == d then Some(|tokens| - 1) else None
  }

  function FindClaim(claims: seq<Claim>, d: Digest): (found: Option<nat>)
    ensures found.Some? ==> found.value < |claims| && claims[found.value].digest == d
    ensures found.None? ==> forall i | 0 <= i < |claims| :: claims[i].digest != d
  {
    if claims == [] then None
    else
      var before := FindClaim(claims[..|claims| - 1], d);
      if before.Some? then before else if claims[|claims| - 1].digest == d then Some(|claims| - 1) else None
  }

  // ----- claims -----------------------------------------------------------------------------

  predicate Outstanding(c: Claim, courier: nat) {
    c.courier == courier && c.consumedAt.None? && c.revokedAt.None?
  }

  function RevokedClaims(claims: seq<Claim>, courier: nat, now: int): (r: seq<Claim>)
    ensures |r| == |claims|
    ensures forall i | 0 <= i < |claims| ::
      r[i] == if Outstanding(claims[i], courier) then claims[i].(revokedAt := Some(now)) else claims[i]
  {
    seq(|claims|, i requires 0 <= i < |claims| =>
      if Outstanding(claims[i], courier) then claims[i].(revokedAt := Some(now)) else claims[i])
  }

  /** A new claim that ends the courier's earlier ones. A digest that is already taken rolls everything back. */
  function IssueClaim(t: Tables, courier: nat, mint: Digest, now: int, ttl: int): Outcome<nat> {
    if !Active(t, courier) || FindClaim(t.claims, mint).Some? then Outcome(t, None)
    else
      Outcome(t.(claims := RevokedClaims(t.claims, courier, now) + [Claim(courier, mint, now + ttl, None, None)]),
              Some(|t.claims|))
  }

  function ConsumeClaim(t: Tables, d: Digest, now: int): Outcome<nat> {
    var found := FindClaim(t.claims, d);
    if found.None? then Outcome(t, None)
    else
      var c := t.claims[found.value];
      if !Active(t, c.courier) || c.consumedAt.Some? || c.revokedAt.Some? || c.expiresAt <= now then Outcome(t, None)
      else Outcome(t.(claims := t.claims[found.value := c.(consumedAt := Some(now))]), Some(c.courier))
  }

  // ----- sessions and families --------------------------------------------------------------

  /** Deleting sessions nulls the tokens that point at them. */
  function Unlinked(token: Token, gone: set<nat>): Token {
    if token.session.Some? && token.session.value in gone then token.(session := None) else token
  }

  function WithoutSessions(t: Tables, gone: set<nat>): Tables {
    t.(sessions := t.sessions - gone,
       tokens := seq(|t.tokens|, i requires 0 <= i < |t.tokens| => Unlinked(t.tokens[i], gone)))
  }

  function FamilySessions(tokens: seq<Token>, family: nat): set<nat> {
    set i | 0 <= i < |tokens| && tokens[i].family == family && tokens[i].session.Some? :: tokens[i].session.value
  }

  function RevokedToken(token: Token, family: nat, at: int): Token {
    if token.family == family && token.revokedAt.None? then token.(revokedAt := Some(at)) else token
  }

  function RevokeFamily(t: Tables, family: nat, at: int): Tables {
    WithoutSessions(
      t.(tokens := seq(|t.tokens|, i requires 0 <= i < |t.tokens| => RevokedToken(t.tokens[i], family, at))),
      FamilySessions(t.tokens, family))
  }

  /** A new access session and its refresh token; the session never outlives the family. */
  function Minted(t: Tables, courier: nat, mint: Digest, family: nat, accessUntil: int, until: int): Tables {
    t.(sessions := t.sessions[t.nextSession := Session(courier, Min(accessUntil, until))],
       nextSession := t.nextSession + 1,
       nextFamily := if family < t.nextFamily then t.nextFamily else family + 1,
       tokens := t.tokens + [Token(courier, Some(t.nextSession), mint, family, until, None, None, None)])
  }

  function IssueSession(t: Tables, courier: nat, mint: Digest, now: int, accessTtl: int, refreshTtl: int): Outcome<Issued> {
    if !Active(t, courier) || FindToken(t.tokens, mint).Some? then Outcome(t, None)
    else
      Outcome(Minted(t, courier, mint, t.nextFamily, now + accessTtl, now + refreshTtl),
              Some(Issued(|t.tokens|, t.nextSession)))
  }

  /** Rotate once; a token that was used before takes its whole family down. */
  function Rotate(t: Tables, d: Digest, mint: Digest, now: int, later: int, accessTtl: int): Outcome<Issued> {
    var found := FindToken(t.tokens, d);
    if found.None? then Outcome(t, None)
    else
      var row := t.tokens[found.value];
      if row.usedAt.Some? then Outcome(RevokeFamily(t, row.family, now), None)
      else if row.revokedAt.Some? || row.expiresAt <= now then Outcome(t, None)
      else if !Active(t, row.courier) then Outcome(RevokeFamily(t, row.family, now), None)
      else if FindToken(t.tokens, mint).Some? then Outcome(t, None)
      else
        var used := t.(tokens := t.tokens[found.value := row.(usedAt := Some(now))]);
        var cleared := WithoutSessions(used, if row.session.Some? then {row.session.value} else {});
        var minted := Minted(cleared, row.courier, mint, row.family, later + accessTtl, row.expiresAt);
        Outcome(
          minted.(tokens := minted.tokens[found.value := minted.tokens[found.value].(replacedBy := Some(|t.tokens|))]),
          Some(Issued(|t.tokens|, t.nextSession)))
  }

  function RevokeRefresh(t: Tables, d: Digest, now: int): Tables {
    var found := FindToken(t.tokens, d);
    if found.None? then t else RevokeFamily(t, t.tokens[found.value].family, now)
  }

  function HolderOf(tokens: seq<Token>, session: nat): (found: Option<nat>)
    ensures found.Some? ==> found.value < |tokens| && tokens[found.value].session == Some(session)
    ensures found.None? ==> forall i | 0 <= i < |tokens| :: tokens[i].session != Some(session)
  {
    if tokens == [] then None
    else
      var before := HolderOf(tokens[..|tokens| - 1], session);
      if before.Some? then before
      else if tokens[|tokens| - 1].session == Some(session) then Some(|tokens| - 1) else None
  }

  /** Revoke an access session and its family, if it has one. */
  function RevokeAccess(t: Tables, session: nat, now: int): Tables {
    if session !in t.sessions then t
    else
      var holder := HolderOf(t.tokens, session);
      if holder.Some? then RevokeFamily(t, t.tokens[holder.value].family, now) else WithoutSessions(t, {session})
  }

  /** Revoke every family of a courier among the first `n` tokens' families. */
  function RevokeFamilies(t: Tables, courier: nat, now: int, n: nat): Tables
    requires n <= |t.tokens|
    ensures |RevokeFamilies(t, courier, now, n).tokens| == |t.tokens|
  {
    if n == 0 then t
    else
      var rest := RevokeFamilies(t, courier, now, n - 1);
      if t.tokens[n - 1].courier == courier then RevokeFamily(rest, t.tokens[n - 1].family, now) else rest
  }

  function SessionsOf(t: Tables, courier: nat): set<nat> {
    set s | s in t.sessions && t.sessions[s].courier == courier
  }

  function RevokeAll(t: Tables, courier: nat, now: int): Tables {
    var revoked := RevokeFamilies(t, courier, now, |t.tokens|);
    WithoutSessions(revoked, SessionsOf(revoked, courier))
  }

  // ----- runs -------------------------------------------------------------------------------

  datatype Command =
    | DoIssueClaim(courier: nat, mint: Digest, now: int, ttl: int)
    | DoConsumeClaim(digest: Digest, now: int)
    | DoIssueSession(courier: nat, mint: Digest, now: int, accessTtl: int, refreshTtl: int)
    | DoRotate(digest: Digest, mint: Digest, now: int, later: int, accessTtl: int)
    | DoRevokeRefresh(digest: Digest, now: int)
    | DoRevokeAccess(session: nat, now: int)
    | DoRevokeAll(courier: nat, now: int)
    | DoDropSession(session: nat)
    | DoSetActive(courier: nat, active: bool)

  function Apply(t: Tables, cmd: Command): Tables {
    match cmd
    case DoIssueClaim(courier, mint, now, ttl) => IssueClaim(t, courier, mint, now, ttl).tables
    case DoConsumeClaim(d, now) => ConsumeClaim(t, d, now).tables
    case DoIssueSession(courier, mint, now, a, r) => IssueSession(t, courier, mint, now, a, r).tables
    case DoRotate(d, mint, now, later, a) => Rotate(t, d, mint, now, later, a).tables
    case DoRevokeRefresh(d, now) => RevokeRefresh(t, d, now)
    case DoRevokeAccess(session, now) => RevokeAccess(t, session, now)
    case DoRevokeAll(courier, now) => RevokeAll(t, courier, now)
    case DoDropSession(session) => WithoutSessions(t, {session})
    case DoSetActive(courier, active) => t.(couriers := t.couriers[courier := active])
  }
}
