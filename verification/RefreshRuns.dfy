/** Refresh requests in any interleaving: what every run of logins, refreshes and revocations keeps. */
module RefreshRuns {

  import opened Wrappers
  import opened RefreshTokens

  // ---------- Interleaved requests ----------

  /** `pending` holds what each running request has read. */
  datatype State = State(tokens: Tokens, nextId: TokenId, nextFamily: Family, pending: map<nat, (TokenId, Token)>)

  datatype Step =
    | Login(hash: nat, email: nat, user: Option<nat>, now: int)
    | Read(request: nat, id: TokenId)
    | Finish(request: nat, now: int, session: bool, next: nat)
    | Logout(request: nat)
    | RevokeEmail(email: nat)
    | RevokeUser(owner: nat)

  function Next(s: State, step: Step): State {
    match step
    case Login(hash, email, user, now) =>
      var token := Token(hash, s.nextFamily, email, user, now, now + TOKEN_TTL, None);
      s.(tokens := Created(s.tokens, s.nextId, token), nextId := s.nextId + 1, nextFamily := s.nextFamily + 1)
    case Read(request, id) =>
      if id in s.tokens then s.(pending := s.pending[request := (id, s.tokens[id])]) else s
    case Finish(request, now, session, next) =>
      if request !in s.pending then s
      else
        var (id, stored) := s.pending[request];
        s.(tokens := Acted(s.tokens, s.nextId, id, stored, now, session, next),
           nextId := s.nextId + 1,
           pending := s.pending - {request})
    case Logout(request) =>
      if request !in s.pending then s
      else s.(tokens := WithoutFamily(s.tokens, s.pending[request].1.family), pending := s.pending - {request})
    case RevokeEmail(email) => s.(tokens := WithoutEmail(s.tokens, email))
    case RevokeUser(owner) => s.(tokens := WithoutUser(s.tokens, owner))
  }

  function Run(s: State, steps: seq<Step>): State
    decreases |steps|
  {
    if steps == [] then s else Run(Next(s, steps[0]), steps[1..])
  }

  const START: State := State(map[], 0, 0, map[])

  predicate SameLogin(a: Token, b: Token) {
    a.family == b.family && a.email == b.email && a.user == b.user
  }

  /** At most one token of a login is still to be used, and it is the newest. */
  ghost predicate OneUnused(tokens: Tokens) {
    forall i: TokenId, j: TokenId ::
      (i in tokens && j in tokens && i != j && tokens[i].family == tokens[j].family && tokens[i].replaced.None?)
      ==> j < i && tokens[j].replaced.Some?
  }

  ghost predicate FamiliesAgree(tokens: Tokens) {
    forall i: TokenId, j: TokenId :: i in tokens && j in tokens && tokens[i].family == tokens[j].family
      ==> SameLogin(tokens[i], tokens[j])
  }

  ghost predicate HashesDiffer(tokens: Tokens) {
    forall i: TokenId, j: TokenId :: i in tokens && j in tokens && i != j ==> tokens[i].hash != tokens[j].hash
  }

  ghost predicate Bounded(s: State) {
    && (forall id: TokenId :: id in s.tokens ==> id < s.nextId && s.tokens[id].family < s.nextFamily)
    && (forall r: nat :: r in s.pending ==> s.pending[r].0 < s.nextId && s.pending[r].1.family < s.nextFamily)
  }

  /** A request still holds the login its token belongs to. */
  ghost predicate PendingAgree(s: State) {
    forall r: nat :: r in s.pending && s.pending[r].0 in s.tokens
      ==> SameLogin(s.pending[r].1, s.tokens[s.pending[r].0])
  }

  ghost predicate Good(s: State) {
    OneUnused(s.tokens) && FamiliesAgree(s.tokens) && HashesDiffer(s.tokens) && Bounded(s) && PendingAgree(s)
  }

  /** Deleting rows keeps everything. */
  lemma FewerTokensStayGood(s: State, kept: Tokens)
    requires Good(s)
    requires forall id: TokenId :: id in kept ==> id in s.tokens && kept[id] == s.tokens[id]
    ensures Good(s.(tokens := kept))
  {
  }

  lemma NewLoginKeepsGood(s: State, token: Token)
    requires Good(s) && token.family == s.nextFamily && HashUnused(s.tokens, token.hash)
    ensures Good(s.(tokens := s.tokens[s.nextId := token], nextId := s.nextId + 1, nextFamily := s.nextFamily + 1))
  {
    var after := s.tokens[s.nextId := token];
    assert forall i: TokenId :: i in after && i != s.nextId ==> i in s.tokens && after[i] == s.tokens[i];
    assert OneUnused(after);
    assert FamiliesAgree(after);
    assert HashesDiffer(after);
  }

  lemma LoginKeepsGood(s: State, token: Token)
    requires Good(s) && token.family == s.nextFamily
    ensures Good(s.(tokens := Created(s.tokens, s.nextId, token),
                    nextId := s.nextId + 1, nextFamily := s.nextFamily + 1))
  {
    var kept := WithoutExpired(s.tokens, token.created);
    if HashUnused(kept, token.hash) {
      FewerTokensStayGood(s, kept);
      NewLoginKeepsGood(s.(tokens := kept), token);
    }
  }

  /** Neither hash nor login of a token changes, and only the successor is new. */
  ghost predicate IsRotation(tokens: Tokens, after: Tokens, id: TokenId, nextId: TokenId) {
    && after.Keys == tokens.Keys + {nextId} && id in tokens && nextId !in tokens
    && SameLogin(after[nextId], tokens[id])
    && (forall i: TokenId :: i in tokens ==> SameLogin(after[i], tokens[i]) && after[i].hash == tokens[i].hash)
  }

  lemma RotationKeepsLogins(tokens: Tokens, after: Tokens, id: TokenId, nextId: TokenId)
    requires IsRotation(tokens, after, id, nextId) && FamiliesAgree(tokens)
    ensures FamiliesAgree(after)
  {
  }

  lemma RotationKeepsHashes(tokens: Tokens, after: Tokens, id: TokenId, nextId: TokenId)
    requires IsRotation(tokens, after, id, nextId) && HashesDiffer(tokens) && HashUnused(tokens, after[nextId].hash)
    ensures HashesDiffer(after)
  {
  }

  lemma RotatedTokens(tokens: Tokens, id: TokenId, nextId: TokenId, hash: nat, now: int, expires: int)
    requires CanRotate(tokens, id, hash) && forall i: TokenId :: i in tokens ==> i < nextId
    requires OneUnused(tokens) && FamiliesAgree(tokens) && HashesDiffer(tokens)
    ensures var after := Rotated(tokens, id, nextId, hash, now, expires);
      && after.Keys == tokens.Keys + {nextId}
      && SameLogin(after[nextId], tokens[id])
      && (forall i: TokenId :: i in tokens ==> SameLogin(after[i], tokens[i]))
      && OneUnused(after) && FamiliesAgree(after) && HashesDiffer(after)
  {
    var after := Rotated(tokens, id, nextId, hash, now, expires);
    assert IsRotation(tokens, after, id, nextId);
    RotationKeepsLogins(tokens, after, id, nextId);
    RotationKeepsHashes(tokens, after, id, nextId);
    assert forall i: TokenId :: i in tokens && after[i].replaced.None? ==> i != id && after[i] == tokens[i];
  }

  lemma RotateKeepsGood(s: State, id: TokenId, hash: nat, now: int, expires: int)
    requires Good(s)
    ensures Good(s.(tokens := Rotated(s.tokens, id, s.nextId, hash, now, expires), nextId := s.nextId + 1))
  {
    if CanRotate(s.tokens, id, hash) {
      RotatedTokens(s.tokens, id, s.nextId, hash, now, expires);
      RotationKeepsBounds(s, Rotated(s.tokens, id, s.nextId, hash, now, expires), id);
    }
  }

  lemma RotationKeepsBounds(s: State, after: Tokens, id: TokenId)
    requires Good(s) && after.Keys == s.tokens.Keys + {s.nextId} && id in s.tokens
    requires SameLogin(after[s.nextId], s.tokens[id])
    requires forall i: TokenId :: i in s.tokens ==> SameLogin(after[i], s.tokens[i])
    ensures Bounded(s.(tokens := after, nextId := s.nextId + 1))
    ensures PendingAgree(s.(tokens := after, nextId := s.nextId + 1))
  {
  }

  lemma DoneRequestKeepsGood(s: State, request: nat)
    requires Good(s)
    ensures Good(s.(pending := s.pending - {request}))
  {
  }

  lemma ActedKeepsGood(s: State, id: TokenId, stored: Token, now: int, session: bool, next: nat)
    requires Good(s)
    ensures Good(s.(tokens := Acted(s.tokens, s.nextId, id, stored, now, session, next), nextId := s.nextId + 1))
  {
    match Judge(stored, now, session)
    case Revoke => FewerTokensStayGood(s, WithoutFamily(s.tokens, stored.family));
    case Tolerate =>
    case Rotate => RotateKeepsGood(s, id, next, now, now + TOKEN_TTL);
  }

  lemma FinishKeepsGood(s: State, request: nat, now: int, session: bool, next: nat)
    requires Good(s) && request in s.pending
    ensures Good(Next(s, Finish(request, now, session, next)))
  {
    var (id, stored) := s.pending[request];
    ActedKeepsGood(s, id, stored, now, session, next);
    var acted := s.(tokens := Acted(s.tokens, s.nextId, id, stored, now, session, next), nextId := s.nextId + 1);
    DoneRequestKeepsGood(acted, request);
    assert Next(s, Finish(request, now, session, next)) == acted.(pending := s.pending - {request});
  }

  lemma ReadKeepsGood(s: State, request: nat, id: TokenId)
    requires Good(s)
    ensures Good(Next(s, Read(request, id)))
  {
  }

  lemma LogoutKeepsGood(s: State, request: nat)
    requires Good(s) && request in s.pending
    ensures Good(Next(s, Logout(request)))
  {
    var kept := WithoutFamily(s.tokens, s.pending[request].1.family);
    FewerTokensStayGood(s, kept);
    DoneRequestKeepsGood(s.(tokens := kept), request);
  }

  lemma LoginStepKeepsGood(s: State, hash: nat, email: nat, user: Option<nat>, now: int)
    requires Good(s)
    ensures Good(Next(s, Login(hash, email, user, now)))
  {
    var token := Token(hash, s.nextFamily, email, user, now, now + TOKEN_TTL, None);
    LoginKeepsGood(s, token);
    assert Next(s, Login(hash, email, user, now)) ==
           s.(tokens := Created(s.tokens, s.nextId, token), nextId := s.nextId + 1, nextFamily := s.nextFamily + 1);
  }

  lemma RevokingKeepsGood(s: State, email: nat, owner: nat)
    requires Good(s)
    ensures Good(Next(s, RevokeEmail(email))) && Good(Next(s, RevokeUser(owner)))
  {
    FewerTokensStayGood(s, WithoutEmail(s.tokens, email));
    FewerTokensStayGood(s, WithoutUser(s.tokens, owner));
  }

  lemma NextKeepsGood(s: State, step: Step)
    requires Good(s)
    ensures Good(Next(s, step))
  {
    match step
    case Login(hash, email, user, now) => LoginStepKeepsGood(s, hash, email, user, now);
    case Read(request, id) => ReadKeepsGood(s, request, id);
    case Finish(request, now, session, next) =>
      if request in s.pending {
        FinishKeepsGood(s, request, now, session, next);
      }
    case Logout(request) =>
      if request in s.pending {
        LogoutKeepsGood(s, request);
      }
    case RevokeEmail(email) => RevokingKeepsGood(s, email, 0);
    case RevokeUser(owner) => RevokingKeepsGood(s, 0, owner);
  }

  lemma {:induction false} RunKeepsGood(s: State, steps: seq<Step>)
    requires Good(s)
    ensures Good(Run(s, steps))
    decreases |steps|
  {
    if steps != [] {
      NextKeepsGood(s, steps[0]);
      RunKeepsGood(Next(s, steps[0]), steps[1..]);
    }
  }

  /** However requests interleave, no login ever has two tokens still to be used. */
  lemma NeverTwoUnused(steps: seq<Step>, i: TokenId, j: TokenId)
    ensures var tokens := Run(START, steps).tokens;
      (i in tokens && j in tokens && tokens[i].family == tokens[j].family
       && tokens[i].replaced.None? && tokens[j].replaced.None?) ==> i == j
  {
    RunKeepsGood(START, steps);
  }

  ghost predicate NoTokenOf(s: State, family: Family) {
    family < s.nextFamily && forall id: TokenId :: id in s.tokens ==> s.tokens[id].family != family
  }

  lemma EndedStaysEndedStep(s: State, step: Step, family: Family)
    requires Good(s) && NoTokenOf(s, family)
    ensures NoTokenOf(Next(s, step), family)
  {
  }

  /** A login without tokens never gets one again, not even from a request that read its token before. */
  lemma {:induction false} EndedStaysEnded(s: State, steps: seq<Step>, family: Family)
    requires Good(s) && NoTokenOf(s, family)
    ensures NoTokenOf(Run(s, steps), family)
    decreases |steps|
  {
    if steps != [] {
      NextKeepsGood(s, steps[0]);
      EndedStaysEndedStep(s, steps[0], family);
      EndedStaysEnded(Next(s, steps[0]), steps[1..], family);
    }
  }

  /**
   * A replaced token that comes back after the grace, an expired token and a changed account all end the login for
   * good, whatever runs before or after.
   */
  lemma RevokingEndsTheLogin(before: seq<Step>, request: nat, now: int, session: bool, next: nat, after: seq<Step>)
    requires var s := Run(START, before);
      request in s.pending && Judge(s.pending[request].1, now, session) == Revoke
    ensures var s := Run(START, before);
      NoTokenOf(Run(Next(s, Finish(request, now, session, next)), after), s.pending[request].1.family)
  {
    RunKeepsGood(START, before);
    var s := Run(START, before);
    var step := Finish(request, now, session, next);
    NextKeepsGood(s, step);
    assert NoTokenOf(Next(s, step), s.pending[request].1.family);
    EndedStaysEnded(Next(s, step), after, s.pending[request].1.family);
  }

  ghost predicate Used(s: State, id: TokenId) {
    id < s.nextId && (id in s.tokens ==> s.tokens[id].replaced.Some?)
  }

  lemma {:induction false} UsedStaysUsed(s: State, steps: seq<Step>, id: TokenId)
    requires Good(s) && Used(s, id)
    ensures Used(Run(s, steps), id)
    decreases |steps|
  {
    if steps != [] {
      NextKeepsGood(s, steps[0]);
      assert Used(Next(s, steps[0]), id);
      UsedStaysUsed(Next(s, steps[0]), steps[1..], id);
    }
  }

  /** Of all requests that read a token, at most one ever renews it. */
  lemma OnlyOneRotates(before: seq<Step>, first: nat, now: int, next: nat, after: seq<Step>, hash: nat)
    requires var s := Run(START, before);
      && first in s.pending && Judge(s.pending[first].1, now, true) == Rotate
      && CanRotate(s.tokens, s.pending[first].0, next)
    ensures var s := Run(START, before);
      !CanRotate(Run(Next(s, Finish(first, now, true, next)), after).tokens, s.pending[first].0, hash)
  {
    RunKeepsGood(START, before);
    var s := Run(START, before);
    var step := Finish(first, now, true, next);
    NextKeepsGood(s, step);
    assert Used(Next(s, step), s.pending[first].0);
    UsedStaysUsed(Next(s, step), after, s.pending[first].0);
  }

  // ---------- Revocations ----------

  /** Revoking the logins of an email address takes away its tokens and no other ones. */
  lemma EmailIsRevoked(s: State, email: nat)
    ensures var after := Next(s, RevokeEmail(email)).tokens;
      forall id: TokenId ::
        && (id in after <==> id in s.tokens && s.tokens[id].email != email)
        && (id in after ==> after[id] == s.tokens[id])
  {
  }

  /** Revoking the logins of an account takes away its tokens; logins without an account keep theirs. */
  lemma AccountIsRevoked(s: State, owner: nat)
    ensures var after := Next(s, RevokeUser(owner)).tokens;
      forall id: TokenId ::
        && (id in after <==> id in s.tokens && !(s.tokens[id].user.Some? && s.tokens[id].user.value == owner))
        && (id in after ==> after[id] == s.tokens[id])
  {
  }

  /** A login of a revoked address or account is over for good; every other one keeps its tokens. */
  lemma RevocationEndsLogins(before: seq<Step>, email: nat, owner: nat, after: seq<Step>, id: TokenId)
    requires id in Run(START, before).tokens
    ensures var s := Run(START, before);
      var token := s.tokens[id];
      && (if token.email == email then NoTokenOf(Run(Next(s, RevokeEmail(email)), after), token.family)
          else id in Next(s, RevokeEmail(email)).tokens)
      && (if token.user == Some(owner) then NoTokenOf(Run(Next(s, RevokeUser(owner)), after), token.family)
          else id in Next(s, RevokeUser(owner)).tokens)
  {
    RunKeepsGood(START, before);
    var s := Run(START, before);
    RevokingKeepsGood(s, email, owner);
    if s.tokens[id].email == email {
      EndedStaysEnded(Next(s, RevokeEmail(email)), after, s.tokens[id].family);
    }
    if s.tokens[id].user == Some(owner) {
      EndedStaysEnded(Next(s, RevokeUser(owner)), after, s.tokens[id].family);
    }
  }

  /** The logout of a request ends its login for good and leaves every other one. */
  lemma LogoutEndsTheLogin(before: seq<Step>, request: nat, after: seq<Step>)
    requires request in Run(START, before).pending
    ensures var s := Run(START, before);
      && NoTokenOf(Run(Next(s, Logout(request)), after), s.pending[request].1.family)
      && forall id: TokenId :: id in s.tokens && s.tokens[id].family != s.pending[request].1.family ==>
           id in Next(s, Logout(request)).tokens && Next(s, Logout(request)).tokens[id] == s.tokens[id]
  {
    RunKeepsGood(START, before);
    var s := Run(START, before);
    LogoutKeepsGood(s, request);
    EndedStaysEnded(Next(s, Logout(request)), after, s.pending[request].1.family);
  }

  // ---------- What a refresh does, in plain terms ----------

  /** Expired, replaced more than 30 seconds ago, or of an account that no longer allows the login. */
  predicate IsOver(token: Token, now: int, session: bool) {
    !(now < token.expires) || !session || (token.replaced.Some? && !(now <= token.replaced.value + 30))
  }

  /** The tokens of the login are gone, all others are as they were. */
  ghost predicate LoginGone(tokens: Tokens, after: Tokens, family: Family) {
    forall id: TokenId ::
      && (id in after <==> id in tokens && tokens[id].family != family)
      && (id in after ==> after[id] == tokens[id])
  }

  /** One token is marked as replaced now; a new one for the same login, valid for twelve hours, takes its place. */
  ghost predicate IsRenewed(tokens: Tokens, after: Tokens, id: TokenId, nextId: TokenId, now: int, next: nat) {
    && after.Keys == tokens.Keys + {nextId} && id in tokens
    && after[nextId] == Token(next, tokens[id].family, tokens[id].email, tokens[id].user, now, now + 43_200, None)
    && after[id] == tokens[id].(replaced := Some(now))
    && forall other: TokenId :: other in tokens && other != id ==> after[other] == tokens[other]
  }

  /** Reading only remembers what the table holds of the token, for this request. */
  lemma ReadMeans(s: State, request: nat, id: TokenId, other: nat)
    requires id in s.tokens
    ensures var t := Next(s, Read(request, id));
      && t.tokens == s.tokens && request in t.pending && t.pending[request] == (id, s.tokens[id])
      && (other != request ==> (other in t.pending <==> other in s.pending))
      && (other != request && other in s.pending ==> t.pending[other] == s.pending[other])
  {
  }

  /** A request ends a login that is over, changes nothing in the grace, and renews a token not yet replaced. */
  lemma RefreshMeans(before: seq<Step>, request: nat, now: int, session: bool, next: nat)
    requires request in Run(START, before).pending
    ensures var s := Run(START, before);
      var ((id, read), after) := (s.pending[request], Next(s, Finish(request, now, session, next)).tokens);
      if IsOver(read, now, session) then LoginGone(s.tokens, after, read.family)
      else if read.replaced.None? && id in s.tokens && s.tokens[id].replaced.None? && HashUnused(s.tokens, next)
      then IsRenewed(s.tokens, after, id, s.nextId, now, next)
      else after == s.tokens
  {
    RunKeepsGood(START, before);
  }

  /** A login gets one token, valid for twelve hours, and takes only expired ones away. */
  lemma LoginMeans(s: State, hash: nat, email: nat, user: Option<nat>, now: int)
    requires forall id: TokenId :: id in s.tokens ==> id < s.nextId
    requires forall id: TokenId :: id in s.tokens && now <= s.tokens[id].expires ==> s.tokens[id].hash != hash
    ensures var after := Next(s, Login(hash, email, user, now)).tokens;
      && s.nextId in after && after[s.nextId] == Token(hash, s.nextFamily, email, user, now, now + 43_200, None)
      && forall id: TokenId :: id != s.nextId ==>
           && (id in after <==> id in s.tokens && now <= s.tokens[id].expires)
           && (id in after ==> after[id] == s.tokens[id])
  {
  }
}
