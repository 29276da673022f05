// Refresh tokens and their families: every rotation revokes one token and mints the next of its family.
module RefreshFamilies {
  import opened Prelude

  type Time = int
  type UserId = string

  const LIFETIME_MS := 7 * 24 * 60 * 60 * 1000

  // Tokens and families are drawn from counters, so each is new when it is issued.
  datatype TokenRow = TokenRow(userId: UserId, familyId: nat, revokedAt: Option<Time>, expiresAt: Time)

  datatype Store = Store(tokens: map<nat, TokenRow>, active: set<UserId>, nextToken: nat, nextFamily: nat)

  predicate Live(tokens: map<nat, TokenRow>, t: nat) {
    t in tokens && tokens[t].revokedAt.None?
  }

  ghost predicate DeadFamily(s: Store, family: nat) {
    family < s.nextFamily && forall t :: Live(s.tokens, t) ==> s.tokens[t].familyId != family
  }

  // ── The single statements and transactions ──

  function Minted(s: Store, user: UserId, family: nat, now: Time): Store {
    s.(tokens := s.tokens[s.nextToken := TokenRow(user, family, None, now + LIFETIME_MS)], nextToken := s.nextToken + 1)
  }

  function LoggedIn(s: Store, user: UserId, now: Time): Store {
    Minted(s, user, s.nextFamily, now).(nextFamily := s.nextFamily + 1)
  }

  function Revoke(row: TokenRow, now: Time): TokenRow {
    if row.revokedAt.None? then row.(revokedAt := Some(now)) else row
  }

  function FamilyRevoked(s: Store, family: nat, now: Time): Store {
    s.(tokens := map t | t in s.tokens :: if s.tokens[t].familyId == family then Revoke(s.tokens[t], now) else s.tokens[t])
  }

  function UserRevoked(s: Store, user: UserId, now: Time): Store {
    s.(tokens := map t | t in s.tokens :: if s.tokens[t].userId == user then Revoke(s.tokens[t], now) else s.tokens[t])
  }

  // The guarded revocation decides: when it hits no row the transaction is rolled back and nothing is minted.
  function Rotated(s: Store, t: nat, user: UserId, family: nat, now: Time): Store {
    if !Live(s.tokens, t) then s
    else Minted(s.(tokens := s.tokens[t := Revoke(s.tokens[t], now)]), user, family, now)
  }

  // The live tokens of one family are revoked now; every other row stays as it was, and none is added or removed.
  ghost predicate SignsOutFamily(before: map<nat, TokenRow>, after: map<nat, TokenRow>, family: nat, now: Time) {
    && (forall t :: t in after <==> t in before)
    && (forall t :: t in before && (before[t].familyId != family || before[t].revokedAt != None) ==> after[t] == before[t])
    && (forall t :: t in before && before[t].familyId == family && before[t].revokedAt == None ==>
          after[t] == TokenRow(before[t].userId, family, Some(now), before[t].expiresAt))
  }

  // The same for the live tokens of one user.
  ghost predicate SignsOutUser(before: map<nat, TokenRow>, after: map<nat, TokenRow>, user: UserId, now: Time) {
    && (forall t :: t in after <==> t in before)
    && (forall t :: t in before && (before[t].userId != user || before[t].revokedAt != None) ==> after[t] == before[t])
    && (forall t :: t in before && before[t].userId == user && before[t].revokedAt == None ==>
          after[t] == TokenRow(user, before[t].familyId, Some(now), before[t].expiresAt))
  }

  // The live token is revoked now and its successor of the same user and family is new and live for seven days.
  ghost predicate Rotates(before: map<nat, TokenRow>, after: map<nat, TokenRow>, t: nat, successor: nat, now: Time) {
    && Live(before, t) && successor !in before
    && after == before[t := TokenRow(before[t].userId, before[t].familyId, Some(now), before[t].expiresAt)]
                      [successor := TokenRow(before[t].userId, before[t].familyId, None, now + 604_800_000)]
  }

  // What a refresh goes on to do once it has read its token.
  datatype Decision = Reject | RevokeFamily(family: nat) | Rotate(token: nat, userId: UserId, familyId: nat)

  function Decide(s: Store, t: nat, now: Time): Decision {
    if t !in s.tokens then Reject
    else
      var row := s.tokens[t];
      if row.revokedAt.Some? || row.expiresAt < now then RevokeFamily(row.familyId)
      else if row.userId !in s.active then Reject
      else Rotate(t, row.userId, row.familyId)
  }

  // A refresh goes on to rotate exactly a live, unexpired token of an active account, and revokes a family exactly when
  // the token is known but revoked or expired.
  lemma DecisionMeaning(s: Store, t: nat, now: Time)
    ensures Decide(s, t, now).Rotate? <==> Live(s.tokens, t) && now <= s.tokens[t].expiresAt && s.tokens[t].userId in s.active
    ensures Decide(s, t, now).RevokeFamily? <==> t in s.tokens && (!Live(s.tokens, t) || s.tokens[t].expiresAt < now)
    ensures Decide(s, t, now).RevokeFamily? ==> Decide(s, t, now).family == s.tokens[t].familyId
  {
  }

  // ── Interleavings ──

  // A client is between the read and the write of its request. `log` is history: every rotation that was committed.
  datatype Rotation = Rotation(from: nat, to: nat, family: nat)

  datatype System = System(store: Store, clients: map<nat, Decision>, log: seq<Rotation>)

  datatype Event =
    | Login(user: UserId, at: Time)
    | ReadForRefresh(client: nat, token: nat, at: Time)
    | ReadForLogout(client: nat, token: nat)
    | Write(client: nat, at: Time)
    | RevokeAllSessions(user: UserId, at: Time)
    | SetActive(user: UserId, active: bool)

  function CarriedOut(s: Store, d: Decision, now: Time): Store {
    match d
    case Reject => s
    case RevokeFamily(family) => FamilyRevoked(s, family, now)
    case Rotate(t, user, family) => Rotated(s, t, user, family, now)
  }

  function Written(s: System, client: nat, now: Time): System
    requires client in s.clients
  {
    var d := s.clients[client];
    System(CarriedOut(s.store, d, now), s.clients - {client},
           if d.Rotate? && Live(s.store.tokens, d.token) then s.log + [Rotation(d.token, s.store.nextToken, d.familyId)] else s.log)
  }

  // An event that does not apply does nothing.
  function Next(s: System, e: Event): System {
    match e
    case Login(user, at) => s.(store := LoggedIn(s.store, user, at))
    case ReadForRefresh(client, t, at) =>
      if client in s.clients then s else s.(clients := s.clients[client := Decide(s.store, t, at)])
    case ReadForLogout(client, t) =>
      if client in s.clients || t !in s.store.tokens then s
      else s.(clients := s.clients[client := RevokeFamily(s.store.tokens[t].familyId)])
    case Write(client, at) => if client in s.clients then Written(s, client, at) else s
    case RevokeAllSessions(user, at) => s.(store := UserRevoked(s.store, user, at))
    case SetActive(user, active) =>
      s.(store := s.store.(active := if active then s.store.active + {user} else s.store.active - {user}))
  }

  function Run(s: System, events: seq<Event>): System
    decreases |events|
  {
    if events == [] then s else Run(Next(s, events[0]), events[1..])
  }

  const EMPTY := System(Store(map[], {}, 0, 0), map[], [])

  // ── Invariants ──

  ghost predicate IdsOk(s: Store) {
    forall t :: t in s.tokens ==> t < s.nextToken && s.tokens[t].familyId < s.nextFamily
  }

  ghost predicate OneLiveEach(s: Store) {
    forall t, u :: Live(s.tokens, t) && Live(s.tokens, u) && s.tokens[t].familyId == s.tokens[u].familyId ==> t == u
  }

  ghost predicate OneUserEach(s: Store) {
    forall t, u :: t in s.tokens && u in s.tokens && s.tokens[t].familyId == s.tokens[u].familyId ==>
      s.tokens[t].userId == s.tokens[u].userId
  }

  ghost predicate StoreOk(s: Store) {
    IdsOk(s) && OneLiveEach(s) && OneUserEach(s)
  }

  ghost predicate DecisionOk(s: Store, d: Decision) {
    match d
    case Reject => true
    case RevokeFamily(family) => family < s.nextFamily
    case Rotate(t, user, family) => t in s.tokens && s.tokens[t].userId == user && s.tokens[t].familyId == family
  }

  ghost predicate ClientsOk(s: System) {
    forall c :: c in s.clients ==> DecisionOk(s.store, s.clients[c])
  }

  // Rotated tokens are revoked and stay in the store, and their successors are of their family.
  ghost predicate RotationsOk(s: System) {
    forall i :: 0 <= i < |s.log| ==>
      && s.log[i].from in s.store.tokens && s.log[i].to in s.store.tokens
      && !Live(s.store.tokens, s.log[i].from)
      && s.store.tokens[s.log[i].from].familyId == s.log[i].family == s.store.tokens[s.log[i].to].familyId
  }

  // No token is rotated twice, and no two rotations mint one token.
  ghost predicate RotatedOnce(log: seq<Rotation>) {
    forall i, j :: 0 <= i < j < |log| ==> log[i].from != log[j].from && log[i].to != log[j].to
  }

  ghost predicate LogOk(s: System) {
    RotationsOk(s) && RotatedOnce(s.log)
  }

  ghost function TokensOf(s: Store, family: nat): set<nat> {
    set t | t in s.tokens && s.tokens[t].familyId == family
  }

  function RotationsOf(log: seq<Rotation>, family: nat): nat {
    if log == [] then 0
    else RotationsOf(log[..|log| - 1], family) + if log[|log| - 1].family == family then 1 else 0
  }

  ghost predicate SizesOk(s: System) {
    forall f :: 0 <= f < s.store.nextFamily ==> |TokensOf(s.store, f)| == 1 + RotationsOf(s.log, f)
  }

  ghost predicate Inv(s: System) {
    StoreOk(s.store) && ClientsOk(s) && LogOk(s) && SizesOk(s)
  }

  // Nothing but the revocation column of a row ever changes, and no revocation is undone.
  ghost predicate OnlyRevokes(before: Store, after: Store) {
    && before.nextFamily <= after.nextFamily
    && forall t :: t in before.tokens ==>
         && t in after.tokens
         && after.tokens[t].userId == before.tokens[t].userId
         && after.tokens[t].familyId == before.tokens[t].familyId
         && after.tokens[t].expiresAt == before.tokens[t].expiresAt
         && (before.tokens[t].revokedAt.Some? ==> after.tokens[t] == before.tokens[t])
  }

  lemma LoginKeeps(s: Store, user: UserId, now: Time)
    requires StoreOk(s)
    ensures StoreOk(LoggedIn(s, user, now)) && OnlyRevokes(s, LoggedIn(s, user, now))
  {
  }

  lemma RevokingKeeps(before: Store, after: Store)
    requires StoreOk(before) && before.tokens.Keys == after.tokens.Keys && OnlyRevokes(before, after)
    requires after.nextToken == before.nextToken
    ensures StoreOk(after)
  {
    assert forall t :: Live(after.tokens, t) ==> Live(before.tokens, t);
  }

  lemma RotationRevokes(s: Store, t: nat, user: UserId, family: nat, now: Time)
    requires IdsOk(s) && DecisionOk(s, Rotate(t, user, family))
    ensures IdsOk(Rotated(s, t, user, family, now)) && OnlyRevokes(s, Rotated(s, t, user, family, now))
  {
  }

  lemma RotationKeepsOneLive(s: Store, t: nat, user: UserId, family: nat, now: Time)
    requires IdsOk(s) && OneLiveEach(s) && DecisionOk(s, Rotate(t, user, family))
    ensures OneLiveEach(Rotated(s, t, user, family, now))
  {
    var after := Rotated(s, t, user, family, now);
    if Live(s.tokens, t) {
      forall u, v | Live(after.tokens, u) && Live(after.tokens, v) && after.tokens[u].familyId == after.tokens[v].familyId
        ensures u == v
      {
        if u != s.nextToken { assert Live(s.tokens, u) && u != t && Live(s.tokens, t); }
        if v != s.nextToken { assert Live(s.tokens, v) && v != t && Live(s.tokens, t); }
      }
    }
  }

  lemma RotationKeepsOneUser(s: Store, t: nat, user: UserId, family: nat, now: Time)
    requires IdsOk(s) && OneUserEach(s) && DecisionOk(s, Rotate(t, user, family))
    ensures OneUserEach(Rotated(s, t, user, family, now))
  {
  }

  lemma StoreStep(s: System, e: Event)
    requires StoreOk(s.store) && ClientsOk(s)
    ensures StoreOk(Next(s, e).store) && OnlyRevokes(s.store, Next(s, e).store)
  {
    var after := Next(s, e).store;
    match e
    case Login(user, at) =>
      LoginKeeps(s.store, user, at);
    case Write(client, at) =>
      if client in s.clients {
        assert DecisionOk(s.store, s.clients[client]);
        match s.clients[client]
        case Reject =>
        case RevokeFamily(_) => hide StoreOk; RevokingKeeps(s.store, after);
        case Rotate(t, user, family) =>
          hide IdsOk, OneLiveEach, OneUserEach;
          RotationRevokes(s.store, t, user, family, at);
          RotationKeepsOneLive(s.store, t, user, family, at);
          RotationKeepsOneUser(s.store, t, user, family, at);
      }
    case RevokeAllSessions(_, _) => hide StoreOk; RevokingKeeps(s.store, after);
    case _ =>
  }

  lemma ClientsStep(s: System, e: Event)
    requires StoreOk(s.store) && ClientsOk(s)
    ensures ClientsOk(Next(s, e))
  {
    StoreStep(s, e);
    var s' := Next(s, e);
    forall c | c in s'.clients ensures DecisionOk(s'.store, s'.clients[c]) {
      if c in s.clients { assert DecisionOk(s.store, s.clients[c]); }
    }
  }

  lemma RotationIsLogged(s: System, client: nat, now: Time)
    requires StoreOk(s.store) && LogOk(s) && client in s.clients && s.clients[client].Rotate?
    requires DecisionOk(s.store, s.clients[client]) && Live(s.store.tokens, s.clients[client].token)
    ensures LogOk(Written(s, client, now))
  {
    hide OneLiveEach, OneUserEach;
    var Rotate(t, user, family) := s.clients[client];
    RotationRevokes(s.store, t, user, family, now);
    var s' := Written(s, client, now);
    assert RotationsOk(s');
    forall i, j | 0 <= i < j < |s'.log| ensures s'.log[i].from != s'.log[j].from && s'.log[i].to != s'.log[j].to {
      assert s'.log[i] == s.log[i];
    }
  }

  lemma LogStep(s: System, e: Event)
    requires StoreOk(s.store) && ClientsOk(s) && LogOk(s)
    ensures LogOk(Next(s, e))
  {
    StoreStep(s, e);
    if e.Write? && e.client in s.clients && s.clients[e.client].Rotate? && Live(s.store.tokens, s.clients[e.client].token) {
      assert DecisionOk(s.store, s.clients[e.client]);
      hide StoreOk, ClientsOk, LogOk, OnlyRevokes, DecisionOk;
      RotationIsLogged(s, e.client, e.at);
    } else {
      assert Next(s, e).log == s.log;
      hide StoreOk, ClientsOk, Next;
    }
  }

  lemma {:induction false} NoRotations(log: seq<Rotation>, family: nat)
    requires forall i :: 0 <= i < |log| ==> log[i].family != family
    ensures RotationsOf(log, family) == 0
  {
    if log != [] { NoRotations(log[..|log| - 1], family); }
  }

  lemma RevokingKeepsFamilies(before: Store, after: Store, family: nat)
    requires before.tokens.Keys == after.tokens.Keys && OnlyRevokes(before, after)
    ensures TokensOf(after, family) == TokensOf(before, family)
  {
  }

  lemma MintingAddsOne(s: Store, user: UserId, family: nat, now: Time, f: nat)
    requires StoreOk(s)
    ensures |TokensOf(Minted(s, user, family, now), f)| == |TokensOf(s, f)| + if f == family then 1 else 0
  {
    var after := Minted(s, user, family, now);
    assert s.nextToken !in s.tokens;
    if f == family {
      assert TokensOf(after, f) == TokensOf(s, f) + {s.nextToken};
    } else {
      assert TokensOf(after, f) == TokensOf(s, f);
    }
  }

  lemma RotatingAddsOne(s: System, client: nat, now: Time, f: nat)
    requires StoreOk(s.store) && client in s.clients && s.clients[client].Rotate? && DecisionOk(s.store, s.clients[client])
    ensures var s' := Written(s, client, now);
            |TokensOf(s'.store, f)| - RotationsOf(s'.log, f) == |TokensOf(s.store, f)| - RotationsOf(s.log, f)
  {
    var Rotate(t, user, family) := s.clients[client];
    if Live(s.store.tokens, t) {
      var revoked := s.store.(tokens := s.store.tokens[t := Revoke(s.store.tokens[t], now)]);
      RevokingKeepsFamilies(s.store, revoked, f);
      MintingAddsOne(revoked, user, family, now, f);
      assert Written(s, client, now).log[..|s.log|] == s.log;
    }
  }

  lemma LoginStartsAtOne(s: System, user: UserId, at: Time, f: nat)
    requires StoreOk(s.store) && LogOk(s) && f <= s.store.nextFamily
    ensures |TokensOf(LoggedIn(s.store, user, at), f)| == if f == s.store.nextFamily then 1 else |TokensOf(s.store, f)|
    ensures f == s.store.nextFamily ==> RotationsOf(s.log, f) == 0
  {
    MintingAddsOne(s.store, user, s.store.nextFamily, at, f);
    assert TokensOf(LoggedIn(s.store, user, at), f) == TokensOf(Minted(s.store, user, s.store.nextFamily, at), f);
    if f == s.store.nextFamily {
      assert TokensOf(s.store, f) == {};
      NoRotations(s.log, f);
    }
  }

  lemma SizesFrame(before: System, after: System)
    requires SizesOk(before) && after.log == before.log && after.store.nextFamily == before.store.nextFamily
    requires before.store.tokens.Keys == after.store.tokens.Keys && OnlyRevokes(before.store, after.store)
    ensures SizesOk(after)
  {
    forall f | 0 <= f < after.store.nextFamily ensures |TokensOf(after.store, f)| == 1 + RotationsOf(after.log, f) {
      hide OnlyRevokes, TokensOf;
      RevokingKeepsFamilies(before.store, after.store, f);
    }
  }

  lemma SizesStep(s: System, e: Event)
    requires StoreOk(s.store) && ClientsOk(s) && LogOk(s) && SizesOk(s)
    ensures SizesOk(Next(s, e))
  {
    var s' := Next(s, e);
    StoreStep(s, e);
    if e.Login? {
      hide StoreOk, LogOk, ClientsOk, OnlyRevokes, TokensOf, RotationsOf;
      forall f | 0 <= f < s'.store.nextFamily ensures |TokensOf(s'.store, f)| == 1 + RotationsOf(s'.log, f) {
        LoginStartsAtOne(s, e.user, e.at, f);
      }
    } else if e.Write? && e.client in s.clients && s.clients[e.client].Rotate? {
      assert DecisionOk(s.store, s.clients[e.client]);
      hide StoreOk, LogOk, ClientsOk, OnlyRevokes, DecisionOk, TokensOf, RotationsOf;
      forall f | 0 <= f < s'.store.nextFamily ensures |TokensOf(s'.store, f)| == 1 + RotationsOf(s'.log, f) {
        RotatingAddsOne(s, e.client, e.at, f);
      }
    } else {
      hide StoreOk, LogOk, ClientsOk, OnlyRevokes, SizesOk;
      SizesFrame(s, s');
    }
  }

  lemma {:induction false} RunKeeps(s: System, events: seq<Event>)
    requires Inv(s)
    ensures Inv(Run(s, events))
    decreases |events|
  {
    hide StoreOk, ClientsOk, LogOk, SizesOk, Next;
    if events != [] {
      StoreStep(s, events[0]);
      ClientsStep(s, events[0]);
      LogStep(s, events[0]);
      SizesStep(s, events[0]);
      RunKeeps(Next(s, events[0]), events[1..]);
    }
  }

  // ── Results ──

  // In every interleaving a family has at most one token that is not revoked, no token is rotated twice, and a family
  // holds one token more than it has had rotations.
  lemma FamiliesAreChains(events: seq<Event>)
    ensures var s := Run(EMPTY, events);
            && (forall t, u ::
                  Live(s.store.tokens, t) && Live(s.store.tokens, u)
                  && s.store.tokens[t].familyId == s.store.tokens[u].familyId
                  ==> t == u)
            && (forall i, j :: 0 <= i < j < |s.log| ==> s.log[i].from != s.log[j].from)
            && (forall f :: 0 <= f < s.store.nextFamily ==> |TokensOf(s.store, f)| == 1 + RotationsOf(s.log, f))
  {
    RunKeeps(EMPTY, events);
  }

  // What every step of a run does to the rows: a login adds one live token of a family that no token has, a carried-out
  // revocation signs out its family and nothing else, a carried-out rotation rotates its token if that is still live and
  // does nothing otherwise, revoking all sessions signs out that user and nothing else, and every other step leaves them.
  lemma StepOnRows(s: System, e: Event)
    requires Inv(s)
    ensures var before, after := s.store.tokens, Next(s, e).store.tokens;
            match e
            case Login(user, at) =>
              && s.store.nextToken !in before && (forall t :: t in before ==> before[t].familyId != s.store.nextFamily)
              && after == before[s.store.nextToken := TokenRow(user, s.store.nextFamily, None, at + 604_800_000)]
            case Write(client, at) =>
              if client !in s.clients then after == before
              else (match s.clients[client]
                    case Reject => after == before
                    case RevokeFamily(family) => SignsOutFamily(before, after, family, at)
                    case Rotate(t, _, _) => if Live(before, t) then Rotates(before, after, t, s.store.nextToken, at) else after == before)
            case RevokeAllSessions(user, at) => SignsOutUser(before, after, user, at)
            case _ => after == before
    ensures var before, after := s.store.active, Next(s, e).store.active;
            match e
            case SetActive(user, active) => forall u :: u in after <==> if u == user then active else u in before
            case _ => after == before
  {
    if e.Write? && e.client in s.clients { assert DecisionOk(s.store, s.clients[e.client]); }
    hide LogOk, SizesOk, OneLiveEach, OneUserEach;
  }

  // What every step does to the requests under way: a refresh that has read its token rotates it or revokes its family or
  // is turned away by that row alone, a logout that has read a known token revokes its family, and a write ends its request.
  lemma StepOnRequests(s: System, e: Event)
    ensures var tokens, before, after := s.store.tokens, s.clients, Next(s, e).clients;
            match e
            case ReadForRefresh(client, t, at) =>
              if client in before then after == before
              else after == before[client :=
                if t in tokens && (tokens[t].revokedAt.Some? || tokens[t].expiresAt < at) then RevokeFamily(tokens[t].familyId)
                else if t in tokens && tokens[t].userId in s.store.active then Rotate(t, tokens[t].userId, tokens[t].familyId)
                else Reject]
            case ReadForLogout(client, t) =>
              after == if client in before || t !in tokens then before else before[client := RevokeFamily(tokens[t].familyId)]
            case Write(client, _) => after == before - {client}
            case _ => after == before
  {
  }

  lemma DeadStep(s: System, e: Event, family: nat)
    requires StoreOk(s.store) && ClientsOk(s) && DeadFamily(s.store, family)
    ensures DeadFamily(Next(s, e).store, family)
  {
    StoreStep(s, e);
    if e.Write? && e.client in s.clients { assert DecisionOk(s.store, s.clients[e.client]); }
  }

  // A family without a token that is not revoked never gains one again.
  lemma {:induction false} DeadFamiliesStayDead(s: System, events: seq<Event>, family: nat)
    requires Inv(s) && DeadFamily(s.store, family)
    ensures DeadFamily(Run(s, events).store, family)
    decreases |events|
  {
    hide StoreOk, ClientsOk, LogOk, SizesOk, Next, DeadFamily;
    if events != [] {
      DeadStep(s, events[0], family);
      RunKeeps(s, [events[0]]);
      RunOne(s, events[0]);
      DeadFamiliesStayDead(Next(s, events[0]), events[1..], family);
    }
  }

  lemma RunOne(s: System, e: Event)
    ensures Run(s, [e]) == Next(s, e)
  {
    assert Run(Next(s, e), [e][1..]) == Next(s, e);
  }

  // Presenting a token that has been revoked or has expired, or logging out with any token of the family: once the
  // request has been carried out the family is dead for good, whatever other requests were under way.
  lemma RevokingIsFinal(before: System, client: nat, at: Time, events: seq<Event>)
    requires Inv(before) && client in before.clients && before.clients[client].RevokeFamily?
    ensures DeadFamily(Run(Next(before, Write(client, at)), events).store, before.clients[client].family)
  {
    assert DecisionOk(before.store, before.clients[client]);
    assert DeadFamily(Next(before, Write(client, at)).store, before.clients[client].family);
    RunKeeps(before, [Write(client, at)]);
    RunOne(before, Write(client, at));
    DeadFamiliesStayDead(Next(before, Write(client, at)), events, before.clients[client].family);
  }

  // A token that was rotated once is caught when it comes back: reading it decides to revoke its family.
  lemma RotatedTokenIsCaught(events: seq<Event>, i: nat, now: Time)
    requires i < |Run(EMPTY, events).log|
    ensures var s := Run(EMPTY, events); Decide(s.store, s.log[i].from, now) == RevokeFamily(s.log[i].family)
  {
    RunKeeps(EMPTY, events);
  }

  // Suspending an account: after its sessions are revoked every family it has is dead for good.
  lemma RevokedSessionsStayRevoked(before: System, user: UserId, at: Time, events: seq<Event>, t: nat)
    requires Inv(before) && t in before.store.tokens && before.store.tokens[t].userId == user
    ensures DeadFamily(Run(Next(before, RevokeAllSessions(user, at)), events).store, before.store.tokens[t].familyId)
  {
    assert DeadFamily(Next(before, RevokeAllSessions(user, at)).store, before.store.tokens[t].familyId);
    RunKeeps(before, [RevokeAllSessions(user, at)]);
    RunOne(before, RevokeAllSessions(user, at));
    DeadFamiliesStayDead(Next(before, RevokeAllSessions(user, at)), events, before.store.tokens[t].familyId);
  }

  // Two requests that both read the same live token: whichever writes second is turned away, mints nothing, and leaves
  // the token the first one minted in place.
  lemma SecondRotationLoses(s: System, first: nat, second: nat, at: Time, later: Time)
    requires Inv(s) && first != second && first in s.clients && second in s.clients
    requires s.clients[first].Rotate? && s.clients[second].Rotate? && s.clients[first].token == s.clients[second].token
    requires Live(s.store.tokens, s.clients[first].token)
    ensures var won := Next(s, Write(first, at));
            var lost := Next(won, Write(second, later));
            && lost.store == won.store && lost.log == won.log && |won.log| == |s.log| + 1
            && Live(lost.store.tokens, s.store.nextToken)
            && lost.store.tokens[s.store.nextToken].familyId == s.clients[first].familyId
  {
    assert DecisionOk(s.store, s.clients[first]);
  }

  // ── The service ──

  class AuthService {
    var tokens: map<nat, TokenRow>
    var active: set<UserId>
    var nextToken: nat
    var nextFamily: nat

    constructor ()
      ensures Contents() == EMPTY.store
    {
      tokens, active, nextToken, nextFamily := map[], {}, 0, 0;
    }

    function Contents(): Store
      reads this
    {
      Store(tokens, active, nextToken, nextFamily)
    }

    method GenerateTokens(user: UserId, familyId: Option<nat>, now: Time) returns (token: nat)
      requires IdsOk(Contents())
      modifies this
      ensures token !in old(tokens) && token in tokens && tokens == old(tokens)[token := tokens[token]]
      ensures tokens[token] == TokenRow(user, familyId.GetOr(tokens[token].familyId), None, now + 604_800_000)
      ensures familyId.None? ==> forall t :: t in old(tokens) ==> tokens[t].familyId != tokens[token].familyId
      ensures Contents() == match familyId
                            case Some(family) => Minted(old(Contents()), user, family, now)
                            case None => LoggedIn(old(Contents()), user, now)
    {
      var family := familyId.GetOr(nextFamily);
      if familyId.None? { nextFamily := nextFamily + 1; }
      token := nextToken;
      nextToken := nextToken + 1;
      tokens := tokens[token := TokenRow(user, family, None, now + LIFETIME_MS)];
    }

    method RevokeTokensOfFamily(family: nat, now: Time)
      modifies this`tokens
      ensures SignsOutFamily(old(tokens), tokens, family, now)
      ensures Contents() == FamilyRevoked(old(Contents()), family, now)
    {
      tokens := map t | t in tokens ::
        if tokens[t].familyId == family && tokens[t].revokedAt.None? then tokens[t].(revokedAt := Some(now)) else tokens[t];
    }

    // The rotation transaction: revoke the token if nobody has meanwhile, and mint its successor.
    method RotateToken(t: nat, user: UserId, family: nat, now: Time) returns (successor: Option<nat>)
      requires IdsOk(Contents())
      modifies this
      ensures successor.Some? <==> Live(old(tokens), t)
      ensures successor.None? ==> tokens == old(tokens)
      ensures successor.Some? && old(tokens)[t].userId == user && old(tokens)[t].familyId == family ==>
                Rotates(old(tokens), tokens, t, successor.value, now)
      ensures Contents() == Rotated(old(Contents()), t, user, family, now)
    {
      var revoked := 0;
      if t in tokens && tokens[t].revokedAt.None? {
        tokens := tokens[t := tokens[t].(revokedAt := Some(now))];
        revoked := 1;
      }
      if revoked == 0 { return None; }
      var token := GenerateTokens(user, Some(family), now);
      successor := Some(token);
    }

    // A refresh that nothing interrupts succeeds exactly for a live, unexpired token of an active account.
    method RefreshTokens(t: nat, now: Time) returns (successor: Option<nat>)
      requires IdsOk(Contents())
      modifies this
      ensures successor.Some? <==> Live(old(tokens), t) && now <= old(tokens)[t].expiresAt && old(tokens)[t].userId in old(active)
      ensures successor.Some? ==> Rotates(old(tokens), tokens, t, successor.value, now)
      ensures successor.None? ==>
                if t in old(tokens) && (old(tokens)[t].revokedAt.Some? || old(tokens)[t].expiresAt < now)
                then SignsOutFamily(old(tokens), tokens, old(tokens)[t].familyId, now)
                else tokens == old(tokens)
      ensures Contents() == Run(System(old(Contents()), map[], []), [ReadForRefresh(0, t, now), Write(0, now)]).store
      ensures IdsOk(Contents())
    {
      UninterruptedRefresh(Contents(), t, now);
      hide Run;
      if t !in tokens { return None; }
      var stored := tokens[t];
      if stored.revokedAt.Some? || stored.expiresAt < now {
        RevokeTokensOfFamily(stored.familyId, now);
        return None;
      }
      if stored.userId !in active { return None; }
      successor := RotateToken(t, stored.userId, stored.familyId, now);
    }

    // Logging out is harmless to repeat, and leaves no live token in the family.
    method Logout(presented: Option<nat>, now: Time)
      modifies this`tokens
      ensures if presented.Some? && presented.value in old(tokens)
              then SignsOutFamily(old(tokens), tokens, old(tokens)[presented.value].familyId, now)
              else tokens == old(tokens)
      ensures presented.Some? ==>
                Contents() == Run(System(old(Contents()), map[], []), [ReadForLogout(0, presented.value), Write(0, now)]).store
    {
      if presented.Some? { UninterruptedLogout(Contents(), presented.value, now); }
      hide Run;
      if presented.None? || presented.value !in tokens { return; }
      RevokeTokensOfFamily(tokens[presented.value].familyId, now);
    }

    method RevokeAllSessionsForUser(user: UserId, now: Time) returns (count: nat)
      modifies this`tokens
      ensures SignsOutUser(old(tokens), tokens, user, now)
      ensures count == |set t | t in old(tokens) && Live(old(tokens), t) && old(tokens)[t].userId == user|
    {
      count := |set t | t in tokens && tokens[t].userId == user && tokens[t].revokedAt.None?|;
      assert (set t | t in tokens && tokens[t].userId == user && tokens[t].revokedAt.None?)
          == (set t | t in tokens && Live(tokens, t) && tokens[t].userId == user);
      tokens := map t | t in tokens ::
        if tokens[t].userId == user && tokens[t].revokedAt.None? then tokens[t].(revokedAt := Some(now)) else tokens[t];
    }
  }

  lemma RunTwo(s: System, a: Event, b: Event)
    ensures Run(s, [a, b]) == Next(Next(s, a), b)
  {
    hide Next;
    assert [a, b][1..] == [b];
    RunOne(Next(s, a), b);
  }

  lemma UninterruptedRefresh(s: Store, t: nat, now: Time)
    ensures Run(System(s, map[], []), [ReadForRefresh(0, t, now), Write(0, now)]).store
         == CarriedOut(s, Decide(s, t, now), now)
  {
    RunTwo(System(s, map[], []), ReadForRefresh(0, t, now), Write(0, now));
  }

  lemma UninterruptedLogout(s: Store, t: nat, now: Time)
    ensures Run(System(s, map[], []), [ReadForLogout(0, t), Write(0, now)]).store
         == if t in s.tokens then FamilyRevoked(s, s.tokens[t].familyId, now) else s
  {
    RunTwo(System(s, map[], []), ReadForLogout(0, t), Write(0, now));
  }
}
