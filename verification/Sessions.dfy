/** Login, refresh and logout as concurrent requests on the refresh-token table.
    A token is known by its hash; hashing tells tokens apart. Clocks count
    nanoseconds. */
module Sessions {
  import opened Entities

  const SECOND: Time := 1_000_000_000

  datatype RefreshToken = RefreshToken(userId: Id, expiresAt: Time, revokedAt: Option<Time>, createdAt: Time)

  type Tokens = map<string, RefreshToken>

  /** The token table refuses a hash it already holds. */
  function InsertToken(tokens: Tokens, hash: string, token: RefreshToken): Tokens
  {
    if hash in tokens then tokens else tokens[hash := token]
  }

  /** The conditional revocation: only a token not yet revoked is touched. */
  function Revoke(tokens: Tokens, hash: string, at: Time): Tokens
  {
    if hash in tokens && tokens[hash].revokedAt.None? then tokens[hash := tokens[hash].(revokedAt := Some(at))]
    else tokens
  }

  /** The claim times of an access token are whole seconds, rounded down. */
  function Unix(t: Time): int
  {
    t / SECOND
  }

  /** `users` maps user names to ids. */
  datatype Config = Config(ops: seq<Op>, users: map<string, Id>, accessTtl: Time, refreshTtl: Time)

  /** `hash` is the hash of the token the request presents, or draws; `passes` is
      the outcome of the password comparison. */
  datatype Op =
    | Login(username: string, passes: bool, hash: string)
    | Refresh(hash: string)
    | Logout(hash: string)

  /** An access token; the session, the clock of the check that allowed it and the
      clock it was signed at are not part of the token itself. */
  datatype Access = Access(userId: Id, exp: int, session: string, checkedAt: Time, mintedAt: Time)

  datatype Outcome = LoggedIn(access: Access) | Refreshed(access: Access) | LoggedOut | Unauthorized | ServerError

  datatype Pc =
    | Start
    | Verifying(userId: Id)
    | Issuing(access: Access)
    | Fetching(token: RefreshToken, checkedAt: Time)
    | Revoking
    | Done(outcome: Outcome)

  datatype Fault = NoFault | FailBefore | FailAfter

  datatype Step = Step(rid: nat, at: Time, fault: Fault)

  /** `issued` is auxiliary: the access tokens signed so far. */
  datatype World = World(tokens: Tokens, pcs: seq<Pc>, issued: seq<Access>)

  datatype Move = Move(tokens: Tokens, pc: Pc, minted: seq<Access>)

  function Mint(c: Config, userId: Id, session: string, checkedAt: Time, now: Time): Access
  {
    Access(userId, Unix(now + c.accessTtl), session, checkedAt, now)
  }

  function Act(c: Config, tokens: Tokens, op: Op, pc: Pc, at: Time): Move
  {
    match op
    case Login(username, passes, hash) =>
      (match pc
       case Start =>
         if username !in c.users then Move(tokens, Done(Unauthorized), [])
         else Move(tokens, Verifying(c.users[username]), [])
       case Verifying(userId) =>
         if !passes then Move(tokens, Done(Unauthorized), [])
         else Move(tokens, Issuing(Mint(c, userId, hash, at, at)), [])
       case Issuing(access) =>
         if hash in tokens then Move(tokens, Done(ServerError), [])
         else Move(InsertToken(tokens, hash, RefreshToken(access.userId, at + c.refreshTtl, None, at)),
                   Done(LoggedIn(access)), [access])
       case _ => Move(tokens, pc, []))
    case Refresh(hash) =>
      (match pc
       case Start =>
         if hash !in tokens || tokens[hash].revokedAt.Some? || at > tokens[hash].expiresAt
         then Move(tokens, Done(Unauthorized), [])
         else Move(tokens, Fetching(tokens[hash], at), [])
       case Fetching(token, checkedAt) =>
         if token.userId !in c.users.Values then Move(tokens, Done(ServerError), [])
         else
           var access := Mint(c, token.userId, hash, checkedAt, at);
           Move(tokens, Done(Refreshed(access)), [access])
       case _ => Move(tokens, pc, []))
    case Logout(hash) =>
      match pc
      case Start => Move(tokens, if hash in tokens then Revoking else Done(Unauthorized), [])
      case Revoking => Move(Revoke(tokens, hash, at), Done(LoggedOut), [])
      case _ => Move(tokens, pc, [])
  }

  /** The steps of one request alone, each at its own clock. */
  function Alone(c: Config, tokens: Tokens, op: Op, pc: Pc, clocks: seq<Time>): Move
    decreases |clocks|
  {
    if clocks == [] then Move(tokens, pc, [])
    else
      var m := Act(c, tokens, op, pc, clocks[0]);
      var rest := Alone(c, m.tokens, op, m.pc, clocks[1..]);
      rest.(minted := m.minted + rest.minted)
  }

  lemma TwoSteps(c: Config, tokens: Tokens, op: Op, pc: Pc, first: Time, second: Time)
    ensures var one := Act(c, tokens, op, pc, first);
            var two := Act(c, one.tokens, op, one.pc, second);
            Alone(c, tokens, op, pc, [first, second]) == Move(two.tokens, two.pc, one.minted + two.minted)
  {
    var one := Act(c, tokens, op, pc, first);
    assert [first, second][1..] == [second];
    assert Alone(c, one.tokens, op, one.pc, [second]) == Act(c, one.tokens, op, one.pc, second);
  }

  lemma ThreeSteps(c: Config, tokens: Tokens, op: Op, pc: Pc, first: Time, second: Time, third: Time)
    ensures var one := Act(c, tokens, op, pc, first);
            var two := Act(c, one.tokens, op, one.pc, second);
            var three := Act(c, two.tokens, op, two.pc, third);
            Alone(c, tokens, op, pc, [first, second, third])
              == Move(three.tokens, three.pc, one.minted + (two.minted + three.minted))
  {
    var one := Act(c, tokens, op, pc, first);
    assert [first, second, third][1..] == [second, third];
    TwoSteps(c, one.tokens, op, one.pc, second, third);
  }

  function Next(c: Config, w: World, s: Step): World
  {
    if s.rid >= |c.ops| || s.rid >= |w.pcs| || w.pcs[s.rid].Done? then w
    else if s.fault.FailBefore? then w.(pcs := w.pcs[s.rid := Done(ServerError)])
    else
      var m := Act(c, w.tokens, c.ops[s.rid], w.pcs[s.rid], s.at);
      var pc' := if s.fault.FailAfter? then Done(ServerError) else m.pc;
      World(m.tokens, w.pcs[s.rid := pc'], w.issued + m.minted)
  }

  function Run(c: Config, tokens: Tokens, sched: seq<Step>): World
  {
    if sched == [] then World(tokens, seq(|c.ops|, _ => Start), [])
    else Next(c, Run(c, tokens, sched[..|sched| - 1]), sched[|sched| - 1])
  }

  // ---------- Tokens only ever lose their validity ----------

  /** Rows stay, their owner and lifetime are fixed, and a revocation is final. */
  ghost predicate TokensAge(t: Tokens, t': Tokens)
  {
    forall h :: h in t ==>
      && h in t'
      && t'[h].(revokedAt := None) == t[h].(revokedAt := None)
      && (t[h].revokedAt.Some? ==> t'[h] == t[h])
  }

  lemma NextAges(c: Config, w: World, s: Step)
    ensures TokensAge(w.tokens, Next(c, w, s).tokens)
  {
  }

  lemma {:induction false} RunAges(c: Config, tokens: Tokens, sched: seq<Step>, n: nat)
    requires n <= |sched|
    ensures TokensAge(Run(c, tokens, sched[..n]).tokens, Run(c, tokens, sched).tokens)
  {
    if n == |sched| {
      assert sched[..n] == sched;
    } else {
      assert sched[..|sched| - 1][..n] == sched[..n];
      RunAges(c, tokens, sched[..|sched| - 1], n);
      NextAges(c, Run(c, tokens, sched[..|sched| - 1]), sched[|sched| - 1]);
    }
  }

  /** What each program counter knows of the table. */
  ghost predicate PcOk(c: Config, tokens: Tokens, op: Op, pc: Pc)
  {
    match pc
    case Start => true
    case Verifying(userId) => op.Login? && op.username in c.users && userId == c.users[op.username]
    case Issuing(access) =>
      && op.Login? && op.passes && op.username in c.users && access.userId == c.users[op.username]
      && access.session == op.hash && access.checkedAt == access.mintedAt
      && access.exp == Unix(access.mintedAt + c.accessTtl)
    case Fetching(token, checkedAt) =>
      && op.Refresh? && op.hash in tokens
      && token.revokedAt.None? && checkedAt <= token.expiresAt
      && tokens[op.hash].(revokedAt := None) == token
    case Revoking => op.Logout? && op.hash in tokens
    case Done(outcome) => OutcomeOk(c, tokens, op, outcome)
  }

  /** What each response says of the caller and of the table. */
  ghost predicate OutcomeOk(c: Config, tokens: Tokens, op: Op, outcome: Outcome)
  {
    match outcome
    case LoggedIn(access) =>
      && op.Login? && op.passes && op.username in c.users && access.userId == c.users[op.username]
      && access.session == op.hash && ExpiresInTime(c, access)
      && op.hash in tokens && tokens[op.hash].userId == c.users[op.username]
      && tokens[op.hash].expiresAt == tokens[op.hash].createdAt + c.refreshTtl
    case Refreshed(access) =>
      && op.Refresh? && op.hash in tokens && access.userId == tokens[op.hash].userId && access.userId in c.users.Values
      && access.session == op.hash && ExpiresInTime(c, access)
    case LoggedOut => op.Logout? && op.hash in tokens && tokens[op.hash].revokedAt.Some?
    case Unauthorized => op.Login? ==> op.username !in c.users || !op.passes
    case ServerError => true
  }

  /** The last whole second not after the signing clock plus the access lifetime. */
  predicate ExpiresInTime(c: Config, access: Access)
  {
    access.exp * 1_000_000_000 <= access.mintedAt + c.accessTtl < (access.exp + 1) * 1_000_000_000
  }

  ghost predicate Inv(c: Config, w: World)
  {
    |w.pcs| == |c.ops| && forall r :: 0 <= r < |c.ops| ==> PcOk(c, w.tokens, c.ops[r], w.pcs[r])
  }

  lemma NextKeepsInv(c: Config, w: World, s: Step)
    requires Inv(c, w)
    ensures Inv(c, Next(c, w, s))
  {
    NextAges(c, w, s);
    var w' := Next(c, w, s);
    if s.rid < |c.ops| {
      assert PcOk(c, w.tokens, c.ops[s.rid], w.pcs[s.rid]);
      assert PcOk(c, w'.tokens, c.ops[s.rid], w'.pcs[s.rid]);
    }
    forall r | 0 <= r < |c.ops| && r != s.rid ensures PcOk(c, w'.tokens, c.ops[r], w'.pcs[r]) {
      assert PcOk(c, w.tokens, c.ops[r], w.pcs[r]);
    }
  }

  lemma {:induction false} RunKeepsInv(c: Config, tokens: Tokens, sched: seq<Step>)
    ensures Inv(c, Run(c, tokens, sched))
  {
    if sched != [] {
      RunKeepsInv(c, tokens, sched[..|sched| - 1]);
      NextKeepsInv(c, Run(c, tokens, sched[..|sched| - 1]), sched[|sched| - 1]);
    }
  }

  /** The first revocation of a token is never overwritten, and nothing extends a
      token's lifetime, whatever logouts and refreshes follow. */
  lemma RevocationIsFinal(c: Config, tokens: Tokens, sched: seq<Step>, n: nat, h: string)
    requires n <= |sched| && h in Run(c, tokens, sched[..n]).tokens
    ensures var now, later := Run(c, tokens, sched[..n]).tokens[h], Run(c, tokens, sched).tokens;
            && h in later
            && later[h].expiresAt == now.expiresAt && later[h].userId == now.userId
            && later[h].createdAt == now.createdAt
            && (now.revokedAt.Some? ==> later[h].revokedAt == now.revokedAt)
  {
    RunAges(c, tokens, sched, n);
    var now, later := Run(c, tokens, sched[..n]).tokens[h], Run(c, tokens, sched).tokens[h];
    assert later.(revokedAt := None) == now.(revokedAt := None);
    assert later.(revokedAt := None).expiresAt == now.(revokedAt := None).expiresAt;
  }

  /** Once a logout has succeeded, no refresh with that token that starts later
      succeeds, in any interleaving. */
  lemma {:induction false} LogoutIsFinal(c: Config, tokens: Tokens, sched: seq<Step>, n: nat, logout: nat, refresh: nat)
    requires n <= |sched| && logout < |c.ops| && refresh < |c.ops|
    requires c.ops[logout].Logout? && c.ops[refresh] == Refresh(c.ops[logout].hash)
    requires var w := Run(c, tokens, sched[..n]);
             |w.pcs| == |c.ops| && w.pcs[logout] == Done(LoggedOut) && w.pcs[refresh].Start?
    ensures var w := Run(c, tokens, sched);
            && |w.pcs| == |c.ops|
            && w.pcs[refresh] in {Start, Done(Unauthorized), Done(ServerError)}
  {
    if n == |sched| {
      assert sched[..n] == sched;
    } else {
      var p := sched[..|sched| - 1];
      assert p[..n] == sched[..n];
      LogoutIsFinal(c, tokens, p, n, logout, refresh);
      RunKeepsInv(c, tokens, sched[..n]);
      assert PcOk(c, Run(c, tokens, sched[..n]).tokens, c.ops[logout], Done(LoggedOut));
      RunAges(c, tokens, p, n);
    }
  }

  /** In every run, a login succeeds only with the right password of a known user, and
      for that user: the access token is theirs, and so is the session stored under
      the hash. It is turned down only for an unknown user or a wrong password. */
  lemma LoginIsAuthentic(c: Config, tokens: Tokens, sched: seq<Step>, r: nat)
    requires r < |c.ops| && c.ops[r].Login?
    ensures var w, op := Run(c, tokens, sched), c.ops[r];
            && r < |w.pcs|
            && match w.pcs[r]
               case Done(LoggedIn(access)) =>
                 && op.passes && op.username in c.users && access.userId == c.users[op.username]
                 && op.hash in w.tokens && w.tokens[op.hash].userId == c.users[op.username]
                 && w.tokens[op.hash].expiresAt == w.tokens[op.hash].createdAt + c.refreshTtl
                 && access.exp * 1_000_000_000 <= access.mintedAt + c.accessTtl < (access.exp + 1) * 1_000_000_000
               case Done(Unauthorized) => op.username !in c.users || !op.passes
               case Done(outcome) => outcome.ServerError?
               case _ => true
  {
    RunKeepsInv(c, tokens, sched);
    assert PcOk(c, Run(c, tokens, sched).tokens, c.ops[r], Run(c, tokens, sched).pcs[r]);
  }

  // ---------- A login bounds every access token of its session ----------

  /** What is known of an issued access token and its session. */
  ghost predicate AccessOk(c: Config, tokens: Tokens, a: Access)
  {
    && a.session in tokens
    && a.exp == Unix(a.mintedAt + c.accessTtl)
    && (|| a.checkedAt <= tokens[a.session].expiresAt
        || (a.checkedAt == a.mintedAt && a.mintedAt <= tokens[a.session].createdAt))
  }

  ghost predicate TokenOk(c: Config, tokens: Tokens)
  {
    forall h :: h in tokens ==> tokens[h].expiresAt == tokens[h].createdAt + c.refreshTtl
  }

  /** The shared clock does not run backwards. */
  ghost predicate ClockAdvances(sched: seq<Step>)
  {
    forall i, j :: 0 <= i < j < |sched| ==> sched[i].at <= sched[j].at
  }

  ghost predicate SessionsOk(c: Config, w: World, now: Option<Time>)
  {
    && Inv(c, w) && TokenOk(c, w.tokens)
    && (forall a :: a in w.issued ==> AccessOk(c, w.tokens, a))
    && (forall r :: 0 <= r < |w.pcs| && w.pcs[r].Issuing? ==> now.Some? && w.pcs[r].access.mintedAt <= now.value)
  }

  lemma NextSessionsOk(c: Config, w: World, s: Step, now: Option<Time>)
    requires SessionsOk(c, w, now) && (now.Some? ==> now.value <= s.at)
    ensures SessionsOk(c, Next(c, w, s), Some(s.at))
  {
    var w' := Next(c, w, s);
    NextKeepsInv(c, w, s);
    NextAges(c, w, s);
    if s.rid < |c.ops| {
      assert PcOk(c, w.tokens, c.ops[s.rid], w.pcs[s.rid]);
    }
    forall a | a in w.issued ensures AccessOk(c, w'.tokens, a) {
      assert AccessOk(c, w.tokens, a);
      AccessStays(c, w.tokens, w'.tokens, a);
    }
    assert TokenOk(c, w'.tokens);
  }

  lemma AccessStays(c: Config, t: Tokens, t': Tokens, a: Access)
    requires AccessOk(c, t, a) && TokensAge(t, t')
    ensures AccessOk(c, t', a)
  {
    var x, y := t[a.session].(revokedAt := None), t'[a.session].(revokedAt := None);
    assert x == y && x.expiresAt == t[a.session].expiresAt && y.expiresAt == t'[a.session].expiresAt;
  }

  lemma {:induction false} RunSessionsOk(c: Config, tokens: Tokens, sched: seq<Step>)
    requires TokenOk(c, tokens) && ClockAdvances(sched)
    ensures SessionsOk(c, Run(c, tokens, sched), if sched == [] then None else Some(sched[|sched| - 1].at))
  {
    if sched != [] {
      RunSessionsOk(c, tokens, sched[..|sched| - 1]);
      NextSessionsOk(c, Run(c, tokens, sched[..|sched| - 1]), sched[|sched| - 1],
                     if |sched| == 1 then None else Some(sched[|sched| - 2].at));
    }
  }

  /** No refresh rotates or extends a session: whatever logins, refreshes and
      logouts interleave, an access token expires, in whole seconds, no later than
      its refresh token's issue plus both lifetimes plus the time its refresh took
      between the check and the signature. */
  lemma SessionIsBounded(c: Config, tokens: Tokens, sched: seq<Step>, a: Access, latency: Time)
    requires TokenOk(c, tokens) && ClockAdvances(sched) && c.refreshTtl >= 0
    requires a in Run(c, tokens, sched).issued && a.mintedAt - a.checkedAt <= latency && 0 <= latency
    ensures a.session in Run(c, tokens, sched).tokens
    ensures a.exp <= Unix(Run(c, tokens, sched).tokens[a.session].createdAt + c.refreshTtl + c.accessTtl + latency)
  {
    RunSessionsOk(c, tokens, sched);
    assert AccessOk(c, Run(c, tokens, sched).tokens, a);
    var issue := Run(c, tokens, sched).tokens[a.session].createdAt;
    UnixMonotone(a.mintedAt + c.accessTtl, issue + c.refreshTtl + c.accessTtl + latency);
  }

  lemma UnixMonotone(x: Time, y: Time)
    requires x <= y
    ensures Unix(x) <= Unix(y)
  {
  }

  /** The clock of the check behind a refresh that passed it. */
  function CheckOf(pc: Pc): Option<Time>
  {
    match pc
    case Fetching(_, checkedAt) => Some(checkedAt)
    case Done(Refreshed(access)) => Some(access.checkedAt)
    case _ => None
  }

  /** Behind every successful refresh there is one moment, its own first step, at
      which the presented token was stored, not revoked and not expired; and the
      access token is for that token's user and session. */
  lemma {:induction false} RefreshHasCheck(c: Config, tokens: Tokens, sched: seq<Step>, r: nat) returns (n: nat)
    requires r < |c.ops| && c.ops[r].Refresh?
    requires var w := Run(c, tokens, sched); r < |w.pcs| && CheckOf(w.pcs[r]).Some?
    ensures n < |sched| && sched[n].rid == r && Some(sched[n].at) == CheckOf(Run(c, tokens, sched).pcs[r])
    ensures var h, past := c.ops[r].hash, Run(c, tokens, sched[..n]);
            && r < |past.pcs| && past.pcs[r].Start?
            && h in past.tokens && past.tokens[h].revokedAt.None? && sched[n].at <= past.tokens[h].expiresAt
            && match Run(c, tokens, sched).pcs[r]
               case Fetching(token, _) => token == past.tokens[h]
               case Done(Refreshed(access)) => access.session == h && access.userId == past.tokens[h].userId
               case _ => true
  {
    var p, s := sched[..|sched| - 1], sched[|sched| - 1];
    var w := Run(c, tokens, p);
    if CheckOf(w.pcs[r]).Some? {
      n := RefreshHasCheck(c, tokens, p, r);
      assert p[..n] == sched[..n];
    } else {
      n := |sched| - 1;
    }
  }
}
