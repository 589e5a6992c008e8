/**
 The installation-session protocol, extension and server together.

 The extension keeps one stored session and one slot for a refresh in flight. A refresh is started
 in one step with reading the stored session, travels to the server, is answered there (or not),
 and its answer reaches the extension (or not). A bind is answered to the page that bridges it to
 the extension, which saves it in a later step. Server operations on the same installation by
 other parties may come in between at any point.
 */
module SessionProtocol {
  import opened Common
  import opened InstallationSessions
  import Text

  const REFRESH_WINDOW_MS := 300000

  /** An expiry that cannot be read is None; it counts as never. */
  datatype StoredSession = StoredSession(token: Token, expiresAt: Option<int>)

  /** More than `ms` of the session's time is left. */
  predicate Remains(session: StoredSession, now: int, ms: int) {
    session.expiresAt.Some? ==> session.expiresAt.value - now > ms
  }

  /** The answer to a refresh: a new session, a 401 given at some time, or any other error status. */
  datatype Answer = Renewed(session: StoredSession) | Rejected(at: int) | Unavailable

  // ---------------------------------------------------------------- the extension

  /** `slot` is `installationSessionRefreshPromise`, as the number of the exchange it waits for. */
  datatype Client = Client(stored: Option<StoredSession>, slot: Option<nat>)

  /** What a caller that asks for a valid session is told at once. */
  datatype Decision = ReconnectMissing | UseStored(session: StoredSession) | Join(exchange: nat) | Start(token: Token)

  function Decide(c: Client, force: bool, now: int): Decision {
    match c.stored
    case None => ReconnectMissing
    case Some(session) =>
      if !force && Remains(session, now, REFRESH_WINDOW_MS) then UseStored(session)
      else if c.slot.Some? then Join(c.slot.value)
      else Start(session.token)
  }

  /** The answer of the awaited exchange has arrived; None is a response that never arrives. */
  function Settle(c: Client, answer: Option<Answer>): Client {
    match answer
    case Some(Renewed(session)) => Client(Some(session), None)
    case Some(Rejected(_)) => Client(None, None)
    case _ => c.(slot := None)
  }

  /** What a caller that waited gets: `read` is the session it had read, `readAt` when. */
  datatype Handed = Usable(session: StoredSession) | ReconnectExpired | Unreachable

  function Hand(read: StoredSession, readAt: int, answer: Option<Answer>): Handed {
    match answer
    case Some(Renewed(session)) => Usable(session)
    case Some(Rejected(_)) => ReconnectExpired
    case _ => if Remains(read, readAt, 0) then Usable(read) else Unreachable
  }

  /** The stored session is used as it is exactly when the call is unforced and its expiry more than five minutes ahead. */
  lemma DecisionMeaning(c: Client, force: bool, now: int)
    ensures Decide(c, force, now) == ReconnectMissing <==> c.stored.None?
    ensures forall s :: Decide(c, force, now) == UseStored(s) <==>
              c.stored == Some(s) && !force && (s.expiresAt.None? || s.expiresAt.value - now > 300000)
    ensures forall k: nat :: Decide(c, force, now) == Join(k) <==>
              && c.stored.Some? && c.slot == Some(k)
              && (force || (c.stored.value.expiresAt.Some? && c.stored.value.expiresAt.value - now <= 300000))
    ensures forall token :: Decide(c, force, now) == Start(token) <==>
              && c.stored.Some? && c.slot.None? && token == c.stored.value.token
              && (force || (c.stored.value.expiresAt.Some? && c.stored.value.expiresAt.value - now <= 300000))
  {
  }

  lemma ExpiredIsNotUsedAtOnce(c: Client, force: bool, now: int, session: StoredSession)
    requires c.stored == Some(session) && session.expiresAt.Some? && session.expiresAt.value <= now
    ensures !Decide(c, force, now).UseStored?
    ensures Decide(c, force, now) == Start(session.token) || (c.slot.Some? && Decide(c, force, now) == Join(c.slot.value))
  {
    DecisionMeaning(c, force, now);
    assert Decide(c, force, now) != ReconnectMissing;
  }

  /** An answer replaces or clears the stored session, or leaves it, and always frees the slot. */
  lemma SettleMeaning(c: Client, answer: Option<Answer>)
    ensures Settle(c, answer).slot == None
    ensures forall s :: answer == Some(Renewed(s)) ==> Settle(c, answer).stored == Some(s)
    ensures forall at :: answer == Some(Rejected(at)) ==> Settle(c, answer).stored == None
    ensures answer == None || answer == Some(Unavailable) ==> Settle(c, answer).stored == c.stored
  {
  }

  /**
   A waiting caller gets the renewed session. Without an answer it gets the one it had read as long as that had not
   expired then; after a 401 it gets none.
   */
  lemma HandMeaning(read: StoredSession, readAt: int, answer: Option<Answer>)
    ensures forall s :: Hand(read, readAt, answer) == Usable(s) <==>
              || answer == Some(Renewed(s))
              || ( && s == read && (answer == None || answer == Some(Unavailable))
                   && (read.expiresAt.None? || read.expiresAt.value > readAt))
    ensures Hand(read, readAt, answer) == ReconnectExpired <==> exists at :: answer == Some(Rejected(at))
    ensures Hand(read, readAt, answer) == Unreachable <==>
              && (answer == None || answer == Some(Unavailable))
              && read.expiresAt.Some? && read.expiresAt.value <= readAt
  {
    if answer.Some? && answer.value.Rejected? {
      assert answer == Some(Rejected(answer.value.at));
    }
  }

  class PlatformRuntimeClient {
    var storedSession: Option<StoredSession>
    var installationSessionRefresh: Option<nat>

    constructor ()
      ensures State() == Client(None, None)
    {
      storedSession, installationSessionRefresh := None, None;
    }

    ghost function State(): Client
      reads this
    {
      Client(storedSession, installationSessionRefresh)
    }

    /** Up to the first wait: read the stored session and join or start the refresh, which would be exchange `next`. */
    method EnsureValidInstallationSession(forceRefresh: bool, now: int, next: nat) returns (decision: Decision)
      modifies this
      ensures decision == Decide(old(State()), forceRefresh, now)
      ensures State() == if decision.Start? then old(State()).(slot := Some(next)) else old(State())
    {
      if storedSession.None? {
        return ReconnectMissing;
      }
      var session := storedSession.value;
      var shouldProactivelyRefresh := forceRefresh;
      if session.expiresAt.Some? {
        var remainingMs := session.expiresAt.value - now;
        shouldProactivelyRefresh := forceRefresh || remainingMs <= REFRESH_WINDOW_MS;
      }
      if !shouldProactivelyRefresh {
        return UseStored(session);
      }
      if installationSessionRefresh.Some? {
        return Join(installationSessionRefresh.value);
      }
      installationSessionRefresh := Some(next);
      return Start(session.token);
    }

    /** After the wait: save before returning, clear on 401, and free the slot in every case. */
    method FinishRefresh(answer: Option<Answer>)
      modifies this
      ensures State() == Settle(old(State()), answer)
    {
      if answer.Some? && answer.value.Renewed? {
        storedSession := Some(answer.value.session);
      } else if answer.Some? && answer.value.Rejected? {
        storedSession := None;
      }
      installationSessionRefresh := None;
    }

    method SaveBindResult(session: StoredSession)
      modifies this
      ensures State() == old(State()).(stored := Some(session))
    {
      storedSession := Some(session);
    }
  }

  // ---------------------------------------------------------------- both sides

  datatype Ending = Awaited | Succeeded | Refused | Abandoned

  /** One refresh request: the token it submits, the server's answer if it has given one, how it ended for the extension. */
  datatype Exchange = Exchange(token: Token, answer: Option<Answer>, ending: Ending)

  datatype World = World(
    id: string, tables: Tables, client: Client, exchanges: seq<Exchange>, binds: set<StoredSession>)

  datatype Event =
    | ServerOp(request: Request, context: Context)  // anyone's operation; its reply does not reach the extension
    | ConnectBind(userId: string, handshake: Handshake, metadata: DeviceMetadata, context: Context)
    | SaveBind(session: StoredSession)
    | Ensure(force: bool, now: int)
    | Answered(k: nat, context: Context)            // the server executes the refresh of exchange k
    | Outage(k: nat)                                // it answers with an error without executing it
    | Receive(k: nat)                               // the answer arrives
    | Lose(k: nat)                                  // the extension's request fails without a usable answer

  /** The event can happen: only the extension submits its own tokens, answers follow requests. */
  predicate Enabled(w: World, e: Event) {
    match e
    case ServerOp(r, _) => r.Refresh? ==> Subject(w.tables, r) != Some(w.id)
    case ConnectBind(_, _, _, _) => true
    case SaveBind(session) => session in w.binds
    case Ensure(_, _) => true
    case Answered(k, _) => k < |w.exchanges| && w.exchanges[k].answer.None?
    case Outage(k) => k < |w.exchanges| && w.exchanges[k].answer.None?
    case Receive(k) => w.client.slot == Some(k) && k < |w.exchanges| && w.exchanges[k].answer.Some?
    case Lose(k) => w.client.slot == Some(k) && k < |w.exchanges|
  }

  function IssuedSession(token: Token, c: Context): StoredSession {
    StoredSession(token, Some(c.now + c.lifetimeMs))
  }

  function RefreshAnswer(reply: Reply, c: Context): Answer {
    match reply
    case Issued(token) => Renewed(IssuedSession(token, c))
    case _ => Rejected(c.now)
  }

  function Next(w: World, e: Event): World
    requires Enabled(w, e)
  {
    match e
    case ServerOp(r, c) => w.(tables := Step(w.tables, r, c).0)
    case ConnectBind(userId, handshake, metadata, c) =>
      var (tables, reply) := Step(w.tables, Bind(userId, w.id, Some(handshake), metadata), c);
      w.(tables := tables,
         binds := if reply.Issued? then w.binds + {IssuedSession(reply.token, c)} else w.binds)
    case SaveBind(session) => w.(client := w.client.(stored := Some(session)), binds := w.binds - {session})
    case Ensure(force, now) =>
      var decision := Decide(w.client, force, now);
      if decision.Start? then
        w.(client := w.client.(slot := Some(|w.exchanges|)),
           exchanges := w.exchanges + [Exchange(decision.token, None, Awaited)])
      else w
    case Answered(k, c) =>
      var (tables, reply) := Step(w.tables, Refresh(w.exchanges[k].token), c);
      w.(tables := tables,
         exchanges := w.exchanges[k := w.exchanges[k].(answer := Some(RefreshAnswer(reply, c)))])
    case Outage(k) => w.(exchanges := w.exchanges[k := w.exchanges[k].(answer := Some(Unavailable))])
    case Receive(k) =>
      var x := w.exchanges[k];
      var ending := if x.answer.value.Renewed? then Succeeded else if x.answer.value.Rejected? then Refused else Abandoned;
      w.(client := Settle(w.client, x.answer), exchanges := w.exchanges[k := x.(ending := ending)])
    case Lose(k) =>
      w.(client := Settle(w.client, None), exchanges := w.exchanges[k := w.exchanges[k].(ending := Abandoned)])
  }

  /**
   Asking for a valid session sends one refresh, of the stored token, exactly when a session is stored, none is in
   flight, and it is forced or within five minutes of its expiry. Otherwise nothing changes.
   */
  lemma EnsureMeaning(w: World, force: bool, now: int)
    ensures && Next(w, Ensure(force, now)).tables == w.tables
            && Next(w, Ensure(force, now)).client.stored == w.client.stored
            && Next(w, Ensure(force, now)).binds == w.binds
    ensures var sends := && w.client.stored.Some? && w.client.slot.None?
                         && (force || ( && w.client.stored.value.expiresAt.Some?
                                        && w.client.stored.value.expiresAt.value <= now + 300000));
            if sends then
              && Next(w, Ensure(force, now)).exchanges
                 == w.exchanges + [Exchange(w.client.stored.value.token, None, Awaited)]
              && Next(w, Ensure(force, now)).client.slot == Some(|w.exchanges|)
            else Next(w, Ensure(force, now)) == w
  {
    DecisionMeaning(w.client, force, now);
  }

  /** Only exchange k differs, and of it the answer or the ending. */
  ghost predicate OnlyExchange(w: World, after: World, k: nat, answer: Option<Answer>, ending: Ending)
    requires k < |w.exchanges|
  {
    && |after.exchanges| == |w.exchanges|
    && after.exchanges[k] == Exchange(w.exchanges[k].token, answer, ending)
    && forall i :: 0 <= i < |w.exchanges| && i != k ==> after.exchanges[i] == w.exchanges[i]
  }

  /** What the server does with a refresh: it answers with the session it issues, with a 401, or with another error. */
  lemma AnswerMeaning(w: World, k: nat, c: Context)
    requires Enabled(w, Outage(k))
    ensures var (tables, reply) := Step(w.tables, Refresh(w.exchanges[k].token), c);
            var after := Next(w, Answered(k, c));
            && after.tables == tables && after.client == w.client && after.binds == w.binds
            && OnlyExchange(w, after, k,
                            if reply.Issued? then Some(Renewed(StoredSession(reply.token, Some(c.now + c.lifetimeMs))))
                            else Some(Rejected(c.now)),
                            w.exchanges[k].ending)
    ensures var after := Next(w, Outage(k));
            && after.tables == w.tables && after.client == w.client && after.binds == w.binds
            && OnlyExchange(w, after, k, Some(Unavailable), w.exchanges[k].ending)
  {
  }

  /** What the extension does when an answer arrives, or when none will. */
  lemma ArrivalMeaning(w: World, k: nat)
    requires Enabled(w, Lose(k))
    ensures w.exchanges[k].answer.Some? ==>
              var after, answer := Next(w, Receive(k)), w.exchanges[k].answer.value;
              && after.tables == w.tables && after.binds == w.binds && after.client.slot == None
              && after.client.stored == (match answer
                                         case Renewed(session) => Some(session)
                                         case Rejected(_) => None
                                         case Unavailable => w.client.stored)
              && OnlyExchange(w, after, k, w.exchanges[k].answer,
                              match answer
                              case Renewed(_) => Succeeded
                              case Rejected(_) => Refused
                              case Unavailable => Abandoned)
    ensures var after := Next(w, Lose(k));
            && after.tables == w.tables && after.binds == w.binds && after.client == Client(w.client.stored, None)
            && OnlyExchange(w, after, k, w.exchanges[k].answer, Abandoned)
  {
  }

  // ---------------------------------------------------------------- what every run keeps

  /** A token of this extension's installation that it has not yet submitted. */
  ghost predicate Unsubmitted(w: World, token: Token) {
    forall k :: 0 <= k < |w.exchanges| ==> w.exchanges[k].token != token
  }

  /** Exchange k carries a new session that has not been saved. */
  predicate Carries(x: Exchange) {
    x.answer.Some? && x.answer.value.Renewed? && x.ending != Succeeded
  }

  ghost predicate Known(w: World, session: StoredSession) {
    && session.token < |w.tables.sessions|
    && w.tables.sessions[session.token].installationId == w.id
    && session.expiresAt == Some(w.tables.sessions[session.token].expiresAt)
  }

  /** The single flight: the slot names the one exchange still awaited, the last one started. */
  ghost predicate SingleFlight(w: World) {
    && (w.client.slot.Some? ==> w.client.stored.Some? && w.client.slot.value == |w.exchanges| - 1)
    && forall k :: 0 <= k < |w.exchanges| ==> (w.exchanges[k].ending == Awaited <==> w.client.slot == Some(k))
  }

  ghost predicate TokensKnown(w: World) {
    && (w.client.stored.Some? ==> Known(w, w.client.stored.value))
    && (forall b :: b in w.binds ==> Known(w, b))
    && (forall k :: 0 <= k < |w.exchanges| ==>
          && w.exchanges[k].token < |w.tables.sessions|
          && w.tables.sessions[w.exchanges[k].token].installationId == w.id)
    && (forall k :: 0 <= k < |w.exchanges| && Carries(w.exchanges[k]) ==> Known(w, w.exchanges[k].answer.value.session))
  }

  ghost predicate BindsNew(w: World) {
    && (forall b :: b in w.binds ==> Unsubmitted(w, b.token))
    && (forall b, b' :: b in w.binds && b' in w.binds && b.token == b'.token ==> b == b')
    && (forall b :: b in w.binds && w.client.stored.Some? ==> b.token != w.client.stored.value.token)
  }

  ghost predicate CarriedDiffer(exchanges: seq<Exchange>) {
    forall k, j :: 0 <= k < j < |exchanges| && Carries(exchanges[k]) && Carries(exchanges[j])
                   ==> exchanges[k].answer.value.session.token != exchanges[j].answer.value.session.token
  }

  /** Sessions on their way to the store are new: never submitted, and no two of them share a token. */
  ghost predicate IncomingNew(w: World) {
    && BindsNew(w)
    && CarriedDiffer(w.exchanges)
    && (forall k :: 0 <= k < |w.exchanges| && Carries(w.exchanges[k]) ==> CarriesNew(w, k))
  }

  ghost predicate CarriesNew(w: World, k: nat)
    requires k < |w.exchanges| && Carries(w.exchanges[k])
  {
    var token := w.exchanges[k].answer.value.session.token;
    && Unsubmitted(w, token)
    && (forall b :: b in w.binds ==> b.token != token)
    && (w.client.stored.Some? ==> token != w.client.stored.value.token)
  }

  /** No token whose refresh succeeded is submitted again, or stored. */
  ghost predicate NeverResubmitted(w: World) {
    && (forall i, j :: 0 <= i < j < |w.exchanges| && w.exchanges[i].ending == Succeeded
          ==> w.exchanges[j].token != w.exchanges[i].token)
    && (forall i :: 0 <= i < |w.exchanges| && w.exchanges[i].ending == Succeeded && w.client.stored.Some?
          ==> w.client.stored.value.token != w.exchanges[i].token)
  }

  ghost predicate Invariant(w: World) {
    && Consistent(w.tables)
    && SingleFlight(w)
    && TokensKnown(w)
    && IncomingNew(w)
    && NeverResubmitted(w)
    && Text.Trim(w.id) == w.id
  }

  lemma KnownAfterGrowth(w: World, tables: Tables)
    requires TokensKnown(w) && Extends(w.tables.sessions, tables.sessions)
    ensures TokensKnown(w.(tables := tables))
  {
  }

  lemma ServerOpKeepsInvariant(w: World, r: Request, c: Context)
    requires Invariant(w)
    ensures Invariant(w.(tables := Step(w.tables, r, c).0))
  {
    StepKeepsConsistent(w.tables, r, c);
    StepExtends(w.tables, r, c);
    KnownAfterGrowth(w, Step(w.tables, r, c).0);
  }

  lemma ConnectBindKeepsInvariant(w: World, e: Event)
    requires Invariant(w) && e.ConnectBind?
    ensures Invariant(Next(w, e))
  {
    var r := Bind(e.userId, w.id, Some(e.handshake), e.metadata);
    ServerOpKeepsInvariant(w, r, e.context);
    var (tables, reply) := Step(w.tables, r, e.context);
    if reply.Issued? {
      var bound := IssuedSession(reply.token, e.context);
      NewTokenIsUnseen(w, bound.token);
      assert Unseen(w.(tables := tables), bound.token);
      AddBindKeepsInvariant(w.(tables := tables), bound);
    }
  }

  /** No session with this token is stored, submitted or on its way. */
  ghost predicate Unseen(w: World, token: Token) {
    && Unsubmitted(w, token)
    && (w.client.stored.Some? ==> w.client.stored.value.token != token)
    && (forall b :: b in w.binds ==> b.token != token)
    && (forall k :: 0 <= k < |w.exchanges| && Carries(w.exchanges[k]) ==> w.exchanges[k].answer.value.session.token != token)
  }

  lemma AddBindKeepsIncoming(w: World, bound: StoredSession)
    requires IncomingNew(w) && Unseen(w, bound.token)
    ensures IncomingNew(w.(binds := w.binds + {bound}))
  {
    var after := w.(binds := w.binds + {bound});
    assert BindsNew(after) by {
      assert forall b :: b in w.binds ==> Unsubmitted(w, b.token);
      assert Unsubmitted(after, bound.token);
    }
    forall k: nat | k < |after.exchanges| && Carries(after.exchanges[k])
      ensures CarriesNew(after, k)
    {
      assert CarriesNew(w, k);
    }
  }

  lemma AddBindKeepsInvariant(w: World, bound: StoredSession)
    requires Invariant(w) && Known(w, bound) && Unseen(w, bound.token)
    ensures Invariant(w.(binds := w.binds + {bound}))
  {
    AddBindKeepsIncoming(w, bound);
  }

  lemma SaveBindKeepsInvariant(w: World, e: Event)
    requires Invariant(w) && e.SaveBind? && Enabled(w, e)
    ensures Invariant(Next(w, e))
  {
    var after := Next(w, e);
    assert Unsubmitted(w, e.session.token);
    assert TokensKnown(after);
    assert SingleFlight(after);
    forall k: nat | k < |after.exchanges| && Carries(after.exchanges[k])
      ensures CarriesNew(after, k)
    {
      assert CarriesNew(w, k);
    }
    assert IncomingNew(after);
  }

  /** A refresh is started with the stored token. */
  function Started(w: World): World
    requires w.client.stored.Some?
  {
    w.(client := w.client.(slot := Some(|w.exchanges|)),
       exchanges := w.exchanges + [Exchange(w.client.stored.value.token, None, Awaited)])
  }

  lemma StartKeepsTokens(w: World)
    requires w.client.stored.Some? && w.client.slot.None?
    requires SingleFlight(w) && TokensKnown(w) && NeverResubmitted(w)
    ensures SingleFlight(Started(w)) && TokensKnown(Started(w)) && NeverResubmitted(Started(w))
  {
    var n, after := |w.exchanges|, Started(w);
    assert forall k :: 0 <= k < n ==> after.exchanges[k] == w.exchanges[k];
    assert after.exchanges[n].token == w.client.stored.value.token && !Carries(after.exchanges[n]);
  }

  lemma StartKeepsIncoming(w: World)
    requires w.client.stored.Some? && IncomingNew(w)
    ensures IncomingNew(Started(w))
  {
    var n, after := |w.exchanges|, Started(w);
    assert forall k :: 0 <= k < n ==> after.exchanges[k] == w.exchanges[k];
    assert !Carries(after.exchanges[n]);
    forall b | b in after.binds
      ensures Unsubmitted(after, b.token)
    {
      assert Unsubmitted(w, b.token);
    }
    forall k: nat | k < |after.exchanges| && Carries(after.exchanges[k])
      ensures CarriesNew(after, k)
    {
      assert CarriesNew(w, k);
    }
  }

  lemma EnsureKeepsInvariant(w: World, e: Event)
    requires Invariant(w) && e.Ensure?
    ensures Invariant(Next(w, e))
  {
    if Decide(w.client, e.force, e.now).Start? {
      StartKeepsTokens(w);
      StartKeepsIncoming(w);
    }
  }

  /** The server's answer to exchange k, executed or not; `tables` are the tables afterwards. */
  function WithAnswer(w: World, k: nat, tables: Tables, answer: Answer): World
    requires k < |w.exchanges|
  {
    w.(tables := tables, exchanges := w.exchanges[k := w.exchanges[k].(answer := Some(answer))])
  }

  lemma AnswerKeepsTokens(w: World, k: nat, tables: Tables, answer: Answer)
    requires SingleFlight(w) && TokensKnown(w) && NeverResubmitted(w) && k < |w.exchanges|
    requires Extends(w.tables.sessions, tables.sessions)
    requires answer.Renewed? ==> Known(w.(tables := tables), answer.session)
    ensures var after := WithAnswer(w, k, tables, answer);
            SingleFlight(after) && TokensKnown(after) && NeverResubmitted(after)
  {
    var after := WithAnswer(w, k, tables, answer);
    KnownAfterGrowth(w, tables);
    assert forall j :: 0 <= j < |w.exchanges| ==>
             after.exchanges[j].token == w.exchanges[j].token && after.exchanges[j].ending == w.exchanges[j].ending;
    assert forall j :: 0 <= j < |w.exchanges| && j != k ==> after.exchanges[j] == w.exchanges[j];
  }

  lemma AnswerKeepsIncoming(w: World, k: nat, tables: Tables, answer: Answer)
    requires TokensKnown(w) && IncomingNew(w) && k < |w.exchanges| && w.exchanges[k].answer.None?
    requires answer.Renewed? ==> Unseen(w, answer.session.token)
    ensures IncomingNew(WithAnswer(w, k, tables, answer))
  {
    var after := WithAnswer(w, k, tables, answer);
    assert forall j :: 0 <= j < |w.exchanges| ==> after.exchanges[j].token == w.exchanges[j].token;
    assert forall j :: 0 <= j < |w.exchanges| && j != k ==> after.exchanges[j] == w.exchanges[j];
    forall b | b in after.binds
      ensures Unsubmitted(after, b.token)
    {
      assert Unsubmitted(w, b.token);
    }
    forall j: nat | j < |after.exchanges| && Carries(after.exchanges[j])
      ensures CarriesNew(after, j)
    {
      if j != k {
        assert CarriesNew(w, j);
      }
    }
  }

  lemma AnswerKeepsInvariant(w: World, k: nat, tables: Tables, answer: Answer)
    requires Invariant(w) && k < |w.exchanges| && w.exchanges[k].answer.None?
    requires Consistent(tables) && Extends(w.tables.sessions, tables.sessions)
    requires answer.Renewed? ==>
               && answer.session.token >= |w.tables.sessions|
               && Known(w.(tables := tables), answer.session)
    ensures Invariant(WithAnswer(w, k, tables, answer))
  {
    AnswerKeepsTokens(w, k, tables, answer);
    if answer.Renewed? {
      NewTokenIsUnseen(w, answer.session.token);
    }
    AnswerKeepsIncoming(w, k, tables, answer);
  }

  lemma NewTokenIsUnseen(w: World, token: Token)
    requires TokensKnown(w) && token >= |w.tables.sessions|
    ensures Unseen(w, token)
  {
  }

  lemma AnsweredKeepsInvariant(w: World, e: Event)
    requires Invariant(w) && e.Answered? && Enabled(w, e)
    ensures Invariant(Next(w, e))
  {
    var token := w.exchanges[e.k].token;
    var (tables, reply) := Step(w.tables, Refresh(token), e.context);
    StepKeepsConsistent(w.tables, Refresh(token), e.context);
    StepExtends(w.tables, Refresh(token), e.context);
    AnswerKeepsInvariant(w, e.k, tables, RefreshAnswer(reply, e.context));
  }

  /** Exchange k ends: what Receive and Lose do. */
  function Ended(w: World, k: nat, answer: Option<Answer>, ending: Ending): World
    requires k < |w.exchanges|
  {
    w.(client := Settle(w.client, answer), exchanges := w.exchanges[k := w.exchanges[k].(ending := ending)])
  }

  predicate CanEnd(w: World, k: nat, answer: Option<Answer>, ending: Ending) {
    && k < |w.exchanges| && w.client.slot == Some(k)
    && (answer.Some? ==> answer == w.exchanges[k].answer)
    && ending != Awaited
    && (ending == Succeeded <==> answer.Some? && answer.value.Renewed?)
  }

  lemma EndKeepsTokens(w: World, k: nat, answer: Option<Answer>, ending: Ending)
    requires CanEnd(w, k, answer, ending) && SingleFlight(w) && TokensKnown(w)
    ensures SingleFlight(Ended(w, k, answer, ending)) && TokensKnown(Ended(w, k, answer, ending))
  {
    var after := Ended(w, k, answer, ending);
    if ending == Succeeded {
      assert Carries(w.exchanges[k]);
    }
    assert forall j :: 0 <= j < |w.exchanges| && Carries(after.exchanges[j]) ==> Carries(w.exchanges[j]);
  }

  lemma EndKeepsIncoming(w: World, k: nat, answer: Option<Answer>, ending: Ending)
    requires CanEnd(w, k, answer, ending) && SingleFlight(w) && IncomingNew(w)
    ensures IncomingNew(Ended(w, k, answer, ending))
  {
    var after := Ended(w, k, answer, ending);
    if ending == Succeeded {
      assert Carries(w.exchanges[k]) && CarriesNew(w, k);
    }
    assert forall j :: 0 <= j < |w.exchanges| ==>
             && after.exchanges[j].token == w.exchanges[j].token
             && (Carries(after.exchanges[j]) ==> Carries(w.exchanges[j]));
    assert BindsNew(after) by {
      forall b | b in after.binds
        ensures Unsubmitted(after, b.token)
      {
        assert Unsubmitted(w, b.token);
      }
    }
    forall j: nat | j < |after.exchanges| && Carries(after.exchanges[j])
      ensures CarriesNew(after, j)
    {
      assert CarriesNew(w, j);
      if ending == Succeeded {
        EndedCarriesDiffer(w, k, j);
      }
    }
  }

  lemma EndKeepsNeverResubmitted(w: World, k: nat, answer: Option<Answer>, ending: Ending)
    requires CanEnd(w, k, answer, ending) && SingleFlight(w) && IncomingNew(w) && NeverResubmitted(w)
    ensures NeverResubmitted(Ended(w, k, answer, ending))
  {
    var after := Ended(w, k, answer, ending);
    if ending == Succeeded {
      assert Carries(w.exchanges[k]) && CarriesNew(w, k);
      assert Unsubmitted(w, answer.value.session.token);
    }
  }

  lemma EndKeepsInvariant(w: World, k: nat, answer: Option<Answer>, ending: Ending)
    requires Invariant(w) && CanEnd(w, k, answer, ending)
    ensures Invariant(Ended(w, k, answer, ending))
  {
    EndKeepsTokens(w, k, answer, ending);
    EndKeepsIncoming(w, k, answer, ending);
    EndKeepsNeverResubmitted(w, k, answer, ending);
  }

  lemma EndedCarriesDiffer(w: World, k: nat, j: nat)
    requires CarriedDiffer(w.exchanges) && k < |w.exchanges| && j < |w.exchanges|
    requires Carries(w.exchanges[k]) && Carries(w.exchanges[j]) && k != j
    ensures w.exchanges[k].answer.value.session.token != w.exchanges[j].answer.value.session.token
  {
  }

  lemma NextKeepsInvariant(w: World, e: Event)
    requires Invariant(w) && Enabled(w, e)
    ensures Invariant(Next(w, e))
  {
    match e
    case ServerOp(r, c) => ServerOpKeepsInvariant(w, r, c);
    case ConnectBind(_, _, _, _) => ConnectBindKeepsInvariant(w, e);
    case SaveBind(_) => SaveBindKeepsInvariant(w, e);
    case Ensure(_, _) => EnsureKeepsInvariant(w, e);
    case Answered(_, _) => AnsweredKeepsInvariant(w, e);
    case Outage(k) => AnswerKeepsInvariant(w, k, w.tables, Unavailable);
    case Receive(k) =>
      var answer := w.exchanges[k].answer;
      EndKeepsInvariant(w, k, answer,
        if answer.value.Renewed? then Succeeded else if answer.value.Rejected? then Refused else Abandoned);
    case Lose(k) => EndKeepsInvariant(w, k, None, Abandoned);
  }

  predicate Possible(w: World, events: seq<Event>)
    decreases |events|
  {
    events == [] || (Enabled(w, events[0]) && Possible(Next(w, events[0]), events[1..]))
  }

  function RunWorld(w: World, events: seq<Event>): World
    requires Possible(w, events)
    decreases |events|
  {
    if events == [] then w else RunWorld(Next(w, events[0]), events[1..])
  }

  function Begin(id: string, tables: Tables): World {
    World(id, tables, Client(None, None), [], {})
  }

  lemma {:induction false} RunKeepsInvariant(w: World, events: seq<Event>)
    requires Invariant(w) && Possible(w, events)
    ensures Invariant(RunWorld(w, events))
    decreases |events|
  {
    if events != [] {
      NextKeepsInvariant(w, events[0]);
      RunKeepsInvariant(Next(w, events[0]), events[1..]);
    }
  }

  /**
   Safety over every run, with any interleaving and any losses: one refresh in flight at most, and
   a token whose refresh has succeeded is neither submitted by a later refresh nor stored again.
   */
  lemma RefreshesAreSafe(id: string, tables: Tables, events: seq<Event>)
    requires Consistent(tables) && Text.Trim(id) == id && Possible(Begin(id, tables), events)
    ensures var w := RunWorld(Begin(id, tables), events);
            && (forall i, j :: (0 <= i < |w.exchanges| && 0 <= j < |w.exchanges|
                                && w.exchanges[i].ending == Awaited && w.exchanges[j].ending == Awaited) ==> i == j)
            && (forall i, j :: 0 <= i < j < |w.exchanges| && w.exchanges[i].ending == Succeeded
                  ==> w.exchanges[j].token != w.exchanges[i].token)
            && (forall i :: 0 <= i < |w.exchanges| && w.exchanges[i].ending == Succeeded && w.client.stored.Some?
                  ==> w.client.stored.value.token != w.exchanges[i].token)
  {
    RunKeepsInvariant(Begin(id, tables), events);
  }

  // ---------------------------------------------------------------- agreement with the server

  /** `token` opens the one unrevoked session of the extension's installation. */
  ghost predicate Current(w: World, token: Token) {
    Live(w.tables.sessions, w.id) == {token}
  }

  /** The stored session is the server's, or is being exchanged by the refresh in flight. */
  ghost predicate Synced(w: World) {
    w.client.stored.Some? ==>
      var session := w.client.stored.value;
      match w.client.slot
      case None => Current(w, session.token)
      case Some(k) =>
        && k < |w.exchanges| && w.exchanges[k].token == session.token
        && match w.exchanges[k].answer
           case Some(Renewed(renewed)) => Current(w, renewed.token)
           case Some(Rejected(at)) => Current(w, session.token) && !Remains(session, at, 0)
           case _ => Current(w, session.token)
  }

  /**
   The events that separate extension and server: someone binds, rotates or disconnects the
   installation, a given-up refresh is executed late, the response of an executed refresh is lost,
   or a bind result is saved that is outdated or meets a refresh in flight.
   */
  predicate Disturbs(w: World, e: Event)
    requires Enabled(w, e)
  {
    match e
    case ServerOp(r, c) => w.client.stored.Some? && Subject(w.tables, r) == Some(w.id) && Replaces(w.tables, r)
    case ConnectBind(userId, handshake, metadata, c) =>
      w.client.stored.Some? && w.id != ""
    case SaveBind(session) =>
      w.client.slot.Some? || session.token >= |w.tables.sessions| || w.tables.sessions[session.token].revokedAt.Some?
    case Answered(k, c) =>
      && w.client.stored.Some? && w.client.slot != Some(k)
      && FindActive(w.tables.sessions, w.exchanges[k].token, c.now).Some?
    case Lose(k) => w.exchanges[k].answer.Some? && w.exchanges[k].answer.value.Renewed?
    case _ => false
  }

  lemma UnrevokedIsCurrent(w: World, token: Token)
    requires Consistent(w.tables) && token < |w.tables.sessions| && w.tables.sessions[token].installationId == w.id
    ensures Current(w, token) <==> w.tables.sessions[token].revokedAt.None?
  {
    var live := Live(w.tables.sessions, w.id);
    if w.tables.sessions[token].revokedAt.None? {
      assert token in live;
      assert forall i :: i in live ==> i == token;
    } else {
      assert token !in live;
    }
  }

  /** A saved bind result or a received renewal puts the two sides in agreement exactly when it is still current. */
  lemma SyncRegained(w: World, e: Event)
    requires Invariant(w) && Enabled(w, e)
    ensures e.SaveBind? ==>
              (Synced(Next(w, e)) <==> w.client.slot.None? && Current(w, e.session.token))
    ensures e.Receive? && w.exchanges[e.k].answer.value.Renewed? ==>
              (Synced(Next(w, e)) <==> Current(w, w.exchanges[e.k].answer.value.session.token))
  {
    if e.SaveBind? {
      assert Unsubmitted(w, e.session.token);
    }
  }

  /** Agreement only depends on the live sessions of the installation. */
  lemma SyncedFollowsLive(w: World, tables: Tables)
    requires Synced(w) && Live(tables.sessions, w.id) == Live(w.tables.sessions, w.id)
    ensures Synced(w.(tables := tables))
  {
  }

  /** A new or no live session, where there was another, ends agreement. */
  lemma SyncedEndsWithLive(w: World, tables: Tables)
    requires Invariant(w) && Synced(w) && w.client.stored.Some?
    requires Live(tables.sessions, w.id) == {} || Live(tables.sessions, w.id) == {|w.tables.sessions|}
    ensures !Synced(w.(tables := tables))
  {
  }

  lemma ServerOpSyncStep(w: World, e: Event)
    requires Invariant(w) && Enabled(w, e) && Synced(w) && e.ServerOp?
    ensures Synced(Next(w, e)) <==> !Disturbs(w, e)
  {
    var (after, reply) := Step(w.tables, e.request, e.context);
    if !e.request.Refresh? {
      ReplacesIff(w.tables, e.request, e.context);
    }
    if Subject(w.tables, e.request) != Some(w.id) {
      OtherInstallationsUntouched(w.tables, e.request, e.context, w.id);
      SyncedFollowsLive(w, after);
    } else if reply.Issued? || reply.Revoked? {
      LiveAfterStep(w.tables, e.request, e.context);
      IssuedIsNew(w.tables, e.request, e.context);
      if w.client.stored.Some? {
        SyncedEndsWithLive(w, after);
      }
    } else {
      NothingIssued(w.tables, e.request, e.context);
      SyncedFollowsLive(w, after);
    }
  }

  lemma IssuedIsNew(t: Tables, r: Request, c: Context)
    ensures Step(t, r, c).1.Issued? ==> Step(t, r, c).1.token == |t.sessions|
  {
  }

  lemma NothingIssued(t: Tables, r: Request, c: Context)
    requires !Step(t, r, c).1.Issued? && !Step(t, r, c).1.Revoked?
    ensures Step(t, r, c).0.sessions == t.sessions
  {
  }

  lemma AnsweredSyncStep(w: World, e: Event)
    requires Invariant(w) && Enabled(w, e) && Synced(w) && e.Answered?
    ensures Synced(Next(w, e)) <==> !Disturbs(w, e)
  {
    var token := w.exchanges[e.k].token;
    LiveAfterStep(w.tables, Refresh(token), e.context);
    UnrevokedIsCurrent(w, token);
  }

  /** From an agreeing state, an event keeps agreement exactly when it is not one of the disturbing ones. */
  lemma SyncStepExact(w: World, e: Event)
    requires Invariant(w) && Enabled(w, e) && Synced(w)
    ensures Synced(Next(w, e)) <==> !Disturbs(w, e)
  {
    match e
    case ServerOp(_, _) => ServerOpSyncStep(w, e);
    case ConnectBind(userId, handshake, metadata, c) =>
      LiveAfterStep(w.tables, Bind(userId, w.id, Some(handshake), metadata), c);
    case SaveBind(session) =>
      SyncRegained(w, e);
      UnrevokedIsCurrent(w, session.token);
    case Answered(_, _) => AnsweredSyncStep(w, e);
    case Receive(k) => SyncRegained(w, e);
    case Lose(k) =>
      if Disturbs(w, e) {
        assert Carries(w.exchanges[k]) && CarriesNew(w, k);
      }
    case _ =>
  }

  predicate Undisturbed(w: World, events: seq<Event>)
    requires Possible(w, events)
    decreases |events|
  {
    events == [] || (!Disturbs(w, events[0]) && Undisturbed(Next(w, events[0]), events[1..]))
  }

  /** Once in agreement, extension and server agree at the end of every run without a disturbing event. */
  lemma {:induction false} RunStaysSynced(w: World, events: seq<Event>)
    requires Invariant(w) && Synced(w) && Possible(w, events) && Undisturbed(w, events)
    ensures Synced(RunWorld(w, events))
    decreases |events|
  {
    if events != [] {
      NextKeepsInvariant(w, events[0]);
      SyncStepExact(w, events[0]);
      RunStaysSynced(Next(w, events[0]), events[1..]);
    }
  }

  /** The store is emptied only by a 401 to the refresh; in agreement, only when the session had expired. */
  lemma StoreClearedOnlyBy401(w: World, e: Event)
    requires Invariant(w) && Enabled(w, e) && w.client.stored.Some?
    ensures Next(w, e).client.stored.None? <==> e.Receive? && w.exchanges[e.k].answer.value.Rejected?
    ensures Synced(w) && Next(w, e).client.stored.None? ==>
              !Remains(w.client.stored.value, w.exchanges[e.k].answer.value.at, 0)
  {
  }

  /** In agreement, a caller that waited for the refresh is handed the server's current session or none. */
  lemma HandedSessionIsCurrent(w: World, e: Event, readAt: int)
    requires Invariant(w) && Enabled(w, e) && Synced(w) && (e.Receive? || e.Lose?) && !Disturbs(w, e)
    ensures var answer := if e.Receive? then w.exchanges[e.k].answer else None;
            var handed := Hand(w.client.stored.value, readAt, answer);
            handed.Usable? ==> Current(Next(w, e), handed.session.token)
  {
    SyncStepExact(w, e);
  }

  // The overlap of a bind with a refresh is a real exception. Nothing is lost, rotated or
  // disconnected: the extension binds and saves, starts a refresh that the server executes, and is
  // bound again and saves that; then the answer of the refresh arrives and overwrites the new
  // session with one that the second bind has revoked.

  datatype Party = Party(id: string, userId: string, handshake: Handshake, context: Context)

  ghost predicate CanBind(p: Party) {
    p.id != "" && Text.Trim(p.id) == p.id && p.context.lifetimeMs > 0
  }

  function OverlapEvents(p: Party): seq<Event> {
    var bind := ConnectBind(p.userId, p.handshake, NO_METADATA, p.context);
    [bind, SaveBind(IssuedSession(0, p.context)), Ensure(true, p.context.now), Answered(0, p.context),
     bind, SaveBind(IssuedSession(2, p.context)), Receive(0)]
  }

  function OverlapTables(p: Party, revoked: nat, total: nat): Tables {
    var c := p.context;
    var live := InstallationSessions.Session(p.id, p.userId, c.now, c.now + c.lifetimeMs, None);
    Tables(if total == 0 then map[] else map[p.id := Installation(p.userId, p.handshake, NO_METADATA, c.now, c.now)],
           seq(total, i => if i < revoked then live.(revokedAt := Some(c.now)) else live))
  }

  function OverlapWorld(p: Party, k: nat): World {
    var s0, s1, s2 := IssuedSession(0, p.context), IssuedSession(1, p.context), IssuedSession(2, p.context);
    var asked := Exchange(0, None, Awaited);
    var answered := Exchange(0, Some(Renewed(s1)), Awaited);
    match k
    case 0 => Begin(p.id, OverlapTables(p, 0, 0))
    case 1 => World(p.id, OverlapTables(p, 0, 1), Client(None, None), [], {s0})
    case 2 => World(p.id, OverlapTables(p, 0, 1), Client(Some(s0), None), [], {})
    case 3 => World(p.id, OverlapTables(p, 0, 1), Client(Some(s0), Some(0)), [asked], {})
    case 4 => World(p.id, OverlapTables(p, 1, 2), Client(Some(s0), Some(0)), [answered], {})
    case 5 => World(p.id, OverlapTables(p, 2, 3), Client(Some(s0), Some(0)), [answered], {s2})
    case 6 => World(p.id, OverlapTables(p, 2, 3), Client(Some(s2), Some(0)), [answered], {})
    case _ => World(p.id, OverlapTables(p, 2, 3), Client(Some(s1), None), [answered.(ending := Succeeded)], {})
  }

  lemma OverlapBind(p: Party, k: nat)
    requires CanBind(p) && (k == 0 || k == 4)
    ensures Enabled(OverlapWorld(p, k), OverlapEvents(p)[k])
    ensures Next(OverlapWorld(p, k), OverlapEvents(p)[k]) == OverlapWorld(p, k + 1)
  {
    var before, after := OverlapWorld(p, k), OverlapWorld(p, k + 1);
    var step := Step(before.tables, Bind(p.userId, p.id, Some(p.handshake), NO_METADATA), p.context);
    assert step.0.installations == after.tables.installations;
    assert step.0.sessions == after.tables.sessions;
  }

  lemma OverlapRefresh(p: Party)
    requires CanBind(p)
    ensures Enabled(OverlapWorld(p, 3), OverlapEvents(p)[3])
    ensures Next(OverlapWorld(p, 3), OverlapEvents(p)[3]) == OverlapWorld(p, 4)
  {
    var before, after := OverlapWorld(p, 3), OverlapWorld(p, 4);
    var step := Step(before.tables, Refresh(0), p.context);
    assert step.0.sessions == after.tables.sessions;
  }

  lemma OverlapStep(p: Party, k: nat)
    requires CanBind(p) && k < 7
    ensures Enabled(OverlapWorld(p, k), OverlapEvents(p)[k])
    ensures Next(OverlapWorld(p, k), OverlapEvents(p)[k]) == OverlapWorld(p, k + 1)
  {
    if k == 0 || k == 4 {
      OverlapBind(p, k);
    } else if k == 3 {
      OverlapRefresh(p);
    }
  }

  lemma {:induction false} OverlapRun(p: Party, k: nat)
    requires CanBind(p) && k <= 7
    ensures Possible(OverlapWorld(p, k), OverlapEvents(p)[k..])
    ensures RunWorld(OverlapWorld(p, k), OverlapEvents(p)[k..]) == OverlapWorld(p, 7)
    decreases 7 - k
  {
    if k < 7 {
      OverlapStep(p, k);
      OverlapRun(p, k + 1);
      assert OverlapEvents(p)[k..][1..] == OverlapEvents(p)[k + 1..];
    }
  }

  lemma BindDuringRefreshLosesSession(p: Party)
    requires CanBind(p)
    ensures var start, events := Begin(p.id, NO_TABLES), OverlapEvents(p);
            && Possible(start, events)
            && RunWorld(start, events).client.stored == Some(IssuedSession(1, p.context))
            && Current(RunWorld(start, events), 2)
            && !Synced(RunWorld(start, events))
  {
    OverlapRun(p, 0);
    assert OverlapEvents(p)[0..] == OverlapEvents(p);
    assert OverlapTables(p, 0, 0) == NO_TABLES;
    var end := OverlapWorld(p, 7);
    assert Live(end.tables.sessions, p.id) == {2};
    assert 1 !in {2};
  }
}
