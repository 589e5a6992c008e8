/**
 The server side of the installation-session protocol: the installation and session tables, the
 repositories that change them and the service operations built on the repositories.

 Every public operation is one step. A token is named by the number of the session row it opens:
 tokens are random and distinct, and rows are never deleted.
 */
module InstallationSessions {
  import opened Common
  import Text

  type Token = nat

  datatype Handshake = Handshake(browser: string, extensionVersion: string, schemaVersion: string, capabilities: seq<string>)

  /** What a device tells about itself, trimmed and shortened, as far as it tells anything. */
  datatype DeviceMetadata = DeviceMetadata(
    deviceLabel: Option<string>, platform: Option<string>, osName: Option<string>, osVersion: Option<string>,
    browserName: Option<string>, browserVersion: Option<string>, userAgent: Option<string>)

  const NO_METADATA := DeviceMetadata(None, None, None, None, None, None, None)

  datatype Installation = Installation(
    userId: string, handshake: Handshake, metadata: DeviceMetadata, createdAt: int, lastSeenAt: int)

  datatype Session = Session(
    installationId: string, userId: string, createdAt: int, expiresAt: int, revokedAt: Option<int>)

  datatype Tables = Tables(installations: map<string, Installation>, sessions: seq<Session>)

  datatype Error = BadRequest | Unauthorized | Forbidden | NotFound

  const MAX_REASON_LENGTH := 500
  const MAX_LABEL_LENGTH := 120

  const NO_TABLES := Tables(map[], [])

  // ---------------------------------------------------------------- the session repository

  predicate IsActive(session: Session, now: int) {
    session.revokedAt.None? && session.expiresAt > now
  }

  /** `findFirst` on the token hash, restricted to unrevoked and unexpired rows. */
  function FindActive(sessions: seq<Session>, token: Token, now: int): Option<Session> {
    if token < |sessions| && IsActive(sessions[token], now) then Some(sessions[token]) else None
  }

  function RevokeActive(sessions: seq<Session>, installationId: string, at: int): (r: seq<Session>)
    ensures |r| == |sessions|
  {
    seq(|sessions|, i requires 0 <= i < |sessions| =>
      if sessions[i].installationId == installationId && sessions[i].revokedAt.None?
      then sessions[i].(revokedAt := Some(at)) else sessions[i])
  }

  function Live(sessions: seq<Session>, installationId: string): set<Token> {
    set i | 0 <= i < |sessions| && sessions[i].installationId == installationId && sessions[i].revokedAt.None?
  }

  class ExtensionInstallationSessionRepository {
    var rows: seq<Session>

    constructor ()
      ensures rows == []
    {
      rows := [];
    }

    method Create(installationId: string, userId: string, now: int, expiresAt: int) returns (token: Token)
      modifies this
      ensures token == |old(rows)|
      ensures rows == old(rows) + [Session(installationId, userId, now, expiresAt, None)]
    {
      token := |rows|;
      rows := rows + [Session(installationId, userId, now, expiresAt, None)];
    }

    /** The row of the token is found exactly while it is neither revoked nor expired. */
    method FindActiveByToken(token: Token, now: int) returns (session: Option<Session>)
      ensures session == FindActive(rows, token, now)
      ensures session.Some? <==> token < |rows| && rows[token].revokedAt.None? && now < rows[token].expiresAt
      ensures session.Some? ==> session.value == rows[token]
    {
      session := FindActive(rows, token, now);
    }

    method RevokeActiveByInstallationId(installationId: string, at: int) returns (count: nat)
      modifies this
      ensures rows == RevokeActive(old(rows), installationId, at)
      ensures count == |Live(old(rows), installationId)| && Live(rows, installationId) == {}
    {
      count := |Live(rows, installationId)|;
      rows := RevokeActive(rows, installationId, at);
    }

    method Revoke(token: Token, at: int)
      requires token < |rows|
      modifies this
      ensures rows == old(rows)[token := old(rows)[token].(revokedAt := Some(at))]
    {
      rows := rows[token := rows[token].(revokedAt := Some(at))];
    }
  }

  // ---------------------------------------------------------------- the installation repository

  function Given(given: Option<string>, stored: Option<string>): Option<string> {
    if given.Some? then given else stored
  }

  /** Column by column: what is given replaces what is stored. */
  function Updated(given: DeviceMetadata, stored: DeviceMetadata): DeviceMetadata {
    DeviceMetadata(
      Given(given.deviceLabel, stored.deviceLabel), Given(given.platform, stored.platform),
      Given(given.osName, stored.osName), Given(given.osVersion, stored.osVersion),
      Given(given.browserName, stored.browserName), Given(given.browserVersion, stored.browserVersion),
      Given(given.userAgent, stored.userAgent))
  }

  function Upserted(installations: map<string, Installation>, userId: string, installationId: string,
                    handshake: Handshake, metadata: DeviceMetadata, now: int): map<string, Installation>
  {
    installations[installationId :=
      if installationId in installations then
        var row := installations[installationId];
        Installation(userId, handshake, Updated(metadata, row.metadata), row.createdAt, now)
      else Installation(userId, handshake, metadata, now, now)]
  }

  function Relabelled(row: Installation, deviceLabel: Option<string>): Installation {
    row.(metadata := row.metadata.(deviceLabel := deviceLabel))
  }

  class ExtensionInstallationRepository {
    var rows: map<string, Installation>

    constructor ()
      ensures rows == map[]
    {
      rows := map[];
    }

    /** Creates the row, or moves an existing one to `userId`; metadata that is not given is kept. */
    method UpsertBoundInstallation(userId: string, installationId: string, handshake: Handshake,
                                   metadata: DeviceMetadata, now: int)
      modifies this
      ensures rows == Upserted(old(rows), userId, installationId, handshake, metadata, now)
    {
      if installationId in rows {
        var row := rows[installationId];
        var shown := row.metadata;
        if metadata.deviceLabel.Some? {
          shown := shown.(deviceLabel := metadata.deviceLabel);
        }
        if metadata.platform.Some? {
          shown := shown.(platform := metadata.platform);
        }
        if metadata.osName.Some? {
          shown := shown.(osName := metadata.osName);
        }
        if metadata.osVersion.Some? {
          shown := shown.(osVersion := metadata.osVersion);
        }
        if metadata.browserName.Some? {
          shown := shown.(browserName := metadata.browserName);
        }
        if metadata.browserVersion.Some? {
          shown := shown.(browserVersion := metadata.browserVersion);
        }
        if metadata.userAgent.Some? {
          shown := shown.(userAgent := metadata.userAgent);
        }
        rows := rows[installationId := Installation(userId, handshake, shown, row.createdAt, now)];
      } else {
        rows := rows[installationId := Installation(userId, handshake, metadata, now, now)];
      }
    }

    method UpdateDeviceLabelForUser(userId: string, installationId: string, deviceLabel: Option<string>)
      returns (found: bool)
      modifies this
      ensures found == (installationId in old(rows) && old(rows)[installationId].userId == userId)
      ensures rows == if found then old(rows)[installationId := Relabelled(old(rows)[installationId], deviceLabel)]
                      else old(rows)
    {
      found := installationId in rows && rows[installationId].userId == userId;
      if found {
        rows := rows[installationId := Relabelled(rows[installationId], deviceLabel)];
      }
    }
  }

  // ---------------------------------------------------------------- the operations as steps

  /**
   One call of a public operation. `handshake` is None when the request's environment or handshake
   does not pass validation; `mayRead` and `mayWrite` are the permission decisions.
   */
  datatype Request =
    | Bind(userId: string, installationId: string, handshake: Option<Handshake>, metadata: DeviceMetadata)
    | Rotate(userId: string, installationId: string, mayWrite: bool, reason: string)
    | Disconnect(userId: string, installationId: string, mayWrite: bool, reason: string)
    | SelfDisconnect(userId: string, installationId: string, mayRead: bool)
    | Refresh(token: Token)
    | Bootstrap(token: Token, claimedId: Option<string>, handshake: Option<Handshake>, metadata: DeviceMetadata,
                writable: bool)
    | SetLabel(userId: string, installationId: string, mayRead: bool, deviceLabel: Option<string>)

  /** The clock and the session lifetime in force during the call. */
  datatype Context = Context(now: int, lifetimeMs: int)

  datatype Reply = Issued(token: Token) | Revoked(count: nat) | Done | Failed(error: Error)

  function OwnedBy(t: Tables, installationId: string, userId: string): bool {
    installationId in t.installations && t.installations[installationId].userId == userId
  }

  function Issue(sessions: seq<Session>, installationId: string, userId: string, c: Context): seq<Session> {
    sessions + [Session(installationId, userId, c.now, c.now + c.lifetimeMs, None)]
  }

  predicate ValidReason(reason: string) {
    1 <= |Text.Trim(reason)| <= MAX_REASON_LENGTH
  }

  /** Why a rotate or disconnect request is turned away before it touches the tables. */
  function Refusal(t: Tables, userId: string, installationId: string, allowed: bool, reason: Option<string>): Option<Error> {
    if Text.Trim(installationId) == "" then Some(BadRequest)
    else if !allowed then Some(Forbidden)
    else if reason.Some? && !ValidReason(reason.value) then Some(BadRequest)
    else if !OwnedBy(t, Text.Trim(installationId), userId) then Some(NotFound)
    else None
  }

  function Step(t: Tables, r: Request, c: Context): (Tables, Reply) {
    match r
    case Bind(userId, rawId, handshake, metadata) =>
      var id := Text.Trim(rawId);
      if id == "" || handshake.None? then (t, Failed(BadRequest))
      else
        (Tables(Upserted(t.installations, userId, id, handshake.value, metadata, c.now),
                Issue(RevokeActive(t.sessions, id, c.now), id, userId, c)), Issued(|t.sessions|))
    case Rotate(userId, rawId, mayWrite, reason) =>
      var refusal := Refusal(t, userId, rawId, mayWrite, Some(reason));
      if refusal.Some? then (t, Failed(refusal.value))
      else
        var id := Text.Trim(rawId);
        (t.(sessions := Issue(RevokeActive(t.sessions, id, c.now), id, t.installations[id].userId, c)), Issued(|t.sessions|))
    case Disconnect(userId, rawId, mayWrite, reason) =>
      var refusal := Refusal(t, userId, rawId, mayWrite, Some(reason));
      if refusal.Some? then (t, Failed(refusal.value))
      else
        var id := Text.Trim(rawId);
        (t.(sessions := RevokeActive(t.sessions, id, c.now)), Revoked(|Live(t.sessions, id)|))
    case SelfDisconnect(userId, rawId, mayRead) =>
      var refusal := Refusal(t, userId, rawId, mayRead, None);
      if refusal.Some? then (t, Failed(refusal.value))
      else
        var id := Text.Trim(rawId);
        (t.(sessions := RevokeActive(t.sessions, id, c.now)), Revoked(|Live(t.sessions, id)|))
    case Refresh(token) =>
      (match FindActive(t.sessions, token, c.now)
       case None => (t, Failed(Unauthorized))
       case Some(session) =>
         if session.installationId !in t.installations then (t, Failed(Unauthorized))
         else
           var spent := t.sessions[token := session.(revokedAt := Some(c.now))];
           var owner := t.installations[session.installationId].userId;
           (t.(sessions := Issue(spent, session.installationId, owner, c)), Issued(|t.sessions|)))
    case Bootstrap(token, claimedId, handshake, metadata, writable) =>
      (match FindActive(t.sessions, token, c.now)
       case None => (t, Failed(Unauthorized))
       case Some(session) =>
         var id := Text.Trim(claimedId.UnwrapOr(session.installationId));
         if session.installationId !in t.installations then (t, Failed(Unauthorized))
         else if id == "" then (t, Failed(BadRequest))
         else if id != session.installationId then (t, Failed(Unauthorized))
         else if handshake.None? then (t, Failed(BadRequest))
         else if !writable then (t, Done)
         else
           var owner := t.installations[id].userId;
           (t.(installations := Upserted(t.installations, owner, id, handshake.value, metadata, c.now)), Done))
    case SetLabel(userId, rawId, mayRead, deviceLabel) =>
      var id := Text.Trim(rawId);
      var trimmed := Text.Trim(deviceLabel.UnwrapOr(""));
      if !mayRead then (t, Failed(Forbidden))
      else if id == "" || |trimmed| > MAX_LABEL_LENGTH then (t, Failed(BadRequest))
      else if !OwnedBy(t, id, userId) then (t, Failed(NotFound))
      else
        var value := if trimmed == "" then None else Some(trimmed);
        (t.(installations := t.installations[id := Relabelled(t.installations[id], value)]), Done)
  }

  /** The service operations, each proved to be its step. */
  class ExtensionControlService {
    const installations: ExtensionInstallationRepository
    const sessions: ExtensionInstallationSessionRepository

    constructor ()
      ensures fresh(installations) && fresh(sessions)
      ensures State() == NO_TABLES
    {
      installations := new ExtensionInstallationRepository();
      sessions := new ExtensionInstallationSessionRepository();
    }

    ghost function State(): Tables
      reads installations, sessions
    {
      Tables(installations.rows, sessions.rows)
    }

    method IssueInstallationSession(installationId: string, userId: string, c: Context) returns (token: Token)
      modifies sessions
      ensures token == |old(sessions.rows)|
      ensures sessions.rows == Issue(old(sessions.rows), installationId, userId, c)
    {
      token := sessions.Create(installationId, userId, c.now, c.now + c.lifetimeMs);
    }

    method BindInstallation(userId: string, installationId: string, handshake: Option<Handshake>,
                            metadata: DeviceMetadata, c: Context) returns (reply: Reply)
      modifies installations, sessions
      ensures (State(), reply) == Step(old(State()), Bind(userId, installationId, handshake, metadata), c)
    {
      var id := Text.Trim(installationId);
      if id == "" || handshake.None? {
        return Failed(BadRequest);
      }
      installations.UpsertBoundInstallation(userId, id, handshake.value, metadata, c.now);
      var _ := sessions.RevokeActiveByInstallationId(id, c.now);
      var token := IssueInstallationSession(id, userId, c);
      return Issued(token);
    }

    method RotateInstallationSession(userId: string, installationId: string, mayWrite: bool, reason: string, c: Context)
      returns (reply: Reply)
      modifies sessions
      ensures (State(), reply) == Step(old(State()), Rotate(userId, installationId, mayWrite, reason), c)
    {
      var id := Text.Trim(installationId);
      if id == "" {
        return Failed(BadRequest);
      }
      if !mayWrite {
        return Failed(Forbidden);
      }
      if !ValidReason(reason) {
        return Failed(BadRequest);
      }
      if id !in installations.rows || installations.rows[id].userId != userId {
        return Failed(NotFound);
      }
      var _ := sessions.RevokeActiveByInstallationId(id, c.now);
      var token := IssueInstallationSession(id, installations.rows[id].userId, c);
      return Issued(token);
    }

    method DisconnectInstallation(userId: string, installationId: string, mayWrite: bool, reason: string, c: Context)
      returns (reply: Reply)
      modifies sessions
      ensures (State(), reply) == Step(old(State()), Disconnect(userId, installationId, mayWrite, reason), c)
    {
      var id := Text.Trim(installationId);
      if id == "" {
        return Failed(BadRequest);
      }
      if !mayWrite {
        return Failed(Forbidden);
      }
      if !ValidReason(reason) {
        return Failed(BadRequest);
      }
      if id !in installations.rows || installations.rows[id].userId != userId {
        return Failed(NotFound);
      }
      var count := sessions.RevokeActiveByInstallationId(id, c.now);
      return Revoked(count);
    }

    method SelfDisconnectInstallation(userId: string, installationId: string, mayRead: bool, c: Context)
      returns (reply: Reply)
      modifies sessions
      ensures (State(), reply) == Step(old(State()), SelfDisconnect(userId, installationId, mayRead), c)
    {
      var id := Text.Trim(installationId);
      if id == "" {
        return Failed(BadRequest);
      }
      if !mayRead {
        return Failed(Forbidden);
      }
      if id !in installations.rows || installations.rows[id].userId != userId {
        return Failed(NotFound);
      }
      var count := sessions.RevokeActiveByInstallationId(id, c.now);
      return Revoked(count);
    }

    /** Resolving the bearer token and refreshing the session it opens, in one request. */
    method RefreshInstallationSession(token: Token, c: Context) returns (reply: Reply)
      modifies sessions
      ensures (State(), reply) == Step(old(State()), Refresh(token), c)
    {
      var session := sessions.FindActiveByToken(token, c.now);
      if session.None? || session.value.installationId !in installations.rows {
        return Failed(Unauthorized);
      }
      sessions.Revoke(token, c.now);
      var id := session.value.installationId;
      var issued := IssueInstallationSession(id, installations.rows[id].userId, c);
      return Issued(issued);
    }

    method BootstrapInstallationSession(token: Token, claimedId: Option<string>, handshake: Option<Handshake>,
                                        metadata: DeviceMetadata, writable: bool, c: Context)
      returns (reply: Reply)
      modifies installations
      ensures (State(), reply) == Step(old(State()), Bootstrap(token, claimedId, handshake, metadata, writable), c)
    {
      var session := sessions.FindActiveByToken(token, c.now);
      if session.None? || session.value.installationId !in installations.rows {
        return Failed(Unauthorized);
      }
      var id := Text.Trim(claimedId.UnwrapOr(session.value.installationId));
      if id == "" {
        return Failed(BadRequest);
      }
      if id != session.value.installationId {
        return Failed(Unauthorized);
      }
      if handshake.None? {
        return Failed(BadRequest);
      }
      if writable {
        installations.UpsertBoundInstallation(
          installations.rows[id].userId, id, handshake.value,
          Updated(metadata, installations.rows[id].metadata), c.now);
      }
      return Done;
    }

    method UpdateInstallationLabel(userId: string, installationId: string, mayRead: bool, deviceLabel: Option<string>,
                                   c: Context) returns (reply: Reply)
      modifies installations
      ensures (State(), reply) == Step(old(State()), SetLabel(userId, installationId, mayRead, deviceLabel), c)
    {
      if !mayRead {
        return Failed(Forbidden);
      }
      var id := Text.Trim(installationId);
      var trimmed := Text.Trim(deviceLabel.UnwrapOr(""));
      if id == "" || |trimmed| > MAX_LABEL_LENGTH {
        return Failed(BadRequest);
      }
      var found := installations.UpdateDeviceLabelForUser(
        userId, id, if trimmed == "" then None else Some(trimmed));
      return if found then Done else Failed(NotFound);
    }
  }

  // ---------------------------------------------------------------- what every operation keeps

  /** Only the newest session of an installation can be unrevoked. */
  ghost predicate OnlyNewestLive(t: Tables) {
    forall i, j :: 0 <= i < j < |t.sessions| && t.sessions[i].installationId == t.sessions[j].installationId
                   ==> t.sessions[i].revokedAt.Some?
  }

  /** A session belongs to a known installation, and an unrevoked one to its current owner. */
  ghost predicate LiveOwned(t: Tables) {
    forall i :: 0 <= i < |t.sessions| ==>
                  && t.sessions[i].installationId in t.installations
                  && (t.sessions[i].revokedAt.None? ==>
                        t.sessions[i].userId == t.installations[t.sessions[i].installationId].userId)
  }

  ghost predicate Consistent(t: Tables) {
    OnlyNewestLive(t) && LiveOwned(t)
  }

  /** The installations after a step: `id` may be new or change hands, the others stay. */
  ghost predicate OnlyAt(before: map<string, Installation>, after: map<string, Installation>, id: string) {
    after.Keys == before.Keys + {id} && forall k :: k in before && k != id ==> after[k] == before[k]
  }

  lemma RevokeKeepsConsistent(t: Tables, id: string, at: int)
    requires Consistent(t)
    ensures Consistent(t.(sessions := RevokeActive(t.sessions, id, at)))
  {
  }

  /** Revoking what is there and issuing a session to the owner: bind and rotate. */
  lemma ReissueKeepsConsistent(t: Tables, after: map<string, Installation>, id: string, c: Context)
    requires Consistent(t) && OnlyAt(t.installations, after, id)
    ensures Consistent(Tables(after, Issue(RevokeActive(t.sessions, id, c.now), id, after[id].userId, c)))
  {
    var sessions := RevokeActive(t.sessions, id, c.now);
    RevokeKeepsConsistent(t, id, c.now);
    assert forall i :: 0 <= i < |sessions| && sessions[i].installationId == id ==> sessions[i].revokedAt.Some?;
  }

  lemma RefreshKeepsConsistent(t: Tables, token: Token, c: Context)
    requires Consistent(t)
    ensures Consistent(Step(t, Refresh(token), c).0)
  {
  }

  /** Installation rows may be written without moving them to another owner. */
  lemma TouchKeepsConsistent(t: Tables, after: map<string, Installation>)
    requires Consistent(t)
    requires forall k :: k in t.installations ==> k in after && after[k].userId == t.installations[k].userId
    ensures Consistent(t.(installations := after))
  {
  }

  lemma StepKeepsConsistent(t: Tables, r: Request, c: Context)
    requires Consistent(t)
    ensures Consistent(Step(t, r, c).0)
  {
    match r
    case Bind(userId, rawId, handshake, metadata) =>
      var id := Text.Trim(rawId);
      if handshake.Some? {
        ReissueKeepsConsistent(t, Upserted(t.installations, userId, id, handshake.value, metadata, c.now), id, c);
      }
    case Rotate(userId, rawId, mayWrite, reason) =>
      var id := Text.Trim(rawId);
      if OwnedBy(t, id, userId) {
        ReissueKeepsConsistent(t, t.installations, id, c);
      }
    case Disconnect(_, rawId, _, _) => RevokeKeepsConsistent(t, Text.Trim(rawId), c.now);
    case SelfDisconnect(_, rawId, _) => RevokeKeepsConsistent(t, Text.Trim(rawId), c.now);
    case Refresh(token) => RefreshKeepsConsistent(t, token, c);
    case Bootstrap(_, _, _, _, _) => TouchKeepsConsistent(t, Step(t, r, c).0.installations);
    case SetLabel(_, _, _, _) => TouchKeepsConsistent(t, Step(t, r, c).0.installations);
  }

  datatype Call = Call(request: Request, context: Context)

  function Run(t: Tables, calls: seq<Call>): Tables
    decreases |calls|
  {
    if calls == [] then t else Run(Step(t, calls[0].request, calls[0].context).0, calls[1..])
  }

  /** A run is its calls one after the other, the last one on what the others left. */
  lemma {:induction false} RunOneMore(t: Tables, calls: seq<Call>, last: Call)
    ensures Run(t, calls + [last]) == Step(Run(t, calls), last.request, last.context).0
    decreases |calls|
  {
    if calls == [] {
      assert [last][1..] == [] && calls + [last] == [last];
    } else {
      assert (calls + [last])[0] == calls[0] && (calls + [last])[1..] == calls[1..] + [last];
      RunOneMore(Step(t, calls[0].request, calls[0].context).0, calls[1..], last);
    }
  }

  lemma {:induction false} RunKeepsConsistent(t: Tables, calls: seq<Call>)
    requires Consistent(t)
    ensures Consistent(Run(t, calls))
    decreases |calls|
  {
    if calls != [] {
      StepKeepsConsistent(t, calls[0].request, calls[0].context);
      RunKeepsConsistent(Step(t, calls[0].request, calls[0].context).0, calls[1..]);
    }
  }

  /** Over every run from the empty tables: at most one unrevoked session, and it belongs to the owner. */
  lemma AtMostOneLiveSession(calls: seq<Call>, installationId: string)
    ensures var t := Run(NO_TABLES, calls);
            && |Live(t.sessions, installationId)| <= 1
            && (forall i :: i in Live(t.sessions, installationId) ==>
                              OwnedBy(t, installationId, t.sessions[i].userId))
  {
    RunKeepsConsistent(NO_TABLES, calls);
    LiveAtMostOne(Run(NO_TABLES, calls), installationId);
  }

  lemma LiveAtMostOne(t: Tables, installationId: string)
    requires Consistent(t)
    ensures |Live(t.sessions, installationId)| <= 1
  {
    var live := Live(t.sessions, installationId);
    if live != {} {
      var i :| i in live;
      assert forall j :: j in live ==> j == i;
      assert live == {i};
    }
  }

  lemma LiveAfterRefresh(t: Tables, token: Token, c: Context)
    requires Consistent(t) && Step(t, Refresh(token), c).1.Issued?
    ensures var (after, reply) := Step(t, Refresh(token), c);
            Live(after.sessions, t.sessions[token].installationId) == {reply.token}
  {
    var (after, reply) := Step(t, Refresh(token), c);
    var id := t.sessions[token].installationId;
    assert forall i :: i in Live(after.sessions, id) ==> i == reply.token;
    assert after.sessions[reply.token].revokedAt.None?;
    assert Live(after.sessions, id) == {reply.token};
  }

  /** Binding and rotating leave exactly the session they issue, disconnecting leaves none. */
  lemma LiveAfterStep(t: Tables, r: Request, c: Context)
    requires Consistent(t)
    ensures var (after, reply) := Step(t, r, c);
            && (r.Bind? && reply.Issued? ==> Live(after.sessions, Text.Trim(r.installationId)) == {reply.token})
            && (r.Rotate? && reply.Issued? ==> Live(after.sessions, Text.Trim(r.installationId)) == {reply.token})
            && (r.Refresh? && reply.Issued? ==>
                  Live(after.sessions, t.sessions[r.token].installationId) == {reply.token})
            && (reply.Revoked? ==>
                  && (r.Disconnect? || r.SelfDisconnect?)
                  && Live(after.sessions, Text.Trim(r.installationId)) == {}
                  && reply.count <= 1)
  {
    match r
    case Refresh(token) =>
      if Step(t, r, c).1.Issued? {
        LiveAfterRefresh(t, token, c);
      }
    case Disconnect(_, rawId, _, _) => LiveAtMostOne(t, Text.Trim(rawId));
    case SelfDisconnect(_, rawId, _) => LiveAtMostOne(t, Text.Trim(rawId));
    case _ =>
  }

  /**
   In consistent tables a refresh succeeds exactly with an unrevoked and unexpired token, and issues a
   session for the same installation to its owner.
   */
  lemma RefreshAcceptedIff(t: Tables, token: Token, c: Context)
    requires Consistent(t)
    ensures var (after, reply) := Step(t, Refresh(token), c);
            && (reply.Issued? <==>
                  token < |t.sessions| && t.sessions[token].revokedAt.None? && c.now < t.sessions[token].expiresAt)
            && (reply.Issued? ==>
                  var issued, id := after.sessions[reply.token], t.sessions[token].installationId;
                  issued == Session(id, t.installations[id].userId, c.now, c.now + c.lifetimeMs, None))
            && (!reply.Issued? ==> after == t && reply == Failed(Unauthorized))
  {
  }

  /** Rotating and disconnecting are for the permitted owner with a reason; a refusal changes nothing. */
  lemma OwnerOperationsIff(t: Tables, userId: string, installationId: string, mayWrite: bool, reason: string, c: Context)
    ensures var id := Text.Trim(installationId);
            var accepted := id != "" && mayWrite && 1 <= |Text.Trim(reason)| <= 500
                            && id in t.installations && t.installations[id].userId == userId;
            && (Step(t, Rotate(userId, installationId, mayWrite, reason), c).1.Issued? <==> accepted)
            && (Step(t, Disconnect(userId, installationId, mayWrite, reason), c).1.Revoked? <==> accepted)
            && (!accepted ==> Step(t, Rotate(userId, installationId, mayWrite, reason), c).0 == t
                              && Step(t, Disconnect(userId, installationId, mayWrite, reason), c).0 == t)
  {
  }

  /** Which refusal it is: the id first, then the permission, the reason, and the owner last. */
  lemma OwnerRefusals(t: Tables, userId: string, installationId: string, allowed: bool, reason: string, c: Context)
    ensures var id := Text.Trim(installationId);
            var owns := id in t.installations && t.installations[id].userId == userId;
            forall r :: r == Rotate(userId, installationId, allowed, reason)
                        || r == Disconnect(userId, installationId, allowed, reason) ==>
              var reply := Step(t, r, c).1;
              && (reply == Failed(Forbidden) <==> id != "" && !allowed)
              && (reply == Failed(BadRequest) <==> id == "" || (allowed && !(1 <= |Text.Trim(reason)| <= 500)))
              && (reply == Failed(NotFound) <==> id != "" && allowed && 1 <= |Text.Trim(reason)| <= 500 && !owns)
    ensures var id := Text.Trim(installationId);
            var owns := id in t.installations && t.installations[id].userId == userId;
            var (after, reply) := Step(t, SelfDisconnect(userId, installationId, allowed), c);
            && (reply == Failed(BadRequest) <==> id == "")
            && (reply == Failed(Forbidden) <==> id != "" && !allowed)
            && (reply == Failed(NotFound) <==> id != "" && allowed && !owns)
            && (reply.Revoked? <==> id != "" && allowed && owns)
            && (!reply.Revoked? ==> after == t)
  {
  }

  // ---------------------------------------------------------------- what an accepted operation writes

  /**
   The row after a device has reported: handshake and time of the report, first seen when there was no row, and each
   metadata column as given, or else as it was.
   */
  predicate Reported(before: Option<Installation>, after: Installation, handshake: Handshake, given: DeviceMetadata, now: int) {
    var was := if before.Some? then before.value.metadata else DeviceMetadata(None, None, None, None, None, None, None);
    var shown := after.metadata;
    && after.handshake == handshake
    && after.lastSeenAt == now
    && after.createdAt == (if before.Some? then before.value.createdAt else now)
    && shown.deviceLabel == (if given.deviceLabel.Some? then given.deviceLabel else was.deviceLabel)
    && shown.platform == (if given.platform.Some? then given.platform else was.platform)
    && shown.osName == (if given.osName.Some? then given.osName else was.osName)
    && shown.osVersion == (if given.osVersion.Some? then given.osVersion else was.osVersion)
    && shown.browserName == (if given.browserName.Some? then given.browserName else was.browserName)
    && shown.browserVersion == (if given.browserVersion.Some? then given.browserVersion else was.browserVersion)
    && shown.userAgent == (if given.userAgent.Some? then given.userAgent else was.userAgent)
  }

  /** Every unrevoked session of the installation is revoked at `at`, and no other row changes. */
  ghost predicate RevokedAt(before: seq<Session>, after: seq<Session>, id: string, at: int) {
    && |after| == |before|
    && forall i :: 0 <= i < |before| ==>
         if before[i].installationId == id && before[i].revokedAt == None
         then after[i] == Session(id, before[i].userId, before[i].createdAt, before[i].expiresAt, Some(at))
         else after[i] == before[i]
  }

  /** When a bind is accepted, and everything it writes. */
  lemma BindMeaning(t: Tables, userId: string, rawId: string, handshake: Option<Handshake>, metadata: DeviceMetadata, c: Context)
    ensures var id := Text.Trim(rawId);
            var (after, reply) := Step(t, Bind(userId, rawId, handshake, metadata), c);
            if id == "" || handshake == None then (after, reply) == (t, Failed(BadRequest))
            else
              && reply == Issued(|t.sessions|)
              && id in after.installations
              && after.installations[id].userId == userId
              && Reported(Lookup(t.installations, id), after.installations[id], handshake.value, metadata, c.now)
              && (forall k :: k != id ==> Lookup(after.installations, k) == Lookup(t.installations, k))
              && |after.sessions| == |t.sessions| + 1
              && RevokedAt(t.sessions, after.sessions[..|t.sessions|], id, c.now)
              && after.sessions[|t.sessions|] == Session(id, userId, c.now, c.now + c.lifetimeMs, None)
  {
  }

  /** A rotation issues a session to the owner after revoking the others, a disconnect only revokes and counts. */
  lemma RotateAndDisconnectMeaning(t: Tables, r: Request, c: Context)
    requires r.Rotate? || r.Disconnect? || r.SelfDisconnect?
    ensures var id := Text.Trim(r.installationId);
            var (after, reply) := Step(t, r, c);
            && after.installations == t.installations
            && (reply.Issued? ==>
                  && r.Rotate? && reply.token == |t.sessions|
                  && |after.sessions| == |t.sessions| + 1
                  && RevokedAt(t.sessions, after.sessions[..|t.sessions|], id, c.now)
                  && after.sessions[|t.sessions|] == Session(id, r.userId, c.now, c.now + c.lifetimeMs, None))
            && (reply.Revoked? ==>
                  && !r.Rotate?
                  && RevokedAt(t.sessions, after.sessions, id, c.now)
                  && reply.count == |set i | 0 <= i < |t.sessions| && t.sessions[i].installationId == id
                                            && t.sessions[i].revokedAt == None|)
  {
    var id := Text.Trim(r.installationId);
    assert Live(t.sessions, id) == set i | 0 <= i < |t.sessions| && t.sessions[i].installationId == id
                                            && t.sessions[i].revokedAt == None;
  }

  /**
   A bootstrap is accepted exactly with a live token of a known installation, no claim to be another one, and a
   handshake. It then writes what the device reports, if the table can be written, and neither owner nor sessions.
   */
  lemma BootstrapAcceptedIff(t: Tables, token: Token, claimedId: Option<string>, handshake: Option<Handshake>,
                             metadata: DeviceMetadata, writable: bool, c: Context)
    ensures var (after, reply) := Step(t, Bootstrap(token, claimedId, handshake, metadata, writable), c);
            && (reply == Done <==>
                  && token < |t.sessions| && t.sessions[token].revokedAt == None && c.now < t.sessions[token].expiresAt
                  && t.sessions[token].installationId in t.installations
                  && Text.Trim(if claimedId.Some? then claimedId.value else t.sessions[token].installationId)
                     == t.sessions[token].installationId != ""
                  && handshake != None)
            && after.sessions == t.sessions
            && (reply != Done || !writable ==> after == t)
            && (reply == Done && writable ==>
                  var id := t.sessions[token].installationId;
                  && after.installations.Keys == t.installations.Keys
                  && after.installations[id].userId == t.installations[id].userId
                  && Reported(Some(t.installations[id]), after.installations[id], handshake.value, metadata, c.now)
                  && forall k :: k in t.installations && k != id ==> after.installations[k] == t.installations[k])
  {
  }

  /** Which refusal of a bootstrap it is. */
  lemma BootstrapRefusals(t: Tables, token: Token, claimedId: Option<string>, handshake: Option<Handshake>,
                          metadata: DeviceMetadata, writable: bool, c: Context)
    ensures var reply := Step(t, Bootstrap(token, claimedId, handshake, metadata, writable), c).1;
            var open := && token < |t.sessions| && t.sessions[token].revokedAt == None && c.now < t.sessions[token].expiresAt
                        && t.sessions[token].installationId in t.installations;
            && (!open ==> reply == Failed(Unauthorized))
            && (open ==>
                  var own := t.sessions[token].installationId;
                  var claimed := Text.Trim(if claimedId.Some? then claimedId.value else own);
                  && (reply == Failed(Unauthorized) <==> claimed != "" && claimed != own)
                  && (reply == Failed(BadRequest) <==> claimed == "" || (claimed == own && handshake == None)))
  {
  }

  /** A label is written by the owner, without outer spaces and at most 120 characters long; a blank one removes it. */
  lemma LabelMeaning(t: Tables, userId: string, rawId: string, mayRead: bool, deviceLabel: Option<string>, c: Context)
    ensures var (after, reply) := Step(t, SetLabel(userId, rawId, mayRead, deviceLabel), c);
            var id, shown := Text.Trim(rawId), Text.Trim(if deviceLabel.Some? then deviceLabel.value else "");
            && (reply == Done <==> mayRead && id != "" && |shown| <= 120
                                   && id in t.installations && t.installations[id].userId == userId)
            && (reply == Failed(Forbidden) <==> !mayRead)
            && (reply == Failed(BadRequest) <==> mayRead && (id == "" || |shown| > 120))
            && after.sessions == t.sessions
            && (reply != Done ==> after == t)
            && (reply == Done ==>
                  var was := t.installations[id];
                  var metadata := was.metadata.(deviceLabel := if shown == "" then None else Some(shown));
                  after.installations == t.installations[id := was.(metadata := metadata)])
  {
  }

  /** An operation that can write what a device reports about this installation. */
  predicate Reports(r: Request, id: string) {
    (r.Bind? && Text.Trim(r.installationId) == id) || (r.Bootstrap? && r.writable)
  }

  lemma StepKeepsRow(t: Tables, r: Request, c: Context, id: string)
    requires id in t.installations
    ensures var (row, after) := (t.installations[id], Step(t, r, c).0.installations);
            && id in after
            && after[id].createdAt == row.createdAt
            && (!Reports(r, id) ==>
                  && after[id].userId == row.userId && after[id].handshake == row.handshake
                  && after[id].lastSeenAt == row.lastSeenAt)
  {
    match r
    case Bind(userId, rawId, handshake, metadata) => BindMeaning(t, userId, rawId, handshake, metadata, c);
    case Bootstrap(token, claimedId, handshake, metadata, writable) =>
      BootstrapAcceptedIff(t, token, claimedId, handshake, metadata, writable, c);
    case _ =>
  }

  /**
   Over every run an installation stays known and keeps the time it was first seen; owner, handshake and last-seen time
   are those of the last bind or bootstrap.
   */
  lemma {:induction false} RunKeepsRow(t: Tables, calls: seq<Call>, id: string)
    requires id in t.installations
    ensures var (row, after) := (t.installations[id], Run(t, calls).installations);
            && id in after
            && after[id].createdAt == row.createdAt
            && ((forall k :: 0 <= k < |calls| ==> !Reports(calls[k].request, id)) ==>
                  && after[id].userId == row.userId && after[id].handshake == row.handshake
                  && after[id].lastSeenAt == row.lastSeenAt)
    decreases |calls|
  {
    if calls != [] {
      StepKeepsRow(t, calls[0].request, calls[0].context, id);
      RunKeepsRow(Step(t, calls[0].request, calls[0].context).0, calls[1..], id);
      assert (forall k :: 0 <= k < |calls| ==> !Reports(calls[k].request, id)) ==>
               forall k :: 0 <= k < |calls[1..]| ==> calls[1..][k] == calls[k + 1];
    }
  }

  /** The guard of the operations that replace or revoke the sessions of the installation they name. */
  predicate Replaces(t: Tables, r: Request) {
    match r
    case Bind(_, rawId, handshake, _) => Text.Trim(rawId) != "" && handshake.Some?
    case Rotate(userId, rawId, mayWrite, reason) =>
      Text.Trim(rawId) != "" && mayWrite && ValidReason(reason) && OwnedBy(t, Text.Trim(rawId), userId)
    case Disconnect(userId, rawId, mayWrite, reason) =>
      Text.Trim(rawId) != "" && mayWrite && ValidReason(reason) && OwnedBy(t, Text.Trim(rawId), userId)
    case SelfDisconnect(userId, rawId, mayRead) =>
      Text.Trim(rawId) != "" && mayRead && OwnedBy(t, Text.Trim(rawId), userId)
    case _ => false
  }

  lemma ReplacesIff(t: Tables, r: Request, c: Context)
    requires !r.Refresh?
    ensures Replaces(t, r) <==> Step(t, r, c).1.Issued? || Step(t, r, c).1.Revoked?
  {
  }

  /** No operation touches the sessions of an installation it is not about. */
  function Subject(t: Tables, r: Request): Option<string> {
    match r
    case Refresh(token) => if token < |t.sessions| then Some(t.sessions[token].installationId) else None
    case Bootstrap(token, _, _, _, _) => if token < |t.sessions| then Some(t.sessions[token].installationId) else None
    case _ => Some(Text.Trim(r.installationId))
  }

  ghost predicate SameElsewhere(before: seq<Session>, after: seq<Session>, id: string) {
    && |before| <= |after|
    && (forall i :: 0 <= i < |before| && before[i].installationId != id ==> after[i] == before[i])
    && (forall i :: 0 <= i < |before| ==> after[i].installationId == before[i].installationId)
    && (forall i :: |before| <= i < |after| ==> after[i].installationId == id)
  }

  lemma LiveElsewhere(before: seq<Session>, after: seq<Session>, id: string, other: string)
    requires SameElsewhere(before, after, id) && other != id
    ensures Live(after, other) == Live(before, other)
  {
  }

  lemma OtherInstallationsUntouched(t: Tables, r: Request, c: Context, other: string)
    requires Subject(t, r) != Some(other)
    ensures var after := Step(t, r, c).0;
            && Live(after.sessions, other) == Live(t.sessions, other)
            && Lookup(after.installations, other) == Lookup(t.installations, other)
  {
    StepStaysAtSubject(t, r, c);
    if Subject(t, r).Some? {
      LiveElsewhere(t.sessions, Step(t, r, c).0.sessions, Subject(t, r).value, other);
    }
  }

  lemma StepStaysAtSubject(t: Tables, r: Request, c: Context)
    ensures var (after, subject) := (Step(t, r, c).0, Subject(t, r));
            if subject.None? then after == t
            else
              && SameElsewhere(t.sessions, after.sessions, subject.value)
              && forall k :: k != subject.value ==> Lookup(after.installations, k) == Lookup(t.installations, k)
  {
  }

  /** Session rows are append-only; a revoked row never changes again. */
  ghost predicate Extends(before: seq<Session>, after: seq<Session>) {
    && |before| <= |after|
    && forall i :: 0 <= i < |before| ==>
         && after[i].(revokedAt := None) == before[i].(revokedAt := None)
         && (before[i].revokedAt.Some? ==> after[i] == before[i])
  }

  lemma RevokeExtends(sessions: seq<Session>, id: string, at: int)
    ensures Extends(sessions, RevokeActive(sessions, id, at))
  {
  }

  lemma IssueExtends(before: seq<Session>, sessions: seq<Session>, id: string, userId: string, c: Context)
    requires Extends(before, sessions)
    ensures Extends(before, Issue(sessions, id, userId, c))
  {
  }

  lemma StepExtends(t: Tables, r: Request, c: Context)
    ensures Extends(t.sessions, Step(t, r, c).0.sessions)
  {
    if r.Bind? || r.Rotate? || r.Disconnect? || r.SelfDisconnect? {
      var id := Text.Trim(r.installationId);
      var revoked := RevokeActive(t.sessions, id, c.now);
      RevokeExtends(t.sessions, id, c.now);
      IssueExtends(t.sessions, revoked, id, r.userId, c);
    }
  }

  lemma {:induction false} RunExtends(t: Tables, calls: seq<Call>)
    ensures Extends(t.sessions, Run(t, calls).sessions)
    decreases |calls|
  {
    if calls != [] {
      var next := Step(t, calls[0].request, calls[0].context).0;
      StepExtends(t, calls[0].request, calls[0].context);
      RunExtends(next, calls[1..]);
      ExtendsTransitive(t.sessions, next.sessions, Run(next, calls[1..]).sessions);
    }
  }

  lemma ExtendsTransitive(a: seq<Session>, b: seq<Session>, c: seq<Session>)
    requires Extends(a, b) && Extends(b, c)
    ensures Extends(a, c)
  {
  }

  /** A token is good for one refresh: once exchanged it is never accepted again, in any later run. */
  lemma RedeemedTokenStaysDead(t: Tables, token: Token, c: Context, calls: seq<Call>, later: Context)
    requires Step(t, Refresh(token), c).1.Issued?
    ensures var end := Run(Step(t, Refresh(token), c).0, calls);
            && FindActive(end.sessions, token, later.now).None?
            && Step(end, Refresh(token), later) == (end, Failed(Unauthorized))
  {
    var spent := Step(t, Refresh(token), c).0;
    assert spent.sessions[token].revokedAt.Some?;
    RunExtends(spent, calls);
  }

  lemma NotTheOwner(t: Tables, installationId: string, other: string, reason: string, c: Context)
    requires !OwnedBy(t, Text.Trim(installationId), other)
    ensures !Step(t, Rotate(other, installationId, true, reason), c).1.Issued?
    ensures !Step(t, Disconnect(other, installationId, true, reason), c).1.Revoked?
    ensures !Step(t, SelfDisconnect(other, installationId, true), c).1.Revoked?
  {
  }

  lemma BoundIsOwned(t: Tables, r: Request, c: Context)
    requires r.Bind? && Step(t, r, c).1.Issued?
    ensures var after := Step(t, r, c).0;
            && OwnedBy(after, Text.Trim(r.installationId), r.userId)
            && forall i :: i in Live(after.sessions, Text.Trim(r.installationId)) ==> after.sessions[i].userId == r.userId
  {
  }

  /** Binding moves the installation: the previous owner can neither rotate nor disconnect it any more. */
  lemma BindMovesOwnership(t: Tables, r: Request, c: Context, previous: string, reason: string, later: Context)
    requires r.Bind? && Step(t, r, c).1.Issued? && previous != r.userId
    ensures var after := Step(t, r, c).0;
            && !Step(after, Rotate(previous, r.installationId, true, reason), later).1.Issued?
            && !Step(after, Disconnect(previous, r.installationId, true, reason), later).1.Revoked?
            && !Step(after, SelfDisconnect(previous, r.installationId, true), later).1.Revoked?
            && forall i :: i in Live(after.sessions, Text.Trim(r.installationId)) ==> after.sessions[i].userId == r.userId
  {
    BoundIsOwned(t, r, c);
    NotTheOwner(Step(t, r, c).0, r.installationId, previous, reason, later);
  }
}
