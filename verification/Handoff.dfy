// The two-party handoff: what the parties say, what each party's log must look
// like, and what holds whenever two such parties exchange frames.
module Handoff {
  import opened Commons
  import opened LocalTime

  datatype Stage = PreSpawn | Bound | Watchdog | Resume | EffectPublication | Receipt | DagAck

  const CHECKPOINT_ORDER := [Resume, EffectPublication, Receipt, DagAck]

  // The name a stage's deadline check is made under.
  function CheckName(stage: Stage): (name: string)
    ensures name in CHECKPOINTS
  {
    match stage
    case PreSpawn => "watchdog"
    case Bound => "watchdog"
    case Watchdog => "watchdog"
    case Resume => "resume"
    case EffectPublication => "effect_publication"
    case Receipt => "receipt"
    case DagAck => "dag_ack"
  }

  datatype Request = Request(
    intentId: string, generation: int, leaseId: string, leaseSha: string, boot: BootId,
    deadline: int, target: string, workerSid: string, scratchSid: string)

  datatype Response = Response(request: Request, decision: string, issuer: string, client: string)

  // The binding as it travels: the creation time is decimal text.
  datatype Wire = Wire(
    issuerSid: string, workerSid: string, scratchSid: string, participantPid: int,
    creation: string, intentId: string, generation: int, leaseSha: string)

  // One frame, up to canonical encoding; Other is every frame that is not one of these.
  datatype Message =
    | Claim(request: Request)
    | Handoff(response: Response)
    | HandoffAck(digest: Digest<Response>)
    | Checkpoint(stage: Stage, digest: Digest<Response>, binding: Option<Wire>)
    | BindFrame(digest: Digest<Response>, fields: Wire, participant: string, job: string)
    | StageAck(stage: Stage, digest: Digest<Response>)
    | Other

  datatype Event =
    | Got(message: Message)
    | Sent(message: Message)
    | Timed(name: string)
    | Verified
    | Observed
    // The client counts a stage as passed.
    | Noted(stage: Stage)

  type Log = seq<Event>

  function Gots(log: Log): seq<Message> {
    if log == [] then []
    else Gots(log[..|log| - 1]) + match log[|log| - 1] { case Got(m) => [m] case _ => [] }
  }

  function Sents(log: Log): seq<Message> {
    if log == [] then []
    else Sents(log[..|log| - 1]) + match log[|log| - 1] { case Sent(m) => [m] case _ => [] }
  }

  // ---- The issuer ----

  predicate Spine(e: Event) {
    e.Sent? && (e.message.Handoff? || (e.message.StageAck? && e.message.stage !in {PreSpawn, Watchdog}))
  }

  // How many messages that are not heartbeats the issuer has sent: first the
  // handoff, then the bind, then the four stages.
  function Position(log: Log): nat {
    if log == [] then 0
    else Position(log[..|log| - 1]) + if Spine(log[|log| - 1]) then 1 else 0
  }

  // The client's acknowledgement, then a deadline check and a verification.
  predicate Settled(log: Log, i: nat, digest: Digest<Response>) {
    i + 2 < |log| && log[i..i + 3] == [Got(HandoffAck(digest)), Timed("pre_spawn"), Verified]
  }

  ghost predicate Acknowledged(log: Log, digest: Digest<Response>) {
    exists i: nat :: Settled(log, i, digest)
  }

  lemma SettledHere(log: Log, i: nat, digest: Digest<Response>)
    requires i + 2 < |log| && log[i] == Got(HandoffAck(digest)) && log[i + 1] == Timed("pre_spawn") && log[i + 2] == Verified
    ensures Acknowledged(log, digest)
  {
    assert log[i..i + 3] == [log[i], log[i + 1], log[i + 2]];
    assert Settled(log, i, digest);
  }

  lemma AcknowledgedStays(log: Log, e: Event, digest: Digest<Response>)
    requires Acknowledged(log, digest)
    ensures Acknowledged(log + [e], digest)
  {
    var i: nat :| Settled(log, i, digest);
    assert (log + [e])[i..i + 3] == log[i..i + 3];
    assert Settled(log + [e], i, digest);
  }

  // Where in the exchange a message may be sent.
  ghost predicate InOrder(before: Log, m: Message) {
    match m
    case Handoff(_) => Position(before) == 0
    case StageAck(stage, digest) =>
      && Acknowledged(before, digest)
      && (match stage
          case PreSpawn => Position(before) == 1
          case Bound => Position(before) == 1
          case Watchdog => 2 <= Position(before) <= 5
          case _ => 2 <= Position(before) <= 5 && stage == CHECKPOINT_ORDER[Position(before) - 2])
    case _ => false
  }

  // The binding the issuer has accepted: the one it acknowledged last.
  function BoundBinding(log: Log): Option<Wire> {
    if log == [] then None
    else
      var n := |log| - 1;
      if log[n].Sent? && log[n].message.StageAck? && log[n].message.stage == Bound
         && n >= 3 && log[n - 3].Got? && log[n - 3].message.BindFrame?
      then Some(log[n - 3].message.fields)
      else BoundBinding(log[..n])
  }

  // The events directly before a message: the frame it answers, and its own
  // deadline check, custody verification and native observation.
  predicate Answers(before: Log, m: Message) {
    var n := |before|;
    match m
    case Handoff(response) =>
      before == [Timed("admission"), Got(Claim(response.request)), Verified, Timed("pre_spawn")]
    case StageAck(PreSpawn, digest) =>
      n >= 3 && before[n - 3..] == [Got(Checkpoint(PreSpawn, digest, None)), Timed("watchdog"), Verified]
    case StageAck(Bound, digest) =>
      && n >= 3 && before[n - 3].Got? && before[n - 3].message.BindFrame?
      && before[n - 3].message.digest == digest && before[n - 2..] == [Observed, Verified]
    case StageAck(stage, digest) =>
      && n >= 5 && before[n - 5].Got? && before[n - 5].message.Checkpoint?
      && before[n - 5].message.stage == stage && before[n - 5].message.digest == digest
      && before[n - 5].message.binding.Some? && before[n - 5].message.binding == BoundBinding(before)
      && before[n - 4..] == [Timed(CheckName(stage)), Verified, Observed, Timed(CheckName(stage))]
    case _ => false
  }

  // Every message answers its own request, freshly verified, and in order.
  ghost predicate IssuerLog(log: Log) {
    forall i :: 0 <= i < |log| && log[i].Sent? ==>
      InOrder(log[..i], log[i].message) && Answers(log[..i], log[i].message)
  }

  lemma IssuerLogAppend(log: Log, e: Event)
    requires IssuerLog(log)
    requires e.Sent? ==> InOrder(log, e.message) && Answers(log, e.message)
    ensures IssuerLog(log + [e])
    ensures Position(log + [e]) == Position(log) + if Spine(e) then 1 else 0
    ensures !(e.Sent? && e.message.StageAck? && e.message.stage == Bound) ==>
      BoundBinding(log + [e]) == BoundBinding(log)
  {
    var more := log + [e];
    assert more[..|log|] == log;
    forall i | 0 <= i < |more| && more[i].Sent?
      ensures InOrder(more[..i], more[i].message) && Answers(more[..i], more[i].message)
    {
      if i < |log| {
        assert more[..i] == log[..i] && more[i] == log[i];
      }
    }
  }

  // ---- The client ----

  function Passed(log: Log): nat {
    if log == [] then 0
    else Passed(log[..|log| - 1]) + if log[|log| - 1].Noted? then 1 else 0
  }

  // The handoff that answers the claim a log begins with.
  function Answered(log: Log): Option<Response> {
    if |log| >= 2 && log[1].Got? && log[1].message.Handoff? && log[0] == Sent(Claim(log[1].message.response.request))
    then Some(log[1].message.response) else None
  }

  // The session a log has opened: claim, handoff, acknowledgement.
  function SessionOf(log: Log): Option<Response> {
    if |log| >= 3 && Answered(log).Some? && log[2] == Sent(HandoffAck(Sha256(Answered(log).value)))
    then Answered(log) else None
  }

  // The binding the client has asked for.
  function AskedBinding(log: Log): Option<Wire> {
    if log == [] then None
    else
      var n := |log| - 1;
      if log[n].Sent? && log[n].message.BindFrame? then Some(log[n].message.fields) else AskedBinding(log[..n])
  }

  predicate InSession(log: Log, digest: Digest<Response>) {
    SessionOf(log).Some? && digest == Sha256(SessionOf(log).value)
  }

  // One frame is read after each request. Nothing but the claim is sent outside
  // a session, one binding is asked for, and then every checkpoint carries it. A
  // stage is requested only as the next one, and counted only directly after
  // its own request was acknowledged.
  predicate ClientStep(before: Log, e: Event) {
    var n := |before|;
    match e
    case Sent(Claim(_)) => before == []
    case Sent(HandoffAck(digest)) => n == 2 && Answered(before).Some? && digest == Sha256(Answered(before).value)
    case Sent(BindFrame(digest, _, _, _)) => InSession(before, digest) && AskedBinding(before).None?
    case Sent(Checkpoint(stage, digest, binding)) =>
      && InSession(before, digest) && stage != Bound && binding == AskedBinding(before)
      && (stage == PreSpawn <==> binding.None?)
      && (stage in CHECKPOINT_ORDER ==> Passed(before) < 4 && stage == CHECKPOINT_ORDER[Passed(before)])
    case Sent(_) => false
    case Got(_) => n >= 1 && before[n - 1].Sent? && !before[n - 1].message.HandoffAck?
    case Noted(stage) =>
      && Passed(before) < 4 && stage == CHECKPOINT_ORDER[Passed(before)]
      && n >= 2 && before[n - 1].Got? && before[n - 1].message.StageAck? && before[n - 1].message.stage == stage
      && InSession(before, before[n - 1].message.digest)
      && before[n - 2].Sent? && before[n - 2].message.Checkpoint? && before[n - 2].message.stage == stage
    case _ => false
  }

  ghost predicate ClientLog(log: Log) {
    forall i :: 0 <= i < |log| ==> ClientStep(log[..i], log[i])
  }

  lemma ClientLogAppend(log: Log, e: Event)
    requires ClientLog(log) && ClientStep(log, e)
    ensures ClientLog(log + [e])
    ensures Passed(log + [e]) == Passed(log) + if e.Noted? then 1 else 0
    ensures SessionOf(log).Some? ==> SessionOf(log + [e]) == SessionOf(log)
    ensures AskedBinding(log + [e]) == if e.Sent? && e.message.BindFrame? then Some(e.message.fields) else AskedBinding(log)
  {
    hide ClientStep, ClientLog;
    ClientLogGrows(log, e);
    assert (log + [e])[..|log|] == log;
  }

  lemma ClientLogGrows(log: Log, e: Event)
    requires ClientLog(log) && ClientStep(log, e)
    ensures ClientLog(log + [e])
  {
    hide ClientStep;
    var more := log + [e];
    assert more[..|log|] == log;
    forall i | 0 <= i < |more| ensures ClientStep(more[..i], more[i]) {
      if i < |log| {
        assert more[..i] == log[..i] && more[i] == log[i];
      }
    }
  }

  // A request of a session always lets the next frame be read.
  lemma RequestLetsRead(log: Log, m: Message)
    requires ClientStep(log, Sent(m)) && (m.Checkpoint? || m.BindFrame?)
    ensures forall reply :: ClientStep(log + [Sent(m)], Got(reply))
    ensures m.BindFrame? ==> AskedBinding(log).None?
  {
    hide AskedBinding, Passed, SessionOf;
  }

  // ---- The two parties and the two channels between them ----

  ghost predicate IssuerStep(before: Log, e: Event) {
    e.Sent? ==> InOrder(before, e.message) && Answers(before, e.message)
  }

  // What is under way in each direction, first in first out.
  datatype System = System(issuer: Log, client: Log, toIssuer: seq<Message>, toClient: seq<Message>)

  datatype Move = OfIssuer(e: Event) | OfClient(e: Event)

  const START := System([], [], [], [])

  function After(s: System, m: Move): System {
    match m
    case OfIssuer(e) =>
      System(s.issuer + [e], s.client,
             if e.Got? && s.toIssuer != [] then s.toIssuer[1..] else s.toIssuer,
             if e.Sent? then s.toClient + [e.message] else s.toClient)
    case OfClient(e) =>
      System(s.issuer, s.client + [e],
             if e.Sent? then s.toIssuer + [e.message] else s.toIssuer,
             if e.Got? && s.toClient != [] then s.toClient[1..] else s.toClient)
  }

  // Either party makes any step its own log allows; a frame is read when it is
  // the oldest under way.
  ghost predicate May(s: System, m: Move) {
    match m
    case OfIssuer(e) => IssuerStep(s.issuer, e) && (e.Got? ==> s.toIssuer != [] && s.toIssuer[0] == e.message)
    case OfClient(e) => ClientStep(s.client, e) && (e.Got? ==> s.toClient != [] && s.toClient[0] == e.message)
  }

  ghost predicate Exchanged(moves: seq<Move>, s: System)
    decreases |moves|
  {
    if moves == [] then s == START
    else
      var n := |moves| - 1;
      exists before :: Exchanged(moves[..n], before) && May(before, moves[n]) && s == After(before, moves[n])
  }

  // In some exchange, at some moment.
  ghost predicate Reached(s: System) {
    exists moves :: Exchanged(moves, s)
  }

  lemma ReachedNext(s: System, m: Move)
    requires Reached(s) && May(s, m)
    ensures Reached(After(s, m))
  {
    hide May;
    var moves :| Exchanged(moves, s);
    var more := moves + [m];
    assert more[..|more| - 1] == moves;
    assert Exchanged(more, After(s, m));
  }

  // Every frame sent is received or under way, in order.
  ghost predicate Conserved(s: System) {
    && IssuerLog(s.issuer) && ClientLog(s.client)
    && Sents(s.client) == Gots(s.issuer) + s.toIssuer && Sents(s.issuer) == Gots(s.client) + s.toClient
  }

  lemma CountedAppend(log: Log, e: Event)
    ensures Gots(log + [e]) == Gots(log) + if e.Got? then [e.message] else []
    ensures Sents(log + [e]) == Sents(log) + if e.Sent? then [e.message] else []
  {
    var more := log + [e];
    assert more[..|more| - 1] == log;
  }

  lemma MoveConserves(s: System, m: Move)
    requires Conserved(s) && May(s, m)
    ensures Conserved(After(s, m))
  {
    hide Conserved, IssuerStep, ClientStep;
    match m
    case OfIssuer(e) => IssuerConserves(s, e);
    case OfClient(e) => ClientConserves(s, e);
  }

  lemma IssuerConserves(s: System, e: Event)
    requires Conserved(s) && May(s, OfIssuer(e))
    ensures Conserved(After(s, OfIssuer(e)))
  {
    hide IssuerLog, ClientLog, InOrder, Answers, Gots, Sents, Position, BoundBinding, Spine;
    CountedAppend(s.issuer, e);
    IssuerLogAppend(s.issuer, e);
    if e.Got? { assert s.toIssuer == [e.message] + s.toIssuer[1..]; }
  }

  lemma ClientConserves(s: System, e: Event)
    requires Conserved(s) && May(s, OfClient(e))
    ensures Conserved(After(s, OfClient(e)))
  {
    hide IssuerLog, ClientLog, ClientStep, Gots, Sents, Passed, SessionOf, AskedBinding;
    CountedAppend(s.client, e);
    ClientLogAppend(s.client, e);
    if e.Got? { assert s.toClient == [e.message] + s.toClient[1..]; }
  }

  lemma {:induction false} ExchangedConserves(moves: seq<Move>, s: System)
    requires Exchanged(moves, s)
    ensures Conserved(s)
    decreases |moves|
  {
    hide May, Conserved;
    if moves == [] {
      assert Conserved(START) by { StartConserves(); }
    } else {
      var n := |moves| - 1;
      var before :| Exchanged(moves[..n], before) && May(before, moves[n]) && s == After(before, moves[n]);
      ExchangedConserves(moves[..n], before);
      MoveConserves(before, moves[n]);
    }
  }

  lemma StartConserves()
    ensures Conserved(START)
  {
  }

  // Each side has received a prefix of what the other has sent so far.
  predicate Joined(issuer: Log, client: Log) {
    Gots(issuer) <= Sents(client) && Gots(client) <= Sents(issuer)
  }

  lemma ReachedIsJoined(s: System)
    requires Reached(s)
    ensures IssuerLog(s.issuer) && ClientLog(s.client) && Joined(s.issuer, s.client)
  {
    var moves :| Exchanged(moves, s);
    ExchangedConserves(moves, s);
  }

  lemma {:induction false} GotIn(log: Log, m: Message)
    ensures m in Gots(log) <==> Got(m) in log
  {
    if log != [] {
      var front := log[..|log| - 1];
      GotIn(front, m);
      assert log == front + [log[|log| - 1]];
    }
  }

  lemma {:induction false} SentIn(log: Log, m: Message)
    ensures m in Sents(log) <==> Sent(m) in log
  {
    if log != [] {
      var front := log[..|log| - 1];
      SentIn(front, m);
      assert log == front + [log[|log| - 1]];
    }
  }

  lemma Carried(issuer: Log, client: Log, m: Message)
    requires Joined(issuer, client)
    ensures Got(m) in issuer ==> Sent(m) in client
    ensures Got(m) in client ==> Sent(m) in issuer
  {
    GotIn(issuer, m);
    GotIn(client, m);
    SentIn(issuer, m);
    SentIn(client, m);
  }

  // Stages the issuer has acknowledged.
  function AckedStages(log: Log): int {
    if Position(log) <= 2 then 0 else Position(log) - 2
  }

  lemma {:induction false} PositionGrows(log: Log, i: nat)
    requires i <= |log|
    ensures Position(log[..i]) <= Position(log)
    ensures i < |log| && Spine(log[i]) ==> Position(log[..i]) < Position(log)
    decreases |log|
  {
    if i < |log| {
      var front := log[..|log| - 1];
      assert front[..i] == log[..i];
      if i < |front| { assert front[i] == log[i]; PositionGrows(front, i); }
    } else {
      assert log[..i] == log;
    }
  }

  lemma {:induction false} PassedGrows(log: Log, i: nat)
    requires i <= |log|
    ensures Passed(log[..i]) <= Passed(log)
    ensures i < |log| && log[i].Noted? ==> Passed(log[..i]) < Passed(log)
    decreases |log|
  {
    if i < |log| {
      var front := log[..|log| - 1];
      assert front[..i] == log[..i];
      if i < |front| { assert front[i] == log[i]; PassedGrows(front, i); }
    } else {
      assert log[..i] == log;
    }
  }

  // Where the k-th counted message of a log was sent.
  lemma {:induction false} FindPosition(log: Log, k: nat) returns (i: nat)
    requires k < Position(log)
    ensures i < |log| && Spine(log[i]) && Position(log[..i]) == k
    decreases |log|
  {
    var front := log[..|log| - 1];
    if k < Position(front) {
      i := FindPosition(front, k);
      assert front[..i] == log[..i];
    } else {
      i := |log| - 1;
    }
  }

  lemma {:induction false} FindPassed(log: Log, k: nat) returns (i: nat)
    requires k < Passed(log)
    ensures i < |log| && log[i].Noted? && Passed(log[..i]) == k
    decreases |log|
  {
    var front := log[..|log| - 1];
    if k < Passed(front) {
      i := FindPassed(front, k);
      assert front[..i] == log[..i];
    } else {
      i := |log| - 1;
    }
  }

  lemma StageMessage(log: Log, k: nat) returns (i: nat)
    requires IssuerLog(log) && k < AckedStages(log) && k < 4
    ensures i < |log| && log[i].Sent? && log[i].message.StageAck?
    ensures log[i].message.stage == CHECKPOINT_ORDER[k] && Position(log[..i]) == k + 2
    ensures Answers(log[..i], log[i].message)
  {
    i := FindPosition(log, k + 2);
    assert InOrder(log[..i], log[i].message);
  }

  lemma SpineIsEarly(log: Log, i: nat)
    requires IssuerLog(log) && i < |log| && Spine(log[i])
    ensures Position(log[..i]) <= 5
  {
    assert InOrder(log[..i], log[i].message);
  }

  lemma PositionBound(log: Log)
    requires IssuerLog(log)
    ensures Position(log) <= 6
  {
    if Position(log) > 6 {
      var i := FindPosition(log, 6);
      SpineIsEarly(log, i);
    }
  }

  lemma NotedIsEarly(log: Log, i: nat)
    requires ClientLog(log) && i < |log| && log[i].Noted?
    ensures Passed(log[..i]) < 4
  {
    assert ClientStep(log[..i], log[i]);
  }

  lemma PassedBound(log: Log)
    requires ClientLog(log)
    ensures Passed(log) <= 4
  {
    if Passed(log) > 4 {
      var i := FindPassed(log, 4);
      NotedIsEarly(log, i);
    }
  }

  // In every reachable state, the stages the issuer has acknowledged exceed the
  // stages the client has counted by zero or one.
  lemma Lockstep(s: System)
    requires Reached(s)
    ensures 0 <= AckedStages(s.issuer) - Passed(s.client) <= 1
  {
    hide IssuerLog, ClientLog;
    ReachedIsJoined(s);
    PositionBound(s.issuer);
    PassedBound(s.client);
    if Passed(s.client) > 0 {
      var k := Passed(s.client) - 1;
      var i := CountedWasAcked(s, k);
      PositionGrows(s.issuer, i);
    }
    if AckedStages(s.issuer) > 0 {
      var k := AckedStages(s.issuer) - 1;
      AckedWasRequested(s.issuer, s.client, k);
    }
  }

  // A stage the client counted was acknowledged by the issuer on the client's
  // own session, directly after check, verification, observation and check.
  lemma CountedWasAcked(s: System, k: nat) returns (i: nat)
    requires Reached(s) && k < Passed(s.client)
    ensures k < 4 && SessionOf(s.client).Some? && i < |s.issuer|
    ensures s.issuer[i] == Sent(StageAck(CHECKPOINT_ORDER[k], Sha256(SessionOf(s.client).value)))
    ensures Spine(s.issuer[i]) && Position(s.issuer[..i]) == k + 2
    ensures i >= 5 && s.issuer[i - 4..i] == [Timed(CheckName(CHECKPOINT_ORDER[k])), Verified, Observed,
                                             Timed(CheckName(CHECKPOINT_ORDER[k]))]
  {
    hide SessionOf, Passed, Position, Spine, Reached, IssuerLog, ClientLog, Gots, Sents;
    ReachedIsJoined(s);
    var m := CountedWasGot(s.client, k);
    Carried(s.issuer, s.client, m);
    i :| 0 <= i < |s.issuer| && s.issuer[i] == Sent(m);
    StageAnswered(s.issuer, i, k);
  }

  // The acknowledgement a counted stage rests on.
  lemma CountedWasGot(log: Log, k: nat) returns (m: Message)
    requires ClientLog(log) && k < Passed(log)
    ensures k < 4 && SessionOf(log).Some? && Got(m) in log
    ensures m == StageAck(CHECKPOINT_ORDER[k], Sha256(SessionOf(log).value))
  {
    var j := FindPassed(log, k);
    hide SessionOf, Passed, AskedBinding;
    assert ClientStep(log[..j], log[j]);
    m := log[j - 1].message;
    assert log[..j][j - 1] == log[j - 1];
    SessionStays(log, j);
  }

  // What comes before the acknowledgement of a stage, and how many spine messages.
  lemma StageAnswered(log: Log, i: nat, k: nat)
    requires IssuerLog(log) && k < 4 && i < |log|
    requires log[i].Sent? && log[i].message.StageAck? && log[i].message.stage == CHECKPOINT_ORDER[k]
    ensures Spine(log[i]) && Position(log[..i]) == k + 2
    ensures i >= 5 && log[i - 4..i] == [Timed(CheckName(CHECKPOINT_ORDER[k])), Verified, Observed,
                                        Timed(CheckName(CHECKPOINT_ORDER[k]))]
  {
    hide InOrder, Answers, Position;
    OrderIsProper(k);
    StageInOrder(log[..i], log[i].message, k);
    StageAnswers(log[..i], log[i].message);
    assert log[..i][i - 4..] == log[i - 4..i];
  }

  lemma OrderIsProper(k: nat)
    requires k < 4
    ensures CHECKPOINT_ORDER[k] !in {PreSpawn, Bound, Watchdog}
  {
  }

  lemma StageInOrder(before: Log, m: Message, k: nat)
    requires InOrder(before, m) && m.StageAck? && k < 4 && m.stage == CHECKPOINT_ORDER[k]
    ensures Position(before) == k + 2
  {
    hide Position, Acknowledged;
    OrderIsProper(k);
    OrderIsInjective(k, Position(before) - 2);
  }

  lemma StageAnswers(before: Log, m: Message)
    requires Answers(before, m) && m.StageAck? && m.stage !in {PreSpawn, Bound, Watchdog}
    ensures |before| >= 5
    ensures before[|before| - 4..] == [Timed(CheckName(m.stage)), Verified, Observed, Timed(CheckName(m.stage))]
  {
    hide BoundBinding;
  }

  lemma SessionStays(log: Log, j: nat)
    requires j <= |log| && SessionOf(log[..j]).Some?
    ensures SessionOf(log) == SessionOf(log[..j])
  {
    assert j >= 3;
    assert log[..j][0] == log[0] && log[..j][1] == log[1] && log[..j][2] == log[2];
  }

  lemma OrderIsInjective(a: nat, b: nat)
    requires a < 4 && b < 4 && CHECKPOINT_ORDER[a] == CHECKPOINT_ORDER[b]
    ensures a == b
  {
  }

  lemma AckedWasRequested(issuer: Log, client: Log, k: nat)
    requires IssuerLog(issuer) && ClientLog(client) && Joined(issuer, client)
    requires k < AckedStages(issuer) && k < 4
    ensures Passed(client) >= k
  {
    var i := StageMessage(issuer, k);
    var stage := CHECKPOINT_ORDER[k];
    assert i >= 5 && issuer[..i][i - 5] == issuer[i - 5];
    var m := issuer[i - 5].message;
    assert Got(m) in issuer;
    Carried(issuer, client, m);
    var j :| 0 <= j < |client| && client[j] == Sent(m);
    assert ClientStep(client[..j], client[j]);
    assert stage in CHECKPOINT_ORDER;
    OrderIsInjective(k, Passed(client[..j]));
    PassedGrows(client, j);
  }

  // ---- What the parties agree on ----

  // The session the client works in is the one the issuer answered, and the only
  // one the issuer ever takes as acknowledged.
  lemma SessionsAgree(s: System, digest: Digest<Response>)
    requires Reached(s)
    ensures SessionOf(s.client).Some? ==> Sent(Handoff(SessionOf(s.client).value)) in s.issuer
    ensures Acknowledged(s.issuer, digest) ==> InSession(s.client, digest)
  {
    hide Reached, IssuerLog, ClientLog, Joined, SessionOf, Acknowledged;
    ReachedIsJoined(s);
    if SessionOf(s.client).Some? {
      SessionWasGot(s.client);
      Carried(s.issuer, s.client, Handoff(SessionOf(s.client).value));
    }
    if Acknowledged(s.issuer, digest) {
      AckWasGot(s.issuer, digest);
      Carried(s.issuer, s.client, HandoffAck(digest));
      AckOpensSession(s.client, digest);
    }
  }

  lemma SessionWasGot(log: Log)
    requires SessionOf(log).Some?
    ensures Got(Handoff(SessionOf(log).value)) in log
  {
    assert log[1] in log;
  }

  lemma AckWasGot(log: Log, digest: Digest<Response>)
    requires Acknowledged(log, digest)
    ensures Got(HandoffAck(digest)) in log
  {
    var i: nat :| Settled(log, i, digest);
    assert log[i] == log[i..i + 3][0];
  }

  lemma AckOpensSession(log: Log, digest: Digest<Response>)
    requires ClientLog(log) && Sent(HandoffAck(digest)) in log
    ensures InSession(log, digest)
  {
    hide Passed, AskedBinding;
    var j :| 0 <= j < |log| && log[j] == Sent(HandoffAck(digest));
    assert ClientStep(log[..j], log[j]);
    assert log[..j][0] == log[0] && log[..j][1] == log[1];
  }

  // The binding the issuer accepted, on which it answers every later stage, is
  // the one the client asked for.
  lemma BindingsAgree(s: System)
    requires Reached(s) && Position(s.issuer) >= 2
    ensures BoundBinding(s.issuer).Some? && AskedBinding(s.client) == BoundBinding(s.issuer)
  {
    ReachedIsJoined(s);
    var m := BindingWasGot(s.issuer);
    Carried(s.issuer, s.client, m);
    var j :| 0 <= j < |s.client| && s.client[j] == Sent(m);
    AskedOnce(s.client, j);
  }

  lemma {:induction false} BindingWasGot(log: Log) returns (m: Message)
    requires IssuerLog(log) && Position(log) >= 2
    ensures m.BindFrame? && Got(m) in log && BoundBinding(log) == Some(m.fields)
    decreases |log|
  {
    hide IssuerLog, InOrder, Answers, Acknowledged;
    var n := |log| - 1;
    var front := log[..n];
    if log[n].Sent? && log[n].message.StageAck? && log[n].message.stage == Bound {
      BindIsAnswered(log);
      m := log[n - 3].message;
    } else {
      FrontOfIssuerLog(log);
      if Spine(log[n]) { OnlyBindIsSecond(log); }
      m := BindingWasGot(front);
    }
  }

  lemma BindIsAnswered(log: Log)
    requires IssuerLog(log) && log != []
    requires log[|log| - 1].Sent? && log[|log| - 1].message.StageAck? && log[|log| - 1].message.stage == Bound
    ensures |log| >= 4 && log[|log| - 4].Got? && log[|log| - 4].message.BindFrame?
  {
    hide InOrder, BoundBinding;
    var n := |log| - 1;
    assert Answers(log[..n], log[n].message);
    assert log[..n][n - 3] == log[n - 3];
  }

  lemma OnlyBindIsSecond(log: Log)
    requires IssuerLog(log) && log != [] && Spine(log[|log| - 1])
    requires !(log[|log| - 1].message.StageAck? && log[|log| - 1].message.stage == Bound)
    ensures Position(log[..|log| - 1]) != 1
  {
    hide Answers, Position, Acknowledged;
    var n := |log| - 1;
    assert InOrder(log[..n], log[n].message);
  }

  lemma FrontOfIssuerLog(log: Log)
    requires IssuerLog(log) && log != []
    ensures IssuerLog(log[..|log| - 1])
  {
    hide InOrder, Answers;
    var front := log[..|log| - 1];
    forall i | 0 <= i < |front| && front[i].Sent?
      ensures InOrder(front[..i], front[i].message) && Answers(front[..i], front[i].message)
    {
      assert front[..i] == log[..i] && front[i] == log[i];
    }
  }

  lemma FrontOfClientLog(log: Log)
    requires ClientLog(log) && log != []
    ensures ClientLog(log[..|log| - 1])
  {
    hide ClientStep;
    var front := log[..|log| - 1];
    forall i | 0 <= i < |front| ensures ClientStep(front[..i], front[i]) {
      assert front[..i] == log[..i] && front[i] == log[i];
    }
  }

  lemma {:induction false} AskedOnce(log: Log, j: nat)
    requires ClientLog(log) && j < |log| && log[j].Sent? && log[j].message.BindFrame?
    ensures AskedBinding(log) == Some(log[j].message.fields)
    decreases |log|
  {
    hide SessionOf, Passed, Answered, ClientLog;
    var n := |log| - 1;
    var front := log[..n];
    if j < n {
      FrontOfClientLog(log);
      AskedOnce(front, j);
      LastStep(log);
    }
  }

  lemma LastStep(log: Log)
    requires ClientLog(log) && log != []
    ensures ClientStep(log[..|log| - 1], log[|log| - 1])
  {
    hide ClientStep;
  }

  // ---- One complete exchange ----

  // Nothing under way, n stages behind both parties.
  ghost predicate Standing(s: System, response: Response, fields: Wire, n: nat) {
    && Reached(s) && s.toIssuer == [] && s.toClient == []
    && SessionOf(s.client) == Some(response) && Acknowledged(s.issuer, Sha256(response))
    && AskedBinding(s.client) == Some(fields) && BoundBinding(s.issuer) == Some(fields)
    && Passed(s.client) == n && Position(s.issuer) == n + 2
  }

  // The client sends and the issuer reads.
  lemma ClientSays(s: System, m: Message) returns (s': System)
    requires Reached(s) && s.toIssuer == [] && ClientStep(s.client, Sent(m))
    ensures Reached(s') && s' == System(s.issuer + [Got(m)], s.client + [Sent(m)], [], s.toClient)
    ensures Position(s'.issuer) == Position(s.issuer) && BoundBinding(s'.issuer) == BoundBinding(s.issuer)
    ensures Passed(s'.client) == Passed(s.client)
    ensures SessionOf(s.client).Some? ==> SessionOf(s'.client) == SessionOf(s.client)
    ensures AskedBinding(s'.client) == if m.BindFrame? then Some(m.fields) else AskedBinding(s.client)
  {
    hide ClientStep, Position, BoundBinding, Passed, SessionOf, AskedBinding;
    ReachedIsJoined(s);
    ClientLogAppend(s.client, Sent(m));
    IssuerLogAppend(s.issuer, Got(m));
    ReachedNext(s, OfClient(Sent(m)));
    var sent := After(s, OfClient(Sent(m)));
    ReachedNext(sent, OfIssuer(Got(m)));
    s' := After(sent, OfIssuer(Got(m)));
  }

  lemma IssuerNotes(s: System, e: Event) returns (s': System)
    requires Reached(s) && !e.Sent? && !e.Got?
    ensures Reached(s') && s' == s.(issuer := s.issuer + [e])
    ensures Position(s'.issuer) == Position(s.issuer) && BoundBinding(s'.issuer) == BoundBinding(s.issuer)
  {
    ReachedIsJoined(s);
    IssuerLogAppend(s.issuer, e);
    ReachedNext(s, OfIssuer(e));
    s' := After(s, OfIssuer(e));
  }

  // The issuer answers and the client reads.
  lemma IssuerSays(s: System, m: Message) returns (s': System)
    requires Reached(s) && s.toClient == [] && InOrder(s.issuer, m) && Answers(s.issuer, m)
    requires ClientStep(s.client, Got(m))
    ensures Reached(s') && s' == System(s.issuer + [Sent(m)], s.client + [Got(m)], s.toIssuer, [])
    ensures Position(s'.issuer) == Position(s.issuer) + if Spine(Sent(m)) then 1 else 0
    ensures !(m.StageAck? && m.stage == Bound) ==> BoundBinding(s'.issuer) == BoundBinding(s.issuer)
    ensures Passed(s'.client) == Passed(s.client) && AskedBinding(s'.client) == AskedBinding(s.client)
    ensures SessionOf(s.client).Some? ==> SessionOf(s'.client) == SessionOf(s.client)
  {
    hide IssuerLog, ClientLog, Reached, ClientStep, InOrder, Answers, Position, BoundBinding, Passed, SessionOf, AskedBinding;
    ReachedIsJoined(s);
    IssuerLogAppend(s.issuer, Sent(m));
    ClientLogAppend(s.client, Got(m));
    ReachedNext(s, OfIssuer(Sent(m)));
    var sent := After(s, OfIssuer(Sent(m)));
    ReachedNext(sent, OfClient(Got(m)));
    s' := After(sent, OfClient(Got(m)));
  }

  lemma {:induction false} StillAcknowledged(log: Log, more: Log, digest: Digest<Response>)
    requires Acknowledged(log, digest)
    ensures Acknowledged(log + more, digest)
    decreases |more|
  {
    if more == [] {
      assert log + more == log;
    } else {
      var n := |more| - 1;
      StillAcknowledged(log, more[..n], digest);
      AcknowledgedStays(log + more[..n], more[n], digest);
      assert log + more == log + more[..n] + [more[n]];
    }
  }

  // One stage asked for, answered and counted.
  lemma StageGoesThrough(s: System, response: Response, fields: Wire, n: nat) returns (s': System)
    requires Standing(s, response, fields, n) && n < 4
    ensures Standing(s', response, fields, n + 1)
  {
    hide Position, BoundBinding, Passed, SessionOf, AskedBinding, Reached, Acknowledged, ClientStep, InOrder, Answers;
    var stage, digest := CHECKPOINT_ORDER[n], Sha256(response);
    OrderIsProper(n);
    StageMayBeAsked(s.client, response, fields, n);
    var s1 := ClientSays(s, Checkpoint(stage, digest, Some(fields)));
    var s2 := IssuerNotes(s1, Timed(CheckName(stage)));
    var s3 := IssuerNotes(s2, Verified);
    var s4 := IssuerNotes(s3, Observed);
    var s5 := IssuerNotes(s4, Timed(CheckName(stage)));
    var more := [Got(Checkpoint(stage, digest, Some(fields))), Timed(CheckName(stage)), Verified, Observed,
                 Timed(CheckName(stage))];
    assert s5.issuer == s.issuer + more;
    StillAcknowledged(s.issuer, more, digest);
    StageMayBeAnswered(s.issuer, s5.issuer, response, fields, n);
    RequestLetsRead(s.client, Checkpoint(stage, digest, Some(fields)));
    var s6 := IssuerSays(s5, StageAck(stage, digest));
    AcknowledgedStays(s5.issuer, Sent(StageAck(stage, digest)), digest);
    StageMayBeCounted(s6.client, response, n);
    s' := StageIsCounted(s6, stage);
  }

  lemma StageMayBeAsked(log: Log, response: Response, fields: Wire, n: nat)
    requires n < 4 && SessionOf(log) == Some(response) && AskedBinding(log) == Some(fields) && Passed(log) == n
    ensures ClientStep(log, Sent(Checkpoint(CHECKPOINT_ORDER[n], Sha256(response), Some(fields))))
  {
    hide SessionOf, AskedBinding, Passed;
    OrderIsProper(n);
  }

  lemma StageMayBeAnswered(before: Log, log: Log, response: Response, fields: Wire, n: nat)
    requires n < 4 && Position(log) == n + 2 && Acknowledged(log, Sha256(response)) && BoundBinding(log) == Some(fields)
    requires var stage := CHECKPOINT_ORDER[n];
      log == before + [Got(Checkpoint(stage, Sha256(response), Some(fields))), Timed(CheckName(stage)), Verified, Observed,
                       Timed(CheckName(stage))]
    ensures InOrder(log, StageAck(CHECKPOINT_ORDER[n], Sha256(response)))
    ensures Answers(log, StageAck(CHECKPOINT_ORDER[n], Sha256(response)))
  {
    hide Position, Acknowledged, BoundBinding;
    OrderIsProper(n);
    var stage := CHECKPOINT_ORDER[n];
    assert log[|log| - 4..] == [Timed(CheckName(stage)), Verified, Observed, Timed(CheckName(stage))];
  }

  lemma StageMayBeCounted(log: Log, response: Response, n: nat)
    requires n < 4 && Passed(log) == n && SessionOf(log) == Some(response) && |log| >= 2
    requires log[|log| - 1] == Got(StageAck(CHECKPOINT_ORDER[n], Sha256(response)))
    requires log[|log| - 2].Sent? && log[|log| - 2].message.Checkpoint?
    requires log[|log| - 2].message.stage == CHECKPOINT_ORDER[n]
    ensures ClientStep(log, Noted(CHECKPOINT_ORDER[n]))
  {
    hide SessionOf, Passed, AskedBinding;
  }

  lemma StageIsCounted(s: System, stage: Stage) returns (s': System)
    requires Reached(s) && ClientStep(s.client, Noted(stage))
    ensures Reached(s') && s' == s.(client := s.client + [Noted(stage)]) && Passed(s'.client) == Passed(s.client) + 1
    ensures SessionOf(s.client).Some? ==> SessionOf(s'.client) == SessionOf(s.client)
    ensures AskedBinding(s'.client) == AskedBinding(s.client)
  {
    hide ClientStep, Passed, SessionOf, AskedBinding;
    ReachedIsJoined(s);
    ClientLogAppend(s.client, Noted(stage));
    ReachedNext(s, OfClient(Noted(stage)));
    s' := After(s, OfClient(Noted(stage)));
  }

  // Any handoff and any binding can be carried through all four stages.
  lemma CompleteExchange(response: Response, fields: Wire, participant: string, job: string) returns (s: System)
    ensures Standing(s, response, fields, 4) && AckedStages(s.issuer) == Passed(s.client) == 4
  {
    hide Standing;
    s := BindingGoesThrough(response, fields, participant, job);
    for n := 0 to 4
      invariant Standing(s, response, fields, n)
    {
      s := StageGoesThrough(s, response, fields, n);
    }
    StandingFacts(s, response, fields, 4);
  }

  lemma StandingFacts(s: System, response: Response, fields: Wire, n: nat)
    requires Standing(s, response, fields, n)
    ensures AckedStages(s.issuer) == Passed(s.client) == n
  {
  }

  lemma HandoffGoesThrough(response: Response) returns (s: System)
    ensures Reached(s) && s.toIssuer == [] && s.toClient == []
    ensures s.client == [Sent(Claim(response.request)), Got(Handoff(response)), Sent(HandoffAck(Sha256(response)))]
    ensures SessionOf(s.client) == Some(response) && Passed(s.client) == 0 && AskedBinding(s.client).None?
    ensures Acknowledged(s.issuer, Sha256(response)) && Position(s.issuer) == 1
  {
    hide IssuerLog, ClientLog, BoundBinding, Reached, Acknowledged;
    var digest := Sha256(response);
    StartReached();
    var s1 := IssuerNotes(START, Timed("admission"));
    var s2 := ClientSays(s1, Claim(response.request));
    var s3 := IssuerNotes(s2, Verified);
    var s4 := IssuerNotes(s3, Timed("pre_spawn"));
    assert s4.issuer == [Timed("admission"), Got(Claim(response.request)), Verified, Timed("pre_spawn")];
    var s5 := IssuerSays(s4, Handoff(response));
    var s6 := ClientSays(s5, HandoffAck(digest));
    var s7 := IssuerNotes(s6, Timed("pre_spawn"));
    s := IssuerNotes(s7, Verified);
    SettledHere(s.issuer, |s.issuer| - 3, digest);
  }

  lemma StartReached()
    ensures Reached(START)
  {
    assert Exchanged([], START);
  }

  lemma BindingGoesThrough(response: Response, fields: Wire, participant: string, job: string) returns (s: System)
    ensures Standing(s, response, fields, 0)
  {
    hide Reached, Acknowledged, Position, BoundBinding, Passed, AskedBinding, SessionOf, ClientStep, InOrder, Answers;
    var digest, bind := Sha256(response), BindFrame(Sha256(response), fields, participant, job);
    var s1 := HandoffGoesThrough(response);
    BindMayBeAsked(s1.client, response, bind);
    var s2 := ClientSays(s1, bind);
    var s3 := IssuerNotes(s2, Observed);
    var s4 := IssuerNotes(s3, Verified);
    assert s4.issuer == s1.issuer + [Got(bind), Observed, Verified];
    StillAcknowledged(s1.issuer, [Got(bind), Observed, Verified], digest);
    BindMayBeAnswered(s1.issuer, s4.issuer, bind);
    RequestLetsRead(s1.client, bind);
    s := IssuerSays(s4, StageAck(Bound, digest));
    AcknowledgedStays(s4.issuer, Sent(StageAck(Bound, digest)), digest);
    BoundHere(s4.issuer, bind, digest);
  }

  lemma BindMayBeAsked(log: Log, response: Response, bind: Message)
    requires SessionOf(log) == Some(response) && AskedBinding(log).None?
    requires bind.BindFrame? && bind.digest == Sha256(response)
    ensures ClientStep(log, Sent(bind))
  {
    hide SessionOf, AskedBinding, Passed;
  }

  lemma BindMayBeAnswered(before: Log, log: Log, bind: Message)
    requires bind.BindFrame? && log == before + [Got(bind), Observed, Verified]
    requires Position(log) == 1 && Acknowledged(log, bind.digest)
    ensures InOrder(log, StageAck(Bound, bind.digest)) && Answers(log, StageAck(Bound, bind.digest))
  {
    hide Position, Acknowledged, BoundBinding;
    assert log[|log| - 2..] == [Observed, Verified];
  }

  lemma BoundHere(log: Log, bind: Message, digest: Digest<Response>)
    requires bind.BindFrame? && |log| >= 3 && log[|log| - 3] == Got(bind)
    ensures BoundBinding(log + [Sent(StageAck(Bound, digest))]) == Some(bind.fields)
  {
    var n := |log|;
    var more := log + [Sent(StageAck(Bound, digest))];
    assert |more| - 1 == n && more[n] == Sent(StageAck(Bound, digest)) && more[n - 3] == log[n - 3];
  }
}
