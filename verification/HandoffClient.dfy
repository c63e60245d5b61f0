// The client's half of the handoff: a request that opens a session, and the
// session object that its owning thread drives stage by stage.
module HandoffClient {
  import opened Commons
  import opened LocalTime
  import opened Numerals
  import H = Handoff

  datatype Binding = Binding(
    issuerSid: string, workerSid: string, scratchSid: string, participantPid: nat,
    participantCreation: nat, intentId: string, generation: int, leaseSha: string)

  // The creation time goes out as decimal text.
  function OnWire(b: Binding): H.Wire {
    H.Wire(b.issuerSid, b.workerSid, b.scratchSid, b.participantPid, Decimal(b.participantCreation),
           b.intentId, b.generation, b.leaseSha)
  }

  // What leaves the client identifies the binding completely.
  lemma OnWireIsInjective(a: Binding, b: Binding)
    requires OnWire(a) == OnWire(b)
    ensures a == b
  {
    ValueOfDecimal(a.participantCreation);
    ValueOfDecimal(b.participantCreation);
  }

  const SYSTEM := "S-1-5-18"

  // n dashes between 32-bit numerals.
  predicate Parts(s: string, n: nat)
    decreases n
  {
    if n == 0 then Numeral(s) && Value(s) < 0x1_0000_0000
    else exists k :: 0 <= k < |s| && s[k] == '-' && Parts(s[..k], 0) && Parts(s[k + 1..], n - 1)
  }

  predicate AccountSid(sid: string) {
    "S-1-5-21-" <= sid && Parts(sid[9..], 3)
  }

  // A process as its operator pinned it: its account, and its id and creation.
  datatype Pin = Pin(sid: string, process: string)

  // What a request must look like before anything is connected.
  predicate Requestable(intent: Intent, issuer: Pin, client: Pin, request: H.Request,
                        workerSid: string, scratchSid: string) {
    && issuer.sid == SYSTEM && AccountSid(client.sid)
    && request.intentId != "" && request.leaseId != "" && IsSha256(request.leaseSha) && request.generation >= 1
    && 0 < request.deadline < TWO_64 && request.target != ""
    && (request.workerSid, request.scratchSid) == (workerSid, scratchSid)
    && AccountSid(workerSid) && AccountSid(scratchSid) && workerSid != scratchSid
    && client.sid != workerSid && client.sid != scratchSid
    && (intent.intentId, intent.generation, intent.leaseSha)
       == (request.intentId, request.generation, request.leaseSha)
    && (intent.anchor.processId, intent.anchor.boot, intent.deadline)
       == (client.process, request.boot, request.deadline)
  }

  // The handoff repeats the request and names the two pinned processes.
  predicate Matches(response: H.Response, issuer: Pin, client: Pin, request: H.Request) {
    && response.request == request && response.decision != ""
    && (response.issuer, response.client) == (issuer.process, client.process)
  }

  datatype Outcome = Refused | Lost | Opened(session: HandoffSession)

  // Claim, handoff, acknowledgement. Before the pipe is connected a failure
  // leaves the deadline alone; after that it latches it.
  method RequestSourceHandoff(deadline: LocalDeadline, issuer: Pin, client: Pin, request: H.Request,
                              workerSid: string, scratchSid: string, thread: nat, reply: Option<H.Message>)
    returns (outcome: Outcome, ghost log: H.Log)
    requires deadline.Valid()
    modifies deadline
    ensures deadline.Valid() && H.ClientLog(log)
    ensures !Requestable(deadline.intent, issuer, client, request, workerSid, scratchSid) ==> outcome.Refused?
    ensures outcome.Refused? ==> log == [] && deadline.Fields() == old(deadline.Fields())
    ensures outcome.Lost? ==> deadline.hold.Some?
    ensures log in {[], [H.Sent(H.Claim(request))]}
         || (reply.Some? && log == [H.Sent(H.Claim(request)), H.Got(reply.value)])
         || outcome.Opened?
    ensures outcome.Opened? ==>
      && var session := outcome.session;
      && fresh(session) && session.Valid() && session.log == log && session.deadline == deadline
      && session.owner == thread && (session.workerSid, session.scratchSid) == (workerSid, scratchSid)
      && session.next == 0 && session.binding.None? && !session.closed
      && Matches(session.response, issuer, client, request) && reply == Some(H.Handoff(session.response))
      && log == [H.Sent(H.Claim(request)), H.Got(H.Handoff(session.response)), H.Sent(H.HandoffAck(session.Digest()))]
      && deadline.Fields() == old(deadline.Fields())
  {
    hide Requestable;
    log := [];
    var ok := Attempt();
    if !Requestable(deadline.intent, issuer, client, request, workerSid, scratchSid) || !ok {
      return Refused, log;
    }
    ok := Attempt();
    if ok {
      H.ClientLogAppend(log, H.Sent(H.Claim(request)));
      log := log + [H.Sent(H.Claim(request))];
      ok := reply.Some?;
    }
    if ok {
      H.ClientLogAppend(log, H.Got(reply.value));
      log := log + [H.Got(reply.value)];
      ok := Attempt();
    }
    ok := ok && reply.value.Handoff? && Matches(reply.value.response, issuer, client, request);
    if ok {
      // The acknowledgement itself may fail to go out.
      ok := Attempt();
    }
    if ok {
      var response := reply.value.response;
      H.ClientLogAppend(log, H.Sent(H.HandoffAck(Sha256(response))));
      log := log + [H.Sent(H.HandoffAck(Sha256(response)))];
      var session := new HandoffSession(deadline, response, thread, workerSid, scratchSid, log);
      return Opened(session), log;
    }
    deadline.Invalidate("HOLD_HANDOFF_SESSION_LOST");
    outcome := Lost;
  }

  class HandoffSession {
    const deadline: LocalDeadline
    const response: H.Response
    const owner: nat
    const workerSid: string
    const scratchSid: string
    var next: nat
    var binding: Option<Binding>
    var handles: Option<(int, int)>
    var closed: bool
    ghost var log: H.Log

    ghost predicate Valid()
      reads this, deadline
    {
      Engaged() && (!closed && binding.None? ==> H.AskedBinding(log).None?)
    }

    ghost predicate Engaged()
      reads this, deadline
    {
      && deadline.Valid() && H.ClientLog(log) && H.SessionOf(log) == Some(response)
      && H.Passed(log) == next <= 4
      && (binding.Some? ==> H.AskedBinding(log) == Some(OnWire(binding.value)))
      && (binding.Some? <==> handles.Some?)
      && (next > 0 ==> binding.Some?) && (next == 4 ==> closed)
      && (closed && next < 4 ==> deadline.hold.Some?)
    }

    function Digest(): Digest<H.Response> {
      Sha256(response)
    }

    constructor (deadline: LocalDeadline, response: H.Response, owner: nat, workerSid: string, scratchSid: string,
                 ghost log: H.Log)
      requires deadline.Valid() && H.ClientLog(log)
      requires H.SessionOf(log) == Some(response) && H.Passed(log) == 0 && H.AskedBinding(log).None?
      ensures Valid() && this.deadline == deadline && this.response == response && this.owner == owner
      ensures this.workerSid == workerSid && this.scratchSid == scratchSid
      ensures !closed && next == 0 && binding.None? && this.log == log
    {
      this.deadline, this.response, this.owner := deadline, response, owner;
      this.workerSid, this.scratchSid := workerSid, scratchSid;
      next, binding, handles, closed := 0, None, None, false;
      this.log := log;
    }

    // ---- Steps with an outcome of their own ----

    method Observe() returns (ok: bool)
      requires Engaged()
      modifies deadline
      ensures Engaged() && ok == deadline.hold.None?
      ensures ok ==> old(deadline.hold).None?
    {
      ok := CheckDeadline();
      if ok { ok := Attempt(); }
      if ok { ok := CheckDeadline(); }
      if !ok { deadline.Invalidate("HOLD_WRITER_OR_JOB_CONTINUITY_LOST"); }
    }

    method CheckDeadline() returns (ok: bool)
      requires Engaged()
      modifies deadline
      ensures Engaged() && ok == deadline.hold.None?
      ensures ok ==> old(deadline.hold).None?
    {
      var reading: Reading := *;
      var r := deadline.Check("watchdog", deadline.intent, reading);
      ok := r.Ok?;
    }

    ghost method Append(e: H.Event)
      requires H.ClientLog(log) && H.ClientStep(log, e) && H.SessionOf(log).Some?
      modifies this`log
      ensures H.ClientLog(log) && log == old(log) + [e] && H.SessionOf(log) == H.SessionOf(old(log))
      ensures H.Passed(log) == H.Passed(old(log)) + if e.Noted? then 1 else 0
      ensures H.AskedBinding(log) == if e.Sent? && e.message.BindFrame? then Some(e.message.fields)
                                     else H.AskedBinding(old(log))
    {
      H.ClientLogAppend(log, e);
      log := log + [e];
    }

    // What a request adds to the log, however it ends.
    ghost predicate Talked(before: H.Log, m: H.Message, reply: Option<H.Message>, log: H.Log) {
      || log == before || log == before + [H.Sent(m)]
      || (reply.Some? && log == before + [H.Sent(m), H.Got(reply.value)])
    }

    // One request on the pipe, and the frame that comes back, if any.
    method Ask(m: H.Message, want: H.Message, reply: Option<H.Message>) returns (ok: bool)
      requires Engaged() && H.ClientStep(log, H.Sent(m)) && (m.Checkpoint? || m.BindFrame?)
      modifies this`log
      ensures Engaged() && (!m.BindFrame? ==> H.AskedBinding(log) == H.AskedBinding(old(log)))
      ensures ok ==> log == old(log) + [H.Sent(m), H.Got(want)]
      ensures ok && m.BindFrame? ==> H.AskedBinding(log) == Some(m.fields)
      ensures Talked(old(log), m, reply, log)
    {
      hide H.ClientLog, H.ClientStep, H.SessionOf, H.AskedBinding, H.Passed, H.InSession, OnWire;
      H.RequestLetsRead(log, m);
      ok := Attempt();
      if !ok { return; }
      Append(H.Sent(m));
      if reply.None? { return false; }
      Append(H.Got(reply.value));
      ok := reply.value == want;
    }

    // Identity and boot checks, the inspection when handles are involved, the
    // exchange, and the boot check again.
    method Exchange(inspect: bool, m: H.Message, want: H.Message, reply: Option<H.Message>) returns (ok: bool)
      requires Engaged() && H.ClientStep(log, H.Sent(m)) && (m.Checkpoint? || m.BindFrame?)
      modifies this`log, deadline
      ensures Engaged() && (!m.BindFrame? ==> H.AskedBinding(log) == H.AskedBinding(old(log)))
      ensures ok ==> log == old(log) + [H.Sent(m), H.Got(want)]
      ensures ok && inspect ==> deadline.hold.None? && old(deadline.hold).None?
      ensures ok && m.BindFrame? ==> H.AskedBinding(log) == Some(m.fields)
      ensures Talked(old(log), m, reply, log)
    {
      hide H.ClientLog, H.ClientStep, H.SessionOf, H.AskedBinding, H.Passed, OnWire;
      ok := Attempt();
      if !ok { return; }
      if inspect {
        ok := Observe();
        if !ok { return; }
      }
      ok := Ask(m, want, reply);
      if !ok { return; }
      ok := Attempt();
    }

    // ---- The session ----

    // Closing early latches the deadline; another thread can only latch it.
    method Close(thread: nat) returns (ok: bool)
      requires Engaged() && (thread != owner ==> Valid())
      modifies this`closed, deadline
      ensures Valid() && ok == (thread == owner)
      ensures closed == (old(closed) || ok)
      ensures !ok ==> deadline.hold.Some?
      ensures old(deadline.hold).Some? ==> deadline.hold == old(deadline.hold)
    {
      if thread != owner {
        deadline.Invalidate("HOLD_HANDOFF_SESSION_THREAD_CHANGED");
        return false;
      }
      if !closed {
        if next < 4 {
          deadline.Invalidate("HOLD_HANDOFF_SESSION_LOST");
        }
        closed := true;
      }
      ok := true;
    }

    // Never moves the session on; a failure ends it.
    method PreSpawnWatchdog(thread: nat, reply: Option<H.Message>) returns (ok: bool)
      requires Valid()
      modifies this`closed, this`log, deadline
      ensures Valid() && next == old(next) && binding == old(binding)
      ensures ok ==> thread == owner && !old(closed) && old(binding).None? && !closed
      ensures ok ==> log == old(log) + [H.Sent(H.Checkpoint(H.PreSpawn, Digest(), None)),
                                        H.Got(H.StageAck(H.PreSpawn, Digest()))]
      ensures !ok && next < 4 ==> deadline.hold.Some?
      ensures !ok && thread == owner ==> closed
      ensures Talked(old(log), H.Checkpoint(H.PreSpawn, Digest(), None), reply, log)
    {
      hide H.ClientLog, OnWire, ParseNativeHandle, Decimal;
      if thread != owner || closed || binding.Some? {
        var _ := Close(thread);
        return false;
      }
      ok := Exchange(false, H.Checkpoint(H.PreSpawn, Digest(), None), H.StageAck(H.PreSpawn, Digest()), reply);
      if !ok { var _ := Close(thread); }
    }

    function HandleText(handle: int): string {
      if handle < 0 then "" else Decimal(handle)
    }

    predicate NativeHandle(handle: int) {
      handle >= 0 && ParseNativeHandle(Decimal(handle), TWO_64).Some?
    }

    predicate FixedBinding(b: Binding) {
      && (b.issuerSid, b.workerSid, b.scratchSid) == (SYSTEM, workerSid, scratchSid)
      && (b.intentId, b.generation, b.leaseSha)
         == (response.request.intentId, response.request.generation, response.request.leaseSha)
    }

    method Bind(thread: nat, b: Binding, participant: int, job: int, reply: Option<H.Message>) returns (ok: bool)
      requires Valid()
      modifies this`closed, this`binding, this`handles, this`log, deadline
      ensures Valid() && next == old(next)
      ensures ok ==> thread == owner && !old(closed) && old(binding).None? && FixedBinding(b)
                     && old(deadline.hold).None? && !closed
      ensures ok ==> binding == Some(b) && handles == Some((participant, job))
      ensures ok ==> NativeHandle(participant) && NativeHandle(job)
      ensures ok ==> log == old(log) + [
        H.Sent(H.BindFrame(Digest(), OnWire(b), HandleText(participant), HandleText(job))),
        H.Got(H.StageAck(H.Bound, Digest()))]
      ensures !ok ==> binding == old(binding) && handles == old(handles)
      ensures !ok && next < 4 ==> deadline.hold.Some?
      ensures !ok && thread == owner ==> closed
      ensures Talked(old(log), H.BindFrame(Digest(), OnWire(b), HandleText(participant), HandleText(job)), reply, log)
    {
      hide H.ClientLog, OnWire, ParseNativeHandle, Decimal;
      if thread != owner || closed || binding.Some? {
        var _ := Close(thread);
        return false;
      }
      ok := FixedBinding(b) && NativeHandle(participant) && NativeHandle(job);
      if ok {
        ok := Exchange(true, H.BindFrame(Digest(), OnWire(b), HandleText(participant), HandleText(job)),
                       H.StageAck(H.Bound, Digest()), reply);
      }
      if ok {
        binding, handles := Some(b), Some((participant, job));
      } else {
        var _ := Close(thread);
      }
    }

    function CheckpointFrame(stage: H.Stage): H.Message
      requires binding.Some?
      reads this`binding
    {
      H.Checkpoint(stage, Digest(), Some(OnWire(binding.value)))
    }

    // The only way forward: the next stage, on the bound handles, acknowledged.
    method Checkpoint(thread: nat, stage: H.Stage, participant: int, job: int, reply: Option<H.Message>)
      returns (ok: bool)
      requires Valid()
      modifies this`closed, this`next, this`log, deadline
      ensures Valid() && binding == old(binding)
      ensures ok ==> thread == owner && !old(closed) && old(binding).Some? && old(deadline.hold).None?
                     && handles == Some((participant, job)) && old(next) < 4
      ensures ok ==> next == old(next) + (if stage == H.Watchdog then 0 else 1)
                     && (stage == H.Watchdog || stage == H.CHECKPOINT_ORDER[old(next)])
      ensures ok ==> log == old(log)
                        + [H.Sent(CheckpointFrame(stage)), H.Got(H.StageAck(stage, Digest()))]
                        + if stage == H.Watchdog then [] else [H.Noted(stage)]
      ensures ok ==> closed == (next == 4)
      ensures !ok ==> next == old(next)
      ensures !ok && next < 4 ==> deadline.hold.Some?
      ensures !ok && thread == owner ==> closed
      ensures !ok && binding.None? ==> log == old(log)
      ensures !ok && binding.Some? ==> Talked(old(log), CheckpointFrame(stage), reply, log)
    {
      hide H.ClientLog, OnWire, ParseNativeHandle, Decimal;
      if thread != owner {
        deadline.Invalidate("HOLD_HANDOFF_SESSION_THREAD_CHANGED");
        return false;
      }
      if closed || binding.None? || handles != Some((participant, job)) || next >= 4
         || (stage != H.Watchdog && stage != H.CHECKPOINT_ORDER[next])
      {
        var _ := Close(thread);
        return false;
      }
      ok := Request(stage, reply);
      if ok {
        Advance(stage);
      } else {
        var _ := Close(thread);
      }
    }

    method Request(stage: H.Stage, reply: Option<H.Message>) returns (ok: bool)
      requires Engaged() && binding.Some? && next < 4
      requires stage == H.Watchdog || stage == H.CHECKPOINT_ORDER[next]
      modifies this`log, deadline
      ensures Engaged() && H.AskedBinding(log) == H.AskedBinding(old(log))
      ensures ok ==> deadline.hold.None? && old(deadline.hold).None?
      ensures ok ==> log == old(log) + [H.Sent(CheckpointFrame(stage)), H.Got(H.StageAck(stage, Digest()))]
      ensures Talked(old(log), CheckpointFrame(stage), reply, log)
    {
      hide H.ClientLog, H.SessionOf, H.AskedBinding, H.Passed, OnWire;
      ok := Exchange(true, CheckpointFrame(stage), H.StageAck(stage, Digest()), reply);
    }

    method Advance(stage: H.Stage)
      requires Valid() && binding.Some? && next < 4 && !closed
      requires stage == H.Watchdog || stage == H.CHECKPOINT_ORDER[next]
      requires |log| >= 2 && log[|log| - 1] == H.Got(H.StageAck(stage, Digest()))
      requires log[|log| - 2].Sent? && log[|log| - 2].message.Checkpoint? && log[|log| - 2].message.stage == stage
      modifies this`closed, this`next, this`log
      ensures Valid() && log == old(log) + if stage == H.Watchdog then [] else [H.Noted(stage)]
      ensures next == old(next) + (if stage == H.Watchdog then 0 else 1)
      ensures closed == (next == 4)
    {
      hide H.ClientLog, H.Passed, H.AskedBinding, H.SessionOf;
      if stage != H.Watchdog {
        assert H.CHECKPOINT_ORDER[next] == H.DagAck <==> next == 3;
        Append(H.Noted(stage));
        next := next + 1;
        if stage == H.DagAck { closed := true; }
      }
    }
  }
}
