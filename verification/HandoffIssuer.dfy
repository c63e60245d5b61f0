// The issuer's half of the handoff: one claim, then frames from the client in
// whatever order and number the client sends them.
module HandoffIssuer {
  import opened Commons
  import opened LocalTime
  import opened Numerals
  import H = Handoff

  class WindowsIssuer {
    const deadline: LocalDeadline
    const leaseId: string
    const serializedSha: string
    // The WRITE items the lease bytes declare, and the one that was retained.
    const writers: seq<string>
    const target: string
    const decision: string
    const issuerSid: string
    const issuerPin: string
    const clientPin: string
    const workerSid: string
    const scratchSid: string
    ghost var log: H.Log

    ghost predicate Valid()
      reads this, deadline
    {
      && deadline.Valid() && H.IssuerLog(log) && (log != [] ==> deadline.consumed)
      && (H.Position(log) > 0 ==> Retained())
      && (forall i :: 0 <= i < |log| && log[i].Sent? && log[i].message.Handoff? ==> log[i].message.response == TheResponse())
    }

    // The lease bytes are the retained ones and declare the one target.
    predicate Retained() {
      serializedSha == deadline.intent.leaseSha && writers == [target]
    }

    constructor (deadline: LocalDeadline, leaseId: string, serializedSha: string, writers: seq<string>,
                 target: string, decision: string, issuerSid: string, issuerPin: string, clientPin: string,
                 workerSid: string, scratchSid: string)
      requires deadline.Valid()
      ensures Valid() && this.deadline == deadline && log == []
    {
      this.deadline, this.leaseId, this.serializedSha := deadline, leaseId, serializedSha;
      this.writers, this.target, this.decision := writers, target, decision;
      this.issuerSid, this.issuerPin, this.clientPin := issuerSid, issuerPin, clientPin;
      this.workerSid, this.scratchSid, log := workerSid, scratchSid, [];
    }

    function ExpectedRequest(): H.Request {
      var intent := deadline.intent;
      H.Request(intent.intentId, intent.generation, leaseId, intent.leaseSha, intent.anchor.boot,
                intent.deadline, target, workerSid, scratchSid)
    }

    function TheResponse(): H.Response {
      H.Response(ExpectedRequest(), decision, issuerPin, clientPin)
    }

    function HandoffDigest(): Digest<H.Response> {
      Sha256(TheResponse())
    }

    // The binding repeats the retained identities and names one live process.
    predicate FixedBinding(fields: H.Wire) {
      && 0 < fields.participantPid < 0x1_0000_0000
      && ParseInterruptDeadline(fields.creation).Some?
      && (fields.issuerSid, fields.workerSid, fields.scratchSid) == (issuerSid, workerSid, scratchSid)
      && (fields.intentId, fields.generation, fields.leaseSha)
         == (deadline.intent.intentId, deadline.intent.generation, deadline.intent.leaseSha)
    }

    // ---- Steps with an outcome of their own ----

    ghost method Append(e: H.Event)
      requires Valid() && deadline.consumed
      requires e.Sent? ==> H.InOrder(log, e.message) && H.Answers(log, e.message) && Retained()
      requires e.Sent? && e.message.Handoff? ==> e.message.response == TheResponse()
      modifies this`log
      ensures Valid() && log == old(log) + [e]
      ensures H.Position(log) == H.Position(old(log)) + if H.Spine(e) then 1 else 0
      ensures !(e.Sent? && e.message.StageAck? && e.message.stage == H.Bound) ==>
        H.BoundBinding(log) == H.BoundBinding(old(log))
      ensures H.Acknowledged(old(log), HandoffDigest()) ==> H.Acknowledged(log, HandoffDigest())
      ensures H.Gots(log) == H.Gots(old(log)) + if e.Got? then [e.message] else []
    {
      hide H.IssuerLog, H.InOrder, H.Answers, H.Position, H.BoundBinding, H.Acknowledged, H.Gots;
      H.IssuerLogAppend(log, e);
      H.CountedAppend(log, e);
      if H.Acknowledged(log, HandoffDigest()) { H.AcknowledgedStays(log, e, HandoffDigest()); }
      log := log + [e];
    }

    // The clock answers anything at all.
    method CheckDeadline(name: string) returns (ok: bool)
      requires Valid() && deadline.consumed
      modifies deadline
      ensures Valid() && deadline.consumed && ok == deadline.hold.None?
      ensures ok ==> old(deadline.hold).None?
    {
      var reading: Reading := *;
      var r := deadline.Check(name, deadline.intent, reading);
      ok := r.Ok?;
    }

    method Time(name: string) returns (ok: bool)
      requires Valid() && deadline.consumed
      modifies deadline, this`log
      ensures Valid() && deadline.consumed && ok == deadline.hold.None?
      ensures H.Position(log) == H.Position(old(log)) && H.BoundBinding(log) == H.BoundBinding(old(log))
      ensures ok ==> log == old(log) + [H.Timed(name)]
      ensures !ok ==> log == old(log)
      ensures H.Acknowledged(old(log), HandoffDigest()) ==> H.Acknowledged(log, HandoffDigest())
      ensures H.Gots(log) == H.Gots(old(log))
    {
      ok := CheckDeadline(name);
      if ok { Append(H.Timed(name)); }
    }

    // Protected custody: its own two deadline checks around the evidence, and
    // the deadline is invalidated when anything fails.
    method Verify() returns (ok: bool)
      requires Valid() && deadline.consumed
      modifies deadline, this`log
      ensures Valid() && deadline.consumed && ok == deadline.hold.None?
      ensures H.Position(log) == H.Position(old(log)) && H.BoundBinding(log) == H.BoundBinding(old(log))
      ensures ok ==> log == old(log) + [H.Verified]
      ensures !ok ==> log == old(log)
      ensures H.Acknowledged(old(log), HandoffDigest()) ==> H.Acknowledged(log, HandoffDigest())
      ensures H.Gots(log) == H.Gots(old(log))
    {
      ok := CheckDeadline("admission");
      if ok { ok := Attempt(); }
      if ok { ok := CheckDeadline("pre_spawn"); }
      if !ok {
        deadline.Invalidate("HOLD_CUSTODY_CONTINUITY_LOST");
        return;
      }
      Append(H.Verified);
    }

    // The participant and its Job, through retained query handles.
    method Observe() returns (ok: bool)
      requires Valid() && deadline.consumed
      modifies deadline, this`log
      ensures Valid() && deadline.consumed && ok == deadline.hold.None?
      ensures H.Position(log) == H.Position(old(log)) && H.BoundBinding(log) == H.BoundBinding(old(log))
      ensures ok ==> log == old(log) + [H.Observed]
      ensures !ok ==> log == old(log)
      ensures H.Acknowledged(old(log), HandoffDigest()) ==> H.Acknowledged(log, HandoffDigest())
      ensures H.Gots(log) == H.Gots(old(log))
    {
      ok := CheckDeadline("watchdog");
      if ok { ok := Attempt(); }
      if ok { ok := CheckDeadline("watchdog"); }
      if !ok {
        deadline.Invalidate("HOLD_WRITER_OR_JOB_CONTINUITY_LOST");
        return;
      }
      Append(H.Observed);
    }

    // The next frame of the peer, who may also fall silent.
    method Read(frames: seq<H.Message>) returns (ok: bool, m: H.Message, rest: seq<H.Message>)
      requires Valid() && deadline.consumed
      modifies this`log
      ensures Valid()
      ensures H.Position(log) == H.Position(old(log)) && H.BoundBinding(log) == H.BoundBinding(old(log))
      ensures ok ==> log == old(log) + [H.Got(m)] && |rest| < |frames|
      ensures !ok ==> log == old(log)
      ensures H.Acknowledged(old(log), HandoffDigest()) ==> H.Acknowledged(log, HandoffDigest())
      ensures H.Gots(log) + rest == H.Gots(old(log)) + frames
    {
      m, rest := H.Other, frames;
      ok := Attempt();
      ok := ok && frames != [];
      if ok {
        m, rest := frames[0], frames[1..];
        Append(H.Got(m));
      }
    }

    method Write(m: H.Message) returns (ok: bool)
      requires Valid() && deadline.consumed && H.InOrder(log, m) && H.Answers(log, m) && Retained()
      requires m.Handoff? ==> m.response == TheResponse()
      modifies this`log
      ensures Valid()
      ensures ok ==> log == old(log) + [H.Sent(m)]
      ensures !ok ==> log == old(log)
      ensures H.Position(log) == H.Position(old(log)) + if ok && H.Spine(H.Sent(m)) then 1 else 0
      ensures !(m.StageAck? && m.stage == H.Bound) ==> H.BoundBinding(log) == H.BoundBinding(old(log))
      ensures H.Acknowledged(old(log), HandoffDigest()) ==> H.Acknowledged(log, HandoffDigest())
      ensures H.Gots(log) == H.Gots(old(log))
    {
      ok := Attempt();
      if ok { Append(H.Sent(m)); }
    }

    // ---- The claim ----

    // One attempt: it either acknowledges everything and the deadline is still
    // good, or latches the deadline. A second attempt changes nothing.
    method ClaimOnce(frames: seq<H.Message>) returns (ok: bool)
      requires Valid()
      modifies deadline, this`log
      ensures Valid() && deadline.consumed
      ensures old(deadline.consumed) ==> !ok && log == old(log) && deadline.Fields() == old(deadline.Fields())
      ensures !old(deadline.consumed) ==> (ok <==> deadline.hold.None?)
      ensures ok ==> H.AckedStages(log) == 4
      ensures !old(deadline.consumed) ==> H.Gots(log) <= frames
    {
      var first := deadline.ConsumeIssuerClaim();
      if !first { return false; }
      ok := Exchange(frames);
      if !ok { deadline.Invalidate("HOLD_ISSUER_CLAIM_FAILED"); }
    }

    method Exchange(frames: seq<H.Message>) returns (ok: bool)
      requires Valid() && log == [] && deadline.consumed
      modifies deadline, this`log
      ensures Valid() && deadline.consumed
      ensures ok ==> H.AckedStages(log) == 4 && deadline.hold.None?
      ensures H.Gots(log) <= frames
    {
      hide H.IssuerLog, H.BoundBinding, H.Acknowledged;
      var rest, fields;
      assert H.Gots(log) + frames == frames;
      ok, rest := HandOver(frames);
      if !ok { return; }
      ok, rest, fields := AcceptBinding(rest);
      if !ok { return; }
      ok := Stages(rest, fields);
      if !ok { return; }
      // The peer is checked once more when the pipe is given up.
      ok := Attempt();
    }

    // The claim is compared, verified and answered; then the answer's own
    // acknowledgement is awaited.
    method HandOver(frames: seq<H.Message>) returns (ok: bool, rest: seq<H.Message>)
      requires Valid() && log == [] && H.Position(log) == 0 && deadline.consumed
      modifies deadline, this`log
      ensures Valid() && deadline.consumed
      ensures ok ==> deadline.hold.None? && H.Position(log) == 1 && H.Acknowledged(log, HandoffDigest())
      ensures H.Gots(log) + rest == H.Gots(old(log)) + frames
    {
      hide H.IssuerLog, H.Position, H.BoundBinding, H.Acknowledged;
      ok, rest := AnswerClaim(frames);
      if !ok { return; }
      var m;
      ok, m, rest := Read(rest);
      if !ok { return; }
      if m != H.HandoffAck(HandoffDigest()) { return false, rest; }
      ghost var n := |log| - 1;
      assert log[n] == H.Got(m);
      ok := Time("pre_spawn");
      if !ok { return; }
      ok := Verify();
      if ok { H.SettledHere(log, n, HandoffDigest()); }
    }

    method AnswerClaim(frames: seq<H.Message>) returns (ok: bool, rest: seq<H.Message>)
      requires Valid() && log == [] && H.Position(log) == 0 && deadline.consumed
      modifies deadline, this`log
      ensures Valid() && deadline.consumed
      ensures ok ==> deadline.hold.None? && H.Position(log) == 1
      ensures H.Gots(log) + rest == H.Gots(old(log)) + frames
    {
      hide H.IssuerLog, H.Position, H.BoundBinding, H.Acknowledged, H.Gots;
      rest := frames;
      ok := Attempt();
      if !ok { return; }
      if serializedSha != deadline.intent.leaseSha { return false, rest; }
      ok := Time("admission");
      if !ok { return; }
      ok := Attempt();
      if !ok { return; }
      var m;
      ok, m, rest := Read(rest);
      if !ok { return; }
      if m != H.Claim(ExpectedRequest()) { return false, rest; }
      ok := Verify();
      if !ok { return; }
      if writers != [target] { return false, rest; }
      ok := Time("pre_spawn");
      if !ok { return; }
      assert log == [H.Timed("admission"), H.Got(m), H.Verified, H.Timed("pre_spawn")];
      ok := Write(H.Handoff(TheResponse()));
    }

    // Heartbeats while the participant is being created, then one bind frame.
    method AcceptBinding(frames: seq<H.Message>) returns (ok: bool, rest: seq<H.Message>, fields: H.Wire)
      requires Valid() && deadline.consumed && deadline.hold.None?
      requires H.Position(log) == 1 && H.Acknowledged(log, HandoffDigest())
      modifies deadline, this`log
      ensures Valid() && deadline.consumed
      ensures ok ==> deadline.hold.None? && H.Position(log) == 2 && H.Acknowledged(log, HandoffDigest())
      ensures ok ==> FixedBinding(fields) && H.BoundBinding(log) == Some(fields)
      ensures H.Gots(log) + rest == H.Gots(old(log)) + frames
    {
      var digest := HandoffDigest();
      fields := H.Wire("", "", "", 0, "", "", 0, "");
      var m;
      ok, m, rest := Read(frames);
      while ok && m == H.Checkpoint(H.PreSpawn, digest, None)
        invariant Valid() && deadline.consumed && H.Position(log) == 1 && H.Acknowledged(log, digest)
        invariant H.Gots(log) + rest == H.Gots(old(log)) + frames
        invariant ok ==> deadline.hold.None? && log != [] && log[|log| - 1] == H.Got(m)
        decreases ok, |rest|
      {
        ok := AnswerHeartbeat(m);
        if !ok { return; }
        ok, m, rest := Read(rest);
      }
      if !ok { return; }
      if !m.BindFrame? { return false, rest, fields; }
      fields := m.fields;
      ok := AnswerBind(m);
    }

    method AnswerHeartbeat(m: H.Message) returns (ok: bool)
      requires Valid() && deadline.consumed && deadline.hold.None?
      requires H.Position(log) == 1 && H.Acknowledged(log, HandoffDigest())
      requires m == H.Checkpoint(H.PreSpawn, HandoffDigest(), None) && log != [] && log[|log| - 1] == H.Got(m)
      modifies deadline, this`log
      ensures Valid() && deadline.consumed
      ensures ok ==> deadline.hold.None? && H.Position(log) == 1 && H.Acknowledged(log, HandoffDigest())
      ensures H.Gots(log) == H.Gots(old(log))
    {
      hide H.IssuerLog, H.Position, H.BoundBinding;
      ok := Time("watchdog");
      if !ok { return; }
      ok := Verify();
      if !ok { return; }
      assert log[|log| - 3..] == [H.Got(m), H.Timed("watchdog"), H.Verified];
      ok := Write(H.StageAck(H.PreSpawn, HandoffDigest()));
    }

    method AnswerBind(m: H.Message) returns (ok: bool)
      requires Valid() && deadline.consumed && deadline.hold.None?
      requires H.Position(log) == 1 && H.Acknowledged(log, HandoffDigest())
      requires m.BindFrame? && log != [] && log[|log| - 1] == H.Got(m)
      modifies deadline, this`log
      ensures Valid() && deadline.consumed
      ensures ok ==> deadline.hold.None? && H.Position(log) == 2 && H.Acknowledged(log, HandoffDigest())
      ensures ok ==> FixedBinding(m.fields) && H.BoundBinding(log) == Some(m.fields)
      ensures H.Gots(log) == H.Gots(old(log))
    {
      hide H.IssuerLog, ParseInterruptDeadline, ParseNativeHandle, H.Position;
      if m.digest != HandoffDigest() || !FixedBinding(m.fields) { return false; }
      if ParseNativeHandle(m.participant, TWO_64).None? || ParseNativeHandle(m.job, TWO_64).None? {
        return false;
      }
      ok := Attempt();
      if !ok { return; }
      ok := Observe();
      if !ok { return; }
      ok := Verify();
      if !ok { return; }
      ok := AcknowledgeBind(m, old(log));
    }

    method AcknowledgeBind(m: H.Message, ghost asked: H.Log) returns (ok: bool)
      requires Valid() && deadline.consumed && deadline.hold.None? && Retained()
      requires H.Position(log) == 1 && H.Acknowledged(log, HandoffDigest())
      requires m.BindFrame? && m.digest == HandoffDigest() && asked != [] && asked[|asked| - 1] == H.Got(m)
      requires log == asked + [H.Observed, H.Verified]
      modifies this`log
      ensures Valid() && H.Gots(log) == H.Gots(old(log))
      ensures ok ==> H.Position(log) == 2 && H.Acknowledged(log, HandoffDigest())
                     && H.BoundBinding(log) == Some(m.fields)
    {
      hide H.IssuerLog, H.Position, H.Acknowledged, H.Gots, H.BoundBinding;
      ghost var before := log;
      assert before[|before| - 3..] == [H.Got(m), H.Observed, H.Verified];
      ok := Write(H.StageAck(H.Bound, HandoffDigest()));
      if ok { H.BoundHere(before, m, HandoffDigest()); }
    }

    // The four stages in order, each with any number of watchdogs before it.
    method Stages(frames: seq<H.Message>, fields: H.Wire) returns (ok: bool)
      requires Valid() && deadline.consumed && deadline.hold.None?
      requires H.Position(log) == 2 && H.Acknowledged(log, HandoffDigest())
      requires H.BoundBinding(log) == Some(fields)
      modifies deadline, this`log
      ensures Valid() && deadline.consumed
      ensures ok ==> deadline.hold.None? && H.Position(log) == 6
      ensures H.Gots(log) <= H.Gots(old(log)) + frames
    {
      var rest := frames;
      for n := 0 to 4
        invariant Valid() && deadline.consumed && deadline.hold.None?
        invariant H.Position(log) == n + 2 && H.Acknowledged(log, HandoffDigest())
        invariant H.BoundBinding(log) == Some(fields) && H.Gots(log) + rest == H.Gots(old(log)) + frames
      {
        ok, rest := OneStage(rest, fields, n);
        if !ok { return; }
      }
      ok := true;
    }

    method OneStage(frames: seq<H.Message>, fields: H.Wire, n: nat) returns (ok: bool, rest: seq<H.Message>)
      requires Valid() && deadline.consumed && deadline.hold.None? && n < 4
      requires H.Position(log) == n + 2 && H.Acknowledged(log, HandoffDigest())
      requires H.BoundBinding(log) == Some(fields)
      modifies deadline, this`log
      ensures Valid() && deadline.consumed
      ensures ok ==> deadline.hold.None? && H.Position(log) == n + 3 && H.Acknowledged(log, HandoffDigest())
      ensures ok ==> H.BoundBinding(log) == Some(fields)
      ensures H.Gots(log) + rest == H.Gots(old(log)) + frames
    {
      var digest, stage := HandoffDigest(), H.CHECKPOINT_ORDER[n];
      rest := frames;
      while true
        invariant Valid() && deadline.consumed && deadline.hold.None?
        invariant H.Position(log) == n + 2 && H.Acknowledged(log, digest)
        invariant H.BoundBinding(log) == Some(fields) && H.Gots(log) + rest == H.Gots(old(log)) + frames
        decreases |rest|
      {
        var m;
        ok, m, rest := Read(rest);
        if !ok { return; }
        var checked := stage;
        if m == H.Checkpoint(H.Watchdog, digest, Some(fields)) {
          checked := H.Watchdog;
        } else if m != H.Checkpoint(stage, digest, Some(fields)) {
          return false, rest;
        }
        ok := AnswerCheckpoint(m, checked, n);
        if !ok { return; }
        if checked == stage { return; }
      }
    }

    method AnswerCheckpoint(m: H.Message, checked: H.Stage, n: nat) returns (ok: bool)
      requires Valid() && deadline.consumed && deadline.hold.None? && n < 4
      requires H.Position(log) == n + 2 && H.Acknowledged(log, HandoffDigest())
      requires checked == H.Watchdog || checked == H.CHECKPOINT_ORDER[n]
      requires m.Checkpoint? && m.stage == checked && m.digest == HandoffDigest()
      requires m.binding.Some? && m.binding == H.BoundBinding(log)
      requires log != [] && log[|log| - 1] == H.Got(m)
      modifies deadline, this`log
      ensures Valid() && deadline.consumed
      ensures ok ==> deadline.hold.None? && H.Acknowledged(log, HandoffDigest())
      ensures ok ==> H.Position(log) == n + if checked == H.Watchdog then 2 else 3
      ensures ok ==> H.BoundBinding(log) == H.BoundBinding(old(log))
      ensures H.Gots(log) == H.Gots(old(log))
    {
      hide H.IssuerLog, H.Position, H.BoundBinding, H.Gots, H.Acknowledged;
      var name := H.CheckName(checked);
      ok := Time(name);
      if !ok { return; }
      ok := Verify();
      if !ok { return; }
      ok := Observe();
      if !ok { return; }
      ok := Time(name);
      if !ok { return; }
      ghost var before := log;
      assert before == old(log) + [H.Timed(name), H.Verified, H.Observed, H.Timed(name)];
      ok := Write(H.StageAck(checked, HandoffDigest()));
      assert ok ==> log[..|log| - 1] == before;
    }
  }
}
