// The issuer object and the client's session object at the two ends of one pipe.
module HandoffPair {
  import opened Commons
  import opened HandoffIssuer
  import opened HandoffClient
  import H = Handoff

  // Whatever the two have done so far over the channels between them: the session
  // is the one this issuer granted, the stages they count differ by at most one,
  // and any stage counted was answered on the very binding of the session.
  lemma PartiesAgree(s: H.System, issuer: WindowsIssuer, session: HandoffSession)
    requires H.Reached(s) && s.issuer == issuer.log && s.client == session.log
    requires issuer.Valid() && session.Valid()
    ensures session.response == issuer.TheResponse() && issuer.Retained()
    ensures 0 <= H.AckedStages(issuer.log) - session.next <= 1
    ensures session.next > 0 ==>
      session.binding.Some? && H.BoundBinding(issuer.log) == Some(OnWire(session.binding.value))
  {
    hide H.IssuerLog, H.ClientLog, H.Position, H.BoundBinding, H.AskedBinding, H.Passed, H.Reached, OnWire;
    H.SessionsAgree(s, session.Digest());
    var m := H.Sent(H.Handoff(session.response));
    var i :| 0 <= i < |issuer.log| && issuer.log[i] == m;
    H.PositionGrows(issuer.log, i);
    H.Lockstep(s);
    if session.next > 0 { H.BindingsAgree(s); }
  }
}
