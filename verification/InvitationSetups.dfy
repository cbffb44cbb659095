/** What a write of an invitation that lands presents, and what it leaves, field by field; and that an invitation which is
    issued, delivered, claimed and finalized in turn goes through. */
module InvitationSetups {
  import opened Basics
  import opened Invitations

  /** The caller's write is let through. */
  ghost predicate Succeeds(s: Sys, id: nat)
  {
    id in s.actors && s.actors[id].pc.Writing? && Step(s, Write(id)).actors[id].pc == Done(true)
  }

  /** Whose invitation it is and when it ends never changes, and under a finalization about to write the expiry column is
      that of the invitation. */
  ghost predicate Columns(row: Row, s: Sys)
  {
    && s.row.envelope.invitation.identity == row.envelope.invitation.identity
    && s.row.envelope.invitation.expiresAt == row.envelope.invitation.expiresAt
    && forall id :: id in s.actors && s.actors[id].op.Finalize? && s.actors[id].pc.Writing? ==>
         s.row.expiresAt == s.row.envelope.invitation.expiresAt
  }

  lemma LandedWriteColumns(op: Operation, row: Row, seen: Envelope)
    requires StillThere(op, row, seen) && exists token, expiresAt :: MayWrite(op, Invitations.Row(seen, token, expiresAt))
    ensures var next := Written(op, row, seen);
            && next.envelope.invitation.identity == row.envelope.invitation.identity
            && next.envelope.invitation.expiresAt == row.envelope.invitation.expiresAt
            && (next.expiresAt == row.expiresAt || next.expiresAt == row.envelope.invitation.expiresAt)
  {
  }

  lemma ColumnsStep(row: Row, s: Sys, e: Event)
    requires Invariant(s) && Columns(row, s)
    ensures Columns(row, Step(s, e))
  {
    hide RowOk, Written, StillThere;
    if !e.Call? && e.id in s.actors {
      var a := s.actors[e.id];
      assert ActorOk(a);
      if e.Write? && a.pc.Writing? && StillThere(a.op, s.row, a.pc.seen) {
        LandedWriteColumns(a.op, s.row, a.pc.seen);
      }
    }
  }

  lemma {:induction false} ColumnsHold(row: Row, events: seq<Event>)
    requires Fresh(row)
    ensures Columns(row, ExecFrom(Start(row), events)) && Invariant(ExecFrom(Start(row), events))
  {
    hide Step, Invariant, Columns;
    StartIsOk(row);
    RunKeeps(Start(row), events);
    if events == [] {
      assert Columns(row, Start(row)) by { StartColumns(row); }
    } else {
      var init := events[..|events| - 1];
      ColumnsHold(row, init);
      ColumnsStep(row, ExecFrom(Start(row), init), events[|events| - 1]);
    }
  }

  lemma StartColumns(row: Row)
    ensures Columns(row, Start(row))
  {
  }

  /** In every run, a finalization that lands presents the token the row holds at that moment, the identity and the expiry
      of the invitation, which are those it had from the start, and finds it accepted and not used. It records the use,
      forgets the credential and changes nothing else. */
  lemma LandedFinalization(row: Row, events: seq<Event>, id: nat)
    requires Fresh(row)
    requires var s := ExecFrom(Start(row), events); Succeeds(s, id) && s.actors[id].op.Finalize?
    ensures var s := ExecFrom(Start(row), events);
            var claim := s.actors[id].op.claim;
            var invitation := s.row.envelope.invitation;
            && claim.token == s.row.token
            && claim.identity == invitation.identity == row.envelope.invitation.identity
            && claim.expiresAt == s.row.expiresAt == invitation.expiresAt == row.envelope.invitation.expiresAt
            && invitation.status == Accepted && s.row.envelope.usedAt == None
            && Step(s, Write(id)).row ==
                 Invitations.Row(Envelope(invitation, None, None, Some(s.actors[id].op.at)), claim.token, s.row.expiresAt)
  {
    hide ExecFrom, RowOk;
    ColumnsHold(row, events);
    var s := ExecFrom(Start(row), events);
    assert ActorOk(s.actors[id]);
  }

  /** In every run, what each other write needs and leaves when it lands. A claim on an open invitation accepts it under
      the credential presented; on an accepted one it only turns an older digest of that very credential into a hash. */
  lemma LandedWrites(row: Row, events: seq<Event>, id: nat)
    requires Fresh(row)
    requires var s := ExecFrom(Start(row), events); Succeeds(s, id)
    ensures var s := ExecFrom(Start(row), events);
            var e := s.row.envelope;
            var i := e.invitation;
            var t := Step(s, Write(id)).row;
            match s.actors[id].op
            case Deliver(at) =>
              && i.status == Pending
              && t == Invitations.Row(
                        Envelope(Invitation(i.identity, Delivered, i.expiresAt, Some(at), i.acceptedAt, at), e.hash, e.digest, e.usedAt),
                        s.row.token, i.expiresAt)
            case Revoke(at) =>
              t == Invitations.Row(
                     Envelope(Invitation(i.identity, Revoked, i.expiresAt, i.deliveredAt, i.acceptedAt, at), e.hash, e.digest, e.usedAt),
                     s.row.token, i.expiresAt)
            case Claim(credential, at, salt) =>
              && (i.status == Pending || i.status == Delivered ==>
                    t == Invitations.Row(
                           Envelope(Invitation(i.identity, Accepted, i.expiresAt, i.deliveredAt, Some(at), at),
                                    Some(Hash(credential, salt)), None, e.usedAt),
                           s.row.token, i.expiresAt))
              && (i.status == Accepted ==>
                    && e.hash == None && e.digest == Some(Digest(credential))
                    && t == Invitations.Row(Envelope(i, Some(Hash(credential, salt)), None, e.usedAt), s.row.token, s.row.expiresAt))
              && i.status != Revoked
            case Issue(identity, expiresAt, token) =>
              && i.status == Pending && e.usedAt == None && e.digest == None
              && i.identity == identity && i.expiresAt == expiresAt
              && t == Invitations.Row(e, Digest(token), expiresAt)
            case Finalize(_, _) => t.envelope.usedAt.Some?
  {
    hide ExecFrom, RowOk;
    StartIsOk(row);
    RunKeeps(Start(row), events);
    var s := ExecFrom(Start(row), events);
    assert ActorOk(s.actors[id]);
    var token, expiresAt :| MayWrite(s.actors[id].op, Invitations.Row(s.actors[id].pc.seen, token, expiresAt));
  }

  // ---------------------------------------------------------------------------------------------
  // One after the other
  // ---------------------------------------------------------------------------------------------

  /** A call that nobody interrupts. */
  function InTurn(s: Sys, id: nat, op: Operation): Sys
  {
    Step(Step(Step(s, Call(id, op)), Read(id)), Write(id))
  }

  /** An undisturbed finalization goes through exactly when it presents the row's token, identity and expiry, and the
      invitation is accepted and not used. */
  lemma FinalizesExactly(s: Sys, id: nat, claim: SetupClaim, at: int)
    requires id !in s.actors
    ensures var t := InTurn(s, id, Finalize(claim, at));
            var e := s.row.envelope;
            && id in t.actors
            && (t.actors[id].pc == Done(true) <==>
                  && claim == SetupClaim(e.invitation.identity, s.row.token, s.row.expiresAt)
                  && e.invitation.expiresAt == s.row.expiresAt && e.invitation.status == Accepted && e.usedAt == None
                  && !(e.hash.Some? && e.digest.Some?))
            && (t.actors[id].pc != Done(true) ==> t.row == s.row && t.log == s.log)
  {
  }

  /** An undisturbed revocation revokes exactly an invitation that is still open. */
  lemma RevokesExactly(s: Sys, id: nat, at: int)
    requires id !in s.actors && Parses(s.row.envelope)
    ensures var i := s.row.envelope.invitation;
            var t := Step(Step(Step(Step(s, Call(id, Revoke(at))), List(id)), Read(id)), Write(id));
            && id in t.actors && t.log == s.log
            && (t.actors[id].pc == Done(true) <==> i.status == Pending || i.status == Delivered)
            && (t.actors[id].pc == Done(true) ==> t.row.envelope.invitation.status == Revoked)
            && (t.actors[id].pc != Done(true) ==> t.row == s.row)
  {
  }

  lemma IssuesInTurn(s: Sys, id: nat, token: string)
    requires id !in s.actors && s.row.envelope.invitation.status == Pending
    requires s.row.envelope.usedAt == None && s.row.envelope.digest == None
    ensures var i := s.row.envelope.invitation;
            var t := InTurn(s, id, Issue(i.identity, i.expiresAt, token));
            && t.row == Invitations.Row(s.row.envelope, Digest(token), i.expiresAt)
            && t.log == s.log && t.actors.Keys == s.actors.Keys + {id}
  {
  }

  lemma DeliversInTurn(s: Sys, id: nat, at: int)
    requires id !in s.actors && s.row.envelope.invitation.status == Pending && s.row.envelope.digest == None
    ensures var i := s.row.envelope.invitation;
            var t := InTurn(s, id, Deliver(at));
            && t.row == Invitations.Row(
                          s.row.envelope.(invitation := Invitation(i.identity, Delivered, i.expiresAt, Some(at), i.acceptedAt, at)),
                          s.row.token, i.expiresAt)
            && t.log == s.log && t.actors.Keys == s.actors.Keys + {id}
  {
  }

  lemma ClaimsInTurn(s: Sys, id: nat, credential: string, at: int, salt: nat)
    requires id !in s.actors && Open(s.row.envelope) && Parses(s.row.envelope)
    ensures var i := s.row.envelope.invitation;
            var t := InTurn(s, id, Claim(credential, at, salt));
            && t.row == Invitations.Row(
                          Envelope(Invitation(i.identity, Accepted, i.expiresAt, i.deliveredAt, Some(at), at),
                                   Some(Hash(credential, salt)), None, s.row.envelope.usedAt),
                          s.row.token, i.expiresAt)
            && t.log == s.log + [Claimed(credential)] && t.actors.Keys == s.actors.Keys + {id}
  {
  }

  /** Issued, delivered, claimed and finalized with the token issued, a pending invitation ends accepted and used, by the
      one credential claimed. */
  lemma InvitationGoesThrough(row: Row, token: string, deliveredAt: int, credential: string, salt: nat, acceptedAt: int, usedAt: int)
    requires Fresh(row) && row.envelope.invitation.status == Pending && row.envelope.digest == None
    ensures var i := row.envelope.invitation;
            var issued := InTurn(Start(row), 0, Issue(i.identity, i.expiresAt, token));
            var delivered := InTurn(issued, 1, Deliver(deliveredAt));
            var claimed := InTurn(delivered, 2, Claim(credential, acceptedAt, salt));
            var t := InTurn(claimed, 3, Finalize(SetupClaim(i.identity, Digest(token), i.expiresAt), usedAt));
            && t.log == [Claimed(credential), Finalized]
            && t.row == Invitations.Row(
                          Envelope(Invitation(i.identity, Accepted, i.expiresAt, Some(deliveredAt), Some(acceptedAt), acceptedAt),
                                   None, None, Some(usedAt)),
                          Digest(token), i.expiresAt)
  {
    hide InTurn;
    var i := row.envelope.invitation;
    IssuesInTurn(Start(row), 0, token);
    var issued := InTurn(Start(row), 0, Issue(i.identity, i.expiresAt, token));
    DeliversInTurn(issued, 1, deliveredAt);
    var delivered := InTurn(issued, 1, Deliver(deliveredAt));
    ClaimsInTurn(delivered, 2, credential, acceptedAt, salt);
    var claimed := InTurn(delivered, 2, Claim(credential, acceptedAt, salt));
    FinalizesInTurn(claimed, 3, SetupClaim(i.identity, Digest(token), i.expiresAt), usedAt);
  }

  lemma FinalizesInTurn(s: Sys, id: nat, claim: SetupClaim, at: int)
    requires id !in s.actors && Parses(s.row.envelope)
    requires claim == SetupClaim(s.row.envelope.invitation.identity, s.row.token, s.row.expiresAt)
    requires s.row.envelope.invitation.expiresAt == s.row.expiresAt
    requires s.row.envelope.invitation.status == Accepted && s.row.envelope.usedAt == None
    ensures var t := InTurn(s, id, Finalize(claim, at));
            && t.row == Invitations.Row(Envelope(s.row.envelope.invitation, None, None, Some(at)), s.row.token, s.row.expiresAt)
            && t.log == s.log + [Finalized]
  {
  }
}
